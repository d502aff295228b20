/**
 * Symbol spellings. A local symbol is "<code>.SH" or "<code>.SZ"; the
 * vendor spelling is "SHSE.<code>" or "SZSE.<code>".
 */
module Symbols {
  import Text

  datatype Exchange = SZSE | SHSE | Undefined

  predicate EndsWith(s: string, suffix: string)
  {
    |suffix| <= |s| && s[|s| - |suffix|..] == suffix
  }

  /** The two-letter exchange code used as a symbol suffix. */
  function ExchangeStrCode(ex: Exchange): (r: string)
    ensures ex == SZSE <==> r == "SZ"
    ensures ex == SHSE <==> r == "SH"
    ensures ex == Undefined <==> r == "Invalid"
  {
    match ex
    case SZSE => "SZ"
    case SHSE => "SH"
    case Undefined => "Invalid"
  }

  /** The exchange of a local symbol, read from its suffix. */
  function ExchangeOf(symbol: string): (ex: Exchange)
    ensures ex == SZSE <==> EndsWith(symbol, "SZ")
    ensures ex == SHSE <==> EndsWith(symbol, "SH")
  {
    if EndsWith(symbol, "SZ") then SZSE
    else if EndsWith(symbol, "SH") then SHSE
    else Undefined
  }

  /** The first n characters, or all of s when it is shorter (std::string::substr(0, n)). */
  function Prefix(s: string, n: nat): (r: string)
    ensures |r| == if |s| < n then |s| else n
    ensures r == s[..|r|]
  {
    if |s| < n then s else s[..n]
  }

  /** "SHSE.c" becomes "c.SH", "SZSE.c" becomes "c.SZ"; anything else becomes "". */
  function ToLocalSymbol(code: string): (r: string)
    ensures Text.StartsWith(code, "SHSE.") ==> r == code[5..] + ".SH"
    ensures Text.StartsWith(code, "SZSE.") ==> r == code[5..] + ".SZ"
    ensures !Text.StartsWith(code, "SHSE.") && !Text.StartsWith(code, "SZSE.") ==> r == ""
  {
    if Prefix(code, 5) == "SHSE." then code[5..] + ".SH"
    else if Prefix(code, 5) == "SZSE." then code[5..] + ".SZ"
    else ""
  }

  /**
   * Conversion agrees with the exchange read back from the suffix: a
   * converted vendor symbol ends in the code of the exchange it named.
   */
  lemma ToLocalSymbolExchange(code: string)
    ensures Text.StartsWith(code, "SHSE.") ==> ExchangeOf(ToLocalSymbol(code)) == SHSE
    ensures Text.StartsWith(code, "SZSE.") ==> ExchangeOf(ToLocalSymbol(code)) == SZSE
  {
    var r := ToLocalSymbol(code);
    if Text.StartsWith(code, "SHSE.") || Text.StartsWith(code, "SZSE.") {
      assert r[|r| - 2..] == r[|r| - 2..|r|];
    }
  }
}
