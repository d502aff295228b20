/**
 * Decimal integer parsing with the semantics of std::stol, std::stoi and
 * std::stoull: leading whitespace is skipped, one optional sign is read,
 * then the longest run of digits; no digit is an invalid-argument error and
 * a value outside the target type is an out-of-range error. Both errors are
 * None here. The get_int helper turns an error into its default.
 */
module Numbers {
  import opened Wrappers
  import Text

  const Pow31: int := 0x8000_0000
  const Pow32: int := 0x1_0000_0000
  const Pow63: int := 0x8000_0000_0000_0000
  const Pow64: int := 0x1_0000_0000_0000_0000

  predicate IsDigit(c: char) { '0' <= c <= '9' }

  function DigitValue(c: char): (d: nat)
    requires IsDigit(c)
    ensures d < 10
  {
    (c as int - '0' as int) as nat
  }

  function DigitChar(d: nat): (c: char)
    requires d < 10
    ensures IsDigit(c) && DigitValue(c) == d
  {
    ('0' as int + d) as char
  }

  /** The value of a digit string read most-significant first. */
  function DigitsValue(ds: string): nat
    requires forall i :: 0 <= i < |ds| ==> IsDigit(ds[i])
  {
    if ds == [] then 0 else 10 * DigitsValue(ds[..|ds| - 1]) + DigitValue(ds[|ds| - 1])
  }

  /** The length of the run of whitespace at the front of s. */
  function SpaceRun(s: string): (n: nat)
    ensures n <= |s|
    ensures forall i :: 0 <= i < n ==> Text.IsSpace(s[i])
    ensures n < |s| ==> !Text.IsSpace(s[n])
  {
    if s != [] && Text.IsSpace(s[0]) then 1 + SpaceRun(s[1..]) else 0
  }

  /** The length of the run of digits at the front of s. */
  function DigitRun(s: string): (n: nat)
    ensures n <= |s|
    ensures forall i :: 0 <= i < n ==> IsDigit(s[i])
    ensures n < |s| ==> !IsDigit(s[n])
  {
    if s != [] && IsDigit(s[0]) then 1 + DigitRun(s[1..]) else 0
  }

  /**
   * The signed decimal value at the front of s, before any range check:
   * None when no digit follows the optional whitespace and sign.
   */
  function ScanInt(s: string): (r: Option<int>)
    ensures r.Some? ==> exists k :: 0 <= k < |s| && IsDigit(s[k])
  {
    var t := s[SpaceRun(s)..];
    var neg := t != [] && t[0] == '-';
    var u := if t != [] && (t[0] == '-' || t[0] == '+') then t[1..] else t;
    var n := DigitRun(u);
    if n == 0 then None
    else
      var k := |s| - |u|;
      assert IsDigit(s[k]);
      var v: int := DigitsValue(u[..n]);
      Some(if neg then -v else v)
  }

  /** std::stol on a 64-bit long. */
  function Stol(s: string): (r: Option<int>)
    ensures r.Some? ==> -Pow63 <= r.value < Pow63
    ensures r.Some? ==> ScanInt(s) == r
    ensures ScanInt(s).Some? && -Pow63 <= ScanInt(s).value < Pow63 ==> r == ScanInt(s)
  {
    match ScanInt(s)
    case None => None
    case Some(v) => if -Pow63 <= v < Pow63 then Some(v) else None
  }

  /** std::stoi: the long must also fit a 32-bit int. */
  function Stoi(s: string): (r: Option<int>)
    ensures r.Some? ==> -Pow31 <= r.value < Pow31 && Stol(s) == r
    ensures Stol(s).Some? && -Pow31 <= Stol(s).value < Pow31 ==> r == Stol(s)
  {
    match Stol(s)
    case None => None
    case Some(v) => if -Pow31 <= v < Pow31 then Some(v) else None
  }

  /**
   * std::stoull: a value of at most 64 bits; a minus sign negates modulo
   * 2^64, as strtoull does.
   */
  function Stoull(s: string): (r: Option<nat>)
    ensures r.Some? ==> r.value < Pow64
    ensures ScanInt(s).Some? && 0 <= ScanInt(s).value < Pow64 ==> r == Some(ScanInt(s).value)
  {
    match ScanInt(s)
    case None => None
    case Some(v) =>
      if v >= 0 then (if v < Pow64 then Some(v) else None)
      else if -v < Pow64 then Some((Pow64 + v) % Pow64) else None
  }

  /** The low 32 bits of v read as a signed int, as narrowing a long does. */
  function Wrap32(v: int): (r: int)
    ensures -Pow31 <= r < Pow31
    ensures (r - v) % Pow32 == 0
    ensures -Pow31 <= v < Pow31 ==> r == v
  {
    var m := v % Pow32;
    if m >= Pow31 then m - Pow32 else m
  }

  /** get_int: stol narrowed to 32 bits, or the default when stol throws. */
  function GetInt(s: string, default: int): (r: int)
    ensures Stol(s).None? ==> r == default
    ensures Stol(s).Some? ==> r == Wrap32(Stol(s).value)
  {
    match Stol(s)
    case None => default
    case Some(v) => Wrap32(v)
  }

  /** The decimal digits of n, without sign or leading zeros. */
  function DecimalString(n: nat): (s: string)
    ensures |s| >= 1
    ensures forall i :: 0 <= i < |s| ==> IsDigit(s[i])
    ensures DigitsValue(s) == n
  {
    if n < 10 then [DigitChar(n)]
    else
      var s := DecimalString(n / 10) + [DigitChar(n % 10)];
      assert s[..|s| - 1] == DecimalString(n / 10);
      s
  }

  /** The printed form of a non-negative long parses back to the same value. */
  lemma {:induction false} StolDecimalString(n: nat)
    requires n < Pow63
    ensures Stol(DecimalString(n)) == Some(n)
  {
    var s := DecimalString(n);
    assert SpaceRun(s) == 0 by {
      assert !Text.IsSpace(s[0]);
    }
    assert s[SpaceRun(s)..] == s;
    DigitRunAll(s);
    assert s[..|s|] == s;
  }

  lemma {:induction false} DigitRunAll(s: string)
    requires forall i :: 0 <= i < |s| ==> IsDigit(s[i])
    ensures DigitRun(s) == |s|
  {
    if s != [] {
      DigitRunAll(s[1..]);
    }
  }
}
