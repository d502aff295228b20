/**
 * Account keys (account type code, account name, broker id) and their
 * ordering: lexicographic on the three fields, with strings compared
 * character by character.
 */
module AcctKeys {

  datatype AcctKey = AcctKey(acctType: int, acct: string, broker: nat)

  /**
   * An account type as the protocol defines it: an enum code, compared
   * numerically in keys, and its name, from which the quote mode is read.
   */
  datatype AcctType = AcctType(code: int, name: string)

  /** Lexicographic string order, a proper prefix coming first. */
  predicate StrLess(a: string, b: string)
    decreases |a|
  {
    if a == [] then b != []
    else if b == [] then false
    else a[0] < b[0] || (a[0] == b[0] && StrLess(a[1..], b[1..]))
  }

  lemma {:induction false} StrLessIrreflexive(a: string)
    ensures !StrLess(a, a)
    decreases |a|
  {
    if a != [] {
      StrLessIrreflexive(a[1..]);
    }
  }

  lemma {:induction false} StrLessTransitive(a: string, b: string, c: string)
    requires StrLess(a, b) && StrLess(b, c)
    ensures StrLess(a, c)
    decreases |a|
  {
    if a != [] && b != [] && c != [] && a[0] == b[0] && b[0] == c[0] {
      StrLessTransitive(a[1..], b[1..], c[1..]);
    }
  }

  lemma {:induction false} StrLessTotal(a: string, b: string)
    ensures StrLess(a, b) || StrLess(b, a) || a == b
    decreases |a|
  {
    if a != [] && b != [] && a[0] == b[0] {
      StrLessTotal(a[1..], b[1..]);
      if a[1..] == b[1..] {
        assert a == [a[0]] + a[1..] && b == [b[0]] + b[1..];
      }
    }
  }

  /** The key order of the source: account type, then account, then broker. */
  function Less(a: AcctKey, b: AcctKey): (r: bool)
    ensures r ==> a.acctType <= b.acctType
    ensures a.acctType < b.acctType ==> r
    ensures a.acctType == b.acctType && a.acct != b.acct ==> (r <==> StrLess(a.acct, b.acct))
    ensures a.acctType == b.acctType && a.acct == b.acct ==> (r <==> a.broker < b.broker)
  {
    if a.acctType < b.acctType then true
    else if a.acctType == b.acctType then
      StrLessIrreflexive(a.acct);
      if StrLess(a.acct, b.acct) then true
      else if a.acct == b.acct then a.broker < b.broker
      else false
    else false
  }

  /** Equality compares the three fields. */
  function Equal(a: AcctKey, b: AcctKey): (r: bool)
    ensures r <==> a == b
  {
    a.acctType == b.acctType && a.acct == b.acct && a.broker == b.broker
  }

  /** Less is a strict order, and any two keys are comparable (exactly one of <, >, == holds). */
  lemma LessIsStrictTotalOrder(a: AcctKey, b: AcctKey, c: AcctKey)
    ensures !Less(a, a)
    ensures Less(a, b) && Less(b, c) ==> Less(a, c)
    ensures Less(a, b) || Less(b, a) || Equal(a, b)
    ensures !(Less(a, b) && Less(b, a))
    ensures Equal(a, b) ==> !Less(a, b)
  {
    StrLessIrreflexive(a.acct);
    StrLessTotal(a.acct, b.acct);
    if Less(a, b) && Less(b, c) && a.acctType == b.acctType == c.acctType {
      if StrLess(a.acct, b.acct) && StrLess(b.acct, c.acct) {
        StrLessTransitive(a.acct, b.acct, c.acct);
      }
    }
    if StrLess(a.acct, b.acct) && StrLess(b.acct, a.acct) {
      StrLessTransitive(a.acct, b.acct, a.acct);
    }
  }
}
