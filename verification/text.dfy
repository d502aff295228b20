/**
 * String helpers of the common layer: splitting on a one-character
 * delimiter with the semantics of repeated std::getline, ASCII case
 * mapping, whitespace trimming and the comma-separated key=value parser.
 */
module Text {
  import opened Wrappers

  /** p is a prefix of s. */
  predicate StartsWith(s: string, p: string)
  {
    |p| <= |s| && s[..|p|] == p
  }

  /** The characters std::isspace accepts in the C locale. */
  predicate IsSpace(c: char)
  {
    c == ' ' || ('\t' <= c <= '\r')
  }

  /** The index of the first occurrence of c in s. */
  function FirstIndex(s: string, c: char): (r: Option<nat>)
    ensures r.None? <==> c !in s
    ensures r.Some? ==> r.value < |s| && s[r.value] == c && c !in s[..r.value]
  {
    if s == [] then None
    else if s[0] == c then Some(0)
    else
      match FirstIndex(s[1..], c)
      case None => None
      case Some(i) =>
        assert s[..i + 1] == [s[0]] + s[1..][..i];
        Some(i + 1)
  }

  /** The first occurrence is the only position holding c with no c before it. */
  lemma FirstIndexIsFirst(s: string, c: char)
    ensures forall pos :: 0 <= pos < |s| && s[pos] == c && c !in s[..pos] ==> FirstIndex(s, c) == Some(pos)
  {
    forall pos | 0 <= pos < |s| && s[pos] == c && c !in s[..pos]
      ensures FirstIndex(s, c) == Some(pos)
    {
      assert c in s by { assert s[pos] in s; }
    }
  }

  /** How many times c occurs in s. */
  function Count(s: string, c: char): nat
  {
    if s == [] then 0 else (if s[0] == c then 1 else 0) + Count(s[1..], c)
  }

  lemma CountAppend(a: string, b: string, c: char)
    ensures Count(a + b, c) == Count(a, c) + Count(b, c)
  {
    if a == [] {
      assert a + b == b;
    } else {
      assert (a + b)[1..] == a[1..] + b;
      CountAppend(a[1..], b, c);
    }
  }

  lemma CountAbsent(s: string, c: char)
    requires c !in s
    ensures Count(s, c) == 0
  {
    if s != [] {
      CountAbsent(s[1..], c);
    }
  }

  /**
   * The tokens that repeated getline calls with delimiter d read from s:
   * every delimiter ends a token, and the text after the last delimiter is
   * a token only if it is not empty.
   */
  function TextSplit(s: string, d: char): (tokens: seq<string>)
    ensures s == [] <==> tokens == []
    ensures forall k :: 0 <= k < |tokens| ==> d !in tokens[k]
    decreases |s|
  {
    if s == [] then []
    else
      match FirstIndex(s, d)
      case None => [s]
      case Some(i) => [s[..i]] + TextSplit(s[i + 1..], d)
  }

  /** The tokens joined back with the delimiter between them. */
  function Join(tokens: seq<string>, d: char): string
  {
    if tokens == [] then []
    else if |tokens| == 1 then tokens[0]
    else tokens[0] + [d] + Join(tokens[1..], d)
  }

  /** Splitting at the first delimiter: it counts once, and nothing before it does. */
  lemma CountAtFirst(s: string, d: char, i: nat)
    requires FirstIndex(s, d) == Some(i)
    ensures s == s[..i] + [d] + s[i + 1..]
    ensures Count(s, d) == 1 + Count(s[i + 1..], d)
  {
    assert s == s[..i] + [d] + s[i + 1..];
    CountAppend(s[..i] + [d], s[i + 1..], d);
    CountAppend(s[..i], [d], d);
    CountAbsent(s[..i], d);
    assert Count([d], d) == 1;
  }

  /**
   * Joining the tokens gives back the input, except for a final delimiter,
   * which produces no token of its own.
   */
  lemma {:induction false} SplitJoin(s: string, d: char)
    ensures s != [] && s[|s| - 1] == d ==> Join(TextSplit(s, d), d) + [d] == s
    ensures s != [] && s[|s| - 1] != d ==> Join(TextSplit(s, d), d) == s
    decreases |s|
  {
    if s != [] && FirstIndex(s, d).Some? {
      var i := FirstIndex(s, d).value;
      var rest := s[i + 1..];
      SplitAtFirst(s, d, i);
      if rest != [] {
        SplitJoin(rest, d);
        JoinCons(s[..i], TextSplit(rest, d), d);
        assert rest[|rest| - 1] == s[|s| - 1];
        if s[|s| - 1] == d {
          ConcatAssoc(s[..i] + [d], Join(TextSplit(rest, d), d), [d]);
        }
      }
    }
  }

  /** The first token ends at the first delimiter, and the rest is split after it. */
  lemma SplitAtFirst(s: string, d: char, i: nat)
    requires s != [] && FirstIndex(s, d) == Some(i)
    ensures s == s[..i] + [d] + s[i + 1..]
    ensures TextSplit(s, d) == [s[..i]] + TextSplit(s[i + 1..], d)
  {
  }

  lemma JoinCons(head: string, tl: seq<string>, d: char)
    requires tl != []
    ensures Join([head] + tl, d) == head + [d] + Join(tl, d)
  {
    assert ([head] + tl)[1..] == tl;
  }

  lemma ConcatAssoc(a: string, b: string, c: string)
    ensures (a + b) + c == a + (b + c)
  {
  }

  /** The token count equals the delimiter count when s ends with the delimiter and is one more otherwise. */
  lemma {:induction false} SplitCount(s: string, d: char)
    ensures s != [] && s[|s| - 1] == d ==> |TextSplit(s, d)| == Count(s, d)
    ensures s != [] && s[|s| - 1] != d ==> |TextSplit(s, d)| == Count(s, d) + 1
    decreases |s|
  {
    if s != [] {
      if FirstIndex(s, d).None? {
        CountAbsent(s, d);
      } else {
        var i := FirstIndex(s, d).value;
        var rest := s[i + 1..];
        CountAtFirst(s, d, i);
        assert |TextSplit(s, d)| == 1 + |TextSplit(rest, d)|;
        if rest != [] {
          SplitCount(rest, d);
          assert rest[|rest| - 1] == s[|s| - 1];
        }
      }
    }
  }

  function LowerChar(c: char): char
  {
    if 'A' <= c <= 'Z' then (c as int + 32) as char else c
  }

  function UpperChar(c: char): char
  {
    if 'a' <= c <= 'z' then (c as int - 32) as char else c
  }

  /** ASCII lower-casing: same length, only the letters A-Z change. */
  function ToLower(s: string): (r: string)
    ensures |r| == |s|
    ensures forall i :: 0 <= i < |s| && !('A' <= s[i] <= 'Z') ==> r[i] == s[i]
    ensures forall i :: 0 <= i < |s| && 'A' <= s[i] <= 'Z' ==> 'a' <= r[i] <= 'z' && r[i] as int == s[i] as int + 32
  {
    seq(|s|, i requires 0 <= i < |s| => LowerChar(s[i]))
  }

  /** ASCII upper-casing: same length, only the letters a-z change. */
  function ToUpper(s: string): (r: string)
    ensures |r| == |s|
    ensures forall i :: 0 <= i < |s| && !('a' <= s[i] <= 'z') ==> r[i] == s[i]
    ensures forall i :: 0 <= i < |s| && 'a' <= s[i] <= 'z' ==> 'A' <= r[i] <= 'Z' && r[i] as int == s[i] as int - 32
  {
    seq(|s|, i requires 0 <= i < |s| => UpperChar(s[i]))
  }

  /** Case mapping forgets the original case: lower after upper is lower. */
  lemma CaseRoundTrip(s: string)
    ensures ToLower(ToUpper(s)) == ToLower(s)
    ensures ToUpper(ToLower(s)) == ToUpper(s)
    ensures ToLower(ToLower(s)) == ToLower(s)
  {
  }

  /** How many whitespace characters open s. */
  function LeadingSpaces(s: string): (n: nat)
    ensures n <= |s|
    ensures forall k :: 0 <= k < n ==> IsSpace(s[k])
    ensures n == |s| || !IsSpace(s[n])
  {
    if s == [] || !IsSpace(s[0]) then 0 else 1 + LeadingSpaces(s[1..])
  }

  /** The end of the text of s[a..e] once its trailing whitespace is cut away. */
  function ContentEnd(s: string, a: nat, e: nat): (r: nat)
    requires a <= e <= |s|
    ensures a <= r <= e
    ensures forall k :: r <= k < e ==> IsSpace(s[k])
    ensures r == a || !IsSpace(s[r - 1])
    decreases e
  {
    if e == a || !IsSpace(s[e - 1]) then e else ContentEnd(s, a, e - 1)
  }

  /**
   * s without its leading and trailing whitespace: a contiguous piece of s
   * that neither starts nor ends with whitespace, everything cut away being
   * whitespace.
   */
  function Trim(s: string): (r: string)
    ensures LeadingSpaces(s) + |r| <= |s|
    ensures r == s[LeadingSpaces(s)..LeadingSpaces(s) + |r|]
    ensures r == [] || (!IsSpace(r[0]) && !IsSpace(r[|r| - 1]))
    ensures forall k :: LeadingSpaces(s) + |r| <= k < |s| ==> IsSpace(s[k])
    ensures (forall k :: 0 <= k < |s| ==> IsSpace(s[k])) <==> r == []
  {
    s[LeadingSpaces(s)..ContentEnd(s, LeadingSpaces(s), |s|)]
  }

  lemma TrimIdempotent(s: string)
    ensures Trim(Trim(s)) == Trim(s)
  {
    var t := Trim(s);
    if t != [] {
      assert LeadingSpaces(t) == 0;
      assert Trim(t)[..] == t[0..|Trim(t)|];
    }
  }

  /** One comma-separated segment as a trimmed (key, value) pair, split at its first '='. */
  function SegmentPair(seg: string): (r: Option<(string, string)>)
    ensures r.None? <==> '=' !in seg
    ensures forall pos :: 0 <= pos < |seg| && seg[pos] == '=' && '=' !in seg[..pos] ==>
              r == Some((Trim(seg[..pos]), Trim(seg[pos + 1..])))
  {
    FirstIndexIsFirst(seg, '=');
    match FirstIndex(seg, '=')
    case None => None
    case Some(pos) => Some((Trim(seg[..pos]), Trim(seg[pos + 1..])))
  }

  /** The map built from the segments in order, later keys overwriting earlier ones. */
  function ParsePairs(segs: seq<string>): map<string, string>
  {
    if segs == [] then map[]
    else
      var m := ParsePairs(segs[..|segs| - 1]);
      match SegmentPair(segs[|segs| - 1])
      case None => m
      case Some(kv) => m[kv.0 := kv.1]
  }

  /** Parses "k1=v1,k2=v2,..." into a map. */
  function ParseStringToMap(input: string): (m: map<string, string>)
    ensures forall k :: k in m <==> SomeSegmentHasKey(TextSplit(input, ','), k)
  {
    var segs := TextSplit(input, ',');
    forall k ensures k in ParsePairs(segs) <==> SomeSegmentHasKey(segs, k)
    {
      ParsePairsKeys(segs, k);
    }
    ParsePairs(segs)
  }

  /** Some segment with an '=' has k as its trimmed key. */
  predicate SomeSegmentHasKey(segs: seq<string>, k: string)
  {
    exists i :: 0 <= i < |segs| && SegmentPair(segs[i]).Some? && SegmentPair(segs[i]).value.0 == k
  }

  /**
   * A key is in the parsed map exactly when some segment with an '=' has it
   * as its trimmed key.
   */
  lemma {:induction false} ParsePairsKeys(segs: seq<string>, k: string)
    ensures k in ParsePairs(segs) <==> SomeSegmentHasKey(segs, k)
  {
    if segs != [] {
      var init := segs[..|segs| - 1];
      ParsePairsKeys(init, k);
      if k in ParsePairs(segs) && k !in ParsePairs(init) {
        var i := |segs| - 1;
        assert SegmentPair(segs[i]).Some? && SegmentPair(segs[i]).value.0 == k;
      }
      if exists i :: 0 <= i < |segs| && SegmentPair(segs[i]).Some? && SegmentPair(segs[i]).value.0 == k {
        var i :| 0 <= i < |segs| && SegmentPair(segs[i]).Some? && SegmentPair(segs[i]).value.0 == k;
        if i < |segs| - 1 {
          assert init[i] == segs[i];
        }
      }
    }
  }

  /**
   * The value stored for a key is the value of the last segment with that
   * key: a later duplicate overrides an earlier one.
   */
  lemma {:induction false} ParsePairsLastWins(segs: seq<string>, i: nat)
    requires i < |segs|
    requires SegmentPair(segs[i]).Some?
    requires forall j :: i < j < |segs| ==>
               SegmentPair(segs[j]).None? || SegmentPair(segs[j]).value.0 != SegmentPair(segs[i]).value.0
    ensures SegmentPair(segs[i]).value.0 in ParsePairs(segs)
    ensures ParsePairs(segs)[SegmentPair(segs[i]).value.0] == SegmentPair(segs[i]).value.1
  {
    if i < |segs| - 1 {
      var init := segs[..|segs| - 1];
      assert init[i] == segs[i];
      ParsePairsLastWins(init, i);
    }
  }

  /** The signed difference b - a in seconds. */
  function SecondsDiff(a: int, b: int): (r: real)
    ensures r * 1000.0 == (b - a) as real
    ensures a <= b <==> r >= 0.0
  {
    (b - a) as real / 1000.0
  }

  lemma SecondsDiffAntisymmetric(a: int, b: int)
    ensures SecondsDiff(a, b) == -SecondsDiff(b, a)
  {
  }
}
