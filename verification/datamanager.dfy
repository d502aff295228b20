/**
 * The stock data manager's lookups over data it has already loaded: the
 * trade calendar (ordered by date), the per-date security table, index
 * membership and the storage key of a symbol. Loading from files is not
 * modelled; the loaded tables are inputs.
 */
module DataManager {
  import opened Wrappers
  import opened Symbols
  import Security

  /** The tag and size hint of an index name; (-1, 0) for any other name. */
  function IndexNameTag(name: string): (r: (int, int))
    ensures name == "hs300" ==> r == (1, 300)
    ensures name == "zz500" ==> r == (2, 500)
    ensures name == "zz1000" ==> r == (4, 1000)
    ensures name != "hs300" && name != "zz500" && name != "zz1000" ==> r == (-1, 0)
  {
    if name == "hs300" then (1, 300)
    else if name == "zz500" then (2, 500)
    else if name == "zz1000" then (4, 1000)
    else (-1, 0)
  }

  /** Distinct known index names have distinct tags, and a positive tag names a known index. */
  lemma IndexTagsDistinct(a: string, b: string)
    requires IndexNameTag(a).0 > 0 && IndexNameTag(a).0 == IndexNameTag(b).0
    ensures a == b
    ensures a in {"hs300", "zz500", "zz1000"}
  {
  }

  /**
   * The storage key of a symbol: "/SZSE" or "/SHSE" followed by its first
   * six characters when it ends in "SZ" or "SH", otherwise "/" and the
   * symbol.
   */
  function SymbolH5Key(symbol: string): (r: string)
    ensures EndsWith(symbol, "SZ") ==> r == "/SZSE" + Prefix(symbol, 6)
    ensures !EndsWith(symbol, "SZ") && EndsWith(symbol, "SH") ==> r == "/SHSE" + Prefix(symbol, 6)
    ensures !EndsWith(symbol, "SZ") && !EndsWith(symbol, "SH") ==> r == "/" + symbol
    ensures |r| >= 1 && r[0] == '/'
  {
    if EndsWith(symbol, "SZ") then "/SZSE" + Prefix(symbol, 6)
    else if EndsWith(symbol, "SH") then "/SHSE" + Prefix(symbol, 6)
    else "/" + symbol
  }

  /** A local symbol "<six digits>.SZ" or "<six digits>.SH". */
  predicate IsLocalSymbol(s: string)
  {
    |s| == 9 && s[6] == '.' && (s[7..] == "SZ" || s[7..] == "SH")
  }

  /** Two local symbols share a storage key only when they are the same symbol. */
  lemma SymbolH5KeyInjective(a: string, b: string)
    requires IsLocalSymbol(a) && IsLocalSymbol(b)
    requires SymbolH5Key(a) == SymbolH5Key(b)
    ensures a == b
  {
    var ka := SymbolH5Key(a);
    assert ka[2] == (if a[7..] == "SZ" then 'Z' else 'H');
    assert SymbolH5Key(b)[2] == (if b[7..] == "SZ" then 'Z' else 'H');
    assert a[7..] == b[7..];
    assert a[..6] == ka[5..] == b[..6];
    assert a == a[..6] + ['.'] + a[7..];
    assert b == b[..6] + ['.'] + b[7..];
  }

  /** One day of the trade calendar; a trading day has trade_date equal to its date, a holiday 0. */
  datatype CalendarDay = CalendarDay(date: int, tradeDate: int, nextTradeDate: int, preTradeDate: int)

  predicate IsTradingDay(d: CalendarDay)
  {
    d.date == d.tradeDate
  }

  /** The calendar as loaded: one day per date, in increasing date order (an ordered map by date). */
  predicate Sorted(cal: seq<CalendarDay>)
  {
    forall i, j :: 0 <= i < j < |cal| ==> cal[i].date < cal[j].date
  }

  /** The position of date d in the calendar, if it is there. */
  function IndexOf(cal: seq<CalendarDay>, d: int): (r: Option<nat>)
    ensures r.Some? ==> r.value < |cal| && cal[r.value].date == d
    ensures r.None? ==> forall i :: 0 <= i < |cal| ==> cal[i].date != d
  {
    if cal == [] then None
    else if cal[|cal| - 1].date == d then Some(|cal| - 1)
    else IndexOf(cal[..|cal| - 1], d)
  }

  /** The next trade date recorded for date d; 0 when d is not in the calendar. */
  function NextTradeDate(cal: seq<CalendarDay>, d: int): (r: int)
    ensures IndexOf(cal, d).None? ==> r == 0
    ensures IndexOf(cal, d).Some? ==> r == cal[IndexOf(cal, d).value].nextTradeDate
  {
    match IndexOf(cal, d)
    case None => 0
    case Some(i) => cal[i].nextTradeDate
  }

  /** The previous trade date recorded for date d; 0 when d is not in the calendar. */
  function PreTradeDate(cal: seq<CalendarDay>, d: int): (r: int)
    ensures IndexOf(cal, d).None? ==> r == 0
    ensures IndexOf(cal, d).Some? ==> r == cal[IndexOf(cal, d).value].preTradeDate
  {
    match IndexOf(cal, d)
    case None => 0
    case Some(i) => cal[i].preTradeDate
  }

  /** In a sorted calendar a date sits at one position only. */
  lemma IndexOfUnique(cal: seq<CalendarDay>, d: int, i: nat)
    requires Sorted(cal) && i < |cal| && cal[i].date == d
    ensures IndexOf(cal, d) == Some(i)
  {
    if cal[|cal| - 1].date != d {
      assert i < |cal| - 1;
      IndexOfUnique(cal[..|cal| - 1], d, i);
    }
  }

  /** The number of trading days in s. */
  function CountTrading(s: seq<CalendarDay>): nat
  {
    if s == [] then 0
    else CountTrading(s[..|s| - 1]) + (if IsTradingDay(s[|s| - 1]) then 1 else 0)
  }

  /**
   * The position the backward walk stops at: starting at position i, step
   * back one day at a time, counting trading days, until n have been
   * counted or the first day is reached.
   */
  function WalkBack(cal: seq<CalendarDay>, i: nat, n: nat): (j: nat)
    requires i < |cal|
    ensures j <= i
  {
    if i == 0 || n == 0 then i
    else if IsTradingDay(cal[i - 1]) then WalkBack(cal, i - 1, n - 1)
    else WalkBack(cal, i - 1, n)
  }

  /**
   * The walk stops on the n-th trading day before position i, counting
   * exactly n trading days in between, unless the calendar runs out first.
   */
  lemma {:induction false} WalkBackCounts(cal: seq<CalendarDay>, i: nat, n: nat)
    requires i < |cal|
    ensures CountTrading(cal[WalkBack(cal, i, n)..i]) <= n
    ensures CountTrading(cal[WalkBack(cal, i, n)..i]) == n || WalkBack(cal, i, n) == 0
    ensures n > 0 && CountTrading(cal[WalkBack(cal, i, n)..i]) == n ==> IsTradingDay(cal[WalkBack(cal, i, n)])
  {
    var j := WalkBack(cal, i, n);
    if i == 0 || n == 0 {
      assert cal[j..i] == [];
    } else {
      var m := if IsTradingDay(cal[i - 1]) then n - 1 else n;
      WalkBackCounts(cal, i - 1, m);
      assert j == WalkBack(cal, i - 1, m);
      assert cal[j..i][..|cal[j..i]| - 1] == cal[j..i - 1];
      assert cal[j..i][|cal[j..i]| - 1] == cal[i - 1];
      if j == i - 1 && IsTradingDay(cal[i - 1]) {
        assert cal[j..i - 1] == [];
      }
    }
  }

  /**
   * The trade date n trading days before end: walk back from end's
   * position; the day reached answers with its trade date when it is a
   * trading day, otherwise with its previous trade date; 19700101 when end
   * is not in the calendar.
   */
  method PreTradeDateN(cal: seq<CalendarDay>, end: int, n: nat) returns (r: int)
    ensures IndexOf(cal, end).None? ==> r == 19700101
    ensures IndexOf(cal, end).Some? ==>
              var j := WalkBack(cal, IndexOf(cal, end).value, n);
              r == (if IsTradingDay(cal[j]) then cal[j].tradeDate else cal[j].preTradeDate)
  {
    var found := IndexOf(cal, end);
    if found.None? {
      return 19700101;
    }
    var i := found.value;
    var count := 0;
    while i > 0 && count < n
      invariant 0 <= i < |cal|
      invariant count <= n
      invariant WalkBack(cal, i, n - count) == WalkBack(cal, found.value, n)
    {
      i := i - 1;
      if IsTradingDay(cal[i]) {
        count := count + 1;
      }
    }
    r := if IsTradingDay(cal[i]) then cal[i].tradeDate else cal[i].preTradeDate;
  }

  /** Day d is a trading day of the calendar. */
  predicate HasTradingDay(cal: seq<CalendarDay>, d: int)
  {
    exists i :: 0 <= i < |cal| && cal[i].date == d && IsTradingDay(cal[i])
  }

  /** The trading days of the calendar from begin to end inclusive, in increasing order (a std::set). */
  function TradeDateInts(cal: seq<CalendarDay>, begin: int, end: int): (r: seq<int>)
    requires Sorted(cal)
    ensures forall i, j :: 0 <= i < j < |r| ==> r[i] < r[j]
    ensures forall x :: x in r <==> begin <= x <= end && HasTradingDay(cal, x)
  {
    if cal == [] then []
    else
      var init := cal[..|cal| - 1];
      var last := cal[|cal| - 1];
      var rest := TradeDateInts(init, begin, end);
      assert forall x :: x in rest ==> HasTradingDay(init, x);
      assert cal == init + [last];
      InitBelowLast(init, last);
      HasTradingDaySnoc(init, last);
      if begin <= last.date <= end && IsTradingDay(last) then
        assert forall i :: 0 <= i < |rest| ==> rest[i] in rest;
        rest + [last.tradeDate]
      else rest
  }

  /** Every trading day of a sorted calendar's prefix lies before its last day. */
  lemma InitBelowLast(init: seq<CalendarDay>, last: CalendarDay)
    requires Sorted(init + [last])
    ensures forall x :: HasTradingDay(init, x) ==> x < last.date
  {
    var cal := init + [last];
    forall x | HasTradingDay(init, x) ensures x < last.date {
      var i :| 0 <= i < |init| && init[i].date == x && IsTradingDay(init[i]);
      assert cal[i] == init[i] && cal[|init|] == last;
    }
  }

  /** A trading day of a calendar is one of its prefix or its last day. */
  lemma HasTradingDaySnoc(init: seq<CalendarDay>, last: CalendarDay)
    ensures forall x :: HasTradingDay(init + [last], x) <==> HasTradingDay(init, x) || (last.date == x && IsTradingDay(last))
  {
    var cal := init + [last];
    assert cal[|init|] == last;
    forall x ensures HasTradingDay(cal, x) ==> HasTradingDay(init, x) || (last.date == x && IsTradingDay(last)) {
      if HasTradingDay(cal, x) {
        var i :| 0 <= i < |cal| && cal[i].date == x && IsTradingDay(cal[i]);
        if i < |init| {
          assert init[i] == cal[i];
        }
      }
    }
    forall x ensures HasTradingDay(init, x) ==> HasTradingDay(cal, x) {
      if HasTradingDay(init, x) {
        var i :| 0 <= i < |init| && init[i].date == x && IsTradingDay(init[i]);
        assert cal[i] == init[i];
      }
    }
  }

  /** The trading days of two adjacent ranges are those of the joined range. */
  lemma {:induction false} TradeDateIntsSplit(cal: seq<CalendarDay>, begin: int, mid: int, end: int)
    requires Sorted(cal) && begin <= mid < end
    ensures TradeDateInts(cal, begin, end) == TradeDateInts(cal, begin, mid) + TradeDateInts(cal, mid + 1, end)
  {
    if cal != [] {
      var init := cal[..|cal| - 1];
      TradeDateIntsSplit(init, begin, mid, end);
      var b := TradeDateInts(init, mid + 1, end);
      if b != [] {
        var last := cal[|cal| - 1];
        assert b[0] in b;
        if begin <= last.date <= mid && IsTradingDay(last) {
          assert false;
        }
      }
    }
  }

  /**
   * The members of an index on a date, from that date's security table
   * (absent records skipped): the three index names select their tag;
   * "other" selects stocks (type 1) in none of the three indexes; any other
   * name selects nothing.
   */
  function IndexConstituents(infos: map<string, Option<Security.SecurityInfo>>, name: string): (r: set<string>)
    ensures name !in {"hs300", "zz500", "zz1000", "other"} ==> r == {}
    ensures name in {"hs300", "zz500", "zz1000"} ==>
              forall s :: s in r <==> s in infos && infos[s].Some? && infos[s].value.belongIndex == IndexNameTag(name).0
    ensures name == "other" ==>
              forall s :: s in r <==> s in infos && infos[s].Some? && infos[s].value.securityType == 1
                                      && infos[s].value.belongIndex !in {1, 2, 4}
  {
    var tag := if name == "other" then -9 else IndexNameTag(name).0;
    if name !in {"hs300", "zz500", "zz1000", "other"} then {}
    else
      set s | s in infos && infos[s].Some?
                && (if tag > 0 then infos[s].value.belongIndex == tag
                    else infos[s].value.securityType == 1 && infos[s].value.belongIndex !in {1, 2, 4})
  }

  /** A security belongs to at most one of the index pools. */
  lemma ConstituentsDisjoint(infos: map<string, Option<Security.SecurityInfo>>, a: string, b: string, s: string)
    requires a != b
    ensures !(s in IndexConstituents(infos, a) && s in IndexConstituents(infos, b))
  {
  }

  /** The entries of a security table whose security type is in types. */
  function BlockInfoByType(infos: map<string, Security.SecurityInfo>, types: set<int>): (r: map<string, Security.SecurityInfo>)
    ensures forall s :: s in r <==> s in infos && infos[s].securityType in types
    ensures forall s :: s in r ==> r[s] == infos[s]
  {
    map s | s in infos && infos[s].securityType in types :: infos[s]
  }

  /** Filtering by two type sets in turn is filtering by their intersection. */
  lemma BlockInfoByTypeCompose(infos: map<string, Security.SecurityInfo>, a: set<int>, b: set<int>)
    ensures BlockInfoByType(BlockInfoByType(infos, a), b) == BlockInfoByType(infos, a * b)
  {
    var l := BlockInfoByType(BlockInfoByType(infos, a), b);
    var r := BlockInfoByType(infos, a * b);
    assert l.Keys == r.Keys;
  }

  /** The entries of a security table whose record names a symbol of the requested set, under their own keys. */
  function SecurityInfoBatch(infos: map<string, Security.SecurityInfo>, symbols: set<string>): (r: map<string, Security.SecurityInfo>)
    ensures forall s :: s in r <==> s in infos && infos[s].symbol in symbols
    ensures forall s :: s in r ==> r[s] == infos[s]
  {
    map s | s in infos && infos[s].symbol in symbols :: infos[s]
  }

  /** A batch of a batch is the batch of the symbols requested both times. */
  lemma SecurityInfoBatchCompose(infos: map<string, Security.SecurityInfo>, a: set<string>, b: set<string>)
    ensures SecurityInfoBatch(SecurityInfoBatch(infos, a), b) == SecurityInfoBatch(infos, a * b)
  {
    var l := SecurityInfoBatch(SecurityInfoBatch(infos, a), b);
    var r := SecurityInfoBatch(infos, a * b);
    assert l.Keys == r.Keys;
  }
}
