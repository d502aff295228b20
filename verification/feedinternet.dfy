/**
 * The internet quote feed: per-symbol subscription counts, the symbol
 * batches it polls, the staleness filter that keeps only newer ticks, and
 * the parser of '~'-separated quote records.
 */
module FeedInternet {
  import opened Wrappers
  import opened Depth
  import Text
  import Seqs
  import Numbers
  import FeedReplay

  /**
   * The feed's tables: the symbols of each subscription key, how many
   * subscriptions name each symbol, the keys to call back per symbol, the
   * last depth per symbol and the count of polls that brought new ticks.
   */
  datatype Feed = Feed(
    subs: map<nat, seq<string>>,
    counts: map<string, nat>,
    callbacks: map<string, set<nat>>,
    mds: map<string, MarketDepth>,
    fetchCount: nat)

  /** The subscription count of s, 0 when absent. */
  function Get(counts: map<string, nat>, s: string): nat
  {
    if s in counts then counts[s] else 0
  }

  /** Every listed symbol has a positive count, as subscribe and unsubscribe leave them. */
  predicate Positive(counts: map<string, nat>)
  {
    forall s :: s in counts ==> counts[s] > 0
  }

  /** One more subscription for every occurrence of a symbol in syms. */
  function Inc(counts: map<string, nat>, syms: seq<string>): (r: map<string, nat>)
    ensures forall s :: Get(r, s) == Get(counts, s) + multiset(syms)[s]
    ensures r.Keys == counts.Keys + set x | x in syms
    decreases |syms|
  {
    if syms == [] then counts
    else
      assert syms == [syms[0]] + syms[1..];
      Inc(counts[syms[0] := Get(counts, syms[0]) + 1], syms[1..])
  }

  /** One subscription less for s: a count never goes below 0 and a symbol at 0 is erased. */
  function DecOne(counts: map<string, nat>, s: string): (r: map<string, nat>)
    ensures Get(r, s) == if Get(counts, s) > 0 then Get(counts, s) - 1 else 0
    ensures s in r <==> s in counts && counts[s] > 1
    ensures forall x :: x != s ==> Get(r, x) == Get(counts, x) && (x in r <==> x in counts)
  {
    if s !in counts then counts
    else
      var c := if counts[s] > 0 then counts[s] - 1 else 0;
      if c == 0 then counts - {s} else counts[s := c]
  }

  /** One subscription less for every occurrence of a symbol in syms. */
  function Dec(counts: map<string, nat>, syms: seq<string>): (r: map<string, nat>)
    ensures forall s :: Get(r, s) == if Get(counts, s) > multiset(syms)[s] then Get(counts, s) - multiset(syms)[s] else 0
    ensures forall s :: s in r <==> s in counts && (multiset(syms)[s] == 0 || Get(counts, s) > multiset(syms)[s])
    decreases |syms|
  {
    if syms == [] then counts
    else
      assert syms == [syms[0]] + syms[1..];
      Dec(DecOne(counts, syms[0]), syms[1..])
  }

  /** Removing the count of a subscription that was added restores the counts exactly. */
  lemma IncDecRestores(counts: map<string, nat>, syms: seq<string>)
    requires Positive(counts)
    ensures Dec(Inc(counts, syms), syms) == counts
  {
    var r := Dec(Inc(counts, syms), syms);
    forall s | s in r
      ensures s in counts && r[s] == counts[s]
    {
      assert Get(r, s) == r[s];
    }
    forall s | s in counts
      ensures s in r
    {
    }
  }

  /** Registers key under every symbol of syms. */
  function AddCallbacks(cb: map<string, set<nat>>, syms: seq<string>, key: nat): (r: map<string, set<nat>>)
    ensures r.Keys == cb.Keys + set x | x in syms
    ensures forall s :: s in r ==> r[s] == (if s in cb then cb[s] else {}) + (if s in syms then {key} else {})
    decreases |syms|
  {
    if syms == [] then cb
    else
      var s := syms[0];
      AddCallbacks(cb[s := (if s in cb then cb[s] else {}) + {key}], syms[1..], key)
  }

  /** Drops key from the callbacks of every symbol of syms that has callbacks. */
  function DropCallbacks(cb: map<string, set<nat>>, syms: seq<string>, key: nat): (r: map<string, set<nat>>)
    ensures r.Keys == cb.Keys
    ensures forall s :: s in r ==> r[s] == (if s in syms then cb[s] - {key} else cb[s])
    decreases |syms|
  {
    if syms == [] then cb
    else
      var s := syms[0];
      DropCallbacks(if s in cb then cb[s := cb[s] - {key}] else cb, syms[1..], key)
  }

  /**
   * Subscribes key to symbols; the key is the result. A key already
   * subscribed changes nothing; a new one counts one more subscription per
   * symbol occurrence and is called back for each of its symbols.
   */
  function Subscribe(f: Feed, key: nat, symbols: seq<string>): (r: (Feed, nat))
    ensures r.1 == key
    ensures key in f.subs ==> r.0 == f
    ensures key !in f.subs ==>
              r.0.subs == f.subs[key := symbols]
              && (forall s :: Get(r.0.counts, s) == Get(f.counts, s) + multiset(symbols)[s])
              && (forall s :: s in symbols ==> s in r.0.callbacks && key in r.0.callbacks[s])
              && r.0.mds == f.mds && r.0.fetchCount == f.fetchCount
  {
    if key in f.subs then (f, key)
    else
      (f.(subs := f.subs[key := symbols],
          counts := Inc(f.counts, symbols),
          callbacks := AddCallbacks(f.callbacks, symbols, key)), key)
  }

  /**
   * Unsubscribes key: each of its symbols loses one subscription (erased
   * at 0) and the key's callbacks; an unknown key changes nothing.
   */
  function Unsubscribe(f: Feed, key: nat): (r: Feed)
    ensures key !in f.subs ==> r == f
    ensures key in f.subs ==>
              r.subs == f.subs - {key} && r.counts == Dec(f.counts, f.subs[key])
              && r.callbacks.Keys == f.callbacks.Keys
              && (forall s :: s in r.callbacks && s in f.subs[key] ==> key !in r.callbacks[s])
              && r.mds == f.mds && r.fetchCount == f.fetchCount
  {
    if key !in f.subs then f
    else
      var syms := f.subs[key];
      f.(subs := f.subs - {key},
         counts := Dec(f.counts, syms),
         callbacks := DropCallbacks(f.callbacks, syms, key))
  }

  /** Counts stay positive under subscribe and unsubscribe. */
  lemma CountsStayPositive(f: Feed, key: nat, symbols: seq<string>)
    requires Positive(f.counts)
    ensures Positive(Subscribe(f, key, symbols).0.counts)
    ensures Positive(Unsubscribe(f, key).counts)
  {
    var r := Subscribe(f, key, symbols).0;
    forall s | s in r.counts
      ensures r.counts[s] > 0
    {
      assert Get(r.counts, s) == r.counts[s];
    }
    var u := Unsubscribe(f, key);
    forall s | s in u.counts
      ensures u.counts[s] > 0
    {
      assert Get(u.counts, s) == u.counts[s];
    }
  }

  /** A new subscription withdrawn again leaves the subscriptions and counts as they were. */
  lemma SubscribeThenUnsubscribe(f: Feed, key: nat, symbols: seq<string>)
    requires Positive(f.counts) && key !in f.subs
    ensures var u := Unsubscribe(Subscribe(f, key, symbols).0, key);
            u.subs == f.subs && u.counts == f.counts
  {
    IncDecRestores(f.counts, symbols);
  }

  /** The code a symbol is polled under: exchange suffix then the six digits ("600000.SH" gives "SH600000"). */
  function PollCode(symbol: string): (r: Option<string>)
    ensures |symbol| < 7 <==> r.None?
    ensures r.Some? ==> r.value == symbol[7..] + symbol[..6]
  {
    if |symbol| < 7 then None else Some(symbol[7..] + symbol[..6])
  }

  /** A symbol is polled when subscribed and its last tick is at least 2 seconds old. */
  predicate Due(counts: map<string, nat>, mds: map<string, MarketDepth>, now: int, s: string)
  {
    Get(counts, s) > 0 && !(s in mds && Text.SecondsDiff(mds[s].quoteTime, now) < 2.0)
  }

  /** The poll codes of the listed symbols, or None when one is too short to encode. */
  function Codes(syms: seq<string>): (r: Option<seq<string>>)
    ensures r.None? <==> exists i :: 0 <= i < |syms| && |syms[i]| < 7
    ensures r.Some? ==> |r.value| == |syms| && forall i :: 0 <= i < |syms| ==> r.value[i] == syms[i][7..] + syms[i][..6]
  {
    if syms == [] then Some([])
    else match (PollCode(syms[0]), Codes(syms[1..]))
      case (Some(c), Some(rest)) =>
        assert forall i :: 1 <= i < |syms| ==> syms[i] == syms[1..][i - 1];
        Some([c] + rest)
      case (None, _) => None
      case (_, None) =>
        assert forall i :: 0 <= i < |syms| - 1 ==> syms[1..][i] == syms[i + 1];
        None
  }

  function SumSizes(bs: seq<(nat, string)>): nat
  {
    if bs == [] then 0 else SumSizes(bs[..|bs| - 1]) + bs[|bs| - 1].0
  }

  predicate StartsWithComma(s: string) { |s| > 0 && s[0] == ',' }

  /**
   * Appends codes to the batch being filled (cur with size entries): a
   * full batch of 500 is closed and the next one starts with the code
   * alone; otherwise the code is appended after a comma. The open batch is
   * closed at the end.
   */
  function Batch(codes: seq<string>, acc: seq<(nat, string)>, cur: string, size: nat): (r: seq<(nat, string)>)
    requires size <= 500
    requires forall i :: 0 <= i < |acc| ==> acc[i].0 == 500
    ensures |r| > |acc| && r[..|acc|] == acc
    ensures forall i :: 0 <= i < |r| ==> r[i].0 <= 500
    ensures forall i :: 0 <= i < |r| - 1 ==> r[i].0 == 500
    ensures SumSizes(r) == SumSizes(acc) + size + |codes|
    ensures acc == [] && (size == 0 ==> cur == []) && (size > 0 ==> StartsWithComma(cur)) && codes != [] ==> StartsWithComma(r[0].1)
    decreases |codes|
  {
    if codes == [] then
      assert (acc + [(size, cur)])[..|acc|] == acc;
      acc + [(size, cur)]
    else if size < 500 then
      Batch(codes[1..], acc, cur + "," + codes[0], size + 1)
    else
      var acc' := acc + [(size, cur)];
      assert acc'[..|acc|] == acc;
      var r := Batch(codes[1..], acc', codes[0], 1);
      assert r[..|acc|] == r[..|acc'|][..|acc|];
      r
  }

  function LowerAll(bs: seq<(nat, string)>): (r: seq<(nat, string)>)
    ensures |r| == |bs|
    ensures forall i :: 0 <= i < |bs| ==> r[i] == (bs[i].0, Text.ToLower(bs[i].1))
  {
    if bs == [] then [] else [(bs[0].0, Text.ToLower(bs[0].1))] + LowerAll(bs[1..])
  }

  /** The batches of the given codes: full batches of 500, the first led by a comma, all lower-cased. */
  function BatchCodes(codes: seq<string>): (r: seq<(nat, string)>)
    ensures |r| >= 1
    ensures forall i :: 0 <= i < |r| ==> r[i].0 <= 500
    ensures forall i :: 0 <= i < |r| - 1 ==> r[i].0 == 500
    ensures SumSizes(r) == |codes|
    ensures codes != [] ==> StartsWithComma(r[0].1)
  {
    var none: seq<(nat, string)> := [];
    var raw := Batch(codes, none, "", 0);
    assert SumSizes(none) == 0;
    assert SumSizes(raw) == |codes|;
    assert codes != [] ==> StartsWithComma(raw[0].1);
    SumSizesLower(raw);
    var r := LowerAll(raw);
    assert codes != [] ==> r[0].1[0] == raw[0].1[0];
    r
  }

  /** The subscribed symbols due for polling, in the iteration order iter of the count table. */
  function DueSymbols(f: Feed, iter: seq<string>, now: int): (r: seq<string>)
    requires Seqs.IsEnumeration(iter, f.counts.Keys)
    ensures Seqs.NoDup(r)
    ensures forall s :: s in r <==> s in f.counts && Due(f.counts, f.mds, now, s)
  {
    Seqs.Filter(iter, s => Due(f.counts, f.mds, now, s))
  }

  /**
   * The batches polled: the due symbols in batches of at most 500
   * lower-cased codes. There is always at least one batch, possibly empty;
   * every batch but the last is full; the sizes add up to the number of
   * due symbols; the first batch begins with a comma when anything is due.
   * A due symbol too short to encode makes the poll fail (None).
   */
  function GenBatches(f: Feed, iter: seq<string>, now: int): (r: Option<seq<(nat, string)>>)
    requires Seqs.IsEnumeration(iter, f.counts.Keys)
    ensures var due := DueSymbols(f, iter, now);
            (r.None? <==> exists i :: 0 <= i < |due| && |due[i]| < 7)
            && (r.Some? ==> r.value == BatchCodes(Codes(due).value) && SumSizes(r.value) == |due|)
  {
    var due := DueSymbols(f, iter, now);
    Polls(due)
  }

  /** The batches of the given symbols, or None when one is too short to encode. */
  function Polls(due: seq<string>): (r: Option<seq<(nat, string)>>)
    ensures r.None? <==> exists i :: 0 <= i < |due| && |due[i]| < 7
    ensures r.Some? ==> r.value == BatchCodes(Codes(due).value) && SumSizes(r.value) == |due|
  {
    var c := Codes(due);
    if c.None? then None else Some(BatchCodes(c.value))
  }

  /** Lower-casing the batches keeps their sizes. */
  lemma {:induction false} SumSizesLower(bs: seq<(nat, string)>)
    ensures SumSizes(LowerAll(bs)) == SumSizes(bs)
    decreases |bs|
  {
    if bs != [] {
      var l := LowerAll(bs);
      assert LowerAll(bs[..|bs| - 1]) == l[..|l| - 1];
      SumSizesLower(bs[..|bs| - 1]);
    }
  }

  /**
   * Stores a polled tick: the first tick of a symbol is kept as is; a
   * later one only when strictly newer, after deriving its deltas from the
   * stored one; an older or equal one is dropped (false).
   */
  function Store(mds: map<string, MarketDepth>, md: MarketDepth): (r: (map<string, MarketDepth>, bool))
    ensures md.symbol !in mds ==> r == (mds[md.symbol := md], true)
    ensures md.symbol in mds && md.quoteTime <= mds[md.symbol].quoteTime ==> r == (mds, false)
    ensures md.symbol in mds && md.quoteTime > mds[md.symbol].quoteTime ==>
              r.1 && r.0 == mds[md.symbol := CalDelta(md, mds[md.symbol]).0]
    ensures r.1 ==> md.symbol in r.0 && r.0[md.symbol].quoteTime == md.quoteTime
    ensures forall s :: s in mds ==> s in r.0 && r.0[s].quoteTime >= mds[s].quoteTime
  {
    if md.symbol !in mds then (mds[md.symbol := md], true)
    else if md.quoteTime > mds[md.symbol].quoteTime then (mds[md.symbol := CalDelta(md, mds[md.symbol]).0], true)
    else (mds, false)
  }

  /** Stores a batch of ticks in order and counts the poll when any was new. */
  function OnMarketDepth(f: Feed, batch: seq<MarketDepth>): (r: Feed)
    ensures r == f.(mds := r.mds, fetchCount := r.fetchCount)
    ensures forall s :: s in f.mds ==> s in r.mds && r.mds[s].quoteTime >= f.mds[s].quoteTime
    ensures r.fetchCount == f.fetchCount || r.fetchCount == f.fetchCount + 1
  {
    var (mds, n) := StoreAll(f.mds, batch);
    f.(mds := mds, fetchCount := if n > 0 then f.fetchCount + 1 else f.fetchCount)
  }

  /** Stores each tick in turn, returning how many were kept. */
  function StoreAll(mds: map<string, MarketDepth>, batch: seq<MarketDepth>): (r: (map<string, MarketDepth>, nat))
    ensures forall s :: s in mds ==> s in r.0 && r.0[s].quoteTime >= mds[s].quoteTime
    ensures r.1 <= |batch|
    ensures batch != [] && batch[0].symbol !in mds ==> r.1 > 0
    decreases |batch|
  {
    if batch == [] then (mds, 0)
    else
      var (m1, kept) := Store(mds, batch[0]);
      var (m2, n) := StoreAll(m1, batch[1..]);
      (m2, n + (if kept then 1 else 0))
  }

  /** A stored tick is never replaced by one that is not strictly newer. */
  lemma StaleTickDropped(f: Feed, md: MarketDepth)
    requires md.symbol in f.mds && md.quoteTime <= f.mds[md.symbol].quoteTime
    ensures OnMarketDepth(f, [md]) == f
  {
    assert [md][1..] == [];
    assert StoreAll(f.mds, [md]) == (f.mds, 0);
  }

  /** std::string comparison a > b: lexicographic on characters. */
  predicate StrGreater(a: string, b: string)
    decreases |a|
  {
    if a == [] then false
    else if b == [] then true
    else if a[0] != b[0] then a[0] > b[0]
    else StrGreater(a[1..], b[1..])
  }

  /** t occurs in s as a contiguous substring. */
  predicate Contains(s: string, t: string)
    decreases |s|
  {
    |s| >= |t| && (s[..|t|] == t || Contains(s[1..], t))
  }

  /** The result of parsing one record. */
  datatype Parsed =
    | TooShort            // fewer than 58 fields: an empty-symbol depth, which every caller drops
    | Throws              // field 30 is shorter than 8 characters, so reading its time part throws
    | Parsed(md: MarketDepth)

  /**
   * A (price, volume in lots) field pair as a level. The int volume is
   * get_int times 100 in 32-bit arithmetic, so counts beyond the int range
   * wrap around.
   */
  function FieldLevel(data: seq<string>, pi: nat, num: string -> real): (l: Level)
    requires pi + 1 < |data|
    ensures l.price == num(data[pi])
    ensures -Numbers.Pow31 <= l.vol < Numbers.Pow31
    ensures (l.vol - Numbers.GetInt(data[pi + 1], 0) * 100) % Numbers.Pow32 == 0
    ensures -Numbers.Pow31 <= Numbers.GetInt(data[pi + 1], 0) * 100 < Numbers.Pow31 ==> l.vol == Numbers.GetInt(data[pi + 1], 0) * 100
  {
    Level(num(data[pi]), Numbers.Wrap32(Numbers.GetInt(data[pi + 1], 0) * 100))
  }

  function FieldLadder(data: seq<string>, first: nat, num: string -> real): (l: Ladder)
    requires first + 9 < |data|
  {
    Ladder(FieldLevel(data, first, num), FieldLevel(data, first + 2, num), FieldLevel(data, first + 4, num),
           FieldLevel(data, first + 6, num), FieldLevel(data, first + 8, num))
  }

  /**
   * Parses one '~'-separated record. Field 2 is the code, suffixed ".SH"
   * when field 0 contains "sh" and ".SZ" otherwise; field 30 holds the
   * time as yyyymmddhhmmss (parseTime, now when unparsable); fields 3 and 4
   * the last price and previous close; bids are fields 9..18 and asks
   * 19..28 as (price, volume in lots of 100). Volume and amount come from
   * the price/volume/amount triple in field 35 when its parts compare
   * above "0", else from fields 36 and 57 (amount in units of 10000);
   * volume is counted in lots of 100 except for "68" symbols. Number
   * parsing of prices (num) and times (parseTime) are parameters.
   */
  function ParseDepth(text: string, now: int, parseTime: string -> Option<int>, num: string -> real): (r: Parsed)
    ensures |Text.TextSplit(text, '~')| < 58 <==> r == TooShort
    ensures r == Throws <==> |Text.TextSplit(text, '~')| >= 58 && |Text.TextSplit(text, '~')[30]| < 8
    ensures r.Parsed? ==> r.md == DecodeFields(Text.TextSplit(text, '~'), now, parseTime, num)
  {
    var data := Text.TextSplit(text, '~');
    if |data| < 58 then TooShort
    else if |data[30]| < 8 then Throws
    else Parsed(DecodeFields(data, now, parseTime, num))
  }

  /** The exchange suffix of a record: "SH" when field 0 contains "sh". */
  function RecordSymbol(data: seq<string>): (sym: string)
    requires |data| >= 3
    ensures Contains(data[0], "sh") ==> sym == data[2] + ".SH"
    ensures !Contains(data[0], "sh") ==> sym == data[2] + ".SZ"
  {
    data[2] + "." + (if Contains(data[0], "sh") then "SH" else "SZ")
  }

  /** The shares a volume field counts in units of: 1 for "68" symbols, else lots of 100. */
  function VolSize(sym: string): (n: nat)
    ensures n == 1 || n == 100
    ensures n == 1 <==> |sym| >= 2 && sym[0] == '6' && sym[1] == '8'
  {
    if |sym| >= 2 && sym[..2] == "68" then 1 else 100
  }

  /** The fields of a record of at least 58 fields as a depth (see ParseDepth). */
  function DecodeFields(data: seq<string>, now: int, parseTime: string -> Option<int>, num: string -> real): (md: MarketDepth)
    requires |data| >= 58 && |data[30]| >= 8
    ensures md.symbol == RecordSymbol(data)
    ensures md.price == num(data[3]) && md.preClose == num(data[4])
    ensures md.bids == FieldLadder(data, 9, num) && md.asks == FieldLadder(data, 19, num)
    ensures parseTime(data[30][..8] + " " + data[30][8..]).None? ==> md.quoteTime == now
    ensures md.bsType == 0 && md.deltaVolume == 0 && md.deltaAmount == 0.0 && md.flow == 0.0
  {
    var t := match parseTime(data[30][..8] + " " + data[30][8..]) case Some(t) => t case None => now;
    var sym := RecordSymbol(data);
    var volSize := VolSize(sym);
    var pva := Text.TextSplit(data[35], '/');
    var vol := if |pva| == 3 then pva[1] else "";
    var amt := if |pva| == 3 then pva[2] else "";
    var volume := if StrGreater(vol, "0") then FeedReplay.Wrap64(Numbers.Wrap32(Numbers.GetInt(vol, 0) * volSize))
                  else FeedReplay.Wrap64(Numbers.Wrap32(Numbers.GetInt(data[36], 0) * volSize));
    var amount := if StrGreater(amt, "0") then num(amt) else num(data[57]) * 10000.0;
    MarketDepth(sym, num(data[3]), num(data[4]), volume, amount,
                FieldLadder(data, 9, num), FieldLadder(data, 19, num), t, 0, 0, 0.0, 0.0)
  }

  /**
   * The volume is counted in lots of 100 except for "68" symbols, whose
   * counts are shares: the count times the lot size in 32-bit int
   * arithmetic, then converted to an unsigned 64-bit number (a negative
   * count wraps to a huge volume). The amount comes from the triple when
   * its amount compares greater than "0", else from field 57 in units of
   * 10000.
   */
  lemma VolumeScale(data: seq<string>, now: int, parseTime: string -> Option<int>, num: string -> real)
    requires |data| >= 58 && |data[30]| >= 8
    ensures var md := DecodeFields(data, now, parseTime, num);
            var volSize := VolSize(md.symbol);
            var pva := Text.TextSplit(data[35], '/');
            var count := if |pva| == 3 && StrGreater(pva[1], "0") then Numbers.GetInt(pva[1], 0) else Numbers.GetInt(data[36], 0);
            md.volume == FeedReplay.Wrap64(Numbers.Wrap32(count * volSize))
            && (0 <= count * volSize < Numbers.Pow31 ==> md.volume == count * volSize)
            && (|pva| == 3 && StrGreater(pva[2], "0") ==> md.amount == num(pva[2]))
            && (!(|pva| == 3 && StrGreater(pva[2], "0")) ==> md.amount == num(data[57]) * 10000.0)
  {
  }

  /**
   * A response body: ';'-separated records, records shorter than 50
   * characters and records without a symbol skipped; a record that throws
   * aborts the whole response (None).
   */
  function ParseResponse(data: string, now: int, parseTime: string -> Option<int>, num: string -> real): (r: Option<seq<MarketDepth>>)
    ensures r.Some? ==> forall i :: 0 <= i < |r.value| ==> r.value[i].symbol != []
  {
    ParseRecords(Text.TextSplit(data, ';'), now, parseTime, num)
  }

  function ParseRecords(recs: seq<string>, now: int, parseTime: string -> Option<int>, num: string -> real): (r: Option<seq<MarketDepth>>)
    ensures r.Some? ==> |r.value| <= |recs| && forall i :: 0 <= i < |r.value| ==> r.value[i].symbol != []
    ensures r.None? <==> exists i :: 0 <= i < |recs| && |recs[i]| >= 50 && ParseDepth(recs[i], now, parseTime, num) == Throws
    decreases |recs|
  {
    if recs == [] then Some([])
    else
      var rest := ParseRecords(recs[1..], now, parseTime, num);
      assert forall i :: 1 <= i < |recs| ==> recs[i] == recs[1..][i - 1];
      if |recs[0]| < 50 then rest
      else match ParseDepth(recs[0], now, parseTime, num)
        case Throws => None
        case TooShort => rest
        case Parsed(md) =>
          if md.symbol == [] then rest
          else match rest
            case None => None
            case Some(mds) => Some([md] + mds)
  }
}
