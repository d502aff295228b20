/**
 * The replay quote feed of a backtest: its subscription tables, its stop
 * guard, and the VWAP it computes over a window of recorded ticks. The
 * recorded ticks are an ordered map from quote time to the snapshots of
 * that time, modelled as a sequence of frames in strictly increasing time.
 */
module FeedReplay {
  import opened Wrappers

  /** Cumulative traded amount and volume of one symbol at one quote time. */
  datatype Snapshot = Snapshot(amount: real, volume: nat)

  /** All snapshots recorded at one quote time. */
  datatype Frame = Frame(time: int, quotes: map<string, Snapshot>)

  predicate Ordered(frames: seq<Frame>)
  {
    forall i, j :: 0 <= i < j < |frames| ==> frames[i].time < frames[j].time
  }

  /** Index of the first frame at or after t (std::map::lower_bound). */
  function LowerBound(frames: seq<Frame>, t: int): (k: nat)
    requires Ordered(frames)
    ensures k <= |frames|
    ensures forall i :: 0 <= i < k ==> frames[i].time < t
    ensures forall i :: k <= i < |frames| ==> frames[i].time >= t
  {
    if frames == [] || frames[0].time >= t then 0
    else 1 + LowerBound(frames[1..], t)
  }

  /** Index of the first frame after t (std::map::upper_bound). */
  function UpperBound(frames: seq<Frame>, t: int): (k: nat)
    requires Ordered(frames)
    ensures k <= |frames|
    ensures forall i :: 0 <= i < k ==> frames[i].time <= t
    ensures forall i :: k <= i < |frames| ==> frames[i].time > t
  {
    if frames == [] || frames[0].time > t then 0
    else 1 + UpperBound(frames[1..], t)
  }

  /** The frames whose time lies in [beg, end]. */
  function Window(frames: seq<Frame>, beg: int, end: int): (w: seq<Frame>)
    requires Ordered(frames)
    ensures forall j :: 0 <= j < |w| ==> beg <= w[j].time <= end
    ensures forall i :: 0 <= i < |frames| && beg <= frames[i].time <= end ==> frames[i] in w
  {
    var lo := LowerBound(frames, beg);
    var up := UpperBound(frames, end);
    if lo <= up then
      assert forall i :: 0 <= i < |frames| && beg <= frames[i].time <= end ==> frames[i] == frames[lo..up][i - lo];
      frames[lo..up]
    else []
  }

  const U64: int := 0x1_0000_0000_0000_0000

  /** Unsigned 64-bit subtraction, wrapping around. */
  function Wrap64(x: int): (r: nat)
    ensures r < U64
    ensures 0 <= x < U64 ==> r == x
  {
    x % U64
  }

  const NoSnapshot: Snapshot := Snapshot(0.0, 0)

  /**
   * The VWAP between two snapshots: the amount difference over the volume
   * difference (an unsigned 64-bit one), or 0 unless the amount grew and
   * the volume difference is nonzero.
   */
  function VwapBetween(beg: Snapshot, end: Snapshot): (v: real)
    ensures !(end.amount > beg.amount && Wrap64(end.volume - beg.volume) != 0) ==> v == 0.0
    ensures end.amount > beg.amount && beg.volume < end.volume < U64 ==>
              v == (end.amount - beg.amount) / (end.volume - beg.volume) as real && v > 0.0
  {
    if end.amount > beg.amount && Wrap64(end.volume - beg.volume) != 0 then
      (end.amount - beg.amount) / Wrap64(end.volume - beg.volume) as real
    else 0.0
  }

  /** The snapshot of sym in the first frame of [lo, up) that quotes it. */
  function ScanForward(frames: seq<Frame>, lo: nat, up: nat, sym: string): (r: Option<Snapshot>)
    requires lo <= up <= |frames|
    decreases up - lo
  {
    if lo == up then None
    else if sym in frames[lo].quotes then Some(frames[lo].quotes[sym])
    else ScanForward(frames, lo + 1, up, sym)
  }

  /**
   * The backward scan as written: from index up (the first frame after the
   * window, dereferenced even at the end of the map) down to lo + 1; frame
   * lo itself is never examined.
   */
  function ScanBackwardAsWritten(frames: seq<Frame>, lo: nat, up: nat, sym: string): (r: Option<Snapshot>)
    requires lo <= up <= |frames|
    requires lo == up || up < |frames|
    decreases up - lo
  {
    if lo == up then None
    else if sym in frames[up].quotes then Some(frames[up].quotes[sym])
    else ScanBackwardAsWritten(frames, lo, up - 1, sym)
  }

  /** The backward scan as intended: from up - 1 down to lo. */
  function ScanBackward(frames: seq<Frame>, lo: nat, up: nat, sym: string): (r: Option<Snapshot>)
    requires lo <= up <= |frames|
    decreases up - lo
  {
    if lo == up then None
    else if sym in frames[up - 1].quotes then Some(frames[up - 1].quotes[sym])
    else ScanBackward(frames, lo, up - 1, sym)
  }

  /**
   * The VWAP as written over the frame indices [lo, up): the forward scan
   * over the window against the backward scan that starts one frame late.
   */
  function VwapAsWrittenAt(frames: seq<Frame>, sym: string, lo: nat, up: nat): (v: real)
    requires lo <= up <= |frames| && (lo == up || up < |frames|)
    ensures lo == up ==> v == 0.0
    ensures lo < up ==> v == VwapBetween(FirstQuote(frames[lo..up], sym).GetOr(NoSnapshot),
                                         LastQuote(frames[lo + 1..up + 1], sym).GetOr(NoSnapshot))
  {
    ForwardIsFirst(frames, lo, up, sym);
    assert lo < up ==> ScanBackwardAsWritten(frames, lo, up, sym) == LastQuote(frames[lo + 1..up + 1], sym) by {
      if lo < up {
        ScanBackwardAsWrittenShift(frames, lo, up, sym);
        BackwardIsLast(frames, lo + 1, up + 1, sym);
      }
    }
    VwapBetween(ScanForward(frames, lo, up, sym).GetOr(NoSnapshot),
                ScanBackwardAsWritten(frames, lo, up, sym).GetOr(NoSnapshot))
  }

  /**
   * The replay VWAP as written, over the frames from lower_bound(beg) up
   * to upper_bound(end). Its precondition is what the code needs:
   * when the window is not empty, some frame must follow it, since the
   * backward scan starts by reading the frame after the window.
   */
  function GetVwapAsWritten(frames: seq<Frame>, sym: string, beg: int, end: int): (v: real)
    requires Ordered(frames)
    requires LowerBound(frames, beg) <= UpperBound(frames, end)
    requires LowerBound(frames, beg) == UpperBound(frames, end) || UpperBound(frames, end) < |frames|
    ensures LowerBound(frames, beg) == UpperBound(frames, end) ==> v == 0.0
    ensures v == VwapAsWrittenAt(frames, sym, LowerBound(frames, beg), UpperBound(frames, end))
  {
    VwapAsWrittenAt(frames, sym, LowerBound(frames, beg), UpperBound(frames, end))
  }

  /** A window whose bounds are in order is the slice between them. */
  lemma WindowIsSlice(frames: seq<Frame>, beg: int, end: int)
    requires Ordered(frames)
    requires LowerBound(frames, beg) <= UpperBound(frames, end)
    ensures Window(frames, beg, end) == frames[LowerBound(frames, beg)..UpperBound(frames, end)]
  {
  }

  /** The as-written backward scan over [lo, up] is the intended one shifted one frame later: it covers (lo, up]. */
  lemma {:induction false} ScanBackwardAsWrittenShift(frames: seq<Frame>, lo: nat, up: nat, sym: string)
    requires lo < up < |frames|
    ensures ScanBackwardAsWritten(frames, lo, up, sym) == ScanBackward(frames, lo + 1, up + 1, sym)
    decreases up - lo
  {
    if up - 1 > lo && sym !in frames[up].quotes {
      ScanBackwardAsWrittenShift(frames, lo, up - 1, sym);
    }
  }

  /** The first snapshot of sym in a run of frames. */
  function FirstQuote(w: seq<Frame>, sym: string): (r: Option<Snapshot>)
    ensures r.Some? ==> exists i :: 0 <= i < |w| && sym in w[i].quotes && r.value == w[i].quotes[sym]
    ensures r.None? <==> forall i :: 0 <= i < |w| ==> sym !in w[i].quotes
  {
    if w == [] then None
    else if sym in w[0].quotes then Some(w[0].quotes[sym])
    else
      var r := FirstQuote(w[1..], sym);
      assert forall i :: 1 <= i < |w| ==> w[i] == w[1..][i - 1];
      r
  }

  /** The last snapshot of sym in a run of frames. */
  function LastQuote(w: seq<Frame>, sym: string): (r: Option<Snapshot>)
    ensures r.Some? ==> exists i :: 0 <= i < |w| && sym in w[i].quotes && r.value == w[i].quotes[sym]
    ensures r.None? <==> forall i :: 0 <= i < |w| ==> sym !in w[i].quotes
  {
    if w == [] then None
    else if sym in w[|w| - 1].quotes then Some(w[|w| - 1].quotes[sym])
    else LastQuote(w[..|w| - 1], sym)
  }

  /** The VWAP of sym over a run of frames: between its first and last snapshots there. */
  function WindowVwap(w: seq<Frame>, sym: string): real
  {
    VwapBetween(FirstQuote(w, sym).GetOr(NoSnapshot), LastQuote(w, sym).GetOr(NoSnapshot))
  }

  /** The replay VWAP as intended: between the first and last snapshots inside [beg, end]. */
  function GetVwap(frames: seq<Frame>, sym: string, beg: int, end: int): (v: real)
    requires Ordered(frames)
    ensures v == WindowVwap(Window(frames, beg, end), sym)
  {
    var lo := LowerBound(frames, beg);
    var up := UpperBound(frames, end);
    if lo <= up then
      ForwardIsFirst(frames, lo, up, sym);
      BackwardIsLast(frames, lo, up, sym);
      VwapBetween(ScanForward(frames, lo, up, sym).GetOr(NoSnapshot), ScanBackward(frames, lo, up, sym).GetOr(NoSnapshot))
    else
      assert Window(frames, beg, end) == [];
      VwapBetween(NoSnapshot, NoSnapshot)
  }

  lemma {:induction false} ForwardIsFirst(frames: seq<Frame>, lo: nat, up: nat, sym: string)
    requires lo <= up <= |frames|
    ensures ScanForward(frames, lo, up, sym) == FirstQuote(frames[lo..up], sym)
    decreases up - lo
  {
    if lo < up {
      assert frames[lo..up][0] == frames[lo];
      assert frames[lo..up][1..] == frames[lo + 1..up];
      ForwardIsFirst(frames, lo + 1, up, sym);
    }
  }

  lemma {:induction false} BackwardIsLast(frames: seq<Frame>, lo: nat, up: nat, sym: string)
    requires lo <= up <= |frames|
    ensures ScanBackward(frames, lo, up, sym) == LastQuote(frames[lo..up], sym)
    decreases up - lo
  {
    if lo < up {
      assert frames[lo..up][up - lo - 1] == frames[up - 1];
      assert frames[lo..up][..up - lo - 1] == frames[lo..up - 1];
      BackwardIsLast(frames, lo, up - 1, sym);
    }
  }

  /** The intended VWAP depends only on the frames inside the window. */
  lemma VwapIsLocal(f1: seq<Frame>, f2: seq<Frame>, sym: string, beg: int, end: int)
    requires Ordered(f1) && Ordered(f2)
    requires Window(f1, beg, end) == Window(f2, beg, end)
    ensures GetVwap(f1, sym, beg, end) == GetVwap(f2, sym, beg, end)
  {
  }

  /** Three ticks of one symbol, one second apart, with cumulative amounts 100, 300 and 1300 and volumes 10, 20 and 30. */
  function SampleFrames(): (fs: seq<Frame>)
    ensures |fs| == 3 && Ordered(fs)
  {
    [Frame(1000, map["600000.SH" := Snapshot(100.0, 10)]),
     Frame(2000, map["600000.SH" := Snapshot(300.0, 20)]),
     Frame(3000, map["600000.SH" := Snapshot(1300.0, 30)])]
  }

  /** The window [1000, 2000] of the sample starts at frame 0 and ends before frame 2. */
  lemma SampleBounds()
    ensures LowerBound(SampleFrames(), 1000) == 0 && UpperBound(SampleFrames(), 2000) == 2
  {
    var fs := SampleFrames();
    assert fs[1..][0].time == 2000;
    assert UpperBound(fs[1..][1..], 2000) == 0;
  }

  /** The scans of the sample window: the as-written backward scan reads frame 2, past the window. */
  lemma SampleScans()
    ensures ScanForward(SampleFrames(), 0, 2, "600000.SH") == Some(Snapshot(100.0, 10))
    ensures ScanBackwardAsWritten(SampleFrames(), 0, 2, "600000.SH") == Some(Snapshot(1300.0, 30))
    ensures ScanBackward(SampleFrames(), 0, 2, "600000.SH") == Some(Snapshot(300.0, 20))
  {
  }

  /**
   * As written, the end snapshot comes from the first tick after the
   * window: with ticks at 1 s, 2 s and 3 s (cumulative amount 100, 300,
   * 1300 over volume 10, 20, 30) the VWAP over [1 s, 2 s] is 60 instead of
   * the 20 traded inside the window.
   */
  lemma AsWrittenReadsPastWindow()
    ensures GetVwapAsWritten(SampleFrames(), "600000.SH", 1000, 2000) == 60.0
    ensures GetVwap(SampleFrames(), "600000.SH", 1000, 2000) == 20.0
  {
    SampleBounds();
    SampleScans();
    assert Wrap64(30 - 10) == 20;
    assert Wrap64(20 - 10) == 10;
  }

  /** The subscription tables: symbols per subscription key, and keys per symbol. */
  datatype Feed = Feed(
    keepRunning: bool,
    subs: map<nat, seq<string>>,
    bySymbol: map<string, set<nat>>,
    frames: seq<Frame>,
    finishCallbacks: nat,
    startCallbacks: nat)

  /** Every subscription is listed under each of its symbols, and nothing else is listed. */
  predicate Indexed(f: Feed)
  {
    (forall k, s :: k in f.subs && s in f.subs[k] ==> s in f.bySymbol && k in f.bySymbol[s])
    && (forall s, k :: s in f.bySymbol && k in f.bySymbol[s] ==> k in f.subs && s in f.subs[k])
  }

  /** Adds key under each symbol, creating missing entries. */
  function AddKey(m: map<string, set<nat>>, symbols: seq<string>, key: nat): (r: map<string, set<nat>>)
    ensures forall s :: s in r <==> s in m || s in symbols
    ensures forall s :: s in r ==> r[s] == (if s in m then m[s] else {}) + (if s in symbols then {key} else {})
    decreases |symbols|
  {
    if symbols == [] then m
    else
      var s0 := symbols[0];
      var m' := m[s0 := (if s0 in m then m[s0] else {}) + {key}];
      var r := AddKey(m', symbols[1..], key);
      assert forall s :: s in symbols <==> s == s0 || s in symbols[1..];
      r
  }

  /** Removes key from each symbol's entry; entries themselves stay, possibly empty. */
  function RemoveKey(m: map<string, set<nat>>, symbols: seq<string>, key: nat): (r: map<string, set<nat>>)
    ensures r.Keys == m.Keys
    ensures forall s :: s in r ==> r[s] == m[s] - (if s in symbols then {key} else {})
    decreases |symbols|
  {
    if symbols == [] then m
    else
      var s0 := symbols[0];
      var m' := if s0 in m then m[s0 := m[s0] - {key}] else m;
      var r := RemoveKey(m', symbols[1..], key);
      assert forall s :: s in symbols <==> s == s0 || s in symbols[1..];
      r
  }

  /**
   * Registers a subscription (the strand-side half of subscribe): an
   * existing key is refused with 0 and nothing changes; a new key is
   * recorded and listed under every one of its symbols, and is returned.
   */
  function Subscribe(f: Feed, key: nat, symbols: seq<string>): (r: (Feed, nat))
    ensures key in f.subs ==> r == (f, 0)
    ensures key !in f.subs ==>
              r.1 == key && r.0.subs == f.subs[key := symbols]
              && r.0 == f.(subs := r.0.subs, bySymbol := r.0.bySymbol)
              && (forall s :: s in symbols ==> s in r.0.bySymbol && key in r.0.bySymbol[s])
  {
    if key in f.subs then (f, 0)
    else (f.(subs := f.subs[key := symbols], bySymbol := AddKey(f.bySymbol, symbols, key)), key)
  }

  /** Drops a subscription: the key leaves every symbol's entry and the key table; unknown keys change nothing. */
  function Unsubscribe(f: Feed, key: nat): (r: Feed)
    ensures key !in f.subs ==> r == f
    ensures key in f.subs ==>
              r.subs == f.subs - {key} && r.bySymbol.Keys == f.bySymbol.Keys
              && (forall s :: s in r.bySymbol ==> key !in r.bySymbol[s] || s !in f.subs[key])
              && r == f.(subs := r.subs, bySymbol := r.bySymbol)
  {
    if key in f.subs then f.(subs := f.subs - {key}, bySymbol := RemoveKey(f.bySymbol, f.subs[key], key))
    else f
  }

  lemma SubscribeKeepsIndexed(f: Feed, key: nat, symbols: seq<string>)
    requires Indexed(f)
    ensures Indexed(Subscribe(f, key, symbols).0)
  {
  }

  lemma UnsubscribeKeepsIndexed(f: Feed, key: nat)
    requires Indexed(f)
    ensures Indexed(Unsubscribe(f, key))
    ensures forall s :: s in Unsubscribe(f, key).bySymbol ==> key !in Unsubscribe(f, key).bySymbol[s]
  {
  }

  /** Unsubscribing a key just subscribed restores the key table. */
  lemma SubscribeThenUnsubscribe(f: Feed, key: nat, symbols: seq<string>)
    requires key !in f.subs
    ensures Unsubscribe(Subscribe(f, key, symbols).0, key).subs == f.subs
  {
    assert f.subs[key := symbols] - {key} == f.subs;
  }

  /**
   * Stops the feed: a no-op when it is not running; otherwise it stops
   * running, reports how many finish callbacks it dispatches, and clears the
   * per-symbol table, the recorded ticks and the callback lists. The key
   * table is not cleared.
   */
  function Stop(f: Feed): (r: (Feed, nat))
    ensures !f.keepRunning ==> r == (f, 0)
    ensures f.keepRunning ==>
              !r.0.keepRunning && r.1 == f.finishCallbacks
              && r.0.bySymbol == map[] && r.0.frames == [] && r.0.finishCallbacks == 0 && r.0.startCallbacks == 0
              && r.0.subs == f.subs
  {
    if !f.keepRunning then (f, 0)
    else (f.(keepRunning := false, bySymbol := map[], frames := [], finishCallbacks := 0, startCallbacks := 0), f.finishCallbacks)
  }

  lemma StopIdempotent(f: Feed)
    ensures Stop(Stop(f).0) == (Stop(f).0, 0)
  {
  }

  /**
   * Stopping a running feed with a live subscription to some symbol leaves
   * the subscription in the key table but not in the cleared per-symbol
   * table, so the two tables no longer agree.
   */
  lemma StopLeavesKeyTable(f: Feed, key: nat, sym: string)
    requires f.keepRunning && key in f.subs && sym in f.subs[key]
    ensures !Indexed(Stop(f).0)
  {
    var g := Stop(f).0;
    assert key in g.subs && sym in g.subs[key] && sym !in g.bySymbol;
  }
}
