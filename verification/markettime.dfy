/**
 * The A-share trading calendar within one day. A time is an integer number
 * of milliseconds; the day it belongs to starts at t - t % DayMs, and every
 * landmark (09:15 opening auction, 09:30 open, 11:30 morning close, 13:00
 * afternoon open, 14:57 closing auction, 15:00 close) is that day start plus
 * a fixed offset. Durations are returned in seconds as reals.
 */
module MarketTime {
  import Arith

  const SecondMs: int := 1000
  const MinuteMs: int := 60_000
  const HourMs: int := 3_600_000
  const DayMs: int := 86_400_000

  const OpeningAuctionOffset: int := 9 * HourMs + 15 * MinuteMs
  const OpenOffset: int := 9 * HourMs + 30 * MinuteMs
  const MorningCloseOffset: int := 11 * HourMs + 30 * MinuteMs
  const AfternoonOpenOffset: int := 13 * HourMs
  const ClosingAuctionOffset: int := 14 * HourMs + 57 * MinuteMs
  const CloseOffset: int := 15 * HourMs

  /** Length of the lunch break, 11:30 to 13:00. */
  const BreakMs: int := AfternoonOpenOffset - MorningCloseOffset

  function DayStart(t: int): int
  {
    t - t % DayMs
  }

  function OpeningAuction(t: int): int { DayStart(t) + OpeningAuctionOffset }
  function Open(t: int): int { DayStart(t) + OpenOffset }
  function MorningClose(t: int): int { DayStart(t) + MorningCloseOffset }
  function AfternoonOpen(t: int): int { DayStart(t) + AfternoonOpenOffset }
  function ClosingAuction(t: int): int { DayStart(t) + ClosingAuctionOffset }
  function Close(t: int): int { DayStart(t) + CloseOffset }

  /** A time k milliseconds after a day start belongs to that day. */
  lemma DayStartOffset(t: int, k: int)
    requires 0 <= k < DayMs
    ensures DayStart(DayStart(t) + k) == DayStart(t)
  {
    var q := t / DayMs;
    assert DayStart(t) == q * DayMs;
    assert (q * DayMs + k) / DayMs == q;
  }

  /** Strictly between the morning close and the afternoon open. */
  function IsAfternoonBreak(t: int): (r: bool)
    ensures r <==> MorningCloseOffset < t - DayStart(t) < AfternoonOpenOffset
  {
    MorningClose(t) < t < AfternoonOpen(t)
  }

  /** Continuous trading runs from 09:30 up to and including 14:57. */
  function IsInContinuousTrading(t: int): (r: bool)
    ensures r <==> OpenOffset <= t - DayStart(t) <= ClosingAuctionOffset
  {
    Open(t) <= t <= ClosingAuction(t)
  }

  /** 09:15 to 11:30 or 13:00 to 15:00, both ends included. */
  function IsInMarketTime(t: int): (r: bool)
    ensures r <==> (OpeningAuctionOffset <= t - DayStart(t) <= MorningCloseOffset
                    || AfternoonOpenOffset <= t - DayStart(t) <= CloseOffset)
    ensures IsInContinuousTrading(t) && !IsAfternoonBreak(t) ==> r
  {
    (OpeningAuction(t) <= t <= MorningClose(t)) || (AfternoonOpen(t) <= t <= Close(t))
  }

  /** The whole milliseconds of a duration in seconds: floor(x) seconds plus the truncated fraction. */
  function DeltaMs(secs: real): (d: int)
    ensures secs >= 0.0 ==> d >= 0
    ensures secs.Floor * SecondMs <= d < secs.Floor * SecondMs + SecondMs
  {
    var whole := secs.Floor;
    var frac := ((secs - whole as real) * 1000.0).Floor;
    whole * SecondMs + frac
  }

  /** The end time before the result is clamped into [09:30, 15:00]. */
  function AddMarketDurationRaw(ref: int, secs: real): int
  {
    var delta := DeltaMs(secs);
    var raw := ref + delta;
    if MorningClose(ref) <= ref < AfternoonOpen(ref) then
      (if secs.Floor > 0 then AfternoonOpen(ref) + delta else MorningClose(ref) + delta)
    else if ref < MorningClose(ref) && raw > MorningClose(ref) then raw + BreakMs
    else if ref > AfternoonOpen(ref) && raw < AfternoonOpen(ref) then raw - BreakMs
    else raw
  }

  /**
   * The time a market duration of secs seconds after ref ends, skipping the
   * lunch break and clamped into [09:30, 15:00] of ref's day.
   */
  function AddMarketDuration(ref: int, secs: real): (r: int)
    ensures Open(ref) <= r <= Close(ref)
    ensures DayStart(r) == DayStart(ref)
    ensures ref < MorningClose(ref) && ref + DeltaMs(secs) > MorningClose(ref) ==>
              r == Arith.Max(Arith.Min(ref + DeltaMs(secs) + BreakMs, Close(ref)), Open(ref))
  {
    var r := Arith.Max(Arith.Min(AddMarketDurationRaw(ref, secs), Close(ref)), Open(ref));
    DayStartOffset(ref, r - DayStart(ref));
    r
  }

  /** In a session: 09:30 up to (excluding) 11:30, or 13:00 up to 15:00. */
  predicate InSession(t: int)
  {
    (Open(t) <= t < MorningClose(t)) || (AfternoonOpen(t) <= t <= Close(t))
  }

  /**
   * The earliest time at or after t at which trading can start: before 09:30
   * it is 09:30, from 11:30 to 13:00 (both included) it is 13:00.
   */
  function AvailableStart(t: int): (r: int)
    ensures r >= t
    ensures DayStart(r) == DayStart(t)
    ensures t < Open(t) ==> r == Open(t)
    ensures MorningClose(t) <= t <= AfternoonOpen(t) ==> r == AfternoonOpen(t)
    ensures !(t < Open(t)) && !(MorningClose(t) <= t <= AfternoonOpen(t)) ==> r == t
    ensures r >= Open(r) && !(MorningClose(r) <= r < AfternoonOpen(r))
  {
    if t < Open(t) then
      DayStartOffset(t, OpenOffset);
      Open(t)
    else if MorningClose(t) <= t <= AfternoonOpen(t) then
      DayStartOffset(t, AfternoonOpenOffset);
      AfternoonOpen(t)
    else t
  }

  lemma AvailableStartIdempotent(t: int)
    ensures AvailableStart(AvailableStart(t)) == AvailableStart(t)
  {
  }

  /** The market duration from start to end in milliseconds, as the source computes it. */
  function MarketDurationMs(start: int, end: int): int
  {
    if start > end then 0
    else
      var e := if end < Close(start) then end else Close(start);
      var d0 := e - start;
      var d1 := if start < Open(start) then d0 - (Open(start) - start) else d0;
      if e > MorningClose(start) && e < AfternoonOpen(start) then MorningClose(start) - start
      else if start < MorningClose(start) && e >= AfternoonOpen(start) then d1 - BreakMs
      else if start > MorningClose(start) && start <= AfternoonOpen(start) && e >= AfternoonOpen(start) then
        e - AfternoonOpen(start)
      else d1
  }

  /** The market duration from start to end in seconds. */
  function MarketDuration(start: int, end: int): (r: real)
    ensures start > end ==> r == 0.0
    ensures start <= Close(start) && start <= end ==>
              r == MarketDurationMs(start, Arith.Min(end, Close(start))) as real / 1000.0
  {
    MarketDurationMs(start, end) as real / 1000.0
  }

  function Overlap(a: int, b: int, lo: int, hi: int): (r: int)
    ensures r >= 0
  {
    var l := Arith.Max(a, lo);
    var h := Arith.Min(b, hi);
    if h > l then h - l else 0
  }

  /**
   * Reference measure: the milliseconds of [start, end] that fall in the
   * morning or afternoon session of start's day.
   */
  function SessionOverlapMs(start: int, end: int): (r: int)
    ensures r >= 0
  {
    Overlap(start, end, Open(start), MorningClose(start))
      + Overlap(start, end, AfternoonOpen(start), Close(start))
  }

  /**
   * When start lies in a session, the source's duration is exactly the
   * session time covered by [start, end].
   */
  lemma MarketDurationIsSessionOverlap(start: int, end: int)
    requires InSession(start)
    requires start <= end
    ensures MarketDurationMs(start, end) == SessionOverlapMs(start, end)
  {
  }

  /** Before 09:30 nothing has elapsed; later it is the duration since 09:30. */
  function DurationSinceOpen(cur: int): (r: real)
    ensures cur <= Open(cur) ==> r == 0.0
    ensures r >= 0.0
    ensures cur > Open(cur) ==> r == SessionOverlapMs(Open(cur), cur) as real / 1000.0
  {
    if cur <= Open(cur) then 0.0
    else
      DayStartOffset(cur, OpenOffset);
      MarketDurationIsSessionOverlap(Open(cur), cur);
      MarketDuration(Open(cur), cur)
  }

  /**
   * Adding a market duration to a time in a session and measuring the
   * duration back gives the same number of milliseconds, as long as the end
   * does not pass 15:00.
   */
  lemma AddThenMeasure(ref: int, secs: real)
    requires InSession(ref)
    requires secs >= 0.0
    requires ref + DeltaMs(secs) + (if ref < MorningClose(ref) && ref + DeltaMs(secs) > MorningClose(ref) then BreakMs else 0) <= Close(ref)
    ensures MarketDurationMs(ref, AddMarketDuration(ref, secs)) == DeltaMs(secs)
  {
  }

  /** As written the duration is negative for two times inside the lunch break. */
  lemma NegativeDurationInBreak()
    ensures MarketDurationMs(MorningCloseOffset + 10 * MinuteMs, MorningCloseOffset + 20 * MinuteMs) == -10 * MinuteMs
  {
  }

  /** As written, a start exactly at 11:30 counts the lunch break. */
  lemma BreakCountedFromMorningClose()
    ensures MarketDurationMs(MorningCloseOffset, AfternoonOpenOffset + MinuteMs) == BreakMs + MinuteMs
  {
  }

  /** As written, a start before 09:30 with an end in the break counts the pre-open time. */
  lemma PreOpenCountedBeforeBreak()
    ensures MarketDurationMs(OpenOffset - 30 * MinuteMs, MorningCloseOffset + MinuteMs)
            == MorningCloseOffset - OpenOffset + 30 * MinuteMs
  {
  }
}
