/**
 * dto/Limit.java (and dto/GlobalLimits.java): three sliding windows of one
 * minute, one hour and one day. A request is checked against all three in that
 * order, stopping at the first window found at or over its ceiling; only when
 * all three pass is it recorded in all three.
 *
 * The ceilings come from configuration getters on every call, so they are a
 * parameter here. GlobalLimits is a Limit used with `GlobalDefaults`.
 */
module Limits {
  import opened Windows

  const MinuteMillis: int := 60_000
  const HourMillis: int := 3_600_000
  const DayMillis: int := 86_400_000

  /** The three ceilings the getters return: requests per minute, per hour, per day. */
  datatype Ceilings = Ceilings(perMinute: int, perHour: int, perDay: int)

  /** GlobalLimits' defaults when the configuration holds no value. */
  const GlobalDefaults: Ceilings := Ceilings(30, 600, 1200)

  /** The three windows of one Limit. */
  datatype Quota = Quota(minute: Window, hour: Window, day: Window)

  const FreshQuota: Quota := Quota(FreshWindow, FreshWindow, FreshWindow)

  /** The result of `isRateLimitExceeded(now)` and the windows it leaves behind. */
  datatype Admission = Admission(exceeded: bool, quota: Quota)

  /** Limit.isRateLimitExceeded: short-circuit check of minute, hour, day, then record in all three. */
  function TryAdmit(q: Quota, c: Ceilings, now: int): Admission {
    var m := Roll(q.minute, MinuteMillis, now);
    if m.count >= c.perMinute then
      Admission(true, q.(minute := m))
    else
      var h := Roll(q.hour, HourMillis, now);
      if h.count >= c.perHour then
        Admission(true, q.(minute := m, hour := h))
      else
        var d := Roll(q.day, DayMillis, now);
        if d.count >= c.perDay then
          Admission(true, Quota(m, h, d))
        else
          Admission(false, Quota(Recorded(m, MinuteMillis, now), Recorded(h, HourMillis, now), Recorded(d, DayMillis, now)))
  }

  /** The three windows as they stand at `now` once each has been rolled. */
  function Rolled(q: Quota, now: int): Quota {
    Quota(Roll(q.minute, MinuteMillis, now), Roll(q.hour, HourMillis, now), Roll(q.day, DayMillis, now))
  }

  function Min3(a: int, b: int, c: int): (r: int)
    ensures r <= a && r <= b && r <= c
    ensures r == a || r == b || r == c
  {
    if a <= b && a <= c then a else if b <= c then b else c
  }

  /** The tightest of the three ceilings. */
  function Tightest(c: Ceilings): int {
    Min3(c.perMinute, c.perHour, c.perDay)
  }

  /** Admitted exactly when every window, once rolled, is below its ceiling. */
  lemma AdmittedIffAllBelow(q: Quota, c: Ceilings, now: int)
    ensures !TryAdmit(q, c, now).exceeded <==>
      var r := Rolled(q, now);
      r.minute.count < c.perMinute && r.hour.count < c.perHour && r.day.count < c.perDay
  {
  }

  /** A minute-window rejection leaves the hour and day windows exactly as they were. */
  lemma MinuteRejectionTouchesNothingElse(q: Quota, c: Ceilings, now: int)
    requires Roll(q.minute, MinuteMillis, now).count >= c.perMinute
    ensures TryAdmit(q, c, now).exceeded
    ensures TryAdmit(q, c, now).quota.hour == q.hour && TryAdmit(q, c, now).quota.day == q.day
  {
  }

  /** A rejected request counts in no window: every count is the rolled count. */
  lemma {:induction false} RejectionCountsNothing(q: Quota, c: Ceilings, now: int)
    requires TryAdmit(q, c, now).exceeded
    ensures Rolled(TryAdmit(q, c, now).quota, now) == Rolled(q, now)
  {
    RollSettles(q.minute, MinuteMillis, now);
    RollSettles(q.hour, HourMillis, now);
    RollSettles(q.day, DayMillis, now);
  }

  /** An admitted request counts exactly once in each of the three windows. */
  lemma {:induction false} AdmissionCountsOnce(q: Quota, c: Ceilings, now: int)
    requires !TryAdmit(q, c, now).exceeded
    ensures var a := TryAdmit(q, c, now).quota; var r := Rolled(q, now);
      && a.minute == Window(r.minute.count + 1, r.minute.start)
      && a.hour == Window(r.hour.count + 1, r.hour.start)
      && a.day == Window(r.day.count + 1, r.day.start)
    ensures Rolled(TryAdmit(q, c, now).quota, now) == TryAdmit(q, c, now).quota
  {
    RollSettles(q.minute, MinuteMillis, now);
    RollSettles(q.hour, HourMillis, now);
    RollSettles(q.day, DayMillis, now);
  }

  function Max0(x: int): nat {
    if x < 0 then 0 else x
  }

  /** Each window's count is within its ceiling (a non-positive ceiling allows 0). */
  predicate WithinCeilings(q: Quota, c: Ceilings) {
    q.minute.count <= Max0(c.perMinute) && q.hour.count <= Max0(c.perHour) && q.day.count <= Max0(c.perDay)
  }

  /** With fixed ceilings no window ever counts past its ceiling. */
  lemma TryAdmitKeepsCeilings(q: Quota, c: Ceilings, now: int)
    requires WithinCeilings(q, c)
    ensures WithinCeilings(TryAdmit(q, c, now).quota, c)
  {
  }

  /** The verdicts of `n` successive calls at one instant. */
  function Repeat(q: Quota, c: Ceilings, now: int, n: nat): (r: seq<bool>)
    ensures |r| == n
    decreases n
  {
    if n == 0 then [] else
      var a := TryAdmit(q, c, now);
      [a.exceeded] + Repeat(a.quota, c, now, n - 1)
  }

  /** Every window, rolled at `now`, holds `j` requests. */
  predicate CountsAt(q: Quota, now: int, j: nat) {
    var r := Rolled(q, now);
    r.minute.count == j && r.hour.count == j && r.day.count == j
  }

  lemma {:induction false} StepFromCounts(q: Quota, c: Ceilings, now: int, j: nat)
    requires CountsAt(q, now, j)
    ensures TryAdmit(q, c, now).exceeded <==> j >= Tightest(c)
    ensures CountsAt(TryAdmit(q, c, now).quota, now, if j >= Tightest(c) then j else j + 1)
  {
    var a := TryAdmit(q, c, now);
    if a.exceeded {
      RejectionCountsNothing(q, c, now);
    } else {
      AdmissionCountsOnce(q, c, now);
    }
  }

  /** From windows holding `j` requests each, call `i` (from 0) is rejected exactly when `i >= Tightest(c) - j`. */
  lemma {:induction false} RepeatFromCounts(q: Quota, c: Ceilings, now: int, n: nat, j: nat)
    requires CountsAt(q, now, j)
    ensures forall i | 0 <= i < n :: Repeat(q, c, now, n)[i] == (i >= Tightest(c) - j)
    decreases n
  {
    if n > 0 {
      var a := TryAdmit(q, c, now);
      StepFromCounts(q, c, now, j);
      var j' := if j >= Tightest(c) then j else j + 1;
      RepeatFromCounts(a.quota, c, now, n - 1, j');
      var r := Repeat(q, c, now, n);
      assert r == [a.exceeded] + Repeat(a.quota, c, now, n - 1);
      forall i | 0 <= i < n ensures r[i] == (i >= Tightest(c) - j) {
        if i > 0 {
          assert r[i] == Repeat(a.quota, c, now, n - 1)[i - 1];
        }
      }
    }
  }

  /** Repeated calls at one instant on a fresh Limit admit exactly the first min(perMinute, perHour, perDay) calls. */
  lemma FreshLimitAdmitsTightestCeiling(c: Ceilings, now: int, n: nat)
    ensures forall i | 0 <= i < n :: !Repeat(FreshQuota, c, now, n)[i] <==> i < Tightest(c)
  {
    RepeatFromCounts(FreshQuota, c, now, n, 0);
  }

  /** With GlobalLimits' defaults, a burst at one instant gets exactly 30 requests through server-wide. */
  lemma GlobalDefaultsAdmitThirty(now: int, n: nat)
    ensures forall i | 0 <= i < n :: !Repeat(FreshQuota, GlobalDefaults, now, n)[i] <==> i < 30
  {
    FreshLimitAdmitsTightestCeiling(GlobalDefaults, now, n);
  }

  /** Limit: three windows owned by this object, updated in place. */
  class Limit {
    const minuteWindow: SlidingWindow
    const hourWindow: SlidingWindow
    const dayWindow: SlidingWindow

    function Repr(): set<object> {
      {minuteWindow, hourWindow, dayWindow}
    }

    predicate Valid() {
      && minuteWindow != hourWindow && minuteWindow != dayWindow && hourWindow != dayWindow
      && minuteWindow.windowSize == MinuteMillis
      && hourWindow.windowSize == HourMillis
      && dayWindow.windowSize == DayMillis
    }

    function State(): Quota
      reads Repr()
    {
      Quota(minuteWindow.State(), hourWindow.State(), dayWindow.State())
    }

    constructor ()
      ensures Valid() && fresh(Repr())
      ensures State() == FreshQuota
    {
      minuteWindow := new SlidingWindow(MinuteMillis);
      hourWindow := new SlidingWindow(HourMillis);
      dayWindow := new SlidingWindow(DayMillis);
    }

    method IsRateLimitExceeded(now: int, c: Ceilings) returns (exceeded: bool)
      requires Valid()
      modifies Repr()
      ensures Admission(exceeded, State()) == TryAdmit(old(State()), c, now)
      ensures WithinCeilings(old(State()), c) ==> WithinCeilings(State(), c)
    {
      if WithinCeilings(State(), c) {
        TryAdmitKeepsCeilings(State(), c, now);
      }
      var m := minuteWindow.IsRateLimitExceeded(now, c.perMinute);
      if m {
        return true;
      }
      var h := hourWindow.IsRateLimitExceeded(now, c.perHour);
      if h {
        return true;
      }
      var d := dayWindow.IsRateLimitExceeded(now, c.perDay);
      if d {
        return true;
      }
      minuteWindow.Record(now);
      hourWindow.Record(now);
      dayWindow.Record(now);
      return false;
    }
  }
}
