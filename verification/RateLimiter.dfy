/**
 The three-window delivery rate limiter. A check is two atomic updates of the stored endpoint, a reset and a conditional
 increment; other workers' updates may fall between them.
 */
module RateLimiter {
  import opened Common
  import opened Wrappers

  datatype Which = Minute | Hour | Day

  datatype Window = Window(count: nat, resetAt: Option<Time>)

  datatype Limits = Limits(perMinute: nat, perHour: nat, perDay: nat)

  datatype Counters = Counters(minute: Window, hour: Window, day: Window)

  function Length(which: Which): nat {
    match which
    case Minute => 60_000
    case Hour => 3_600_000
    case Day => 86_400_000
  }

  function LimitOf(limits: Limits, which: Which): nat {
    match which
    case Minute => limits.perMinute
    case Hour => limits.perHour
    case Day => limits.perDay
  }

  function WindowOf(c: Counters, which: Which): Window {
    match which
    case Minute => c.minute
    case Hour => c.hour
    case Day => c.day
  }

  /** A missing reset time sorts before every date. */
  predicate Expired(w: Window, now: Time) {
    w.resetAt.None? || w.resetAt.value < now
  }

  function Refresh(w: Window, now: Time, length: nat): Window {
    if Expired(w, now) then Window(0, Some(now + length)) else w
  }

  function RefreshAll(c: Counters, now: Time): Counters {
    Counters(Refresh(c.minute, now, Length(Minute)), Refresh(c.hour, now, Length(Hour)), Refresh(c.day, now, Length(Day)))
  }

  predicate BelowAll(c: Counters, limits: Limits) {
    c.minute.count < limits.perMinute && c.hour.count < limits.perHour && c.day.count < limits.perDay
  }

  function Bump(w: Window): Window {
    w.(count := w.count + 1)
  }

  function BumpAll(c: Counters): Counters {
    Counters(Bump(c.minute), Bump(c.hour), Bump(c.day))
  }

  // ---------- the service ----------

  datatype CheckResult =
    | Allowed
    | EndpointNotFound
    | Exceeded(which: Which, retryAfterMs: nat)
    | LostRace(retryAfterMs: nat)

  /** The stored endpoint document, or none when the endpoint does not exist. */
  class EndpointRecord {
    var exists_: bool
    var deliveriesThisMinute: nat
    var deliveriesThisHour: nat
    var deliveriesThisDay: nat
    var minuteResetAt: Option<Time>
    var hourResetAt: Option<Time>
    var dayResetAt: Option<Time>
    var rateLimit: Limits

    ghost function Contents(): Counters
      reads this
    {
      Counters(Window(deliveriesThisMinute, minuteResetAt), Window(deliveriesThisHour, hourResetAt),
               Window(deliveriesThisDay, dayResetAt))
    }

    constructor (limits: Limits)
      ensures exists_ && rateLimit == limits
      ensures Contents() == Counters(Window(0, None), Window(0, None), Window(0, None))
    {
      exists_, rateLimit := true, limits;
      deliveriesThisMinute, deliveriesThisHour, deliveriesThisDay := 0, 0, 0;
      minuteResetAt, hourResetAt, dayResetAt := None, None, None;
    }

    /** The first update: every window whose reset time has passed starts again. */
    method ResetExpired(now: Time)
      modifies this
      ensures exists_ == old(exists_) && rateLimit == old(rateLimit)
      ensures Contents() == if exists_ then RefreshAll(old(Contents()), now) else old(Contents())
      ensures exists_ && old(minuteResetAt.None? || minuteResetAt.value < now) ==>
                deliveriesThisMinute == 0 && minuteResetAt == Some(now + 60_000)
      ensures exists_ && old(hourResetAt.None? || hourResetAt.value < now) ==>
                deliveriesThisHour == 0 && hourResetAt == Some(now + 3_600_000)
      ensures exists_ && old(dayResetAt.None? || dayResetAt.value < now) ==>
                deliveriesThisDay == 0 && dayResetAt == Some(now + 86_400_000)
      ensures !exists_ || old(minuteResetAt.Some? && minuteResetAt.value >= now) ==>
                deliveriesThisMinute == old(deliveriesThisMinute) && minuteResetAt == old(minuteResetAt)
      ensures !exists_ || old(hourResetAt.Some? && hourResetAt.value >= now) ==>
                deliveriesThisHour == old(deliveriesThisHour) && hourResetAt == old(hourResetAt)
      ensures !exists_ || old(dayResetAt.Some? && dayResetAt.value >= now) ==>
                deliveriesThisDay == old(deliveriesThisDay) && dayResetAt == old(dayResetAt)
    {
      if !exists_ {
        return;
      }
      if minuteResetAt.None? || minuteResetAt.value < now {
        deliveriesThisMinute, minuteResetAt := 0, Some(now + 60_000);
      }
      if hourResetAt.None? || hourResetAt.value < now {
        deliveriesThisHour, hourResetAt := 0, Some(now + 3_600_000);
      }
      if dayResetAt.None? || dayResetAt.value < now {
        deliveriesThisDay, dayResetAt := 0, Some(now + 86_400_000);
      }
    }

    /** The second update: all three counters move together, or none does. */
    method TryIncrement(rl: Limits) returns (incremented: bool)
      modifies this
      ensures exists_ == old(exists_) && rateLimit == old(rateLimit)
      ensures incremented <==> exists_ && BelowAll(old(Contents()), rl)
      ensures Contents() == if incremented then BumpAll(old(Contents())) else old(Contents())
      ensures incremented <==>
                exists_ && old(deliveriesThisMinute < rl.perMinute && deliveriesThisHour < rl.perHour && deliveriesThisDay < rl.perDay)
      ensures var one := if incremented then 1 else 0;
              && deliveriesThisMinute == old(deliveriesThisMinute) + one && deliveriesThisHour == old(deliveriesThisHour) + one
              && deliveriesThisDay == old(deliveriesThisDay) + one
    {
      incremented := exists_ && deliveriesThisMinute < rl.perMinute && deliveriesThisHour < rl.perHour
                     && deliveriesThisDay < rl.perDay;
      if incremented {
        deliveriesThisMinute, deliveriesThisHour, deliveriesThisDay :=
          deliveriesThisMinute + 1, deliveriesThisHour + 1, deliveriesThisDay + 1;
      }
    }

    /** Up to the second update: the refusal to return, or the limits and reset time to go on with. */
    method BeginCheck(now: Time) returns (refusal: Option<CheckResult>, rl: Limits, minuteReset: Time)
      modifies this
      ensures exists_ == old(exists_) && rateLimit == old(rateLimit)
      ensures Contents() == if exists_ then RefreshAll(old(Contents()), now) else old(Contents())
      ensures refusal.None? <==> exists_ && BelowAll(Contents(), rateLimit)
      ensures refusal.None? ==> rl == rateLimit && Contents().minute.resetAt == Some(minuteReset) && now <= minuteReset
      ensures !exists_ ==> refusal == Some(EndpointNotFound)
      ensures refusal.Some? && exists_ ==>
                && refusal.value.Exceeded?
                && var w := WindowOf(Contents(), refusal.value.which);
                   w.count >= LimitOf(rateLimit, refusal.value.which) && w.resetAt == Some(now + refusal.value.retryAfterMs)
      ensures refusal.Some? && exists_ ==>
                refusal.value.which == if deliveriesThisMinute >= rateLimit.perMinute then Minute
                                       else if deliveriesThisHour >= rateLimit.perHour then Hour else Day
    {
      rl, minuteReset := rateLimit, now;
      ResetExpired(now);
      if !exists_ {
        return Some(EndpointNotFound), rl, now;
      }
      minuteReset := minuteResetAt.value;
      if deliveriesThisMinute >= rl.perMinute {
        return Some(Exceeded(Minute, Max(0, minuteResetAt.value - now))), rl, minuteReset;
      }
      if deliveriesThisHour >= rl.perHour {
        return Some(Exceeded(Hour, Max(0, hourResetAt.value - now))), rl, minuteReset;
      }
      if deliveriesThisDay >= rl.perDay {
        return Some(Exceeded(Day, Max(0, dayResetAt.value - now))), rl, minuteReset;
      }
      refusal := None;
    }

    /** From the second update on. `now` is still the clock value read at the start. */
    method FinishCheck(now: Time, rl: Limits, minuteReset: Time) returns (result: CheckResult)
      modifies this
      ensures exists_ == old(exists_) && rateLimit == old(rateLimit)
      ensures result.Allowed? <==> exists_ && BelowAll(old(Contents()), rl)
      ensures Contents() == if result.Allowed? then BumpAll(old(Contents())) else old(Contents())
      ensures !result.Allowed? ==> result == LostRace(Max(500, minuteReset - now))
    {
      var inc := TryIncrement(rl);
      if !inc {
        return LostRace(Max(500, minuteReset - now));
      }
      return Allowed;
    }

    /** A check that no other worker interrupts admits exactly when every refreshed window has room; it never races. */
    method CheckRateLimit(now: Time) returns (result: CheckResult)
      modifies this
      ensures result.Allowed? <==> old(exists_ && BelowAll(RefreshAll(Contents(), now), rateLimit))
      ensures Contents() == if result.Allowed? then BumpAll(RefreshAll(old(Contents()), now))
                            else if old(exists_) then RefreshAll(old(Contents()), now) else old(Contents())
      ensures !result.LostRace?
    {
      var refusal, rl, minuteReset := BeginCheck(now);
      if refusal.Some? {
        return refusal.value;
      }
      result := FinishCheck(now, rl, minuteReset);
    }
  }

  // ---------- interleavings of all workers ----------

  /** `Reset` carries the clock value its worker read; the update itself happens at the step's time. */
  datatype Step = Reset(clock: Time) | Increment

  datatype Timed = At(time: Time, step: Step)

  type Run = seq<Timed>

  function Apply(c: Counters, limits: Limits, step: Step): Counters {
    match step
    case Reset(clock) => RefreshAll(c, clock)
    case Increment => if BelowAll(c, limits) then BumpAll(c) else c
  }

  function Execute(start: Counters, limits: Limits, run: Run): Counters {
    if run == [] then start else Apply(Execute(start, limits, Front(run)), limits, Last(run).step)
  }

  /** When deliveries were admitted, in order. */
  function Admissions(start: Counters, limits: Limits, run: Run): seq<Time> {
    if run == [] then []
    else
      Admissions(start, limits, Front(run)) +
      if Last(run).step.Increment? && BelowAll(Execute(start, limits, Front(run)), limits) then [Last(run).time] else []
  }

  predicate ResetsNow(start: Counters, limits: Limits, run: Run, which: Which)
    requires run != []
  {
    Last(run).step.Reset? && Expired(WindowOf(Execute(start, limits, Front(run)), which), Last(run).step.clock)
  }

  /** The length of the run up to and including the last reset of a window; 0 when there was none. */
  function ResetIndex(start: Counters, limits: Limits, run: Run, which: Which): (k: nat)
    ensures k <= |run|
  {
    if run == [] then 0
    else if ResetsNow(start, limits, run, which) then |run|
    else ResetIndex(start, limits, Front(run), which)
  }

  /** Steps in time order, each clock value at most `lag` old when its update happens. */
  predicate Chronological(run: Run, lag: nat) {
    run == [] || (
      && Chronological(Front(run), lag)
      && (|run| > 1 ==> Last(Front(run)).time <= Last(run).time)
      && (Last(run).step.Reset? ==> Last(run).step.clock <= Last(run).time <= Last(run).step.clock + lag))
  }

  predicate WithinLimits(c: Counters, limits: Limits) {
    c.minute.count <= limits.perMinute && c.hour.count <= limits.perHour && c.day.count <= limits.perDay
  }

  /** In every interleaving all three counters stay at or below their limits. */
  lemma {:induction false} CountersStayWithinLimits(start: Counters, limits: Limits, run: Run)
    requires WithinLimits(start, limits)
    ensures WithinLimits(Execute(start, limits, run), limits)
  {
    if run != [] {
      CountersStayWithinLimits(start, limits, Front(run));
    }
  }

  /** Each counter is the number of admissions since its window's last reset (plus what it started with, if never reset). */
  lemma {:induction false} CounterCountsAdmissions(start: Counters, limits: Limits, run: Run, which: Which)
    ensures var k := ResetIndex(start, limits, run, which);
            |Admissions(start, limits, run[..k])| + WindowOf(Execute(start, limits, run), which).count
            == |Admissions(start, limits, run)| + if k == 0 then WindowOf(start, which).count else 0
  {
    if run != [] {
      CounterCountsAdmissions(start, limits, Front(run), which);
      var k := ResetIndex(start, limits, run, which);
      if k == |run| {
        assert run[..k] == run;
      } else {
        assert Front(run)[..k] == run[..k];
      }
    }
  }

  // ---------- how many deliveries fit in an interval ----------

  function CountFrom(times: seq<Time>, a: Time): nat {
    if times == [] then 0
    else CountFrom(times[..|times| - 1], a) + if times[|times| - 1] >= a then 1 else 0
  }

  function CountIn(times: seq<Time>, a: Time, b: Time): nat {
    if times == [] then 0
    else CountIn(times[..|times| - 1], a, b) + if a <= times[|times| - 1] <= b then 1 else 0
  }

  lemma {:induction false} CountInAtMostFrom(times: seq<Time>, a: Time, b: Time)
    ensures CountIn(times, a, b) <= CountFrom(times, a)
  {
    if times != [] {
      CountInAtMostFrom(times[..|times| - 1], a, b);
    }
  }

  lemma CountFromAppend(times: seq<Time>, t: Time, a: Time)
    ensures CountFrom(times + [t], a) == CountFrom(times, a) + if t >= a then 1 else 0
  {
    assert (times + [t])[..|times|] == times;
  }

  lemma CountInAppend(times: seq<Time>, t: Time, a: Time, b: Time)
    ensures CountIn(times + [t], a, b) == CountIn(times, a, b) + if a <= t <= b then 1 else 0
  {
    assert (times + [t])[..|times|] == times;
  }

  lemma {:induction false} NoneFrom(times: seq<Time>, a: Time)
    requires forall i | 0 <= i < |times| :: times[i] < a
    ensures CountFrom(times, a) == 0
  {
    if times != [] {
      NoneFrom(times[..|times| - 1], a);
    }
  }

  /** What a window remembers: when it was last reset, and how far its counter had come by then. */
  datatype Memory = Memory(lastReset: Option<Time>, previous: nat)

  function Remember(start: Counters, limits: Limits, run: Run, which: Which): Memory {
    var k := ResetIndex(start, limits, run, which);
    if k == 0 then Memory(None, 0)
    else Memory(Some(run[k - 1].time), WindowOf(Execute(start, limits, run[..k - 1]), which).count)
  }

  lemma RememberStep(start: Counters, limits: Limits, run: Run, which: Which)
    requires run != []
    ensures Remember(start, limits, run, which) ==
            if ResetsNow(start, limits, run, which)
            then Memory(Some(Last(run).time), WindowOf(Execute(start, limits, Front(run)), which).count)
            else Remember(start, limits, Front(run), which)
  {
    var k := ResetIndex(start, limits, run, which);
    if !ResetsNow(start, limits, run, which) && k > 0 {
      assert Front(run)[..k - 1] == run[..k - 1];
    }
  }

  /**
   With `gap` the window length less the clock lag: admissions after the last reset are in the counter, and those up to
   `gap` before it are in the counter or in its value at that reset.
   */
  ghost predicate Accounted(w: Window, m: Memory, times: seq<Time>, limit: nat, gap: nat, now: Time) {
    && w.count <= limit && m.previous <= limit
    && (forall i | 0 <= i < |times| :: times[i] <= now)
    && (m.lastReset.Some? ==> m.lastReset.value <= now && w.resetAt.Some? && w.resetAt.value >= m.lastReset.value + gap)
    && (forall a | m.lastReset.Some? ==> a > m.lastReset.value :: CountFrom(times, a) <= w.count)
    && (forall a | m.lastReset.Some? ==> a >= m.lastReset.value - gap :: CountFrom(times, a) <= m.previous + w.count)
  }

  lemma AccountedReset(w: Window, m: Memory, times: seq<Time>, limit: nat, length: nat, lag: nat, now: Time, clock: Time)
    requires lag <= length && Accounted(w, m, times, limit, length - lag, now)
    requires Expired(w, clock) && clock <= now <= clock + lag
    ensures Accounted(Refresh(w, clock, length), Memory(Some(now), w.count), times, limit, length - lag, now)
  {
    forall a | a > now
      ensures CountFrom(times, a) == 0
    {
      NoneFrom(times, a);
    }
  }

  lemma AccountedAdmit(w: Window, m: Memory, times: seq<Time>, limit: nat, gap: nat, now: Time)
    requires Accounted(w, m, times, limit, gap, now) && w.count < limit
    ensures Accounted(Bump(w), m, times + [now], limit, gap, now)
  {
    forall a
      ensures CountFrom(times + [now], a) == CountFrom(times, a) + if now >= a then 1 else 0
    {
      CountFromAppend(times, now, a);
    }
  }

  lemma AccountedNow(w: Window, m: Memory, times: seq<Time>, limit: nat, gap: nat, now: Time, later: Time)
    requires Accounted(w, m, times, limit, gap, now) && now <= later
    ensures Accounted(w, m, times, limit, gap, later)
  {
  }

  /** The window, its memory and the admissions satisfy the accounting at the given moment. */
  ghost predicate AccountedAfter(start: Counters, limits: Limits, run: Run, which: Which, lag: nat, now: Time)
    requires lag <= Length(which)
  {
    Accounted(WindowOf(Execute(start, limits, run), which), Remember(start, limits, run, which),
              Admissions(start, limits, run), LimitOf(limits, which), Length(which) - lag, now)
  }

  lemma ResetAccounted(start: Counters, limits: Limits, run: Run, which: Which, lag: nat)
    requires run != [] && Last(run).step.Reset? && lag <= Length(which)
    requires Last(run).step.clock <= Last(run).time <= Last(run).step.clock + lag
    requires AccountedAfter(start, limits, Front(run), which, lag, Last(run).time)
    ensures AccountedAfter(start, limits, run, which, lag, Last(run).time)
  {
    RememberStep(start, limits, run, which);
    var t, clock := Last(run).time, Last(run).step.clock;
    var w := WindowOf(Execute(start, limits, Front(run)), which);
    var times := Admissions(start, limits, Front(run));
    assert Admissions(start, limits, run) == times;
    assert WindowOf(Execute(start, limits, run), which) == Refresh(w, clock, Length(which));
    if Expired(w, clock) {
      AccountedReset(w, Remember(start, limits, Front(run), which), times, LimitOf(limits, which), Length(which), lag, t, clock);
    }
  }

  lemma IncrementEffect(start: Counters, limits: Limits, run: Run, which: Which)
    requires run != [] && Last(run).step.Increment?
    ensures var c, times := Execute(start, limits, Front(run)), Admissions(start, limits, Front(run));
            var after := WindowOf(Execute(start, limits, run), which);
            if BelowAll(c, limits)
            then
              && WindowOf(c, which).count < LimitOf(limits, which)
              && after == Bump(WindowOf(c, which))
              && Admissions(start, limits, run) == times + [Last(run).time]
            else
              after == WindowOf(c, which) && Admissions(start, limits, run) == times
  {
  }

  lemma IncrementAccounted(start: Counters, limits: Limits, run: Run, which: Which, lag: nat)
    requires run != [] && Last(run).step.Increment? && lag <= Length(which)
    requires AccountedAfter(start, limits, Front(run), which, lag, Last(run).time)
    ensures AccountedAfter(start, limits, run, which, lag, Last(run).time)
  {
    RememberStep(start, limits, run, which);
    IncrementEffect(start, limits, run, which);
    var c := Execute(start, limits, Front(run));
    if BelowAll(c, limits) {
      AccountedAdmit(WindowOf(c, which), Remember(start, limits, Front(run), which), Admissions(start, limits, Front(run)),
                     LimitOf(limits, which), Length(which) - lag, Last(run).time);
    }
  }

  lemma {:induction false} WindowAccounted(start: Counters, limits: Limits, run: Run, which: Which, lag: nat, now: Time)
    requires WithinLimits(start, limits) && lag <= Length(which) && Chronological(run, lag)
    requires run != [] ==> Last(run).time <= now
    ensures AccountedAfter(start, limits, run, which, lag, now)
    decreases |run|
  {
    if run != [] {
      WindowAccounted(start, limits, Front(run), which, lag, Last(run).time);
      match Last(run).step {
        case Reset(_) => ResetAccounted(start, limits, run, which, lag);
        case Increment => IncrementAccounted(start, limits, run, which, lag);
      }
      AccountedNow(WindowOf(Execute(start, limits, run), which), Remember(start, limits, run, which),
                   Admissions(start, limits, run), LimitOf(limits, which), Length(which) - lag, Last(run).time, now);
    }
  }

  /** Two resets of a window are further apart than its length less the clock lag. */
  lemma ResetsApart(start: Counters, limits: Limits, run: Run, which: Which, lag: nat)
    requires WithinLimits(start, limits) && lag <= Length(which) && Chronological(run, lag)
    requires run != [] && ResetsNow(start, limits, run, which)
    ensures var m := Remember(start, limits, Front(run), which);
            m.lastReset.Some? ==> Last(run).time - m.lastReset.value > Length(which) - lag
  {
    WindowAccounted(start, limits, Front(run), which, lag, Last(run).time);
  }

  lemma BoundAtAdmission(start: Counters, limits: Limits, run: Run, which: Which, lag: nat, a: Time, b: Time)
    requires WithinLimits(start, limits) && lag <= Length(which) && Chronological(run, lag)
    requires run != [] && Last(run).time <= b && b - a <= Length(which) - lag
    ensures CountIn(Admissions(start, limits, run), a, b) <= 2 * LimitOf(limits, which)
  {
    WindowAccounted(start, limits, run, which, lag, b);
    AccountedBound(WindowOf(Execute(start, limits, run), which), Remember(start, limits, run, which),
                   Admissions(start, limits, run), LimitOf(limits, which), Length(which) - lag, a, b);
  }

  lemma AccountedBound(w: Window, m: Memory, times: seq<Time>, limit: nat, gap: nat, a: Time, b: Time)
    requires Accounted(w, m, times, limit, gap, b) && b - a <= gap
    ensures CountIn(times, a, b) <= 2 * limit
  {
    CountInAtMostFrom(times, a, b);
  }

  /**
   In every interleaving whose clock values are at most `lag` old, a closed interval shorter than the window by that lag
   admits at most twice the window's limit.
   */
  lemma {:induction false} IntervalBound(start: Counters, limits: Limits, run: Run, which: Which, lag: nat, a: Time, b: Time)
    requires WithinLimits(start, limits) && lag <= Length(which) && Chronological(run, lag)
    requires b - a <= Length(which) - lag
    ensures CountIn(Admissions(start, limits, run), a, b) <= 2 * LimitOf(limits, which)
    decreases |run|
  {
    if run != [] {
      IntervalBound(start, limits, Front(run), which, lag, a, b);
      var t := Last(run).time;
      var times, before := Admissions(start, limits, run), Admissions(start, limits, Front(run));
      if times != before {
        assert times == before + [t];
        CountInAppend(before, t, a, b);
        if a <= t <= b {
          BoundAtAdmission(start, limits, run, which, lag, a, b);
        }
      }
    }
  }

  /** With the clock read atomic with the reset, any 60 seconds admit at most 2 * maxPerMinute; likewise hours and days. */
  lemma AtomicClockBound(start: Counters, limits: Limits, run: Run, a: Time)
    requires WithinLimits(start, limits) && Chronological(run, 0)
    ensures CountIn(Admissions(start, limits, run), a, a + 60_000) <= 2 * limits.perMinute
    ensures CountIn(Admissions(start, limits, run), a, a + 3_600_000) <= 2 * limits.perHour
    ensures CountIn(Admissions(start, limits, run), a, a + 86_400_000) <= 2 * limits.perDay
  {
    IntervalBound(start, limits, run, Minute, 0, a, a + 60_000);
    IntervalBound(start, limits, run, Hour, 0, a, a + 3_600_000);
    IntervalBound(start, limits, run, Day, 0, a, a + 86_400_000);
  }

  // ---------- exactly how long the interval may be ----------

  const FRESH := Counters(Window(0, None), Window(0, None), Window(0, None))

  /** Every run with clock values at most `lag` old admits at most twice the limit in every closed interval of the length. */
  ghost predicate Bounded(which: Which, lag: nat, length: int) {
    forall start, limits, run, a | WithinLimits(start, limits) && Chronological(run, lag) ::
      AdmittedIn(start, limits, run, a, length) <= 2 * LimitOf(limits, which)
  }

  /** How many deliveries the run admits in the closed interval of the given length from `a`. */
  function AdmittedIn(start: Counters, limits: Limits, run: Run, a: Time, length: int): nat {
    CountIn(Admissions(start, limits, run), a, a + length)
  }

  /** One admission in the window, room for all three admissions in the others. */
  function TightLimits(which: Which): Limits {
    Limits(if which == Minute then 1 else 4, if which == Hour then 1 else 4, if which == Day then 1 else 4)
  }

  lemma AppendStep(start: Counters, limits: Limits, run: Run, step: Timed, lag: nat)
    requires Chronological(run, lag) && (run != [] ==> Last(run).time <= step.time)
    requires step.step.Reset? ==> step.step.clock <= step.time <= step.step.clock + lag
    ensures var c, longer := Execute(start, limits, run), run + [step];
            && Chronological(longer, lag) && Last(longer) == step
            && Execute(start, limits, longer) == Apply(c, limits, step.step)
            && Admissions(start, limits, longer) ==
               Admissions(start, limits, run) + if step.step.Increment? && BelowAll(c, limits) then [step.time] else []
  {
    assert Front(run + [step]) == run;
  }

  /** A refresh empties the expired window and raises no counter; an increment raises each by one. */
  lemma RefreshLowers(c: Counters, which: Which, clock: Time)
    ensures var after := RefreshAll(c, clock);
            && WindowOf(after, which) == Refresh(WindowOf(c, which), clock, Length(which))
            && after.minute.count <= c.minute.count && after.hour.count <= c.hour.count && after.day.count <= c.day.count
  {
  }

  predicate AtMost(c: Counters, n: nat) {
    c.minute.count <= n && c.hour.count <= n && c.day.count <= n
  }

  lemma TightRoom(c: Counters, which: Which)
    requires AtMost(c, 3) && WindowOf(c, which).count == 0
    ensures BelowAll(c, TightLimits(which))
  {
  }

  /**
   Three admissions under a limit of one in a closed interval one millisecond longer than the window less the lag: one
   just before a reset whose clock value is `lag` old, one just after it, and one after the next reset.
   */
  lemma StaleClocksOveradmit(which: Which, lag: nat) returns (run: Run, a: Time)
    requires lag <= Length(which)
    ensures Chronological(run, lag)
    ensures Admissions(FRESH, TightLimits(which), run) == [a, a, a + Length(which) - lag + 1]
  {
    var limits, length := TightLimits(which), Length(which);
    var t := length + 1 + lag;
    var r1 := [At(0, Reset(0))];
    var r2 := r1 + [At(t, Increment)];
    var r3 := r2 + [At(t, Reset(length + 1))];
    var r4 := r3 + [At(t, Increment)];
    var r5 := r4 + [At(2 * length + 2, Reset(2 * length + 2))];
    run, a := r5 + [At(2 * length + 2, Increment)], t;
    AppendStep(FRESH, limits, [], At(0, Reset(0)), lag);
    assert [] + r1 == r1;
    var c1 := RefreshAll(FRESH, 0);
    TightRoom(c1, which);
    AppendStep(FRESH, limits, r1, At(t, Increment), lag);
    AppendStep(FRESH, limits, r2, At(t, Reset(length + 1)), lag);
    RefreshLowers(BumpAll(c1), which, length + 1);
    var c3 := RefreshAll(BumpAll(c1), length + 1);
    TightRoom(c3, which);
    AppendStep(FRESH, limits, r3, At(t, Increment), lag);
    AppendStep(FRESH, limits, r4, At(2 * length + 2, Reset(2 * length + 2)), lag);
    RefreshLowers(BumpAll(c3), which, 2 * length + 2);
    TightRoom(RefreshAll(BumpAll(c3), 2 * length + 2), which);
    AppendStep(FRESH, limits, r5, At(2 * length + 2, Increment), lag);
  }

  lemma CountThree(a: Time, later: Time, end: Time)
    requires a <= later <= end
    ensures CountIn([a, a, later], a, end) == 3
  {
    var s := [a, a, later];
    assert s[..2] == [a, a] && s[..2][..1] == [a] && s[..2][..1][..0] == [];
    assert CountIn([a], a, end) == 1 && CountIn([a, a], a, end) == 2;
  }

  /**
   With clock values at most `lag` old, every closed interval of a length admits at most twice the limit, in every
   interleaving and under all limits, exactly when the length is at most the window less the lag.
   */
  lemma IntervalBoundExact(which: Which, lag: nat, length: int)
    requires lag <= Length(which)
    ensures Bounded(which, lag, length) <==> length <= Length(which) - lag
  {
    if length <= Length(which) - lag {
      forall start, limits, run, a | WithinLimits(start, limits) && Chronological(run, lag)
        ensures AdmittedIn(start, limits, run, a, length) <= 2 * LimitOf(limits, which)
      {
        IntervalBound(start, limits, run, which, lag, a, a + length);
      }
    } else {
      var run, a := StaleClocksOveradmit(which, lag);
      var limits := TightLimits(which);
      CountThree(a, a + Length(which) - lag + 1, a + length);
      assert WithinLimits(FRESH, limits) && LimitOf(limits, which) == 1;
      assert AdmittedIn(FRESH, limits, run, a, length) == 3;
    }
  }
}
