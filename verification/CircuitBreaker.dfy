/**
 The circuit breaker that all workers share through two Redis keys, a failure counter and an "open" flag, both with
 expiry. Every Redis command is one atomic step; workers interleave between commands.
 */
module CircuitBreaker {
  import opened Common
  import opened Wrappers

  type Duration = d: int | d > 0 witness 1

  datatype Config = Config(windowMs: Duration, resetMs: Duration, threshold: int)

  /** The counter key. `born` numbers the step that created it. */
  datatype Fails = Fails(count: nat, expiresAt: Option<Time>, born: nat)

  predicate FailsLive(key: Option<Fails>, now: Time) {
    key.Some? && (key.value.expiresAt.Some? ==> now < key.value.expiresAt.value)
  }

  predicate OpenLive(key: Option<Time>, now: Time) {
    key.Some? && now < key.value
  }

  // ---------- the service, one call at a time ----------

  datatype BreakerState = Closed | Open

  class SharedCircuitBreaker {
    const config: Config
    var fails: Option<Fails>
    var state: Option<Time>

    constructor (config: Config)
      ensures this.config == config && fails.None? && state.None?
    {
      this.config := config;
      fails, state := None, None;
    }

    method Incr(now: Time) returns (count: nat)
      modifies this`fails
      ensures FailsLive(old(fails), now) ==> fails == Some(old(fails).value.(count := count)) && count == old(fails).value.count + 1
      ensures !FailsLive(old(fails), now) ==> fails == Some(Fails(1, None, 0)) && count == 1
      ensures FailsLive(old(fails), now) <==>
                old(fails).Some? && (old(fails).value.expiresAt.None? || now < old(fails).value.expiresAt.value)
    {
      if FailsLive(fails, now) {
        fails := Some(fails.value.(count := fails.value.count + 1));
      } else {
        fails := Some(Fails(1, None, 0));
      }
      count := fails.value.count;
    }

    method IsOpen(now: Time) returns (open: bool)
      ensures open <==> OpenLive(state, now)
      ensures open <==> state.Some? && now < state.value
    {
      open := state.Some? && now < state.value;
    }

    /** Uninterrupted: the first failure starts the window, and the threshold-th opens for `resetMs`. */
    method RecordFailure(now: Time) returns (result: BreakerState)
      modifies this
      ensures fails.Some? && fails.value.count == (if FailsLive(old(fails), now) then old(fails).value.count + 1 else 1)
      ensures fails.value.count == 1 ==> fails.value.expiresAt == Some(now + config.windowMs)
      ensures fails.value.count > 1 ==> fails.value.expiresAt == old(fails).value.expiresAt
      ensures result == Open <==> fails.value.count >= config.threshold
      ensures state == if result == Open then Some(now + config.resetMs) else old(state)
    {
      var count := Incr(now);
      if count == 1 {
        fails := Some(fails.value.(expiresAt := Some(now + config.windowMs)));
      }
      if count >= config.threshold {
        state := Some(now + config.resetMs);
        return Open;
      }
      return Closed;
    }

    method RecordSuccess()
      modifies this
      ensures fails.None? && state.None?
    {
      state := None;
      fails := None;
    }
  }

  // ---------- interleavings ----------

  /** A worker inside `recordFailure`: the count its increment returned, and the step of that increment. */
  datatype Ticket = Ticket(count: nat, born: nat)

  datatype Event =
    | IncrFails
    | PExpire(ticket: Ticket)
    | SetOpen(ticket: Ticket)
    | DelState
    | DelFails
    | Crash(ticket: Ticket)

  datatype Timed = At(time: Time, event: Event)

  type Run = seq<Timed>

  /** `owing` holds workers that still have to set the counter's expiry, `opening` those about to set the flag. */
  datatype World = World(fails: Option<Fails>, state: Option<Time>, owing: set<Ticket>, opening: set<Ticket>)

  const START := World(None, None, {}, {})

  function MaybeOpening(w: World, ticket: Ticket, config: Config): World {
    if ticket.count >= config.threshold then w.(opening := w.opening + {ticket}) else w
  }

  function Step(w: World, config: Config, now: Time, event: Event, index: nat): World {
    match event
    case IncrFails =>
      var fails := if FailsLive(w.fails, now) then w.fails.value.(count := w.fails.value.count + 1) else Fails(1, None, index);
      var ticket := Ticket(fails.count, index);
      var next := w.(fails := Some(fails));
      if fails.count == 1 then next.(owing := next.owing + {ticket}) else MaybeOpening(next, ticket, config)
    case PExpire(ticket) =>
      if ticket !in w.owing then w
      else
        var fails := if FailsLive(w.fails, now) then Some(w.fails.value.(expiresAt := Some(now + config.windowMs))) else None;
        MaybeOpening(w.(fails := fails, owing := w.owing - {ticket}), ticket, config)
    case SetOpen(ticket) =>
      if ticket in w.opening then w.(state := Some(now + config.resetMs), opening := w.opening - {ticket}) else w
    case DelState => w.(state := None)
    case DelFails => w.(fails := None)
    case Crash(ticket) => w.(owing := w.owing - {ticket}, opening := w.opening - {ticket})
  }

  function Execute(run: Run, config: Config): World {
    if run == [] then START else Step(Execute(Front(run), config), config, Last(run).time, Last(run).event, |run| - 1)
  }

  predicate Chronological(run: Run) {
    run == [] || (Chronological(Front(run)) && (|run| > 1 ==> Last(Front(run)).time <= Last(run).time))
  }

  predicate NoCrash(run: Run) {
    forall i | 0 <= i < |run| :: !run[i].event.Crash?
  }

  /**
   The steps of one failure that no other worker interrupts do what `RecordFailure` does: the first failure on a vanished
   key sets the window's expiry, the threshold-th and later ones set the flag, and nothing is left owing.
   */
  lemma UninterruptedFailure(w: World, config: Config, now: Time, index: nat)
    requires Ticket(1, index) !in w.owing
    ensures var live := w.fails.Some? && (w.fails.value.expiresAt.None? || now < w.fails.value.expiresAt.value);
            var count := if live then w.fails.value.count + 1 else 1;
            var ticket := Ticket(count, index);
            var counted := Step(w, config, now, IncrFails, index);
            var expiring := if count == 1 then Step(counted, config, now, PExpire(ticket), index + 1) else counted;
            var done := if count >= config.threshold then Step(expiring, config, now, SetOpen(ticket), index + 2) else expiring;
            && (count == 1 ==> ticket in counted.owing)
            && (count >= config.threshold ==> ticket in expiring.opening)
            && done.fails.Some? && done.fails.value.count == count
            && done.fails.value.expiresAt == (if count == 1 then Some(now + config.windowMs) else w.fails.value.expiresAt)
            && done.state == (if count >= config.threshold then Some(now + config.resetMs) else w.state)
            && done.owing == w.owing
  {
  }

  // ---------- what a count means ----------

  /** Increments since the counter key last vanished, by deletion or expiry. */
  function SinceVanished(run: Run, config: Config): nat {
    if run == [] then 0
    else
      var kept := if FailsLive(Execute(Front(run), config).fails, Last(run).time) then SinceVanished(Front(run), config) else 0;
      SinceAfter(kept, Last(run).event)
  }

  function SinceAfter(kept: nat, event: Event): nat {
    if event.IncrFails? then kept + 1 else if event.DelFails? then 0 else kept
  }

  lemma CountStep(w: World, config: Config, t: Time, event: Event, index: nat, since: nat, now: Time)
    requires FailsLive(w.fails, t) ==> w.fails.value.count == since >= 1
    requires t <= now
    ensures var fails := Step(w, config, t, event, index).fails;
            var kept := if FailsLive(w.fails, t) then since else 0;
            && (FailsLive(fails, now) ==> fails.value.count == SinceAfter(kept, event) >= 1)
            && (event.IncrFails? ==> fails.Some? && fails.value.count == SinceAfter(kept, event))
  {
  }

  lemma {:induction false} CountIsSinceVanished(run: Run, config: Config, now: Time)
    requires Chronological(run) && (run != [] ==> Last(run).time <= now)
    ensures var fails := Execute(run, config).fails;
            FailsLive(fails, now) ==> fails.value.count == SinceVanished(run, config) >= 1
  {
    if run != [] {
      var t := Last(run).time;
      CountIsSinceVanished(Front(run), config, t);
      CountStep(Execute(Front(run), config), config, t, Last(run).event, |run| - 1, SinceVanished(Front(run), config), now);
    }
  }

  /** The ticket was issued by the increment at its step, and counts the increments since the key vanished. */
  ghost predicate Earned(ticket: Ticket, run: Run, config: Config) {
    && ticket.born < |run| && run[ticket.born].event.IncrFails?
    && ticket.count == SinceVanished(run[..ticket.born + 1], config)
  }

  ghost predicate TicketsEarned(w: World, run: Run, config: Config) {
    && (forall t <- w.owing :: Earned(t, run, config))
    && (forall t <- w.opening :: Earned(t, run, config) && t.count >= config.threshold)
  }

  lemma EarnedLater(ticket: Ticket, run: Run, config: Config)
    requires run != [] && Earned(ticket, Front(run), config)
    ensures Earned(ticket, run, config)
  {
    assert Front(run)[..ticket.born + 1] == run[..ticket.born + 1];
  }

  lemma EarnedNow(run: Run, config: Config)
    requires run != [] && Chronological(run) && Last(run).event.IncrFails?
    ensures var fails := Execute(run, config).fails;
            fails.Some? && Earned(Ticket(fails.value.count, |run| - 1), run, config)
  {
    assert run[..|run|] == run;
    var t := Last(run).time;
    CountIsSinceVanished(Front(run), config, t);
    CountStep(Execute(Front(run), config), config, t, Last(run).event, |run| - 1, SinceVanished(Front(run), config), t);
  }

  /** Where the tickets held after a step come from. */
  lemma TicketSources(w: World, config: Config, now: Time, event: Event, index: nat)
    ensures var next := Step(w, config, now, event, index);
            && (forall t <- next.owing :: t in w.owing || IsNew(t, next, event, index))
            && (forall t <- next.opening ::
                  t in w.opening || (t.count >= config.threshold && (t in w.owing || IsNew(t, next, event, index))))
  {
  }

  predicate IsNew(t: Ticket, next: World, event: Event, index: nat) {
    event.IncrFails? && next.fails.Some? && t == Ticket(next.fails.value.count, index)
  }

  lemma {:induction false} EveryTicketEarned(run: Run, config: Config)
    requires Chronological(run)
    ensures TicketsEarned(Execute(run, config), run, config)
  {
    if run != [] {
      var before, w := Execute(Front(run), config), Execute(run, config);
      EveryTicketEarned(Front(run), config);
      forall t | t in before.owing || t in before.opening
        ensures Earned(t, run, config)
      {
        EarnedLater(t, run, config);
      }
      if Last(run).event.IncrFails? {
        EarnedNow(run, config);
      }
      TicketSources(before, config, Last(run).time, Last(run).event, |run| - 1);
    }
  }

  lemma {:induction false} PrefixChronological(run: Run, i: nat)
    requires Chronological(run) && i <= |run|
    ensures Chronological(run[..i])
  {
    if i < |run| {
      PrefixChronological(Front(run), i);
      assert Front(run)[..i] == run[..i];
    } else {
      assert run[..i] == run;
    }
  }

  /** A step that writes the flag. */
  predicate Opens(run: Run, config: Config, i: nat)
    requires i < |run|
  {
    run[i].event.SetOpen? && run[i].event.ticket in Execute(run[..i], config).opening
  }

  /**
   "open" is only ever written by a worker whose own increment was at least the threshold-th since the counter key last
   vanished. (Crashes included.)
   */
  lemma OnlyThresholdOpens(run: Run, config: Config, i: nat)
    requires Chronological(run) && i < |run| && Opens(run, config, i)
    ensures var ticket := run[i].event.ticket;
            && ticket.born < i && run[ticket.born].event.IncrFails?
            && SinceVanished(run[..ticket.born + 1], config) >= config.threshold
  {
    var prefix, ticket := run[..i], run[i].event.ticket;
    PrefixChronological(run, i);
    EveryTicketEarned(prefix, config);
    EarnedInPrefix(ticket, run, config, i);
  }

  lemma EarnedInPrefix(ticket: Ticket, run: Run, config: Config, i: nat)
    requires i <= |run| && Earned(ticket, run[..i], config)
    ensures ticket.born < i && run[ticket.born].event.IncrFails?
    ensures ticket.count == SinceVanished(run[..ticket.born + 1], config)
  {
    assert run[..i][..ticket.born + 1] == run[..ticket.born + 1];
  }

  // ---------- a counter key without expiry ----------

  predicate Unexpiring(w: World) {
    w.fails.Some? && w.fails.value.expiresAt.None?
  }

  /** The worker whose increment created the counter crashed after that increment. */
  predicate CreatorCrashed(run: Run, born: nat) {
    exists j | born < j < |run| :: run[j].event == Crash(Ticket(1, born))
  }

  lemma CrashedInFront(run: Run, born: nat)
    requires run != []
    ensures CreatorCrashed(run, born) <==>
            CreatorCrashed(Front(run), born) || (born < |run| - 1 && Last(run).event == Crash(Ticket(1, born)))
  {
    if CreatorCrashed(Front(run), born) {
      var j :| born < j < |run| - 1 && Front(run)[j].event == Crash(Ticket(1, born));
      assert run[j].event == Crash(Ticket(1, born));
    }
    if CreatorCrashed(run, born) {
      var j :| born < j < |run| && run[j].event == Crash(Ticket(1, born));
      assert j < |run| - 1 ==> Front(run)[j].event == Crash(Ticket(1, born));
    }
  }

  /** A step leaves an unexpiring counter only as it was, incremented, or newly created. */
  lemma UnexpiringStep(w: World, config: Config, now: Time, event: Event, index: nat)
    requires Unexpiring(Step(w, config, now, event, index))
    ensures var next := Step(w, config, now, event, index);
            var creator := Ticket(1, next.fails.value.born);
            || (next.fails.value.born == index && creator in next.owing && event.IncrFails?)
            || (Unexpiring(w) && w.fails.value.born == next.fails.value.born &&
                (creator in next.owing <==> creator in w.owing && event != Crash(creator)))
  {
  }

  /**
   In every interleaving a counter without expiry is owed its expiry by the worker that created it, unless and only
   unless that worker has crashed since.
   */
  lemma {:induction false} OrphanedExactlyByCrash(run: Run, config: Config)
    requires Unexpiring(Execute(run, config))
    ensures var w := Execute(run, config);
            && w.fails.value.born < |run|
            && (Ticket(1, w.fails.value.born) !in w.owing <==> CreatorCrashed(run, w.fails.value.born))
    decreases |run|
  {
    var before := Execute(Front(run), config);
    var born := Execute(run, config).fails.value.born;
    UnexpiringStep(before, config, Last(run).time, Last(run).event, |run| - 1);
    CrashedInFront(run, born);
    if Unexpiring(before) {
      OrphanedExactlyByCrash(Front(run), config);
    }
  }

  /** While no worker crashes, a counter without expiry exists only while the worker that created it owes the expiry. */
  lemma NoOrphanedCounter(run: Run, config: Config)
    requires NoCrash(run) && Execute(run, config).owing == {}
    ensures var fails := Execute(run, config).fails;
            fails.Some? ==> fails.value.expiresAt.Some?
  {
    if Unexpiring(Execute(run, config)) {
      OrphanedExactlyByCrash(run, config);
    }
  }

  /** A worker that dies between its two commands leaves a counter that never expires: the window is lost. */
  lemma CrashOrphansCounter(config: Config, t: Time, later: Time)
    ensures var run := [At(t, IncrFails), At(t, Crash(Ticket(1, 0)))];
            var w := Execute(run, config);
            w.owing == {} && FailsLive(w.fails, later) && w.fails.value.count == 1
  {
    var run := [At(t, IncrFails), At(t, Crash(Ticket(1, 0)))];
    assert Front(run) == [At(t, IncrFails)] && Front(Front(run)) == [];
    assert Execute(Front(run), config).fails == Some(Fails(1, None, 0));
    assert Execute(Front(run), config).owing == {Ticket(1, 0)};
  }

  // ---------- how long it stays open ----------

  predicate NoDeletionAfter(run: Run, i: nat) {
    forall j | i < j < |run| :: !run[j].event.DelState?
  }

  lemma OpensInFront(run: Run, config: Config, i: nat)
    requires i < |run| - 1
    ensures Opens(run, config, i) <==> Opens(Front(run), config, i)
    ensures NoDeletionAfter(run, i) <==> NoDeletionAfter(Front(run), i) && !Last(run).event.DelState?
  {
    assert Front(run)[..i] == run[..i];
    assert forall j | i < j < |run| - 1 :: Front(run)[j] == run[j];
  }

  /** A set flag was written by an opening step that no deletion follows. */
  lemma {:induction false} FlagHasOrigin(run: Run, config: Config) returns (i: nat)
    requires Execute(run, config).state.Some?
    ensures i < |run| && Opens(run, config, i) && NoDeletionAfter(run, i)
    ensures Execute(run, config).state.value == run[i].time + config.resetMs
  {
    var n := |run| - 1;
    assert run[..n] == Front(run);
    if Opens(run, config, n) {
      return n;
    }
    assert Execute(run, config).state == Execute(Front(run), config).state;
    i := FlagHasOrigin(Front(run), config);
    OpensInFront(run, config, i);
  }

  /** An opening step that no deletion follows keeps the flag set, at least as long as it asked for. */
  lemma {:induction false} FlagLasts(run: Run, config: Config, i: nat)
    requires Chronological(run) && i < |run| && Opens(run, config, i) && NoDeletionAfter(run, i)
    ensures Execute(run, config).state.Some? && run[i].time <= Last(run).time
    ensures Execute(run, config).state.value >= run[i].time + config.resetMs
  {
    var n := |run| - 1;
    if i < n {
      OpensInFront(run, config, i);
      FlagLasts(Front(run), config, i);
      FlagStep(Execute(Front(run), config), config, Last(run).time, Last(run).event, n, run[i].time + config.resetMs);
    } else {
      assert run[..n] == Front(run);
    }
  }

  lemma FlagStep(w: World, config: Config, now: Time, event: Event, index: nat, until: Time)
    requires w.state.Some? && w.state.value >= until && !event.DelState? && now + config.resetMs >= until
    ensures var state := Step(w, config, now, event, index).state;
            state.Some? && state.value >= until
  {
  }

  /** The flag reads open exactly when some opening write is younger than `resetMs` and not followed by a deletion. */
  lemma OpenExactlyWhen(run: Run, config: Config, now: Time)
    requires Chronological(run)
    ensures OpenLive(Execute(run, config).state, now) <==>
            exists i | 0 <= i < |run| ::
              Opens(run, config, i) && now < run[i].time + config.resetMs && NoDeletionAfter(run, i)
  {
    if Execute(run, config).state.Some? {
      var i := FlagHasOrigin(run, config);
    }
    forall i | 0 <= i < |run| && Opens(run, config, i) && NoDeletionAfter(run, i)
      ensures Execute(run, config).state.Some? && Execute(run, config).state.value >= run[i].time + config.resetMs
    {
      FlagLasts(run, config, i);
    }
  }

  /** With no further writes the breaker reads closed once `resetMs` has passed. */
  lemma ClosesByItself(run: Run, config: Config, now: Time)
    requires Chronological(run) && (run != [] ==> now >= Last(run).time + config.resetMs)
    ensures !OpenLive(Execute(run, config).state, now)
  {
    if Execute(run, config).state.Some? {
      var i := FlagHasOrigin(run, config);
      FlagLasts(run, config, i);
    }
  }
}
