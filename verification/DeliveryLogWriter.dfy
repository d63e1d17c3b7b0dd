/**
 The batching writer of delivery logs. Code between `await`s runs alone; the insert it awaits completes later, and
 enqueues and timers happen in between.
 */
module DeliveryLogWriter {
  import opened Wrappers

  type LogRow = int

  /** Batch size and buffer limit; `timers` numbers the timeouts ever armed. */
  datatype Config = Config(batchSize: int, maxBuffer: int)

  datatype State = State(
    buffer: seq<LogRow>,
    timer: Option<nat>,
    flushing: bool,
    /** The runtime's live timeouts, and the number ever created. */
    armed: set<nat>,
    created: nat,
    /** Batches handed to the store, in order; the last is in flight while `flushing`. */
    handed: seq<seq<LogRow>>,
    completed: nat)

  const START := State([], None, false, {}, 0, [], 0)

  datatype Event =
    | Enqueue(row: LogRow)
    | TimerFires(id: nat)
    | InsertSettles(success: bool)
    | ModuleDestroyed

  function StartFlush(s: State): State {
    if s.flushing || s.buffer == [] then s
    else s.(flushing := true, buffer := [], timer := None,
            armed := if s.timer.Some? then s.armed - {s.timer.value} else s.armed,
            handed := s.handed + [s.buffer])
  }

  function Step(s: State, cfg: Config, e: Event): State {
    match e
    case Enqueue(row) =>
      var t := s.(buffer := s.buffer + [row]);
      if |t.buffer| >= cfg.batchSize || |t.buffer| >= cfg.maxBuffer then StartFlush(t)
      else if t.timer.None? then t.(timer := Some(t.created), armed := t.armed + {t.created}, created := t.created + 1)
      else t
    case TimerFires(id) => if id in s.armed then StartFlush(s.(armed := s.armed - {id}, timer := None)) else s
    case InsertSettles(_) => if s.flushing then s.(flushing := false, completed := s.completed + 1) else s
    case ModuleDestroyed => StartFlush(s)
  }

  function Execute(cfg: Config, run: seq<Event>): State {
    if run == [] then START else Step(Execute(cfg, run[..|run| - 1]), cfg, run[|run| - 1])
  }

  // ---------- the code ----------

  class Writer {
    const cfg: Config
    var buffer: seq<LogRow>
    var timer: Option<nat>
    var flushing: bool
    var armed: set<nat>
    var created: nat
    var handed: seq<seq<LogRow>>
    var completed: nat

    ghost function Contents(): State
      reads this
    {
      State(buffer, timer, flushing, armed, created, handed, completed)
    }

    constructor (cfg: Config)
      ensures Contents() == START && this.cfg == cfg
    {
      this.cfg := cfg;
      buffer, timer, flushing, armed, created, handed, completed := [], None, false, {}, 0, [], 0;
    }

    method EnqueueRow(doc: LogRow)
      modifies this
      ensures Contents() == Step(old(Contents()), cfg, Enqueue(doc))
      ensures var all := old(buffer) + [doc];
              var full := |all| >= cfg.batchSize || |all| >= cfg.maxBuffer;
              && (full && !old(flushing) ==> flushing && buffer == [] && handed == old(handed) + [all] && timer.None?)
              && (full && old(flushing) ==> flushing && buffer == all && handed == old(handed) && timer == old(timer))
              && (!full ==> flushing == old(flushing) && buffer == all && handed == old(handed)
                            && timer.Some? && (old(timer).Some? ==> timer == old(timer)))
    {
      buffer := buffer + [doc];
      if |buffer| >= cfg.batchSize {
        Flush();
        return;
      }
      if |buffer| >= cfg.maxBuffer {
        Flush();
        return;
      }
      if timer.None? {
        timer := Some(created);
        armed := armed + {created};
        created := created + 1;
      }
    }

    /** The callback of an armed timeout. */
    method OnTimer(id: nat)
      requires id in armed
      modifies this
      ensures Contents() == Step(old(Contents()), cfg, TimerFires(id))
      ensures timer.None? && id !in armed
      ensures !old(flushing) && old(buffer) != [] ==> flushing && buffer == [] && handed == old(handed) + [old(buffer)]
      ensures old(flushing) || old(buffer) == [] ==> flushing == old(flushing) && buffer == old(buffer) && handed == old(handed)
    {
      armed := armed - {id};
      timer := None;
      Flush();
    }

    /** Up to the awaited insert. */
    method Flush()
      modifies this
      ensures Contents() == StartFlush(old(Contents()))
      ensures !old(flushing) && old(buffer) != [] ==> flushing && buffer == [] && handed == old(handed) + [old(buffer)] && timer.None?
      ensures old(flushing) || old(buffer) == [] ==> Contents() == old(Contents())
    {
      if flushing {
        return;
      }
      if |buffer| == 0 {
        return;
      }
      flushing := true;
      var batch := buffer;
      buffer := [];
      if timer.Some? {
        armed := armed - {timer.value};
        timer := None;
      }
      handed := handed + [batch];
    }

    /** At shutdown what waits is handed over, unless an insert is in flight. */
    method OnModuleDestroy()
      modifies this
      ensures Contents() == Step(old(Contents()), cfg, ModuleDestroyed)
      ensures !old(flushing) && old(buffer) != [] ==> flushing && buffer == [] && handed == old(handed) + [old(buffer)]
      ensures old(flushing) || old(buffer) == [] ==> Contents() == old(Contents())
    {
      Flush();
    }

    /** After the awaited insert, whether it succeeded or threw. */
    method OnInsertSettled(success: bool)
      requires flushing
      modifies this
      ensures Contents() == Step(old(Contents()), cfg, InsertSettles(success))
      ensures !flushing && buffer == old(buffer) && timer == old(timer) && handed == old(handed)
    {
      completed := completed + 1;
      flushing := false;
    }
  }

  // ---------- conservation ----------

  function Flatten(batches: seq<seq<LogRow>>): seq<LogRow> {
    if batches == [] then [] else Flatten(batches[..|batches| - 1]) + batches[|batches| - 1]
  }

  function Enqueued(run: seq<Event>): seq<LogRow> {
    if run == [] then []
    else Enqueued(run[..|run| - 1]) + if run[|run| - 1].Enqueue? then [run[|run| - 1].row] else []
  }

  /** One insert in flight at most, one timeout live at most, batches never empty, rows where they belong. */
  ghost predicate Inv(s: State, rows: seq<LogRow>) {
    && rows == Flatten(s.handed) + s.buffer
    && |s.handed| == s.completed + (if s.flushing then 1 else 0)
    && s.armed == (if s.timer.Some? then {s.timer.value} else {})
    && (s.timer.Some? ==> s.timer.value < s.created)
    && (forall i | 0 <= i < |s.handed| :: s.handed[i] != [])
  }

  lemma StartFlushKeepsInv(s: State, rows: seq<LogRow>)
    requires Inv(s, rows)
    ensures Inv(StartFlush(s), rows)
  {
    if !s.flushing && s.buffer != [] {
      var handed := s.handed + [s.buffer];
      assert handed[..|handed| - 1] == s.handed;
      assert Flatten(handed) + [] == Flatten(s.handed) + s.buffer;
    }
  }

  lemma StepKeepsInv(s: State, cfg: Config, e: Event, rows: seq<LogRow>)
    requires Inv(s, rows)
    ensures Inv(Step(s, cfg, e), rows + if e.Enqueue? then [e.row] else [])
  {
    assert rows + [] == rows;
    match e
    case Enqueue(row) =>
      var t := s.(buffer := s.buffer + [row]);
      assert Flatten(s.handed) + (s.buffer + [row]) == rows + [row];
      StartFlushKeepsInv(t, rows + [row]);
    case TimerFires(id) =>
      if id in s.armed {
        StartFlushKeepsInv(s.(armed := s.armed - {id}, timer := None), rows);
      }
    case InsertSettles(_) =>
    case ModuleDestroyed => StartFlushKeepsInv(s, rows);
  }

  lemma {:induction false} EveryRunKeepsInv(cfg: Config, run: seq<Event>)
    ensures Inv(Execute(cfg, run), Enqueued(run))
  {
    if run != [] {
      EveryRunKeepsInv(cfg, run[..|run| - 1]);
      StepKeepsInv(Execute(cfg, run[..|run| - 1]), cfg, run[|run| - 1], Enqueued(run[..|run| - 1]));
    }
  }

  function InFlight(s: State): seq<LogRow> {
    if s.flushing && s.handed != [] then s.handed[|s.handed| - 1] else []
  }

  /**
   In every interleaving the rows enqueued are the completed batches, then the batch in flight, then the buffer, in
   order: none is lost before the store, none is handed over twice.
   */
  lemma RowsConserved(cfg: Config, run: seq<Event>)
    ensures var s := Execute(cfg, run);
            && s.completed <= |s.handed|
            && Enqueued(run) == Flatten(s.handed[..s.completed]) + InFlight(s) + s.buffer
            && (s.flushing ==> InFlight(s) != [])
  {
    EveryRunKeepsInv(cfg, run);
    var s := Execute(cfg, run);
    if !s.flushing {
      assert s.handed[..s.completed] == s.handed;
      assert Flatten(s.handed) + [] == Flatten(s.handed);
    }
  }

  /** At most one insert is in flight and at most one timeout is live. */
  lemma OneInsertOneTimer(cfg: Config, run: seq<Event>)
    ensures var s := Execute(cfg, run);
            |s.handed| - s.completed <= 1 && |s.armed| <= 1 && (s.timer.Some? <==> |s.armed| == 1)
  {
    EveryRunKeepsInv(cfg, run);
  }

  /** Rows wait, and nothing is under way that would move them. */
  predicate Stranded(s: State) {
    s.buffer != [] && s.timer.None? && !s.flushing
  }

  /** The event at k began a flush. */
  predicate FlushBegan(cfg: Config, run: seq<Event>, k: nat)
    requires k < |run|
  {
    !Execute(cfg, run[..k]).flushing && Execute(cfg, run[..k + 1]).flushing
  }

  /** No insert settles after k and before n. */
  predicate InFlightBetween(run: seq<Event>, k: nat, n: nat)
    requires n <= |run|
  {
    forall j | k < j < n :: !run[j].InsertSettles?
  }

  /** A live timeout fires at j. */
  predicate Fires(cfg: Config, run: seq<Event>, j: nat)
    requires j < |run|
  {
    run[j].TimerFires? && run[j].id in Execute(cfg, run[..j]).armed
  }

  /** The event at i, after a flush began at k, is an enqueue below both limits: it leaves a timeout armed. */
  predicate Arms(cfg: Config, run: seq<Event>, k: nat, i: nat)
    requires k < i < |run|
  {
    run[i].Enqueue? && |Enqueued(run[k + 1..i + 1])| < cfg.batchSize && |Enqueued(run[k + 1..i + 1])| < cfg.maxBuffer
  }

  predicate QuietAfter(cfg: Config, run: seq<Event>, i: nat, n: nat)
    requires n <= |run|
  {
    forall j | i < j < n :: !Fires(cfg, run, j)
  }

  /** Between k and n an enqueue below both limits came after every timeout that fired. */
  predicate ArmedSince(cfg: Config, run: seq<Event>, k: nat, n: nat)
    requires n <= |run|
  {
    exists i | k < i < n :: Arms(cfg, run, k, i) && QuietAfter(cfg, run, i, n)
  }

  lemma ExecuteNext(cfg: Config, run: seq<Event>, n: nat)
    requires n < |run|
    ensures Execute(cfg, run[..n + 1]) == Step(Execute(cfg, run[..n]), cfg, run[n])
  {
    assert run[..n + 1][..n] == run[..n];
  }

  lemma EnqueuedNext(run: seq<Event>, k: nat, n: nat)
    requires k < n < |run|
    ensures Enqueued(run[k + 1..n + 1]) == Enqueued(run[k + 1..n]) + if run[n].Enqueue? then [run[n].row] else []
  {
    var part := run[k + 1..n + 1];
    assert part[..|part| - 1] == run[k + 1..n];
  }

  lemma ArmedNext(cfg: Config, run: seq<Event>, k: nat, n: nat)
    requires k < n < |run|
    ensures ArmedSince(cfg, run, k, n + 1) <==> Arms(cfg, run, k, n) || (ArmedSince(cfg, run, k, n) && !Fires(cfg, run, n))
  {
    if ArmedSince(cfg, run, k, n + 1) {
      var i :| k < i < n + 1 && Arms(cfg, run, k, i) && QuietAfter(cfg, run, i, n + 1);
      assert i < n ==> QuietAfter(cfg, run, i, n);
    }
    if ArmedSince(cfg, run, k, n) && !Fires(cfg, run, n) {
      var i :| k < i < n && Arms(cfg, run, k, i) && QuietAfter(cfg, run, i, n);
      assert QuietAfter(cfg, run, i, n + 1);
    }
    if Arms(cfg, run, k, n) {
      assert QuietAfter(cfg, run, n, n + 1);
    }
  }

  lemma FlushStep(s: State, cfg: Config, e: Event)
    requires !s.flushing && Step(s, cfg, e).flushing
    ensures Step(s, cfg, e).buffer == [] && Step(s, cfg, e).timer.None?
  {
  }

  lemma FlightStep(s: State, cfg: Config, e: Event)
    requires s.flushing && !e.InsertSettles? && s.armed == (if s.timer.Some? then {s.timer.value} else {})
    ensures var next := Step(s, cfg, e);
            && next.flushing && next.buffer == s.buffer + (if e.Enqueue? then [e.row] else [])
            && (next.timer.Some? <==>
                  || (e.Enqueue? && |next.buffer| < cfg.batchSize && |next.buffer| < cfg.maxBuffer)
                  || (s.timer.Some? && !(e.TimerFires? && e.id in s.armed)))
  {
  }

  /** What the events since the flush began at k say of the state before event n. */
  ghost predicate InsertUnderWay(cfg: Config, run: seq<Event>, k: nat, n: nat)
    requires k < n <= |run|
  {
    var s := Execute(cfg, run[..n]);
    s.flushing && s.buffer == Enqueued(run[k + 1..n]) && (s.timer.Some? <==> ArmedSince(cfg, run, k, n))
  }

  lemma InsertGoesOn(cfg: Config, run: seq<Event>, k: nat, n: nat)
    requires k < n < |run| && InsertUnderWay(cfg, run, k, n) && !run[n].InsertSettles?
    ensures InsertUnderWay(cfg, run, k, n + 1)
  {
    var s := Execute(cfg, run[..n]);
    ExecuteNext(cfg, run, n);
    EveryRunKeepsInv(cfg, run[..n]);
    FlightStep(s, cfg, run[n]);
    EnqueuedNext(run, k, n);
    ArmedNext(cfg, run, k, n);
    var next := Execute(cfg, run[..n + 1]);
    assert next.buffer == Enqueued(run[k + 1..n + 1]);
    assert Arms(cfg, run, k, n) <==> run[n].Enqueue? && |next.buffer| < cfg.batchSize && |next.buffer| < cfg.maxBuffer;
    assert Fires(cfg, run, n) <==> run[n].TimerFires? && run[n].id in s.armed;
  }

  /** While an insert is in flight the buffer holds what was enqueued since, and a timeout is armed as `ArmedSince` says. */
  lemma {:induction false} DuringInsert(cfg: Config, run: seq<Event>, k: nat, n: nat)
    requires k < n <= |run| && FlushBegan(cfg, run, k) && InFlightBetween(run, k, n)
    ensures InsertUnderWay(cfg, run, k, n)
    decreases n
  {
    if n == k + 1 {
      ExecuteNext(cfg, run, k);
      FlushStep(Execute(cfg, run[..k]), cfg, run[k]);
      assert run[k + 1..n] == [];
    } else {
      DuringInsert(cfg, run, k, n - 1);
      InsertGoesOn(cfg, run, k, n - 1);
    }
  }

  lemma {:induction false} FlushOrigin(cfg: Config, run: seq<Event>, n: nat) returns (k: nat)
    requires n <= |run| && Execute(cfg, run[..n]).flushing
    ensures k < n && FlushBegan(cfg, run, k) && InFlightBetween(run, k, n)
    decreases n
  {
    assert n > 0;
    ExecuteNext(cfg, run, n - 1);
    if Execute(cfg, run[..n - 1]).flushing {
      k := FlushOrigin(cfg, run, n - 1);
    } else {
      k := n - 1;
    }
  }

  lemma StrandingStep(s: State, cfg: Config, e: Event)
    requires !Stranded(s)
    ensures Stranded(Step(s, cfg, e)) <==> e.InsertSettles? && s.flushing && s.buffer != [] && s.timer.None?
  {
  }

  /**
   An event strands rows exactly when it is the settling of an insert during which rows were enqueued and, of those
   enqueues, none that stayed below both limits came after every timeout that fired.
   */
  lemma StrandsExactlyWhen(cfg: Config, run: seq<Event>)
    requires run != []
    ensures var n := |run| - 1;
            !Stranded(Execute(cfg, run[..n])) && Stranded(Execute(cfg, run)) <==>
            && run[n].InsertSettles?
            && exists k | 0 <= k < n ::
                 && FlushBegan(cfg, run, k) && InFlightBetween(run, k, n)
                 && Enqueued(run[k + 1..n]) != [] && !ArmedSince(cfg, run, k, n)
  {
    var n := |run| - 1;
    var s := Execute(cfg, run[..n]);
    if !Stranded(s) {
      StrandingStep(s, cfg, run[n]);
    }
    if s.flushing {
      var k := FlushOrigin(cfg, run, n);
      DuringInsert(cfg, run, k, n);
    }
    forall k | 0 <= k < n && FlushBegan(cfg, run, k) && InFlightBetween(run, k, n)
      ensures s.flushing && s.buffer == Enqueued(run[k + 1..n]) && (s.timer.Some? <==> ArmedSince(cfg, run, k, n))
    {
      DuringInsert(cfg, run, k, n);
    }
  }

  /** It can happen: a timeout that fires during an insert is spent without effect. */
  lemma TimerDuringInsertStrands(row: LogRow)
    ensures var cfg := Config(100, 5000);
            Stranded(Execute(cfg, [Enqueue(row), TimerFires(0), Enqueue(row), TimerFires(1), InsertSettles(true)]))
  {
    var cfg := Config(100, 5000);
    var r1 := [Enqueue(row)];
    var r2 := r1 + [TimerFires(0)];
    var r3 := r2 + [Enqueue(row)];
    var r4 := r3 + [TimerFires(1)];
    var r5 := r4 + [InsertSettles(true)];
    assert r5 == [Enqueue(row), TimerFires(0), Enqueue(row), TimerFires(1), InsertSettles(true)];
    assert r1[..0] == [] && r2[..1] == r1 && r3[..2] == r2 && r4[..3] == r3 && r5[..4] == r4;
    assert Execute(cfg, r1) == State([row], Some(0), false, {0}, 1, [], 0);
    assert Execute(cfg, r2) == State([], None, true, {}, 1, [[row]], 0);
    assert Execute(cfg, r3) == State([row], Some(1), true, {1}, 2, [[row]], 0);
    assert Execute(cfg, r4) == State([row], None, true, {}, 2, [[row]], 0);
  }
}
