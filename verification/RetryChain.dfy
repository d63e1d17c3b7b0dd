/** The retry chain of one event: a failed attempt either queues the next attempt or moves the event to the dead-letter queue. */
module RetryChain {
  import opened Common
  import opened Wrappers
  import JsBits

  const MAX_RETRY_ATTEMPTS := 5

  const RETRY_DELAYS_MS: seq<int> := [60_000, 300_000, 1_800_000, 7_200_000, 86_400_000]

  function GetRetryDelay(attempt: nat): Option<int> {
    if attempt >= MAX_RETRY_ATTEMPTS then None else Some(RETRY_DELAYS_MS[attempt])
  }

  datatype Strategy = Linear | Fixed | Exponential

  /** The delay stored on the event as its next retry time, in milliseconds. */
  function StoredDelay(attempt: nat, strategy: Strategy, fixedSecs: int): int {
    match strategy
    case Linear => attempt * 60 * 1000
    case Fixed => fixedSecs * 1000
    case Exponential => (if JsBits.Pow2(attempt) * 30 <= 3600 then JsBits.Pow2(attempt) * 30 else 3600) * 1000
  }

  datatype Status = Pending | Retrying | Delivered | Dead

  /** A waiting retry job; `count` is the number in its job id, unique per event. */
  datatype Job = Job(count: nat, delay: int)

  /** One event with its endpoint's settings, the waiting jobs for it, and the ids and dead-letter entries it has used. */
  datatype Chain = Chain(
    status: Status,
    retryCount: nat,
    queued: seq<Job>,
    usedIds: set<nat>,
    deadLetters: nat,
    /** Whether the first attempt's job is still waiting. */
    firstJob: bool)

  const START := Chain(Pending, 0, [], {}, 0, true)

  /** `endpoint.maxRetries || 5` */
  function Limit(maxRetries: int): int {
    if maxRetries == 0 then MAX_RETRY_ATTEMPTS else maxRetries
  }

  /** The queue drops a job whose id it has already seen. */
  function Enqueue(c: Chain, count: nat): Chain {
    var delay := GetRetryDelay(count);
    if delay.None? || count in c.usedIds then c
    else c.(queued := c.queued + [Job(count, delay.value)], usedIds := c.usedIds + {count})
  }

  function Fail(c: Chain, maxRetries: int): Chain {
    var n := c.retryCount + 1;
    if n >= Limit(maxRetries) then c.(status := Dead, retryCount := n, deadLetters := c.deadLetters + 1)
    else Enqueue(c.(status := Retrying, retryCount := n), n)
  }

  predicate Waiting(c: Chain) {
    c.firstJob || c.queued != []
  }

  /** Takes the waiting job and attempts delivery. */
  function Attempt(c: Chain, maxRetries: int, success: bool): Chain {
    if !Waiting(c) then c
    else
      var taken := if c.firstJob then c.(firstJob := false) else c.(queued := c.queued[1..]);
      if success then taken.(status := Delivered) else Fail(taken, maxRetries)
  }

  function Run(maxRetries: int, outcomes: seq<bool>): Chain {
    if outcomes == [] then START
    else Attempt(Run(maxRetries, outcomes[..|outcomes| - 1]), maxRetries, outcomes[|outcomes| - 1])
  }

  // ---------- the code ----------

  class DeliveryService {
    var status: Status
    var retryCount: nat
    var webhookQueue: seq<Job>
    var usedIds: set<nat>
    var dlqQueue: nat
    var firstJob: bool

    ghost function Contents(): Chain
      reads this
    {
      Chain(status, retryCount, webhookQueue, usedIds, dlqQueue, firstJob)
    }

    constructor ()
      ensures Contents() == START
    {
      status, retryCount, webhookQueue, usedIds, dlqQueue, firstJob := Pending, 0, [], {}, 0, true;
    }

    method ScheduleRetry(count: nat)
      modifies this`webhookQueue, this`usedIds
      ensures Contents() == Enqueue(old(Contents()), count)
    {
      var delay := GetRetryDelay(count);
      if delay.None? {
        return;
      }
      if count !in usedIds {
        webhookQueue := webhookQueue + [Job(count, delay.value)];
        usedIds := usedIds + {count};
      }
    }

    method HandleDeliveryFailure(maxRetries: int)
      modifies this
      ensures Contents() == Fail(old(Contents()), maxRetries)
    {
      var newRetryCount := retryCount + 1;
      var limit := if maxRetries == 0 then MAX_RETRY_ATTEMPTS else maxRetries;
      retryCount := newRetryCount;
      if newRetryCount >= limit {
        status := Dead;
        dlqQueue := dlqQueue + 1;
      } else {
        status := Retrying;
        ScheduleRetry(newRetryCount);
      }
    }

    /** One waiting job is taken and its attempt succeeds or fails. */
    method Deliver(maxRetries: int, success: bool)
      requires firstJob || webhookQueue != []
      modifies this
      ensures Contents() == Attempt(old(Contents()), maxRetries, success)
    {
      if firstJob {
        firstJob := false;
      } else {
        webhookQueue := webhookQueue[1..];
      }
      if success {
        status := Delivered;
      } else {
        HandleDeliveryFailure(maxRetries);
      }
    }
  }

  // ---------- over whole runs ----------

  function Failures(maxRetries: int, outcomes: seq<bool>): nat {
    if outcomes == [] then 0
    else
      var front := outcomes[..|outcomes| - 1];
      Failures(maxRetries, front) + if Waiting(Run(maxRetries, front)) && !outcomes[|outcomes| - 1] then 1 else 0
  }

  /** The most failures a chain can have. */
  function Bound(maxRetries: int): nat {
    if Limit(maxRetries) < 1 then 1 else Min(Limit(maxRetries), MAX_RETRY_ATTEMPTS)
  }

  /** What holds after every attempt; `n` is the number of failed attempts. */
  ghost predicate Inv(c: Chain, maxRetries: int, n: nat) {
    && c.retryCount == n <= Bound(maxRetries)
    && (forall i :: i in c.usedIds <==> 1 <= i <= n && i < Limit(maxRetries) && i < MAX_RETRY_ATTEMPTS)
    && match c.status
       case Pending => n == 0 && c.firstJob && c.queued == [] && c.deadLetters == 0
       case Delivered => !c.firstJob && c.queued == [] && c.deadLetters == 0
       case Dead => !c.firstJob && n >= Limit(maxRetries) && c.queued == [] && c.deadLetters == 1
       case Retrying =>
         && !c.firstJob && 1 <= n < Limit(maxRetries) && c.deadLetters == 0
         && (n < MAX_RETRY_ATTEMPTS ==> c.queued == [Job(n, RETRY_DELAYS_MS[n])])
         && (n == MAX_RETRY_ATTEMPTS ==> c.queued == [])
  }

  lemma FailKeepsInv(c: Chain, maxRetries: int, n: nat)
    requires c.retryCount == n && n < Bound(maxRetries) && (n > 0 ==> n < Limit(maxRetries))
    requires !c.firstJob && c.queued == [] && c.deadLetters == 0
    requires forall i :: i in c.usedIds <==> 1 <= i <= n && i < Limit(maxRetries) && i < MAX_RETRY_ATTEMPTS
    ensures Inv(Fail(c, maxRetries), maxRetries, n + 1)
  {
    assert n + 1 !in c.usedIds;
  }

  lemma {:induction false} RunKeepsInv(maxRetries: int, outcomes: seq<bool>)
    ensures Inv(Run(maxRetries, outcomes), maxRetries, Failures(maxRetries, outcomes))
  {
    if outcomes != [] {
      var front := outcomes[..|outcomes| - 1];
      RunKeepsInv(maxRetries, front);
      var c, n := Run(maxRetries, front), Failures(maxRetries, front);
      if Waiting(c) && !outcomes[|outcomes| - 1] {
        FailKeepsInv(if c.firstJob then c.(firstJob := false) else c.(queued := c.queued[1..]), maxRetries, n);
      }
    }
  }

  /** `retryCount` is the number of failures, and there are at most min(limit, 5) of them. */
  lemma FailuresCounted(maxRetries: int, outcomes: seq<bool>)
    ensures Run(maxRetries, outcomes).retryCount == Failures(maxRetries, outcomes)
    ensures Limit(maxRetries) >= 1 ==> Failures(maxRetries, outcomes) <= Min(Limit(maxRetries), 5)
    ensures Limit(maxRetries) < 1 ==> Failures(maxRetries, outcomes) <= 1
  {
    RunKeepsInv(maxRetries, outcomes);
  }

  /**
   After every failure the event is dead, with exactly one dead-letter job, precisely when the count has reached the
   limit; otherwise it is retrying, and exactly one retry job carries its count if the count is below five.
   */
  lemma AfterAFailure(maxRetries: int, outcomes: seq<bool>)
    requires Waiting(Run(maxRetries, outcomes))
    ensures var c := Run(maxRetries, outcomes + [false]);
            && (c.status == Dead <==> c.retryCount >= if maxRetries == 0 then 5 else maxRetries)
            && (c.status == Dead ==> c.deadLetters == 1 && c.queued == [])
            && (c.status != Dead ==> c.status == Retrying && c.deadLetters == 0
                                     && (|c.queued| == 1 <==> c.retryCount < 5)
                                     && (c.retryCount < 5 ==> c.queued[0].count == c.retryCount)
                                     && (c.retryCount == 1 ==> c.queued[0].delay == 300_000)
                                     && (c.retryCount == 2 ==> c.queued[0].delay == 1_800_000)
                                     && (c.retryCount == 3 ==> c.queued[0].delay == 7_200_000)
                                     && (c.retryCount == 4 ==> c.queued[0].delay == 86_400_000))
  {
    var all := outcomes + [false];
    assert all[..|all| - 1] == outcomes;
    RunKeepsInv(maxRetries, outcomes);
    RunKeepsInv(maxRetries, all);
  }

  /** An event that is retrying although nothing will retry it. */
  predicate Stranded(c: Chain) {
    c.status == Retrying && !Waiting(c)
  }

  function AllFail(n: nat): seq<bool> {
    seq(n, _ => false)
  }

  lemma {:induction false} FailingRun(maxRetries: int, n: nat)
    requires Limit(maxRetries) > 5 && n <= 5
    ensures Failures(maxRetries, AllFail(n)) == n && Run(maxRetries, AllFail(n)).status == if n == 0 then Pending else Retrying
  {
    RunKeepsInv(maxRetries, AllFail(n));
    if n > 0 {
      FailingRun(maxRetries, n - 1);
      RunKeepsInv(maxRetries, AllFail(n - 1));
      assert AllFail(n)[..n - 1] == AllFail(n - 1);
    }
  }

  /** Some run strands the event exactly when more than five retries are configured. */
  lemma StrandsExactlyAboveFive(maxRetries: int)
    ensures (exists outcomes :: Stranded(Run(maxRetries, outcomes))) <==> maxRetries > 5
  {
    forall outcomes
      ensures Stranded(Run(maxRetries, outcomes)) ==> maxRetries > 5
    {
      RunKeepsInv(maxRetries, outcomes);
    }
    if maxRetries > 5 {
      FailingRun(maxRetries, 5);
      RunKeepsInv(maxRetries, AllFail(5));
      assert Stranded(Run(maxRetries, AllFail(5)));
    }
  }

  /** Every retry of a run is queued: its job id was never used before, so the queue does not drop it. */
  lemma RetryIdsDistinct(maxRetries: int, outcomes: seq<bool>)
    ensures var c := Run(maxRetries, outcomes);
            c.retryCount + 1 !in c.usedIds
  {
    RunKeepsInv(maxRetries, outcomes);
  }

  /** The stored delays: a minute more per attempt, a fixed time, or half a minute doubled per attempt up to an hour. */
  lemma StoredDelays(attempt: nat, fixedSecs: int)
    ensures StoredDelay(attempt, Linear, fixedSecs) == attempt * 60_000
    ensures StoredDelay(attempt, Fixed, fixedSecs) == fixedSecs * 1000
    ensures StoredDelay(0, Exponential, fixedSecs) == 30_000
    ensures StoredDelay(attempt + 1, Exponential, fixedSecs) == Min(2 * StoredDelay(attempt, Exponential, fixedSecs), 3_600_000)
  {
    assert JsBits.Pow2(attempt + 1) == 2 * JsBits.Pow2(attempt);
  }

  /** The queued delay ignores the endpoint's strategy: under the default one it is always later than the stored time. */
  lemma StoredTimeIsEarlier(attempt: nat, fixedSecs: int)
    requires 1 <= attempt < MAX_RETRY_ATTEMPTS
    ensures StoredDelay(attempt, Exponential, fixedSecs) < GetRetryDelay(attempt).value
    ensures StoredDelay(attempt, Linear, fixedSecs) < GetRetryDelay(attempt).value
  {
    assert JsBits.Pow2(1) == 2 && JsBits.Pow2(2) == 4 && JsBits.Pow2(3) == 8 && JsBits.Pow2(4) == 16;
  }
}
