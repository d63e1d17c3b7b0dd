/**
 The subscription records of the billing services: which actions write a record's status and period, and how access is
 decided from it. Expiry is lazy in `IsAllowed` and eager in the hourly sweep; the two agree over whole runs.
 */
module Subscriptions {
  import opened Common
  import opened Wrappers

  type UserId = string
  type PaymentId = string

  const MS_PER_DAY := 86_400_000
  const TRIAL_DAYS := 10
  const PAID_DAYS := 30
  const SYSTEM_PLANS := {"trial", "starter", "pro", "enterprise"}

  datatype Status = Trial | TrialExpired | Active | PastDue | Cancelled | Suspended | CreditOnly

  datatype Subscription = Subscription(
    status: Status,
    planId: Option<string>,
    trialEndAt: Option<Time>,
    currentPeriodEnd: Option<Time>,
    resellerId: Option<string>)

  /** The collections the actions read and write; `users` holds each user's last payment id. */
  datatype Db = Db(
    subs: map<UserId, Subscription>,
    users: map<UserId, Option<PaymentId>>,
    customers: set<(string, UserId)>)

  /** A payment or subscription entity of a payment-provider event, with its notes. */
  datatype Entity = Entity(id: Option<PaymentId>, userId: Option<UserId>, planId: Option<string>)

  datatype EventKind = PaymentCaptured | SubscriptionCharged | SubscriptionHalted | PaymentFailed | SubscriptionCancelled | Other

  datatype Action =
    | StartTrial(user: UserId)
    | VerifyUpgrade(user: UserId, paymentId: PaymentId, planId: string, signatureOk: bool)
    | VerifyPayment(user: UserId, paymentId: PaymentId, planId: string, signatureOk: bool)
    | Cancel(user: UserId)
    | Webhook(kind: EventKind, payment: Option<Entity>, subscription: Option<Entity>, signatureOk: bool)
    | AddCustomer(reseller: string, customer: Option<UserId>, plan: Option<string>, monthEnd: Time)
    | SuspendCustomer(reseller: string, user: UserId)
    | ReactivateCustomer(reseller: string, user: UserId, monthEnd: Time)
    | PurchaseCredits(user: UserId)
    | IsAllowedCall(user: UserId)
    | SweepTrials(cutoff: Time, reached: set<UserId>)
    | SweepActive(cutoff: Time, reached: set<UserId>)

  // ---------- deciding access ----------

  datatype Reason = TrialOver | PeriodOver | PaymentPastDue | AccountSuspended | SubscriptionCancelledReason

  /** `Crashed` is the null dereference of a trial without an end date. */
  datatype Answer = Allowed(daysLeft: Option<int>) | Denied(reason: Reason) | Crashed

  predicate Past(end: Option<Time>, now: Time) {
    end.Some? && now > end.value
  }

  /** max(0, ceil((end - now) / day)) */
  function DaysLeft(end: Time, now: Time): int {
    if end <= now then 0 else (end - now + MS_PER_DAY - 1) / MS_PER_DAY
  }

  function Decide(sub: Option<Subscription>, now: Time): Answer {
    if sub.None? then Allowed(None)
    else
      match sub.value.status
      case Trial =>
        if Past(sub.value.trialEndAt, now) then Denied(TrialOver)
        else if sub.value.trialEndAt.None? then Crashed
        else Allowed(Some(DaysLeft(sub.value.trialEndAt.value, now)))
      case Active => if Past(sub.value.currentPeriodEnd, now) then Denied(PeriodOver) else Allowed(None)
      case CreditOnly => Allowed(None)
      case TrialExpired => Denied(TrialOver)
      case PastDue => Denied(PaymentPastDue)
      case Suspended => Denied(AccountSuspended)
      case Cancelled => Denied(SubscriptionCancelledReason)
  }

  function Find<V>(m: map<UserId, V>, user: UserId): Option<V> {
    if user in m then Some(m[user]) else None
  }

  function Answers(db: Db, user: UserId, now: Time): Answer {
    Decide(Find(db.subs, user), now)
  }

  /** The days left round up: d days cover the time left, and d - 1 do not, unless none is left. */
  lemma DaysLeftRoundUp(end: Time, now: Time)
    requires now <= end
    ensures DaysLeft(end, now) >= 0
    ensures (DaysLeft(end, now) - 1) * 86_400_000 < end - now <= DaysLeft(end, now) * 86_400_000
  {
  }

  /** Who is let in: no record, a trial or period that has not ended, or credits; a trial's answer counts the days left. */
  lemma AccessRule(db: Db, user: UserId, now: Time)
    ensures user !in db.subs ==> Answers(db, user, now) == Allowed(None)
    ensures user in db.subs ==>
              var sub, answer := db.subs[user], Answers(db, user, now);
              match sub.status
              case Trial =>
                if sub.trialEndAt.None? then answer == Crashed
                else if now > sub.trialEndAt.value then answer == Denied(TrialOver)
                else
                  && answer.Allowed? && answer.daysLeft.Some? && answer.daysLeft.value >= 0
                  && (answer.daysLeft.value - 1) * 86_400_000 < sub.trialEndAt.value - now <= answer.daysLeft.value * 86_400_000
              case Active =>
                answer == if sub.currentPeriodEnd.Some? && now > sub.currentPeriodEnd.value then Denied(PeriodOver) else Allowed(None)
              case CreditOnly => answer == Allowed(None)
              case TrialExpired => answer == Denied(TrialOver)
              case PastDue => answer == Denied(PaymentPastDue)
              case Suspended => answer == Denied(AccountSuspended)
              case Cancelled => answer == Denied(SubscriptionCancelledReason)
  {
    if user in db.subs && db.subs[user].trialEndAt.Some? && now <= db.subs[user].trialEndAt.value {
      DaysLeftRoundUp(db.subs[user].trialEndAt.value, now);
    }
  }

  // ---------- the actions ----------

  /** The status a record holds once expiry has been written for it. */
  function Expire(sub: Subscription, now: Time): Subscription {
    if sub.status == Trial && Past(sub.trialEndAt, now) then sub.(status := TrialExpired)
    else if sub.status == Active && Past(sub.currentPeriodEnd, now) then sub.(status := PastDue)
    else sub
  }

  const NEW_RECORD := Subscription(Trial, None, None, None, None)

  /** `findOneAndUpdate` with `upsert: true`. */
  function Upsert(db: Db, user: UserId): Subscription {
    if user in db.subs then db.subs[user] else NEW_RECORD
  }

  function SetSub(db: Db, user: UserId, sub: Subscription): Db {
    db.(subs := db.subs[user := sub])
  }

  function SetStatus(db: Db, user: UserId, status: Status): Db {
    if user in db.subs then SetSub(db, user, db.subs[user].(status := status)) else db
  }

  function Activate(db: Db, user: UserId, planId: Option<string>, periodEnd: Time): Db {
    var sub := Upsert(db, user);
    SetSub(db, user, sub.(status := Active, planId := if planId.Some? then planId else sub.planId,
                          currentPeriodEnd := Some(periodEnd)))
  }

  function RecordPayment(db: Db, user: UserId, paymentId: Option<PaymentId>): Db {
    if user in db.users && paymentId.Some? then db.(users := db.users[user := paymentId]) else db
  }

  function PayForPlan(db: Db, user: UserId, paymentId: Option<PaymentId>, planId: string, now: Time): Db {
    var paid := RecordPayment(db, user, paymentId);
    if planId in SYSTEM_PLANS then Activate(paid, user, Some(planId), now + PAID_DAYS * MS_PER_DAY) else paid
  }

  function EntityId(payment: Option<Entity>, subscription: Option<Entity>): Option<PaymentId> {
    if payment.Some? && payment.value.id.Some? then payment.value.id
    else if subscription.Some? then subscription.value.id
    else None
  }

  /** Some user already holds this payment id. */
  predicate Processed(users: map<UserId, Option<PaymentId>>, id: PaymentId) {
    exists u <- users.Keys :: users[u] == Some(id)
  }

  function HandleEvent(db: Db, kind: EventKind, payment: Option<Entity>, subscription: Option<Entity>, now: Time): Db {
    var id := EntityId(payment, subscription);
    if id.Some? && Processed(db.users, id.value) then db
    else
      match kind
      case PaymentCaptured =>
        if payment.Some? && payment.value.userId.Some? && payment.value.planId.Some?
        then PayForPlan(db, payment.value.userId.value, payment.value.id, payment.value.planId.value, now)
        else db
      case SubscriptionCharged =>
        if subscription.Some? && subscription.value.userId.Some? && subscription.value.planId.Some?
        then Activate(db, subscription.value.userId.value, None, now + PAID_DAYS * MS_PER_DAY)
        else db
      case SubscriptionHalted => FailPayment(db, payment, subscription)
      case PaymentFailed => FailPayment(db, payment, subscription)
      case SubscriptionCancelled =>
        if subscription.Some? && subscription.value.userId.Some?
        then SetStatus(db, subscription.value.userId.value, Cancelled)
        else db
      case Other => db
  }

  function FailPayment(db: Db, payment: Option<Entity>, subscription: Option<Entity>): Db {
    var entity := if payment.Some? then payment else subscription;
    if entity.Some? && entity.value.userId.Some? then SetStatus(db, entity.value.userId.value, PastDue) else db
  }

  function SetCustomerStatus(db: Db, reseller: string, user: UserId, status: Status, periodEnd: Option<Time>): Db {
    if (reseller, user) in db.customers && user in db.subs && db.subs[user].resellerId == Some(reseller) then
      var sub := db.subs[user].(status := status);
      SetSub(db, user, if periodEnd.Some? then sub.(currentPeriodEnd := periodEnd) else sub)
    else db
  }

  function Step(db: Db, action: Action, now: Time): Db {
    match action
    case StartTrial(user) =>
      if user in db.subs then db
      else
        var trialEnd := Some(now + TRIAL_DAYS * MS_PER_DAY);
        SetSub(db, user, Subscription(Trial, Some("trial"), trialEnd, trialEnd, None))
    case VerifyUpgrade(user, paymentId, planId, signatureOk) =>
      if signatureOk && planId in SYSTEM_PLANS
      then RecordPayment(Activate(db, user, Some(planId), now + PAID_DAYS * MS_PER_DAY), user, Some(paymentId))
      else db
    case VerifyPayment(user, paymentId, planId, signatureOk) =>
      if signatureOk then PayForPlan(db, user, Some(paymentId), planId, now) else db
    case Cancel(user) =>
      if user in db.subs && db.subs[user].status != Cancelled then SetStatus(db, user, Cancelled) else db
    case Webhook(kind, payment, subscription, signatureOk) =>
      if signatureOk then HandleEvent(db, kind, payment, subscription, now) else db
    case AddCustomer(reseller, customer, plan, monthEnd) =>
      if customer.None? || (reseller, customer.value) in db.customers then db
      else
        var added := db.(customers := db.customers + {(reseller, customer.value)});
        var planId := if plan.Some? then plan else Some("reseller_custom");
        var active := Activate(added, customer.value, planId, monthEnd);
        SetSub(active, customer.value, active.subs[customer.value].(resellerId := Some(reseller)))
    case SuspendCustomer(reseller, user) => SetCustomerStatus(db, reseller, user, Suspended, None)
    case ReactivateCustomer(reseller, user, monthEnd) => SetCustomerStatus(db, reseller, user, Active, Some(monthEnd))
    case PurchaseCredits(user) =>
      if user in db.subs && db.subs[user].status in {TrialExpired, Cancelled} then SetStatus(db, user, CreditOnly) else db
    case IsAllowedCall(user) =>
      if user in db.subs then SetSub(db, user, Expire(db.subs[user], now)) else db
    case SweepTrials(cutoff, reached) =>
      db.(subs := map u | u in db.subs ::
            if u in reached && db.subs[u].status == Trial then Expire(db.subs[u], cutoff) else db.subs[u])
    case SweepActive(cutoff, reached) =>
      db.(subs := map u | u in db.subs ::
            if u in reached && db.subs[u].status == Active then Expire(db.subs[u], cutoff) else db.subs[u])
  }

  // ---------- runs ----------

  datatype Timed = At(time: Time, action: Action)

  type Run = seq<Timed>

  /** Times never decrease from `start`, and a sweep's cutoff is a clock value read before it writes. */
  predicate Chronological(run: Run, start: Time) {
    run == [] || (start <= run[0].time && CutoffRead(run[0]) && Chronological(run[1..], run[0].time))
  }

  predicate CutoffRead(step: Timed) {
    match step.action
    case SweepTrials(cutoff, _) => cutoff <= step.time
    case SweepActive(cutoff, _) => cutoff <= step.time
    case _ => true
  }

  predicate IsExpiryCheck(action: Action) {
    action.IsAllowedCall? || action.SweepTrials? || action.SweepActive?
  }

  function Execute(db: Db, run: Run): Db
    decreases run
  {
    if run == [] then db else Execute(Step(db, run[0].action, run[0].time), run[1..])
  }

  function LastTime(run: Run, start: Time): Time {
    if run == [] then start else run[|run| - 1].time
  }

  /** The run without its sweeps and access checks. */
  function Erase(run: Run): Run {
    if run == [] then []
    else (if IsExpiryCheck(run[0].action) then [] else [run[0]]) + Erase(run[1..])
  }

  /** A credit purchase reads the status that expiry writes: it must not meet a trial that is over but not swept. */
  predicate PurchasesSettled(db: Db, run: Run)
    decreases run
  {
    run == [] || (
      && (run[0].action.PurchaseCredits? ==> Settled(db, run[0].action.user, run[0].time))
      && PurchasesSettled(Step(db, run[0].action, run[0].time), run[1..]))
  }

  predicate Settled(db: Db, user: UserId, now: Time) {
    !(user in db.subs && db.subs[user].status == Trial && Past(db.subs[user].trialEndAt, now))
  }

  // ---------- the simulation ----------

  /** `swept` is `raw` itself, or `raw` with an expiry that is due at `now` already written. */
  predicate SweptFrom(swept: Subscription, raw: Subscription, now: Time) {
    swept == raw || swept == Expire(raw, now)
  }

  predicate Simulates(swept: Db, raw: Db, now: Time) {
    && swept.users == raw.users
    && swept.customers == raw.customers
    && swept.subs.Keys == raw.subs.Keys
    && forall u <- raw.subs.Keys :: SweptFrom(swept.subs[u], raw.subs[u], now)
  }

  lemma SimulationPersists(swept: Db, raw: Db, t: Time, t': Time)
    requires Simulates(swept, raw, t) && t <= t'
    ensures Simulates(swept, raw, t')
  {
  }

  /** An expiry check on the swept side alone keeps the simulation. */
  lemma ExpiryCheckSimulates(swept: Db, raw: Db, step: Timed)
    requires Simulates(swept, raw, step.time) && IsExpiryCheck(step.action) && CutoffRead(step)
    ensures Simulates(Step(swept, step.action, step.time), raw, step.time)
  {
  }

  // ---------- what the actions do not read ----------

  predicate SameButStatus(a: Db, b: Db) {
    && a.users == b.users && a.customers == b.customers && a.subs.Keys == b.subs.Keys
    && forall u <- b.subs.Keys :: a.subs[u] == b.subs[u].(status := a.subs[u].status)
  }

  /** From databases equal up to statuses, each record is either written alike on both sides or left alone on both. */
  predicate Forgotten(a: Db, b: Db, a': Db, b': Db) {
    && a'.users == b'.users && a'.customers == b'.customers && a'.subs.Keys == b'.subs.Keys
    && forall u <- b'.subs.Keys ::
         || a'.subs[u] == b'.subs[u]
         || (u in a.subs && u in b.subs && a'.subs[u] == a.subs[u] && b'.subs[u] == b.subs[u])
  }

  lemma ActivateForgets(a: Db, b: Db, user: UserId, planId: Option<string>, end: Time)
    requires SameButStatus(a, b)
    ensures Forgotten(a, b, Activate(a, user, planId, end), Activate(b, user, planId, end))
  {
  }

  lemma SetStatusForgets(a: Db, b: Db, user: UserId, status: Status)
    requires SameButStatus(a, b)
    ensures Forgotten(a, b, SetStatus(a, user, status), SetStatus(b, user, status))
  {
  }

  lemma PayForPlanForgets(a: Db, b: Db, user: UserId, id: Option<PaymentId>, planId: string, now: Time)
    requires SameButStatus(a, b)
    ensures Forgotten(a, b, PayForPlan(a, user, id, planId, now), PayForPlan(b, user, id, planId, now))
  {
    ActivateForgets(RecordPayment(a, user, id), RecordPayment(b, user, id), user, Some(planId), now + PAID_DAYS * MS_PER_DAY);
  }

  lemma FailForgets(a: Db, b: Db, payment: Option<Entity>, subscription: Option<Entity>)
    requires SameButStatus(a, b)
    ensures Forgotten(a, b, FailPayment(a, payment, subscription), FailPayment(b, payment, subscription))
  {
    var entity := if payment.Some? then payment else subscription;
    if entity.Some? && entity.value.userId.Some? {
      SetStatusForgets(a, b, entity.value.userId.value, PastDue);
    }
  }

  lemma EventForgets(a: Db, b: Db, kind: EventKind, payment: Option<Entity>, subscription: Option<Entity>, now: Time)
    requires SameButStatus(a, b)
    ensures Forgotten(a, b, HandleEvent(a, kind, payment, subscription, now), HandleEvent(b, kind, payment, subscription, now))
  {
    match kind
    case PaymentCaptured =>
      if payment.Some? && payment.value.userId.Some? && payment.value.planId.Some? {
        PayForPlanForgets(a, b, payment.value.userId.value, payment.value.id, payment.value.planId.value, now);
      }
    case SubscriptionCharged =>
      if subscription.Some? && subscription.value.userId.Some? {
        ActivateForgets(a, b, subscription.value.userId.value, None, now + PAID_DAYS * MS_PER_DAY);
      }
    case SubscriptionCancelled =>
      if subscription.Some? && subscription.value.userId.Some? {
        SetStatusForgets(a, b, subscription.value.userId.value, Cancelled);
      }
    case SubscriptionHalted => FailForgets(a, b, payment, subscription);
    case PaymentFailed => FailForgets(a, b, payment, subscription);
    case Other =>
  }

  lemma ResellerForgets(a: Db, b: Db, action: Action, now: Time)
    requires SameButStatus(a, b) && (action.AddCustomer? || action.SuspendCustomer? || action.ReactivateCustomer?)
    ensures Forgotten(a, b, Step(a, action, now), Step(b, action, now))
  {
  }

  lemma CancelForgets(a: Db, b: Db, user: UserId, now: Time)
    requires SameButStatus(a, b)
    ensures Forgotten(a, b, Step(a, Cancel(user), now), Step(b, Cancel(user), now))
  {
  }

  /** No writer other than the credit purchase acts on the status it finds. */
  lemma WritersForgetStatus(a: Db, b: Db, action: Action, now: Time)
    requires SameButStatus(a, b) && !IsExpiryCheck(action) && !action.PurchaseCredits?
    ensures Forgotten(a, b, Step(a, action, now), Step(b, action, now))
  {
    match action
    case StartTrial(_) =>
    case VerifyUpgrade(user, _, planId, _) => ActivateForgets(a, b, user, Some(planId), now + PAID_DAYS * MS_PER_DAY);
    case VerifyPayment(user, id, planId, _) => PayForPlanForgets(a, b, user, Some(id), planId, now);
    case Cancel(user) => CancelForgets(a, b, user, now);
    case Webhook(kind, payment, subscription, _) => EventForgets(a, b, kind, payment, subscription, now);
    case _ => ResellerForgets(a, b, action, now);
  }

  // ---------- the simulation over runs ----------

  lemma PurchaseSimulates(swept: Db, raw: Db, user: UserId, now: Time)
    requires Simulates(swept, raw, now) && Settled(raw, user, now)
    ensures Simulates(Step(swept, PurchaseCredits(user), now), Step(raw, PurchaseCredits(user), now), now)
  {
  }

  /** Any other action, taken on both sides, keeps the simulation. */
  lemma ActionSimulates(swept: Db, raw: Db, step: Timed)
    requires Simulates(swept, raw, step.time) && !IsExpiryCheck(step.action)
    requires step.action.PurchaseCredits? ==> Settled(raw, step.action.user, step.time)
    ensures Simulates(Step(swept, step.action, step.time), Step(raw, step.action, step.time), step.time)
  {
    if step.action.PurchaseCredits? {
      PurchaseSimulates(swept, raw, step.action.user, step.time);
    } else {
      WritersForgetStatus(swept, raw, step.action, step.time);
    }
  }

  lemma {:induction false} RunSimulates(swept: Db, raw: Db, run: Run, start: Time)
    requires Simulates(swept, raw, start) && Chronological(run, start) && PurchasesSettled(raw, Erase(run))
    ensures Simulates(Execute(swept, run), Execute(raw, Erase(run)), LastTime(run, start))
    decreases run
  {
    if run != [] {
      var step := run[0];
      SimulationPersists(swept, raw, start, step.time);
      if IsExpiryCheck(step.action) {
        ExpiryCheckSimulates(swept, raw, step);
        assert Erase(run) == Erase(run[1..]);
        RunSimulates(Step(swept, step.action, step.time), raw, run[1..], step.time);
      } else {
        ActionSimulates(swept, raw, step);
        assert Erase(run)[0] == step && Erase(run)[1..] == Erase(run[1..]);
        RunSimulates(Step(swept, step.action, step.time), Step(raw, step.action, step.time), run[1..], step.time);
      }
    }
  }

  /** The same answer, except that a swept period-end reads as a missed payment. */
  predicate SameAccess(a: Answer, b: Answer) {
    || a == b
    || (a.Denied? && b.Denied? && {a.reason, b.reason} == {PeriodOver, PaymentPastDue})
  }

  lemma SimulationAnswers(swept: Db, raw: Db, user: UserId, now: Time)
    requires Simulates(swept, raw, now)
    ensures SameAccess(Answers(swept, user, now), Answers(raw, user, now))
  {
  }

  /**
   However sweeps and earlier access checks are inserted into a run, every later access check gives the same answer
   (the same days left, and the same reason up to the two names of an unpaid period).
   */
  lemma SweepAgreement(db: Db, runA: Run, runB: Run, start: Time, user: UserId, now: Time)
    requires Chronological(runA, start) && Chronological(runB, start) && Erase(runA) == Erase(runB)
    requires PurchasesSettled(db, Erase(runA))
    requires LastTime(runA, start) <= now && LastTime(runB, start) <= now
    ensures SameAccess(Answers(Execute(db, runA), user, now), Answers(Execute(db, runB), user, now))
  {
    RunSimulates(db, db, runA, start);
    RunSimulates(db, db, runB, start);
    var raw := Execute(db, Erase(runA));
    SimulationPersists(Execute(db, runA), raw, LastTime(runA, start), now);
    SimulationPersists(Execute(db, runB), raw, LastTime(runB, start), now);
    SimulationAnswers(Execute(db, runA), raw, user, now);
    SimulationAnswers(Execute(db, runB), raw, user, now);
  }

  // ---------- where agreement ends ----------

  /** Does a sweep just before a credit purchase leave the buyer's access as it would be without the sweep? */
  predicate PurchaseIgnoresSweep(db: Db, user: UserId, now: Time) {
    var swept := Step(db, SweepTrials(now, {user}), now);
    Answers(Step(db, PurchaseCredits(user), now), user, now).Allowed?
      == Answers(Step(swept, PurchaseCredits(user), now), user, now).Allowed?
  }

  /** Credit purchases agree with the sweep exactly when they do not meet a trial that is over but unswept. */
  lemma PurchaseAgreement(db: Db, user: UserId, now: Time)
    ensures PurchaseIgnoresSweep(db, user, now) <==> Settled(db, user, now)
  {
  }

  /** The second half of an interrupted access check: the expired status is written by id, whatever the record is now. */
  function LateExpiryWrite(db: Db, user: UserId, target: Status): Db {
    SetStatus(db, user, target)
  }

  /** After any later run, the same access checks are refused, and the ones let through get the same answer. */
  ghost predicate SameFuture(a: Db, b: Db, user: UserId, now: Time) {
    forall run, later | Chronological(run, now) && LastTime(run, now) <= later ::
      SameDecision(Answers(Execute(a, run), user, later), Answers(Execute(b, run), user, later))
  }

  predicate SameDecision(a: Answer, b: Answer) {
    a == b || (a.Denied? && b.Denied?)
  }

  /** Refused until someone pays the provider: a credit purchase does not help. */
  predicate Owing(sub: Subscription, now: Time) {
    sub.status in {PastDue, Suspended} || (sub.status == Active && Past(sub.currentPeriodEnd, now))
  }

  /** Refused, and a credit purchase opens access. */
  predicate Lapsed(sub: Subscription) {
    sub.status in {TrialExpired, Cancelled}
  }

  /** Equal, or equal but for the status and both lapsed or both owing. */
  predicate AlikeRecords(x: Subscription, y: Subscription, now: Time) {
    && x == y.(status := x.status)
    && (x == y || (Lapsed(x) && Lapsed(y)) || (Owing(x, now) && Owing(y, now)))
  }

  predicate Alike(a: Db, b: Db, now: Time) {
    && a.users == b.users && a.customers == b.customers && a.subs.Keys == b.subs.Keys
    && forall u <- b.subs.Keys :: AlikeRecords(a.subs[u], b.subs[u], now)
  }

  lemma ExpireKeepsAlike(x: Subscription, y: Subscription, cutoff: Time, now: Time)
    requires AlikeRecords(x, y, now)
    ensures AlikeRecords(Expire(x, cutoff), Expire(y, cutoff), now)
    ensures AlikeRecords(if x.status == Trial then Expire(x, cutoff) else x, if y.status == Trial then Expire(y, cutoff) else y, now)
    ensures AlikeRecords(if x.status == Active then Expire(x, cutoff) else x, if y.status == Active then Expire(y, cutoff) else y, now)
  {
  }

  lemma ExpiryKeepsAlike(a: Db, b: Db, action: Action, now: Time)
    requires Alike(a, b, now) && IsExpiryCheck(action)
    ensures Alike(Step(a, action, now), Step(b, action, now), now)
  {
    var cutoff := if action.IsAllowedCall? then now else action.cutoff;
    var a', b' := Step(a, action, now), Step(b, action, now);
    forall u | u in b'.subs.Keys
      ensures AlikeRecords(a'.subs[u], b'.subs[u], now)
    {
      ExpireKeepsAlike(a.subs[u], b.subs[u], cutoff, now);
    }
  }

  lemma PurchaseKeepsAlike(a: Db, b: Db, user: UserId, now: Time)
    requires Alike(a, b, now)
    ensures Alike(Step(a, PurchaseCredits(user), now), Step(b, PurchaseCredits(user), now), now)
  {
    if user in b.subs {
      assert AlikeRecords(a.subs[user], b.subs[user], now);
    }
  }

  lemma StepKeepsAlike(a: Db, b: Db, action: Action, now: Time)
    requires Alike(a, b, now)
    ensures Alike(Step(a, action, now), Step(b, action, now), now)
  {
    if IsExpiryCheck(action) {
      ExpiryKeepsAlike(a, b, action, now);
    } else if action.PurchaseCredits? {
      PurchaseKeepsAlike(a, b, action.user, now);
    } else {
      assert SameButStatus(a, b);
      WritersForgetStatus(a, b, action, now);
    }
  }

  lemma {:induction false} RunKeepsAlike(a: Db, b: Db, run: Run, start: Time)
    requires Alike(a, b, start) && Chronological(run, start)
    ensures Alike(Execute(a, run), Execute(b, run), LastTime(run, start))
    decreases run
  {
    if run != [] {
      var t := run[0].time;
      assert Alike(a, b, t);
      StepKeepsAlike(a, b, run[0].action, t);
      RunKeepsAlike(Step(a, run[0].action, t), Step(b, run[0].action, t), run[1..], t);
    }
  }

  lemma AlikeHasSameFuture(a: Db, b: Db, user: UserId, now: Time)
    requires Alike(a, b, now)
    ensures SameFuture(a, b, user, now)
  {
    forall run, later | Chronological(run, now) && LastTime(run, now) <= later
      ensures SameDecision(Answers(Execute(a, run), user, later), Answers(Execute(b, run), user, later))
    {
      RunKeepsAlike(a, b, run, now);
    }
  }

  /** The record is already refused in the way the written status is. */
  predicate Fits(sub: Subscription, target: Status, now: Time) {
    if target == TrialExpired then Lapsed(sub) else Owing(sub, now)
  }

  /** The later runs that tell a late write from none: a credit purchase, alone or after an access check. */
  function Buy(user: UserId, now: Time): Run {
    [At(now, PurchaseCredits(user))]
  }

  function CheckAndBuy(user: UserId, now: Time): Run {
    [At(now, IsAllowedCall(user))] + Buy(user, now)
  }

  lemma TellingRuns(db: Db, user: UserId, now: Time)
    ensures var buy := Buy(user, now);
            Chronological(buy, now) && LastTime(buy, now) == now && Execute(db, buy) == Step(db, PurchaseCredits(user), now)
    ensures var run := CheckAndBuy(user, now);
            && Chronological(run, now) && LastTime(run, now) == now
            && Execute(db, run) == Step(Step(db, IsAllowedCall(user), now), PurchaseCredits(user), now)
  {
    var buy, run := Buy(user, now), CheckAndBuy(user, now);
    assert buy[1..] == [] && run[1..] == buy;
    var checked := Step(db, IsAllowedCall(user), now);
    assert Execute(checked, buy) == Step(checked, PurchaseCredits(user), now);
    assert Execute(db, run) == Execute(checked, run[1..]);
  }

  lemma PurchaseAfter(db: Db, user: UserId, now: Time)
    requires user in db.subs && Answers(db, user, now).Denied?
    ensures Answers(Execute(db, Buy(user, now)), user, now).Denied? <==> !Lapsed(db.subs[user])
    ensures Answers(Execute(db, CheckAndBuy(user, now)), user, now).Denied?
            <==> !Lapsed(db.subs[user]) && db.subs[user].status != Trial
  {
    TellingRuns(db, user, now);
  }

  /**
   A late expiry write leaves every later decision as it would be without the write, over all later runs, exactly when
   the record it meets is already lapsed (for an expired trial's status) or already owing (for an expired period's).
   */
  lemma LateWriteHarmless(db: Db, user: UserId, target: Status, now: Time)
    requires user in db.subs && target in {TrialExpired, PastDue}
    ensures SameFuture(LateExpiryWrite(db, user, target), db, user, now) <==> Fits(db.subs[user], target, now)
  {
    var late, sub := LateExpiryWrite(db, user, target), db.subs[user];
    if Fits(sub, target, now) {
      AlikeHasSameFuture(late, db, user, now);
    } else if !Answers(db, user, now).Denied? {
      assert !SameDecision(Answers(Execute(late, []), user, now), Answers(Execute(db, []), user, now));
    } else {
      var buy, checkAndBuy := Buy(user, now), CheckAndBuy(user, now);
      TellingRuns(db, user, now);
      PurchaseAfter(db, user, now);
      PurchaseAfter(late, user, now);
      if target == PastDue && sub.status == Trial {
        assert !SameDecision(Answers(Execute(late, checkAndBuy), user, now), Answers(Execute(db, checkAndBuy), user, now));
      } else {
        assert !SameDecision(Answers(Execute(late, buy), user, now), Answers(Execute(db, buy), user, now));
      }
    }
  }

  /**
   Compared with a check that reads and writes at once, the late write is harmless over all later runs exactly when the
   record it meets is an expired or swept trial or cancelled (for an expired trial's status), or an expired period, past
   due or suspended (for an expired period's).
   */
  lemma LateWriteLikeAtomicCheck(db: Db, user: UserId, target: Status, now: Time)
    requires user in db.subs && target in {TrialExpired, PastDue}
    ensures SameFuture(LateExpiryWrite(db, user, target), Step(db, IsAllowedCall(user), now), user, now) <==>
            Fits(Expire(db.subs[user], now), target, now)
    ensures var sub := db.subs[user];
            Fits(Expire(sub, now), target, now) <==>
            if target == TrialExpired
            then sub.status in {TrialExpired, Cancelled} || (sub.status == Trial && Past(sub.trialEndAt, now))
            else sub.status in {PastDue, Suspended} || (sub.status == Active && Past(sub.currentPeriodEnd, now))
  {
    var checked := Step(db, IsAllowedCall(user), now);
    assert LateExpiryWrite(checked, user, target) == LateExpiryWrite(db, user, target);
    LateWriteHarmless(checked, user, target, now);
  }

  /**
   An access check reads an expired period, a renewal is charged, and the check's write then lands: the customer who
   has just paid is denied.
   */
  lemma LateWriteCanUndoRenewal()
    ensures var user := "u";
            var expired := Db(map[user := Subscription(Active, Some("pro"), None, Some(100), None)], map[], {});
            var charged := Step(expired, Webhook(SubscriptionCharged, None, Some(Entity(None, Some(user), Some("pro"))), true), 102);
            && Answers(expired, user, 101) == Denied(PeriodOver)
            && Answers(charged, user, 103).Allowed?
            && Answers(LateExpiryWrite(charged, user, PastDue), user, 103) == Denied(PaymentPastDue)
  {
  }

  // ---------- what single actions mean ----------

  /** Trials only come from `StartTrial`, so no access check reaches the null dereference. */
  predicate TrialsEnd(db: Db) {
    forall u <- db.subs.Keys :: db.subs[u].status == Trial ==> db.subs[u].trialEndAt.Some?
  }

  lemma StepKeepsTrialsEnd(db: Db, action: Action, now: Time)
    requires TrialsEnd(db)
    ensures TrialsEnd(Step(db, action, now))
  {
  }

  lemma {:induction false} NeverCrashes(db: Db, run: Run, user: UserId, now: Time)
    requires TrialsEnd(db)
    ensures TrialsEnd(Execute(db, run)) && !Answers(Execute(db, run), user, now).Crashed?
    decreases run
  {
    if run != [] {
      StepKeepsTrialsEnd(db, run[0].action, run[0].time);
      NeverCrashes(Step(db, run[0].action, run[0].time), run[1..], user, now);
    }
  }

  /** The users whose records an action may write for a reason other than expiry. */
  function Touched(action: Action): set<UserId> {
    match action
    case Webhook(_, payment, subscription, _) =>
      (if payment.Some? && payment.value.userId.Some? then {payment.value.userId.value} else {})
      + (if subscription.Some? && subscription.value.userId.Some? then {subscription.value.userId.value} else {})
    case AddCustomer(_, customer, _, _) => if customer.Some? then {customer.value} else {}
    case IsAllowedCall(_) => {}
    case SweepTrials(_, _) => {}
    case SweepActive(_, _) => {}
    case _ => {action.user}
  }

  /** What an action may do to another user's record: nothing but write an expiry that is due. */
  lemma OthersOnlyExpire(db: Db, step: Timed, user: UserId)
    requires CutoffRead(step) && user in db.subs && user !in Touched(step.action)
    ensures var next := Step(db, step.action, step.time).subs;
            user in next && SweptFrom(next[user], db.subs[user], step.time)
  {
  }

  lemma {:induction false} LastTimeIsLater(run: Run, start: Time)
    requires Chronological(run, start)
    ensures start <= LastTime(run, start)
    decreases run
  {
    if run != [] {
      LastTimeIsLater(run[1..], run[0].time);
    }
  }

  /** Over a whole run that is not about a user, the user's record changes at most by an expiry that is due. */
  lemma {:induction false} UntouchedRecord(db: Db, run: Run, start: Time, user: UserId)
    requires Chronological(run, start) && user in db.subs && forall step <- run :: user !in Touched(step.action)
    ensures var after := Execute(db, run).subs;
            user in after && SweptFrom(after[user], db.subs[user], LastTime(run, start))
    decreases run
  {
    if run != [] {
      assert run[0] in run;
      OthersOnlyExpire(db, run[0], user);
      LastTimeIsLater(run[1..], run[0].time);
      UntouchedRecord(Step(db, run[0].action, run[0].time), run[1..], run[0].time, user);
    }
  }

  /** The access of a user whom the run between is not about. */
  lemma UntouchedAnswer(db: Db, run: Run, start: Time, user: UserId, later: Time)
    requires Chronological(run, start) && user in db.subs && forall step <- run :: user !in Touched(step.action)
    requires LastTime(run, start) <= later
    ensures SameAccess(Answers(Execute(db, run), user, later), Answers(db, user, later))
  {
    UntouchedRecord(db, run, start, user);
  }

  /** A settled payment opens access through exactly the next thirty days, over any run that is not about the user. */
  lemma PaymentOpensAccess(db: Db, user: UserId, paymentId: PaymentId, planId: string, now: Time, run: Run, later: Time)
    requires planId in SYSTEM_PLANS && Chronological(run, now) && LastTime(run, now) <= later && now <= later
    requires forall step <- run :: user !in Touched(step.action)
    ensures Answers(Execute(Step(db, VerifyUpgrade(user, paymentId, planId, true), now), run), user, later).Allowed?
            <==> later <= now + 2_592_000_000
    ensures Answers(Execute(Step(db, VerifyPayment(user, paymentId, planId, true), now), run), user, later).Allowed?
            <==> later <= now + 2_592_000_000
  {
    UntouchedAnswer(Step(db, VerifyUpgrade(user, paymentId, planId, true), now), run, now, user, later);
    UntouchedAnswer(Step(db, VerifyPayment(user, paymentId, planId, true), now), run, now, user, later);
  }

  /**
   A new user's trial lasts ten days to the millisecond and starts with ten days left, over any run that is not about the
   user; an existing record is left alone.
   */
  lemma TrialLastsTenDays(db: Db, user: UserId, now: Time, run: Run, later: Time)
    requires Chronological(run, now) && LastTime(run, now) <= later && now <= later
    requires forall step <- run :: user !in Touched(step.action)
    ensures user in db.subs ==> Step(db, StartTrial(user), now) == db
    ensures user !in db.subs ==>
              var answer := Answers(Execute(Step(db, StartTrial(user), now), run), user, later);
              if later > now + 864_000_000 then answer == Denied(TrialOver)
              else
                && answer.Allowed? && answer.daysLeft.Some?
                && (answer.daysLeft.value - 1) * 86_400_000 < now + 864_000_000 - later <= answer.daysLeft.value * 86_400_000
                && (later == now ==> answer.daysLeft.value == 10)
  {
    if user !in db.subs {
      var started := Step(db, StartTrial(user), now);
      UntouchedAnswer(started, run, now, user, later);
      AccessRule(started, user, later);
    }
  }

  /**
   Cancelling, failing a payment and suspending close access at once, whatever period was left, and it stays closed over
   any run that is not about the user.
   */
  lemma ClosingActions(db: Db, user: UserId, reseller: string, entity: Entity, now: Time, run: Run, later: Time)
    requires user in db.subs && entity.userId == Some(user)
    requires entity.id.None? || !Processed(db.users, entity.id.value)
    requires Chronological(run, now) && LastTime(run, now) <= later && forall step <- run :: user !in Touched(step.action)
    ensures Answers(Execute(Step(db, Cancel(user), now), run), user, later) == Denied(SubscriptionCancelledReason)
    ensures SameAccess(Answers(Execute(Step(db, Webhook(PaymentFailed, Some(entity), None, true), now), run), user, later),
                       Denied(PaymentPastDue))
    ensures Answers(Execute(Step(db, Webhook(SubscriptionCancelled, None, Some(entity), true), now), run), user, later)
            == Denied(SubscriptionCancelledReason)
    ensures (reseller, user) in db.customers && db.subs[user].resellerId == Some(reseller) ==>
              Answers(Execute(Step(db, SuspendCustomer(reseller, user), now), run), user, later) == Denied(AccountSuspended)
  {
    UntouchedAnswer(Step(db, Cancel(user), now), run, now, user, later);
    UntouchedAnswer(Step(db, Webhook(PaymentFailed, Some(entity), None, true), now), run, now, user, later);
    UntouchedAnswer(Step(db, Webhook(SubscriptionCancelled, None, Some(entity), true), now), run, now, user, later);
    UntouchedAnswer(Step(db, SuspendCustomer(reseller, user), now), run, now, user, later);
  }

  /** Reactivation undoes a suspension: access is open exactly to the month end. */
  lemma ReactivationReopens(db: Db, user: UserId, reseller: string, monthEnd: Time, now: Time, run: Run, later: Time)
    requires user in db.subs && (reseller, user) in db.customers && db.subs[user].resellerId == Some(reseller)
    requires Chronological(run, now) && LastTime(run, now) <= later && forall step <- run :: user !in Touched(step.action)
    ensures var suspended := Step(db, SuspendCustomer(reseller, user), now);
            Answers(Execute(Step(suspended, ReactivateCustomer(reseller, user, monthEnd), now), run), user, later).Allowed?
            <==> later <= monthEnd
  {
    var suspended := Step(db, SuspendCustomer(reseller, user), now);
    UntouchedAnswer(Step(suspended, ReactivateCustomer(reseller, user, monthEnd), now), run, now, user, later);
  }

  /** A customer whom a reseller adds is let in exactly to the month end, over any run that is not about the customer. */
  lemma AddedCustomerLetIn(db: Db, reseller: string, user: UserId, plan: Option<string>, monthEnd: Time, now: Time, run: Run, later: Time)
    requires (reseller, user) !in db.customers
    requires Chronological(run, now) && LastTime(run, now) <= later && forall step <- run :: user !in Touched(step.action)
    ensures Answers(Execute(Step(db, Action.AddCustomer(reseller, Some(user), plan, monthEnd), now), run), user, later).Allowed?
            <==> later <= monthEnd
  {
    UntouchedAnswer(Step(db, Action.AddCustomer(reseller, Some(user), plan, monthEnd), now), run, now, user, later);
  }

  /** A captured or charged event that is not skipped opens access through exactly thirty days. */
  lemma EventOpensAccess(db: Db, payment: Option<Entity>, subscription: Option<Entity>, user: UserId, planId: string,
                         now: Time, run: Run, later: Time)
    requires !Skipped(db, payment, subscription)
    requires Chronological(run, now) && LastTime(run, now) <= later && now <= later
    requires forall step <- run :: user !in Touched(step.action)
    ensures payment.Some? && payment.value.userId == Some(user) && payment.value.planId == Some(planId) && planId in SYSTEM_PLANS ==>
              (Answers(Execute(Step(db, Webhook(PaymentCaptured, payment, subscription, true), now), run), user, later).Allowed?
               <==> later <= now + 2_592_000_000)
    ensures subscription.Some? && subscription.value.userId == Some(user) && subscription.value.planId == Some(planId) ==>
              (Answers(Execute(Step(db, Webhook(SubscriptionCharged, payment, subscription, true), now), run), user, later).Allowed?
               <==> later <= now + 2_592_000_000)
  {
    if payment.Some? && payment.value.userId == Some(user) && payment.value.planId == Some(planId) && planId in SYSTEM_PLANS {
      UntouchedAnswer(Step(db, Webhook(PaymentCaptured, payment, subscription, true), now), run, now, user, later);
    }
    if subscription.Some? && subscription.value.userId == Some(user) && subscription.value.planId == Some(planId) {
      UntouchedAnswer(Step(db, Webhook(SubscriptionCharged, payment, subscription, true), now), run, now, user, later);
    }
  }

  // ---------- provider events delivered again ----------

  /** The event, not skipped, has something to write at every later time, or does so now. */
  predicate Acts(db: Db, kind: EventKind, payment: Option<Entity>, subscription: Option<Entity>) {
    match kind
    case PaymentCaptured =>
      && payment.Some? && payment.value.userId.Some? && payment.value.planId.Some?
      && (payment.value.planId.value in SYSTEM_PLANS || (payment.value.userId.value in db.users && payment.value.id.Some?))
    case SubscriptionCharged => subscription.Some? && subscription.value.userId.Some? && subscription.value.planId.Some?
    case SubscriptionHalted => MovesTo(db, if payment.Some? then payment else subscription, PastDue)
    case PaymentFailed => MovesTo(db, if payment.Some? then payment else subscription, PastDue)
    case SubscriptionCancelled => MovesTo(db, subscription, Cancelled)
    case Other => false
  }

  predicate MovesTo(db: Db, entity: Option<Entity>, status: Status) {
    && entity.Some? && entity.value.userId.Some?
    && entity.value.userId.value in db.subs && db.subs[entity.value.userId.value].status != status
  }

  predicate Skipped(db: Db, payment: Option<Entity>, subscription: Option<Entity>) {
    var id := EntityId(payment, subscription);
    id.Some? && Processed(db.users, id.value)
  }

  /** Thirty days from two different moments end at different times. */
  lemma ActivationMoves(db: Db, user: UserId, planId: Option<string>, t: Time)
    ensures var end, end' := t + PAID_DAYS * MS_PER_DAY, t + 1 + PAID_DAYS * MS_PER_DAY;
            Activate(db, user, planId, end).subs != db.subs || Activate(db, user, planId, end').subs != db.subs
  {
    var end, end' := t + PAID_DAYS * MS_PER_DAY, t + 1 + PAID_DAYS * MS_PER_DAY;
    assert Activate(db, user, planId, end).subs[user].currentPeriodEnd == Some(end);
    assert Activate(db, user, planId, end').subs[user].currentPeriodEnd == Some(end');
  }

  /** A delivery at any later time leaves the database alone exactly when the event is skipped or has nothing to write. */
  lemma DeliveryChangesNothingIff(db: Db, kind: EventKind, payment: Option<Entity>, subscription: Option<Entity>, start: Time)
    ensures (forall t | start <= t :: HandleEvent(db, kind, payment, subscription, t) == db) <==>
            Skipped(db, payment, subscription) || !Acts(db, kind, payment, subscription)
  {
    if Skipped(db, payment, subscription) || !Acts(db, kind, payment, subscription) {
    } else if kind == PaymentCaptured {
      CaptureWrites(db, payment, subscription, start);
    } else if kind == SubscriptionCharged {
      ActivationMoves(db, subscription.value.userId.value, None, start);
      assert HandleEvent(db, kind, payment, subscription, start) != db || HandleEvent(db, kind, payment, subscription, start + 1) != db;
    } else {
      assert HandleEvent(db, kind, payment, subscription, start) != db;
    }
  }

  lemma CaptureWrites(db: Db, payment: Option<Entity>, subscription: Option<Entity>, t: Time)
    requires Acts(db, PaymentCaptured, payment, subscription) && !Skipped(db, payment, subscription)
    ensures || HandleEvent(db, PaymentCaptured, payment, subscription, t) != db
            || HandleEvent(db, PaymentCaptured, payment, subscription, t + 1) != db
  {
    var user, planId := payment.value.userId.value, payment.value.planId.value;
    if planId in SYSTEM_PLANS {
      ActivationMoves(RecordPayment(db, user, payment.value.id), user, Some(planId), t);
    } else {
      assert user in db.users.Keys && db.users[user] != payment.value.id;
      assert RecordPayment(db, user, payment.value.id).users[user] == payment.value.id;
    }
  }

  /** The user and payment id that a step books. */
  function Books(db: Db, action: Action): Option<(UserId, PaymentId)> {
    match action
    case VerifyUpgrade(user, id, planId, signatureOk) =>
      if signatureOk && planId in SYSTEM_PLANS && user in db.users then Some((user, id)) else None
    case VerifyPayment(user, id, _, signatureOk) => if signatureOk && user in db.users then Some((user, id)) else None
    case Webhook(kind, payment, subscription, signatureOk) =>
      if && signatureOk && kind == PaymentCaptured && !Skipped(db, payment, subscription)
         && payment.Some? && payment.value.userId.Some? && payment.value.planId.Some? && payment.value.id.Some?
         && payment.value.userId.value in db.users
      then Some((payment.value.userId.value, payment.value.id.value))
      else None
    case _ => None
  }

  lemma StepBooks(db: Db, action: Action, now: Time)
    ensures Step(db, action, now).users ==
            var booked := Books(db, action);
            if booked.Some? then db.users[booked.value.0 := Some(booked.value.1)] else db.users
  {
  }

  /** The last payment a run books on a user, if any. */
  function LastBooked(db: Db, run: Run, user: UserId): Option<PaymentId>
    decreases run
  {
    if run == [] then None
    else
      var rest := LastBooked(Step(db, run[0].action, run[0].time), run[1..], user);
      var booked := Books(db, run[0].action);
      if rest.Some? then rest
      else if booked.Some? && booked.value.0 == user then Some(booked.value.1) else None
  }

  lemma {:induction false} BookedOverRun(db: Db, run: Run, user: UserId)
    requires user in db.users
    ensures var after := Execute(db, run).users;
            && after.Keys == db.users.Keys
            && after[user] == if LastBooked(db, run, user).Some? then LastBooked(db, run, user) else db.users[user]
    decreases run
  {
    if run != [] {
      StepBooks(db, run[0].action, run[0].time);
      BookedOverRun(Step(db, run[0].action, run[0].time), run[1..], user);
    }
  }

  /** After the run some user's last payment is the given one. */
  ghost predicate StillHeld(db: Db, run: Run, id: PaymentId) {
    exists u <- db.users.Keys ::
      LastBooked(db, run, u) == Some(id) || (LastBooked(db, run, u).None? && db.users[u] == Some(id))
  }

  lemma ProcessedIffHeld(db: Db, run: Run, id: PaymentId)
    ensures Processed(Execute(db, run).users, id) <==> StillHeld(db, run, id)
  {
    var after := Execute(db, run).users;
    if db.users.Keys != {} {
      var v :| v in db.users.Keys;
      BookedOverRun(db, run, v);
    } else {
      NoUsersOverRun(db, run);
    }
    forall u | u in db.users.Keys
      ensures after[u] == Some(id) <==>
              LastBooked(db, run, u) == Some(id) || (LastBooked(db, run, u).None? && db.users[u] == Some(id))
    {
      BookedOverRun(db, run, u);
    }
  }

  lemma {:induction false} NoUsersOverRun(db: Db, run: Run)
    requires db.users.Keys == {}
    ensures Execute(db, run).users.Keys == {}
    decreases run
  {
    if run != [] {
      StepBooks(db, run[0].action, run[0].time);
      NoUsersOverRun(Step(db, run[0].action, run[0].time), run[1..]);
    }
  }

  /**
   A captured payment of a known user, delivered again after any run, changes nothing at any later time exactly when some
   user's last payment after the run is still that one.
   */
  lemma CapturedOnce(db: Db, user: UserId, paymentId: PaymentId, planId: string, now: Time, run: Run, start: Time)
    requires user in db.users
    ensures var payment := Some(Entity(Some(paymentId), Some(user), Some(planId)));
            var once := HandleEvent(db, PaymentCaptured, payment, None, now);
            var after := Execute(once, run);
            (forall t | start <= t :: HandleEvent(after, PaymentCaptured, payment, None, t) == after)
            <==> StillHeld(once, run, paymentId)
  {
    var payment := Some(Entity(Some(paymentId), Some(user), Some(planId)));
    var capture := Webhook(PaymentCaptured, payment, None, true);
    var once := HandleEvent(db, PaymentCaptured, payment, None, now);
    StepBooks(db, capture, now);
    assert once == Step(db, capture, now);
    BookedOverRun(once, run, user);
    ProcessedIffHeld(once, run, paymentId);
    DeliveryChangesNothingIff(Execute(once, run), PaymentCaptured, payment, None, start);
  }

  /** Delivered again at once, it changes nothing. */
  lemma CapturedTwiceAtOnce(db: Db, user: UserId, paymentId: PaymentId, planId: string, now: Time, later: Time)
    requires user in db.users
    ensures var payment := Some(Entity(Some(paymentId), Some(user), Some(planId)));
            var once := HandleEvent(db, PaymentCaptured, payment, None, now);
            HandleEvent(once, PaymentCaptured, payment, None, later) == once
  {
    var payment := Some(Entity(Some(paymentId), Some(user), Some(planId)));
    var once := HandleEvent(db, PaymentCaptured, payment, None, now);
    StepBooks(db, Webhook(PaymentCaptured, payment, None, true), now);
    assert once == Step(db, Webhook(PaymentCaptured, payment, None, true), now);
    assert user in once.users.Keys;
    assert Processed(db.users, paymentId) || once.users[user] == Some(paymentId);
  }

  /** A captured payment, another payment, a cancellation, and the first event again: the cancelled user is active. */
  lemma RedeliveryReactivates()
    ensures var db := Db(map[], map["u" := None], {});
            var capture := Webhook(PaymentCaptured, Some(Entity(Some("p1"), Some("u"), Some("pro"))), None, true);
            var cancelled := Step(Step(Step(db, capture, 1), VerifyUpgrade("u", "p2", "pro", true), 2), Cancel("u"), 3);
            && Answers(cancelled, "u", 4) == Denied(SubscriptionCancelledReason)
            && Answers(Step(cancelled, capture, 4), "u", 4).Allowed?
  {
    var db := Db(map[], map["u" := None], {});
    var capture := Webhook(PaymentCaptured, Some(Entity(Some("p1"), Some("u"), Some("pro"))), None, true);
    var paid := Step(db, capture, 1);
    assert paid.users == map["u" := Some("p1")];
    var upgraded := Step(paid, VerifyUpgrade("u", "p2", "pro", true), 2);
    assert upgraded.users == map["u" := Some("p2")];
    assert !Processed(upgraded.users, "p1");
  }

  /** A charged event books no payment: while no user holds its id, every delivery extends the period again. */
  lemma ChargedExtendsEveryTime(db: Db, user: UserId, planId: string, payment: Option<Entity>, id: Option<PaymentId>, now: Time, later: Time)
    requires var subscription := Some(Entity(id, Some(user), Some(planId)));
             !Skipped(db, payment, subscription)
    ensures var subscription := Some(Entity(id, Some(user), Some(planId)));
            var once := HandleEvent(db, SubscriptionCharged, payment, subscription, now);
            var twice := HandleEvent(once, SubscriptionCharged, payment, subscription, later);
            && once.users == db.users
            && twice.subs[user].currentPeriodEnd == Some(later + 2_592_000_000)
  {
  }
}
