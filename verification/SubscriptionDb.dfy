/** The service methods that write subscription records, against the actions of `Subscriptions`. */
module SubscriptionDb {
  import opened Common
  import opened Wrappers
  import opened Subscriptions

  datatype ServiceError = BadRequest | NotFound | Conflict

  /** The user's record, or a new one with nothing set, made active under a plan to the given end. */
  function ActiveUntil(subs: map<UserId, Subscription>, user: UserId, planId: Option<string>, end: Time): Subscription {
    if user in subs
    then subs[user].(status := Active, planId := planId, currentPeriodEnd := Some(end))
    else Subscription(Active, planId, None, Some(end), None)
  }

  /** The entity's notes name a user and a plan. */
  predicate Noted(entity: Option<Entity>) {
    entity.Some? && entity.value.userId.Some? && entity.value.planId.Some?
  }

  /** The record of the user named in the entity's notes, if there is one, has the status. */
  function WithStatus(subs: map<UserId, Subscription>, entity: Option<Entity>, status: Status): map<UserId, Subscription> {
    if entity.Some? && entity.value.userId.Some? && entity.value.userId.value in subs
    then subs[entity.value.userId.value := subs[entity.value.userId.value].(status := status)]
    else subs
  }

  class BillingDb {
    var subs: map<UserId, Subscription>
    var users: map<UserId, Option<PaymentId>>
    var customers: set<(string, UserId)>

    ghost function Contents(): Db
      reads this
    {
      Db(subs, users, customers)
    }

    constructor ()
      ensures Contents() == Db(map[], map[], {})
    {
      subs, users, customers := map[], map[], {};
    }

    method StartTrial(user: UserId, now: Time) returns (sub: Subscription)
      modifies this
      ensures Contents() == Step(old(Contents()), Action.StartTrial(user), now)
      ensures user in subs && subs[user] == sub
      ensures user in old(subs) ==> subs == old(subs)
      ensures user !in old(subs) ==>
                sub == Subscription(Trial, Some("trial"), Some(now + 864_000_000), Some(now + 864_000_000), None)
    {
      if user !in subs {
        var trialEnd := now + TRIAL_DAYS * MS_PER_DAY;
        subs := subs[user := Subscription(Trial, Some("trial"), Some(trialEnd), Some(trialEnd), None)];
      }
      sub := subs[user];
    }

    /** Answers the access question and writes the expiry it discovers. */
    method IsAllowed(user: UserId, now: Time) returns (answer: Answer)
      modifies this
      ensures answer == Answers(old(Contents()), user, now)
      ensures Contents() == Step(old(Contents()), IsAllowedCall(user), now)
      ensures user !in old(subs) ==> answer == Allowed(None)
      ensures user in old(subs) && old(subs)[user].status == Trial && answer.Allowed? ==>
                var left := old(subs)[user].trialEndAt.value - now;
                && left >= 0 && answer.daysLeft.Some? && answer.daysLeft.value >= 0
                && (answer.daysLeft.value - 1) * 86_400_000 < left <= answer.daysLeft.value * 86_400_000
      ensures answer == Denied(TrialOver) && old(subs)[user].status == Trial ==>
                subs == old(subs)[user := old(subs)[user].(status := TrialExpired)]
      ensures answer == Denied(PeriodOver) ==> subs == old(subs)[user := old(subs)[user].(status := PastDue)]
      ensures answer != Denied(PeriodOver) && !(answer == Denied(TrialOver) && old(subs)[user].status == Trial) ==> subs == old(subs)
    {
      AccessRule(Contents(), user, now);
      if user !in subs {
        return Allowed(None);
      }
      var sub := subs[user];
      match sub.status
      case Trial =>
        if sub.trialEndAt.Some? && now > sub.trialEndAt.value {
          subs := subs[user := sub.(status := TrialExpired)];
          return Denied(TrialOver);
        }
        assert subs == subs[user := sub];
        if sub.trialEndAt.None? {
          return Crashed;
        }
        return Allowed(Some(DaysLeft(sub.trialEndAt.value, now)));
      case Active =>
        if sub.currentPeriodEnd.Some? && now > sub.currentPeriodEnd.value {
          subs := subs[user := sub.(status := PastDue)];
          return Denied(PeriodOver);
        }
        assert subs == subs[user := sub];
        return Allowed(None);
      case CreditOnly =>
        assert subs == subs[user := sub];
        return Allowed(None);
      case TrialExpired =>
        assert subs == subs[user := sub];
        return Denied(TrialOver);
      case PastDue =>
        assert subs == subs[user := sub];
        return Denied(PaymentPastDue);
      case Suspended =>
        assert subs == subs[user := sub];
        return Denied(AccountSuspended);
      case Cancelled =>
        assert subs == subs[user := sub];
        return Denied(SubscriptionCancelledReason);
    }

    /** The hourly sweep: two bulk updates, trials first. */
    method ExpireStaleSubscriptions(now: Time)
      modifies this
      ensures Contents() == Step(Step(old(Contents()), SweepTrials(now, old(subs).Keys), now),
                                 SweepActive(now, old(subs).Keys), now)
      ensures subs.Keys == old(subs).Keys
      ensures forall u <- subs.Keys ::
                var sub := old(subs)[u];
                subs[u] ==
                if sub.status == Trial && sub.trialEndAt.Some? && sub.trialEndAt.value < now then sub.(status := TrialExpired)
                else if sub.status == Active && sub.currentPeriodEnd.Some? && sub.currentPeriodEnd.value < now
                then sub.(status := PastDue)
                else sub
    {
      ExpireTrials(now);
      assert subs.Keys == old(subs).Keys;
      ExpirePeriods(now);
    }

    method ExpireTrials(now: Time)
      modifies this`subs
      ensures Contents() == Step(old(Contents()), SweepTrials(now, old(subs).Keys), now)
    {
      ghost var before := subs;
      var todo := subs.Keys;
      while todo != {}
        invariant todo <= before.Keys
        invariant subs == map u | u in before ::
                      if u !in todo && before[u].status == Trial then Expire(before[u], now) else before[u]
        decreases todo
      {
        var u :| u in todo;
        var sub := subs[u];
        if sub.status == Trial && sub.trialEndAt.Some? && sub.trialEndAt.value < now {
          subs := subs[u := sub.(status := TrialExpired)];
        }
        todo := todo - {u};
      }
    }

    method ExpirePeriods(now: Time)
      modifies this`subs
      ensures Contents() == Step(old(Contents()), SweepActive(now, old(subs).Keys), now)
    {
      ghost var before := subs;
      var todo := subs.Keys;
      while todo != {}
        invariant todo <= before.Keys
        invariant subs == map u | u in before ::
                      if u !in todo && before[u].status == Active then Expire(before[u], now) else before[u]
        decreases todo
      {
        var u :| u in todo;
        var sub := subs[u];
        if sub.status == Active && sub.currentPeriodEnd.Some? && sub.currentPeriodEnd.value < now {
          subs := subs[u := sub.(status := PastDue)];
        }
        todo := todo - {u};
      }
    }

    method VerifyUpgradePayment(user: UserId, paymentId: PaymentId, planId: string, signatureOk: bool, now: Time)
      returns (result: Result<Subscription, ServiceError>)
      modifies this
      ensures Contents() == Step(old(Contents()), VerifyUpgrade(user, paymentId, planId, signatureOk), now)
      ensures result.Ok? <==> signatureOk && planId in SYSTEM_PLANS
      ensures result.Ok? ==> user in subs && result.value == subs[user]
      ensures result.Ok? ==>
                && subs == old(subs)[user := ActiveUntil(old(subs), user, Some(planId), now + 2_592_000_000)]
                && users == (if user in old(users) then old(users)[user := Some(paymentId)] else old(users))
      ensures result.Err? ==> subs == old(subs) && users == old(users)
    {
      if !signatureOk || planId !in SYSTEM_PLANS {
        return Err(BadRequest);
      }
      var sub := if user in subs then subs[user] else NEW_RECORD;
      sub := sub.(status := Active, planId := Some(planId), currentPeriodEnd := Some(now + PAID_DAYS * MS_PER_DAY));
      subs := subs[user := sub];
      if user in users {
        users := users[user := Some(paymentId)];
      }
      return Ok(sub);
    }

    method CancelSubscription(user: UserId) returns (result: Result<(), ServiceError>)
      modifies this
      ensures forall now :: Contents() == Step(old(Contents()), Action.Cancel(user), now)
      ensures result.Ok? <==> user in old(subs) && old(subs)[user].status != Cancelled
      ensures subs == if result.Ok? then old(subs)[user := old(subs)[user].(status := Cancelled)] else old(subs)
    {
      if user !in subs || subs[user].status == Cancelled {
        return Err(BadRequest);
      }
      subs := subs[user := subs[user].(status := Cancelled)];
      return Ok(());
    }

    method VerifyPayment(user: UserId, paymentId: PaymentId, planId: string, signatureOk: bool, now: Time)
      returns (result: Result<(), ServiceError>)
      modifies this
      ensures Contents() == Step(old(Contents()), Action.VerifyPayment(user, paymentId, planId, signatureOk), now)
      ensures result.Ok? <==> signatureOk
      ensures signatureOk ==>
                && users == (if user in old(users) then old(users)[user := Some(paymentId)] else old(users))
                && subs == if planId in {"trial", "starter", "pro", "enterprise"}
                           then old(subs)[user := ActiveUntil(old(subs), user, Some(planId), now + 2_592_000_000)] else old(subs)
      ensures !signatureOk ==> subs == old(subs) && users == old(users)
    {
      if !signatureOk {
        return Err(BadRequest);
      }
      BookPlan(user, Some(paymentId), planId, now);
      return Ok(());
    }

    method BookPlan(user: UserId, paymentId: Option<PaymentId>, planId: string, now: Time)
      modifies this
      ensures Contents() == PayForPlan(old(Contents()), user, paymentId, planId, now)
      ensures users == (if user in old(users) && paymentId.Some? then old(users)[user := paymentId] else old(users))
      ensures subs == if planId in {"trial", "starter", "pro", "enterprise"}
                      then old(subs)[user := ActiveUntil(old(subs), user, Some(planId), now + 2_592_000_000)] else old(subs)
    {
      if user in users && paymentId.Some? {
        users := users[user := paymentId];
      }
      if planId in SYSTEM_PLANS {
        var sub := if user in subs then subs[user] else NEW_RECORD;
        subs := subs[user := sub.(status := Active, planId := Some(planId),
                                  currentPeriodEnd := Some(now + PAID_DAYS * MS_PER_DAY))];
      }
    }

    /** `skipped` reports an event whose payment id some user already holds. */
    method HandleWebhook(kind: EventKind, payment: Option<Entity>, subscription: Option<Entity>, signatureOk: bool, now: Time)
      returns (result: Result<bool, ServiceError>)
      modifies this
      ensures Contents() == Step(old(Contents()), Webhook(kind, payment, subscription, signatureOk), now)
      ensures result.Ok? <==> signatureOk
      ensures result.Ok? ==>
                var id := EntityId(payment, subscription);
                result.value <==> id.Some? && Processed(old(users), id.value)
      ensures result.Ok? ==>
                (result.value <==>
                   var id := if payment.Some? && payment.value.id.Some? then payment.value.id
                             else if subscription.Some? then subscription.value.id else None;
                   id.Some? && exists u <- old(users).Keys :: old(users)[u] == id)
      ensures result.Err? || result.value || kind == Other ==> subs == old(subs) && users == old(users)
      ensures result == Ok(false) && kind in {SubscriptionHalted, PaymentFailed} ==>
                users == old(users) && subs == WithStatus(old(subs), if payment.Some? then payment else subscription, PastDue)
      ensures result == Ok(false) && kind == EventKind.SubscriptionCancelled ==>
                users == old(users) && subs == WithStatus(old(subs), subscription, Cancelled)
      ensures result == Ok(false) && kind == PaymentCaptured && Noted(payment) ==>
                var user, planId, id := payment.value.userId.value, payment.value.planId.value, payment.value.id;
                && users == (if user in old(users) && id.Some? then old(users)[user := id] else old(users))
                && subs == if planId in {"trial", "starter", "pro", "enterprise"}
                           then old(subs)[user := ActiveUntil(old(subs), user, Some(planId), now + 2_592_000_000)] else old(subs)
      ensures result == Ok(false) && kind == SubscriptionCharged && Noted(subscription) ==>
                var user := subscription.value.userId.value;
                users == old(users) &&
                subs == old(subs)[user := ActiveUntil(old(subs), user, if user in old(subs) then old(subs)[user].planId else None,
                                                      now + 2_592_000_000)]
      ensures (kind == PaymentCaptured && !Noted(payment)) || (kind == SubscriptionCharged && !Noted(subscription)) ==>
                subs == old(subs) && users == old(users)
    {
      if !signatureOk {
        return Err(BadRequest);
      }
      var id := EntityId(payment, subscription);
      if id.Some? && exists u <- users.Keys :: users[u] == Some(id.value) {
        return Ok(true);
      }
      ApplyEvent(kind, payment, subscription, now);
      return Ok(false);
    }

    /** What an event that is not skipped writes. */
    method ApplyEvent(kind: EventKind, payment: Option<Entity>, subscription: Option<Entity>, now: Time)
      requires !Skipped(Contents(), payment, subscription)
      modifies this
      ensures Contents() == HandleEvent(old(Contents()), kind, payment, subscription, now)
      ensures customers == old(customers) && (kind == Other ==> subs == old(subs) && users == old(users))
      ensures kind in {SubscriptionHalted, PaymentFailed} ==>
                users == old(users) && subs == WithStatus(old(subs), if payment.Some? then payment else subscription, PastDue)
      ensures kind == EventKind.SubscriptionCancelled ==>
                users == old(users) && subs == WithStatus(old(subs), subscription, Cancelled)
      ensures kind == PaymentCaptured && Noted(payment) ==>
                var user, planId, id := payment.value.userId.value, payment.value.planId.value, payment.value.id;
                && users == (if user in old(users) && id.Some? then old(users)[user := id] else old(users))
                && subs == if planId in {"trial", "starter", "pro", "enterprise"}
                           then old(subs)[user := ActiveUntil(old(subs), user, Some(planId), now + 2_592_000_000)] else old(subs)
      ensures kind == SubscriptionCharged && Noted(subscription) ==>
                var user := subscription.value.userId.value;
                users == old(users) &&
                subs == old(subs)[user := ActiveUntil(old(subs), user, if user in old(subs) then old(subs)[user].planId else None,
                                                      now + 2_592_000_000)]
      ensures (kind == PaymentCaptured && !Noted(payment)) || (kind == SubscriptionCharged && !Noted(subscription)) ==>
                subs == old(subs) && users == old(users)
    {
      if kind == PaymentCaptured {
        if payment.Some? && payment.value.userId.Some? && payment.value.planId.Some? {
          BookPlan(payment.value.userId.value, payment.value.id, payment.value.planId.value, now);
        }
      }
      if kind == SubscriptionCharged {
        if subscription.Some? && subscription.value.userId.Some? && subscription.value.planId.Some? {
          var user := subscription.value.userId.value;
          var sub := if user in subs then subs[user] else NEW_RECORD;
          subs := subs[user := sub.(status := Active, currentPeriodEnd := Some(now + PAID_DAYS * MS_PER_DAY))];
        }
      }
      if kind == SubscriptionHalted || kind == PaymentFailed {
        var entity := if payment.Some? then payment else subscription;
        if entity.Some? && entity.value.userId.Some? && entity.value.userId.value in subs {
          var user := entity.value.userId.value;
          subs := subs[user := subs[user].(status := PastDue)];
        }
      }
      if kind == EventKind.SubscriptionCancelled {
        if subscription.Some? && subscription.value.userId.Some? && subscription.value.userId.value in subs {
          var user := subscription.value.userId.value;
          subs := subs[user := subs[user].(status := Cancelled)];
        }
      }
    }

    method AddCustomer(reseller: string, customer: Option<UserId>, plan: Option<string>, monthEnd: Time)
      returns (result: Result<(), ServiceError>)
      modifies this
      ensures forall now :: Contents() == Step(old(Contents()), Action.AddCustomer(reseller, customer, plan, monthEnd), now)
      ensures result == (if customer.None? then Err(NotFound)
                         else if (reseller, customer.value) in old(customers) then Err(Conflict) else Ok(()))
      ensures users == old(users) && (result.Err? ==> subs == old(subs) && customers == old(customers))
      ensures result.Ok? ==>
                var user, planId := customer.value, if plan.Some? then plan else Some("reseller_custom");
                && customers == old(customers) + {(reseller, user)}
                && subs == old(subs)[user := ActiveUntil(old(subs), user, planId, monthEnd).(resellerId := Some(reseller))]
    {
      if customer.None? {
        return Err(NotFound);
      }
      var user := customer.value;
      if (reseller, user) in customers {
        return Err(Conflict);
      }
      customers := customers + {(reseller, user)};
      var sub := if user in subs then subs[user] else NEW_RECORD;
      ghost var active := sub.(status := Active, planId := if plan.Some? then plan else Some("reseller_custom"),
                               currentPeriodEnd := Some(monthEnd));
      assert subs[user := active][user := active.(resellerId := Some(reseller))] == subs[user := active.(resellerId := Some(reseller))];
      subs := subs[user := sub.(resellerId := Some(reseller), status := Active,
                                planId := if plan.Some? then plan else Some("reseller_custom"),
                                currentPeriodEnd := Some(monthEnd))];
      return Ok(());
    }

    method SuspendCustomer(reseller: string, user: UserId) returns (result: Result<(), ServiceError>)
      modifies this
      ensures forall now :: Contents() == Step(old(Contents()), Action.SuspendCustomer(reseller, user), now)
      ensures result.Ok? <==> (reseller, user) in old(customers)
      ensures subs == if result.Ok? && user in old(subs) && old(subs)[user].resellerId == Some(reseller)
                      then old(subs)[user := old(subs)[user].(status := Suspended)] else old(subs)
    {
      if (reseller, user) !in customers {
        return Err(NotFound);
      }
      if user in subs && subs[user].resellerId == Some(reseller) {
        subs := subs[user := subs[user].(status := Suspended)];
      }
      return Ok(());
    }

    method ReactivateCustomer(reseller: string, user: UserId, monthEnd: Time) returns (result: Result<(), ServiceError>)
      modifies this
      ensures forall now :: Contents() == Step(old(Contents()), Action.ReactivateCustomer(reseller, user, monthEnd), now)
      ensures result.Ok? <==> (reseller, user) in old(customers)
      ensures subs == if result.Ok? && user in old(subs) && old(subs)[user].resellerId == Some(reseller)
                      then old(subs)[user := old(subs)[user].(status := Active, currentPeriodEnd := Some(monthEnd))] else old(subs)
    {
      if (reseller, user) !in customers {
        return Err(NotFound);
      }
      if user in subs && subs[user].resellerId == Some(reseller) {
        subs := subs[user := subs[user].(status := Active, currentPeriodEnd := Some(monthEnd))];
      }
      return Ok(());
    }

    /** The subscription write at the end of a credit purchase. */
    method UnlockWithCredits(user: UserId)
      modifies this
      ensures forall now :: Contents() == Step(old(Contents()), PurchaseCredits(user), now)
      ensures subs == if user in old(subs) && old(subs)[user].status in {TrialExpired, Cancelled}
                      then old(subs)[user := old(subs)[user].(status := CreditOnly)] else old(subs)
    {
      if user in subs && (subs[user].status == TrialExpired || subs[user].status == Cancelled) {
        subs := subs[user := subs[user].(status := CreditOnly)];
      }
    }
  }
}
