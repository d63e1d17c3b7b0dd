/**
 One user's credit balance and its ledger. A deduction reads, then decrements conditionally, then writes its row; a
 top-up updates, then writes its row. Any number of them interleave between those steps.
 */
module CreditLedger {
  import opened Wrappers

  const CREDITS_PER_DELIVERY := 1
  const CREDITS_PER_RETRY := 1

  datatype Account = Account(balance: int, lifetimePurchased: int, lifetimeUsed: int)

  datatype Kind = Usage | Credit

  datatype Row = Row(kind: Kind, amount: int, balanceAfter: int)

  const EMPTY := Account(0, 0, 0)

  function Current(account: Option<Account>): Account {
    if account.Some? then account.value else EMPTY
  }

  function Cost(attempts: nat): (amount: int)
    ensures amount >= 1
  {
    CREDITS_PER_DELIVERY + attempts * CREDITS_PER_RETRY
  }

  predicate Covers(account: Option<Account>, amount: int) {
    account.Some? && account.value.balance >= amount
  }

  function Debited(a: Account, amount: int): Account {
    a.(balance := a.balance - amount, lifetimeUsed := a.lifetimeUsed + amount)
  }

  function Credited(a: Account, amount: int): Account {
    a.(balance := a.balance + amount, lifetimePurchased := a.lifetimePurchased + if amount > 0 then amount else 0)
  }

  // ---------- the service ----------

  datatype Deduction = Taken(balance: int) | Insufficient(balance: int) | Depleted(seen: int)

  class CreditsService {
    /** The balance document, absent until the first top-up or balance query. */
    var account: Option<Account>
    var rows: seq<Row>

    constructor ()
      ensures account.None? && rows == []
    {
      account, rows := None, [];
    }

    method GetBalance() returns (a: Account)
      modifies this`account
      ensures a == Current(old(account)) && account == Some(a)
    {
      if account.None? {
        account := Some(EMPTY);
      }
      a := account.value;
    }

    /** The conditional `$inc` of a deduction. */
    method TryDecrement(amount: int) returns (updated: Option<Account>)
      modifies this`account
      ensures updated.Some? <==> Covers(old(account), amount)
      ensures updated.Some? ==> account == updated && updated.value == Debited(old(account).value, amount)
      ensures updated.None? ==> account == old(account)
      ensures updated.Some? <==> old(account).Some? && old(account).value.balance >= amount
      ensures updated.Some? ==>
                && updated.value.balance == old(account).value.balance - amount
                && updated.value.lifetimeUsed == old(account).value.lifetimeUsed + amount
                && updated.value.lifetimePurchased == old(account).value.lifetimePurchased
    {
      if account.None? || account.value.balance < amount {
        return None;
      }
      var a := account.value;
      account := Some(a.(balance := a.balance - amount, lifetimeUsed := a.lifetimeUsed + amount));
      return account;
    }

    /** A deduction that nothing interrupts. */
    method DeductForDelivery(attempts: nat) returns (result: Deduction)
      modifies this
      ensures result.Taken? <==> Covers(old(account), Cost(attempts))
      ensures result.Taken? ==>
                && account == Some(Debited(old(account).value, Cost(attempts)))
                && result.balance == account.value.balance >= 0
                && rows == old(rows) + [Row(Usage, -Cost(attempts), result.balance)]
      ensures !result.Taken? ==>
                result == Insufficient(Current(old(account)).balance) && account == old(account) && rows == old(rows)
      ensures result.Taken? <==> old(account).Some? && old(account).value.balance >= 1 + attempts
      ensures result.Taken? ==>
                && account.value.balance == old(account).value.balance - 1 - attempts
                && account.value.lifetimeUsed == old(account).value.lifetimeUsed + 1 + attempts
                && account.value.lifetimePurchased == old(account).value.lifetimePurchased
                && rows == old(rows) + [Row(Usage, -1 - attempts, account.value.balance)]
      ensures !result.Taken? ==> result == Insufficient(if old(account).Some? then old(account).value.balance else 0)
    {
      var amount := CREDITS_PER_DELIVERY + attempts * CREDITS_PER_RETRY;
      var bal := account;
      var seen := if bal.Some? then bal.value.balance else 0;
      if bal.None? || seen < amount {
        return Insufficient(seen);
      }
      var updated := TryDecrement(amount);
      if updated.None? {
        return Depleted(seen);
      }
      rows := rows + [Row(Usage, -amount, updated.value.balance)];
      return Taken(updated.value.balance);
    }

    /** Purchases and admin adjustments; an adjustment may be negative. */
    method TopUp(amount: int) returns (bal: Account)
      modifies this
      ensures account == Some(bal) && bal == Credited(Current(old(account)), amount)
      ensures rows == old(rows) + [Row(Credit, amount, bal.balance)]
      ensures var before := if old(account).Some? then old(account).value else Account(0, 0, 0);
              && bal.balance == before.balance + amount && bal.lifetimeUsed == before.lifetimeUsed
              && bal.lifetimePurchased == before.lifetimePurchased + if amount > 0 then amount else 0
    {
      bal := if account.Some? then account.value else EMPTY;
      bal := bal.(balance := bal.balance + amount,
                  lifetimePurchased := bal.lifetimePurchased + if amount > 0 then amount else 0);
      account := Some(bal);
      rows := rows + [Row(Credit, amount, bal.balance)];
    }
  }

  // ---------- interleavings ----------

  /** A deduction that has read a sufficient balance and not yet decremented. */
  datatype Ticket = Ticket(amount: int, seen: int)

  datatype State = State(
    account: Option<Account>,
    deducting: multiset<Ticket>,
    unwritten: multiset<Row>,
    ledger: seq<Row>,
    /** Every row in the order of its balance update, written or not. */
    updates: seq<Row>)

  const START := State(None, multiset{}, multiset{}, [], [])

  datatype Event =
    | Create
    | Read(attempts: nat)
    | Decrement(ticket: Ticket)
    | TopUp(amount: int)
    | WriteRow(row: Row)

  type Run = seq<Event>

  function Update(s: State, a: Account, row: Row): State {
    s.(account := Some(a), unwritten := s.unwritten + multiset{row}, updates := s.updates + [row])
  }

  /** One atomic step; a step whose worker is not there changes nothing. */
  function Step(s: State, e: Event): State {
    match e
    case Create => if s.account.None? then s.(account := Some(EMPTY)) else s
    case Read(attempts) =>
      if Covers(s.account, Cost(attempts))
      then s.(deducting := s.deducting + multiset{Ticket(Cost(attempts), s.account.value.balance)})
      else s
    case Decrement(ticket) =>
      if ticket !in s.deducting then s
      else
        var rest := s.(deducting := s.deducting - multiset{ticket});
        if Covers(s.account, ticket.amount) then
          var a := Debited(s.account.value, ticket.amount);
          Update(rest, a, Row(Usage, -ticket.amount, a.balance))
        else rest
    case TopUp(amount) =>
      var a := Credited(Current(s.account), amount);
      Update(s, a, Row(Credit, amount, a.balance))
    case WriteRow(row) =>
      if row in s.unwritten then s.(unwritten := s.unwritten - multiset{row}, ledger := s.ledger + [row]) else s
  }

  function Execute(run: Run): State {
    if run == [] then START else Step(Execute(run[..|run| - 1]), run[|run| - 1])
  }

  /** Asking for the balance creates an empty account where there is none, and changes nothing else. */
  lemma CreateStep(s: State)
    ensures Step(s, Create) == s.(account := if s.account.None? then Some(Account(0, 0, 0)) else s.account)
  {
  }

  /** A read of a balance that covers one credit and one per retry leaves the worker ready to take them. */
  lemma ReadStep(s: State, attempts: nat)
    ensures var next := Step(s, Read(attempts));
            if s.account.Some? && s.account.value.balance >= 1 + attempts
            then next == s.(deducting := s.deducting + multiset{Ticket(1 + attempts, s.account.value.balance)})
            else next == s
  {
  }

  /** A ready worker takes its amount exactly when the balance still covers it. */
  lemma DecrementStep(s: State, ticket: Ticket)
    requires ticket in s.deducting
    ensures var next := Step(s, Decrement(ticket));
            && next.deducting == s.deducting - multiset{ticket} && next.ledger == s.ledger
            && if s.account.Some? && s.account.value.balance >= ticket.amount then
                 var a := s.account.value;
                 && next.account == Some(Account(a.balance - ticket.amount, a.lifetimePurchased, a.lifetimeUsed + ticket.amount))
                 && next.unwritten == s.unwritten + multiset{Row(Usage, -ticket.amount, a.balance - ticket.amount)}
               else
                 next.account == s.account && next.unwritten == s.unwritten
  {
  }

  /** An owed row is written at the end of the ledger. */
  lemma WriteStep(s: State, row: Row)
    requires row in s.unwritten
    ensures Step(s, WriteRow(row)) == s.(unwritten := s.unwritten - multiset{row}, ledger := s.ledger + [row])
  {
  }

  // ---------- conservation ----------

  function Sum(rows: seq<Row>): int {
    if rows == [] then 0 else Sum(rows[..|rows| - 1]) + rows[|rows| - 1].amount
  }

  /** The part of a row that counts as purchased, as used, and as taken back by an adjustment. */
  function Purchased(rows: seq<Row>): int {
    if rows == [] then 0
    else
      var r := rows[|rows| - 1];
      Purchased(rows[..|rows| - 1]) + if r.kind == Credit && r.amount > 0 then r.amount else 0
  }

  function Used(rows: seq<Row>): int {
    if rows == [] then 0
    else
      var r := rows[|rows| - 1];
      Used(rows[..|rows| - 1]) + if r.kind == Usage then -r.amount else 0
  }

  function TakenBack(rows: seq<Row>): nat {
    if rows == [] then 0
    else
      var r := rows[|rows| - 1];
      TakenBack(rows[..|rows| - 1]) + if r.kind == Credit && r.amount < 0 then -r.amount else 0
  }

  /** Every row's `balanceAfter` is the running sum, in update order. */
  predicate RunningSums(rows: seq<Row>) {
    forall i | 0 <= i < |rows| :: rows[i].balanceAfter == Sum(rows[..i + 1])
  }

  /** The row of the balance update a step makes, if it makes one. */
  function NewRow(s: State, e: Event): Option<Row> {
    match e
    case Decrement(ticket) =>
      if ticket in s.deducting && Covers(s.account, ticket.amount)
      then Some(Row(Usage, -ticket.amount, s.account.value.balance - ticket.amount))
      else None
    case TopUp(amount) => Some(Row(Credit, amount, Current(s.account).balance + amount))
    case _ => None
  }

  function ApplyRow(a: Account, row: Row): Account {
    if row.kind == Usage then Debited(a, -row.amount) else Credited(a, row.amount)
  }

  lemma StepShape(s: State, e: Event)
    ensures var row, next := NewRow(s, e), Step(s, e);
            && next.updates == (if row.Some? then s.updates + [row.value] else s.updates)
            && Current(next.account) == (if row.Some? then ApplyRow(Current(s.account), row.value) else Current(s.account))
            && (s.account.Some? || row.Some? ==> next.account.Some?)
            && (row.Some? ==> row.value.balanceAfter == Current(s.account).balance + row.value.amount)
            && (row.Some? && row.value.kind == Usage ==> Current(s.account).balance >= -row.value.amount)
  {
  }

  ghost predicate Totals(s: State) {
    && (s.account.None? ==> s.updates == [])
    && Current(s.account) == Account(Sum(s.updates), Purchased(s.updates), Used(s.updates))
    && Sum(s.updates) == Purchased(s.updates) - Used(s.updates) - TakenBack(s.updates)
    && RunningSums(s.updates)
  }

  ghost predicate RowsKept(s: State) {
    multiset(s.updates) == multiset(s.ledger) + s.unwritten
  }

  ghost predicate TicketsSound(s: State) {
    forall t <- s.deducting :: t.amount >= 1 && t.seen >= t.amount
  }

  lemma AppendRow(rows: seq<Row>, row: Row)
    requires RunningSums(rows) && row.balanceAfter == Sum(rows) + row.amount
    ensures RunningSums(rows + [row]) && Sum(rows + [row]) == Sum(rows) + row.amount
    ensures Purchased(rows + [row]) == Purchased(rows) + if row.kind == Credit && row.amount > 0 then row.amount else 0
    ensures Used(rows + [row]) == Used(rows) + if row.kind == Usage then -row.amount else 0
    ensures TakenBack(rows + [row]) == TakenBack(rows) + if row.kind == Credit && row.amount < 0 then -row.amount else 0
  {
    var all := rows + [row];
    assert all[..|all| - 1] == rows;
    forall i | 0 <= i < |all|
      ensures all[i].balanceAfter == Sum(all[..i + 1])
    {
      if i < |rows| {
        assert all[..i + 1] == rows[..i + 1];
      } else {
        assert all[..i + 1] == all;
      }
    }
  }

  lemma StepKeepsTotals(s: State, e: Event)
    requires Totals(s)
    ensures Totals(Step(s, e))
  {
    StepShape(s, e);
    var row := NewRow(s, e);
    if row.Some? {
      AppendRow(s.updates, row.value);
    }
  }

  lemma UpdateKeepsRows(s: State, a: Account, row: Row)
    requires RowsKept(s)
    ensures RowsKept(Update(s, a, row))
  {
    assert multiset(s.updates + [row]) == multiset(s.updates) + multiset{row};
  }

  lemma WriteKeepsRows(s: State, row: Row)
    requires RowsKept(s) && row in s.unwritten
    ensures multiset(s.updates) == multiset(s.ledger + [row]) + (s.unwritten - multiset{row})
  {
    assert multiset(s.ledger + [row]) == multiset(s.ledger) + multiset{row};
  }

  lemma StepKeepsRows(s: State, e: Event)
    requires RowsKept(s)
    ensures RowsKept(Step(s, e))
  {
    match e
    case Create =>
    case Read(_) =>
    case Decrement(ticket) =>
      if ticket in s.deducting && Covers(s.account, ticket.amount) {
        var a := Debited(s.account.value, ticket.amount);
        UpdateKeepsRows(s.(deducting := s.deducting - multiset{ticket}), a, Row(Usage, -ticket.amount, a.balance));
      }
    case TopUp(amount) =>
      var a := Credited(Current(s.account), amount);
      UpdateKeepsRows(s, a, Row(Credit, amount, a.balance));
    case WriteRow(row) =>
      if row in s.unwritten {
        WriteKeepsRows(s, row);
      }
  }

  lemma StepKeepsTickets(s: State, e: Event)
    requires TicketsSound(s)
    ensures TicketsSound(Step(s, e))
  {
  }

  lemma {:induction false} EveryRunKeepsInv(run: Run)
    ensures Totals(Execute(run)) && RowsKept(Execute(run)) && TicketsSound(Execute(run))
  {
    if run != [] {
      var s, e := Execute(run[..|run| - 1]), run[|run| - 1];
      EveryRunKeepsInv(run[..|run| - 1]);
      StepKeepsTotals(s, e);
      StepKeepsRows(s, e);
      StepKeepsTickets(s, e);
    }
  }

  lemma {:induction false} SumOfConcat(a: seq<Row>, b: seq<Row>)
    ensures Sum(a + b) == Sum(a) + Sum(b)
    decreases |b|
  {
    if b == [] {
      assert a + b == a;
    } else {
      assert (a + b)[..|a + b| - 1] == a + b[..|b| - 1];
      SumOfConcat(a, b[..|b| - 1]);
    }
  }

  lemma {:induction false} SumOfPermutation(a: seq<Row>, b: seq<Row>)
    requires multiset(a) == multiset(b)
    ensures Sum(a) == Sum(b)
    decreases |a|
  {
    if a == [] {
      assert |multiset(b)| == 0;
    } else {
      var last := a[|a| - 1];
      assert last in multiset(b);
      var i :| 0 <= i < |b| && b[i] == last;
      var front, rest := b[..i], b[i + 1..];
      assert b == front + [last] + rest;
      assert a == a[..|a| - 1] + [last];
      assert multiset(front + rest) == multiset(b) - multiset{last};
      SumOfPermutation(a[..|a| - 1], front + rest);
      SumOfConcat(front + [last], rest);
      SumOfConcat(front, [last]);
      SumOfConcat(front, rest);
      assert Sum([last]) == Sum([last][..0]) + last.amount;
    }
  }

  /**
   In every interleaving the balance is the sum of the rows written plus the rows still to be written (in any order),
   and each row's `balanceAfter` is the running sum in update order.
   */
  lemma BalanceIsLedgerSum(run: Run, unwritten: seq<Row>)
    requires multiset(unwritten) == Execute(run).unwritten
    ensures Current(Execute(run).account).balance == Sum(Execute(run).ledger) + Sum(unwritten)
    ensures RunningSums(Execute(run).updates)
    ensures forall r <- Execute(run).ledger :: r in Execute(run).updates
  {
    EveryRunKeepsInv(run);
    var s := Execute(run);
    assert multiset(s.ledger + unwritten) == multiset(s.ledger) + multiset(unwritten);
    SumOfPermutation(s.updates, s.ledger + unwritten);
    SumOfConcat(s.ledger, unwritten);
    forall r | r in s.ledger
      ensures r in s.updates
    {
      assert r in multiset(s.ledger);
      assert r in multiset(s.updates);
    }
  }

  predicate OnlyGrants(run: Run) {
    forall i | 0 <= i < |run| && run[i].TopUp? :: run[i].amount >= 0
  }

  lemma TakenBackStep(s: State, e: Event)
    requires RunningSums(s.updates) && Current(s.account).balance == Sum(s.updates)
    ensures TakenBack(Step(s, e).updates) == TakenBack(s.updates) + if e.TopUp? && e.amount < 0 then -e.amount else 0
  {
    StepShape(s, e);
    var row := NewRow(s, e);
    if row.Some? {
      AppendRow(s.updates, row.value);
    }
  }

  lemma {:induction false} NothingTakenBack(run: Run)
    ensures TakenBack(Execute(run).updates) == 0 <==> OnlyGrants(run)
  {
    if run != [] {
      var front, e := run[..|run| - 1], run[|run| - 1];
      NothingTakenBack(front);
      EveryRunKeepsInv(front);
      TakenBackStep(Execute(front), e);
      GrantsSplit(run);
    }
  }

  lemma GrantsSplit(run: Run)
    requires run != []
    ensures OnlyGrants(run) <==>
            OnlyGrants(run[..|run| - 1]) && (run[|run| - 1].TopUp? ==> run[|run| - 1].amount >= 0)
  {
    var front := run[..|run| - 1];
    assert forall i | 0 <= i < |front| :: run[i] == front[i];
    if OnlyGrants(front) && (run[|run| - 1].TopUp? ==> run[|run| - 1].amount >= 0) {
      forall i | 0 <= i < |run| && run[i].TopUp?
        ensures run[i].amount >= 0
      {
        if i < |front| {
          assert front[i].TopUp?;
        }
      }
    }
  }

  /** balance = lifetimePurchased - lifetimeUsed holds in every interleaving exactly when no top-up was negative. */
  lemma LifetimeTotals(run: Run)
    ensures var a := Current(Execute(run).account);
            a.balance == a.lifetimePurchased - a.lifetimeUsed <==> OnlyGrants(run)
  {
    EveryRunKeepsInv(run);
    NothingTakenBack(run);
  }

  /** A step makes a balance negative only if it is a negative top-up larger than the balance. */
  lemma WhenBalanceTurnsNegative(s: State, e: Event)
    requires Current(s.account).balance >= 0
    ensures Current(Step(s, e).account).balance < 0 <==> e.TopUp? && Current(s.account).balance + e.amount < 0
  {
  }

  lemma {:induction false} GrantsKeepBalanceNonNegative(run: Run)
    requires OnlyGrants(run)
    ensures Current(Execute(run).account).balance >= 0
  {
    if run != [] {
      assert run[|run| - 1] in run;
      GrantsKeepBalanceNonNegative(run[..|run| - 1]);
      WhenBalanceTurnsNegative(Execute(run[..|run| - 1]), run[|run| - 1]);
    }
  }

  // ---------- linearization ----------

  /** An operation of the atomic account: take if there is enough, or add. */
  datatype Op = Take(amount: int, ok: bool) | Add(delta: int)

  /** The operations that take effect at a step: a deduction ends at its read when that fails, else at its decrement. */
  function Effect(s: State, e: Event): seq<Op> {
    match e
    case Read(attempts) => if Covers(s.account, Cost(attempts)) then [] else [Take(Cost(attempts), false)]
    case Decrement(ticket) => if ticket in s.deducting then [Take(ticket.amount, Covers(s.account, ticket.amount))] else []
    case TopUp(amount) => [Add(amount)]
    case _ => []
  }

  function History(run: Run): seq<Op> {
    if run == [] then [] else History(run[..|run| - 1]) + Effect(Execute(run[..|run| - 1]), run[|run| - 1])
  }

  /** What an atomic account starting at zero holds after a history. */
  function AtomicBalance(history: seq<Op>): int {
    if history == [] then 0
    else
      var op := history[|history| - 1];
      AtomicBalance(history[..|history| - 1]) +
      match op
      case Take(amount, ok) => if ok then -amount else 0
      case Add(amount) => amount
  }

  /** Every take succeeds exactly when the atomic account covers it at its place in the history. */
  predicate Legal(history: seq<Op>) {
    forall i | 0 <= i < |history| && history[i].Take? ::
      history[i].ok <==> AtomicBalance(history[..i]) >= history[i].amount
  }

  lemma AppendOp(history: seq<Op>, op: Op)
    requires Legal(history)
    requires op.Take? ==> (op.ok <==> AtomicBalance(history) >= op.amount)
    ensures Legal(history + [op])
    ensures AtomicBalance(history + [op]) ==
            AtomicBalance(history) + if op.Add? then op.delta else if op.ok then -op.amount else 0
  {
    var all := history + [op];
    assert all[..|history|] == history;
    forall i | 0 <= i < |all| && all[i].Take?
      ensures all[i].ok <==> AtomicBalance(all[..i]) >= all[i].amount
    {
      assert all[..i] == history[..i];
    }
  }

  lemma EffectIsAtomic(s: State, e: Event)
    ensures |Effect(s, e)| <= 1
    ensures Effect(s, e) == [] ==> Current(Step(s, e).account).balance == Current(s.account).balance
    ensures Effect(s, e) != [] ==>
              var op, before, after := Effect(s, e)[0], Current(s.account).balance, Current(Step(s, e).account).balance;
              && (op.Add? ==> after == before + op.delta)
              && (op.Take? && (s.account.Some? || op.amount >= 1) ==> (op.ok <==> before >= op.amount))
              && (op.Take? ==> after == before - if op.ok then op.amount else 0)
  {
  }

  lemma LinearStep(history: seq<Op>, s: State, e: Event)
    requires Legal(history) && AtomicBalance(history) == Current(s.account).balance && TicketsSound(s)
    ensures Legal(history + Effect(s, e))
    ensures AtomicBalance(history + Effect(s, e)) == Current(Step(s, e).account).balance
  {
    var ops := Effect(s, e);
    EffectIsAtomic(s, e);
    if ops == [] {
      assert history + ops == history;
    } else {
      var op := ops[0];
      assert ops == [op];
      assert op.Take? ==> op.amount >= 1;
      AppendOp(history, op);
    }
  }

  /** Every interleaving is equivalent to running each operation atomically at one of its own steps. */
  lemma {:induction false} Linearizable(run: Run)
    ensures Legal(History(run))
    ensures AtomicBalance(History(run)) == Current(Execute(run).account).balance
  {
    if run != [] {
      Linearizable(run[..|run| - 1]);
      EveryRunKeepsInv(run[..|run| - 1]);
      LinearStep(History(run[..|run| - 1]), Execute(run[..|run| - 1]), run[|run| - 1]);
    }
  }

  /** A deduction reported as depleted saw enough credit, though there was not enough when it took effect. */
  lemma DepletedSawEnough(run: Run, ticket: Ticket)
    requires ticket in Execute(run).deducting && !Covers(Execute(run).account, ticket.amount)
    ensures ticket.seen >= ticket.amount > Current(Execute(run).account).balance
  {
    EveryRunKeepsInv(run);
  }
}
