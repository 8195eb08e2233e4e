/** When a confirmation, a refund, a sweep or a payment event comes through: the exact
    condition on the tables it starts from, and what it leaves behind in either case. */
module PaymentRecovery {
  import opened Options
  import opened CreditBuckets
  import opened CreditEngine
  import opened CreditInvariants
  import opened CreditAnswers
  import opened PaymentSaga
  import opened PaymentSafety
  import opened PaymentResults
  import opened PaymentRuns

  // ---------------------------------------------------------------- the two client calls

  /** The credit service will take a posting for the team. */
  predicate AccountOpen(credit: State, team: AccountId) { team in credit.accounts ==> !credit.accounts[team].deleted }

  /** A grant of no credits is not asked for; any other needs an open account and an
      undisturbed call. */
  predicate CanGrant(credit: State, team: AccountId, credits: nat, fault: Fault) {
    0 < credits ==> AccountOpen(credit, team) && fault.NoFault?
  }

  predicate Granted(credit: State, id: OrderId) { FindEntry(credit.ledger, GrantKey(id)).Some? }

  ghost predicate SameOpen(before: State, after: State) {
    forall team :: AccountOpen(after, team) == AccountOpen(before, team)
  }

  lemma GrantAnswered(credit: State, id: OrderId, row: Order, credits: nat, fault: Fault, now: nat)
    ensures var r := CallIfDue(credit, Confirm(id), row, credits, fault, now);
            && (Inv(credit) ==> Inv(r.state)) && SameOpen(credit, r.state)
            && (r.out.Failed? <==> !CanGrant(credit, row.team, credits, fault))
            && (0 < credits && !r.out.Failed? ==> Granted(r.state, id))
  {
    hide Exec, Inv, GrantKey, Granted;
    if 0 < credits && !fault.Lost? {
      var ensured := Exec(credit, Ensure(row.team, Allowances(0, 0)));
      EnsureKeepsOpen(credit, row.team, now);
      if !ensured.out.Failed? { GrantPosts(ensured.state, id, row.team, credits, now); }
    }
  }

  lemma EnsureKeepsOpen(s: State, team: AccountId, now: nat)
    ensures var r := Exec(s, Ensure(team, Allowances(0, 0)));
            && (Inv(s) ==> Inv(r.state)) && SameOpen(s, r.state) && (r.out.Failed? <==> !AccountOpen(s, team))
            && (!r.out.Failed? ==> Live(r.state, team))
  {
    hide Exec, Inv;
    if Inv(s) { StepKeepsInv(s, Ensure(team, Allowances(0, 0))); }
    EnsureAnswers(s, team, Allowances(0, 0), now);
  }

  lemma GrantPosts(s: State, id: OrderId, team: AccountId, credits: nat, now: nat)
    requires 0 < credits && Live(s, team)
    ensures var r := Exec(s, Grant(team, credits, SubscriptionGrant, GrantKey(id), now));
            (Inv(s) ==> Inv(r.state)) && !r.out.Failed? && SameOpen(s, r.state) && Granted(r.state, id)
  {
    hide Inv, FindEntry, GrantKey;
    var c := Grant(team, credits, SubscriptionGrant, GrantKey(id), now);
    if Inv(s) { StepKeepsInv(s, c); }
    if FindEntry(s.ledger, GrantKey(id)).None? {
      FindEntryAppend(s.ledger, Exec(s, c).state.ledger[|s.ledger|], GrantKey(id));
    }
  }

  /** What the team can spend at `now`, stale time buckets refilled first. */
  function BalanceAt(credit: State, team: AccountId, now: nat): int {
    if team in credit.accounts then Spendable(credit.accounts[team], now) else 0
  }

  predicate ReversalRecorded(credit: State, id: OrderId) { FindEntry(credit.ledger, ReversalKey(id)).Some? }

  /** Whether the credit service will answer the reversal of this many credits. */
  predicate CanReverse(credit: State, id: OrderId, team: AccountId, credits: nat, now: nat) {
    0 < credits ==>
      AccountOpen(credit, team) && (ReversalRecorded(credit, id) || credits <= BalanceAt(credit, team, now))
  }

  lemma ReversalAnswered(credit: State, id: OrderId, row: Order, credits: nat, now: nat)
    requires Inv(credit)
    ensures var r := CallIfDue(credit, RefundTask(id), row, credits, NoFault, now);
            && (r.out.Failed? <==> !CanReverse(credit, id, row.team, credits, now))
            && (r.out.Failed? || credits == 0 || ReversalRecorded(credit, id) ==> r.state.ledger == credit.ledger)
  {
    hide FindEntry, ReversalKey, RefreshRow;
    if 0 < credits {
      var c := Ensure(row.team, Allowances(0, 0));
      var ensured := Exec(credit, c);
      StepKeepsInv(credit, c);
      EnsureAnswers(credit, row.team, Allowances(0, 0), now);
      if !ensured.out.Failed? {
        SpendAnswers(ensured.state, row.team, credits, RefundReversal, ReversalKey(id), now);
        EntryLookup(ensured.state, ReversalKey(id));
        EnsuredBalance(credit, row.team, now);
      }
    }
  }

  /** Opening the account adds nothing to what it can spend. */
  lemma EnsuredBalance(credit: State, team: AccountId, now: nat)
    requires AccountOpen(credit, team)
    ensures var ensured := Exec(credit, Ensure(team, Allowances(0, 0))).state;
            team in ensured.accounts && Spendable(ensured.accounts[team], now) == BalanceAt(credit, team, now)
  {
  }

  // ---------------------------------------------------------------- one task

  /** A due confirmation comes through exactly when its plan is on sale and its grant can
      be made. A deleted plan leaves the order as it is, a refused grant leaves it
      confirming. */
  lemma ConfirmOutcome(x: World, id: OrderId, fault: Fault, now: nat)
    requires id in x.orders && x.orders[id].plan in x.plans
    requires x.orders[id].status.Pending? || x.orders[id].status.Confirming?
    ensures var e, onSale := ConfirmEnd(x, id, fault, now), !x.plans[x.orders[id].plan].deleted;
            && (e.ok <==> onSale && CanGrant(x.credit, x.orders[id].team, CreditsOf(x, id), fault))
            && e.tables.orders == (if e.ok then x.orders[id := x.orders[id].(status := Paid)]
                                   else if onSale then x.orders[id := x.orders[id].(status := Confirming)]
                                   else x.orders)
            && e.tables == x.(orders := e.tables.orders, credit := e.tables.credit)
            && (Inv(x.credit) ==> Inv(e.tables.credit)) && SameOpen(x.credit, e.tables.credit)
            && (e.ok && 0 < CreditsOf(x, id) ==> Granted(e.tables.credit, id))
  {
    hide Inv, CanGrant, CallIfDue, Granted;
    GrantAnswered(x.credit, id, x.orders[id], CreditsOf(x, id), fault, now);
  }

  /** A refund of a paid order comes through exactly when its reversal is answered, and
      otherwise changes neither order, ledger nor refund rows. */
  lemma RefundOutcome(x: World, id: OrderId, now: nat)
    requires Inv(x.credit) && id in x.orders && x.orders[id].status.Paid? && x.orders[id].plan in x.plans
    ensures var e := RefundEnd(x, id, NoFault, now);
            && (e.ok <==> CanReverse(x.credit, id, x.orders[id].team, CreditsOf(x, id), now))
            && e.tables.orders == (if e.ok then x.orders[id := x.orders[id].(status := Refunded)] else x.orders)
            && e.tables.refunds == (if e.ok then x.refunds + [RefundRow(id, x.orders[id].amountMinor)] else x.refunds)
            && e.tables == x.(orders := e.tables.orders, refunds := e.tables.refunds, credit := e.tables.credit)
            && (!e.ok || CreditsOf(x, id) == 0 || ReversalRecorded(x.credit, id) ==>
                  e.tables.credit.ledger == x.credit.ledger)
  {
    hide Inv, CanReverse, CallIfDue, ReversalRecorded;
    ReversalAnswered(x.credit, id, x.orders[id], CreditsOf(x, id), now);
  }

  /** An undisturbed retry, as a schedule. */
  lemma RetryRuns(x: World, w: WorkerId, task: Task, now: nat)
    requires w !in x.workers
    ensures var e := TaskEnd(x, task, NoFault, now);
            Schedule(x, [Start(w, task)] + Gos(w, now, 6)) == At(e.tables, w, Stopped(e.ok))
  {
    hide Steps, TaskEnd;
    StartedGos(x, Start(w, task), w, now, 6);
    DirectTaskRuns(x, w, task, map[], now);
  }

  /** Whether a confirmation of an order left pending or confirming can go through. */
  predicate CanConfirm(x: World, id: OrderId)
    requires id in x.orders && x.orders[id].plan in x.plans
  {
    !x.plans[x.orders[id].plan].deleted && (0 < CreditsOf(x, id) ==> AccountOpen(x.credit, x.orders[id].team))
  }

  lemma PlanExists(x: World, b: Books, id: OrderId)
    requires RowsInv(x, b) && id in x.orders
    ensures x.orders[id].plan in x.plans
  {
    assert OrderOk(x, b, id);
  }

  /** A crash never strands a confirmation for good: one undisturbed retry of an order
      left pending or confirming, at whatever point the last attempt died, makes it paid
      with its one grant exactly when its plan is on sale and, if the plan carries
      credits, its team's account is open. Otherwise the retry fails: on a deleted plan
      the order stays as it is, even with its grant posted, and on a closed account it is
      left confirming. */
  lemma ConfirmRecovers(start: World, before: seq<Action>, x: World, id: OrderId, w: WorkerId, now: nat)
    requires Opening(start) && x == Schedule(start, before) && id in x.orders && w !in x.workers
    requires x.orders[id].status.Pending? || x.orders[id].status.Confirming?
    ensures x.orders[id].plan in x.plans
    ensures var y := Schedule(x, [Start(w, Confirm(id))] + Gos(w, now, 6));
            && w in y.workers && y.workers[w] == Stopped(CanConfirm(x, id))
            && y.orders == (if CanConfirm(x, id) then x.orders[id := x.orders[id].(status := Paid)]
                            else if x.plans[x.orders[id].plan].deleted then x.orders
                            else x.orders[id := x.orders[id].(status := Confirming)])
            && (CanConfirm(x, id) && 0 < CreditsOf(x, id) ==> KeyCount(y.credit.ledger, GrantKey(id)) == 1)
  {
    hide RowsInv, Act, GrantKey, KeyCount, AccountOpen, LedgerMatches, RefundsMatch, Inv, ConfirmEnd, Schedule;
    OpeningMatches(start);
    var b := ScheduleSteps(start, NO_BOOKS, before);
    PlanExists(x, b, id);
    ConfirmOutcome(x, id, NoFault, now);
    RetryRuns(x, w, Confirm(id), now);
    var all := [Start(w, Confirm(id))] + Gos(w, now, 6);
    var c := ScheduleSteps(x, b, all);
    BooksSayExactlyOnce(Schedule(x, all), c, id);
  }

  /** One undisturbed refund of a paid order, at whatever point an earlier attempt died,
      closes it with its one reversal and its one refund row exactly when the plan carries
      no credits, or the team's account is open and either the reversal is on record, and
      then nothing more is charged even if the balance is gone, or the balance covers it.
      Otherwise it fails and changes neither order, ledger nor refund rows. */
  lemma RefundRecovers(start: World, before: seq<Action>, x: World, id: OrderId, w: WorkerId, now: nat)
    requires Opening(start) && x == Schedule(start, before) && id in x.orders && w !in x.workers
             && x.orders[id].status.Paid?
    ensures x.orders[id].plan in x.plans
    ensures var y := Schedule(x, [Start(w, RefundTask(id))] + Gos(w, now, 6));
            var done := CanReverse(x.credit, id, x.orders[id].team, CreditsOf(x, id), now);
            && w in y.workers && y.workers[w] == Stopped(done)
            && y.orders == (if done then x.orders[id := x.orders[id].(status := Refunded)] else x.orders)
            && (!done ==> y.refunds == x.refunds)
            && (!done || CreditsOf(x, id) == 0 || ReversalRecorded(x.credit, id) ==> y.credit.ledger == x.credit.ledger)
            && (done ==> RefundCount(y.refunds, id) == 1)
            && (done && 0 < CreditsOf(x, id) ==> KeyCount(y.credit.ledger, ReversalKey(id)) == 1)
  {
    hide RowsInv, Act, ReversalKey, KeyCount, CanReverse, ReversalRecorded, LedgerMatches, RefundsMatch, Inv, RefundEnd,
         Schedule;
    OpeningMatches(start);
    var b := ScheduleSteps(start, NO_BOOKS, before);
    PlanExists(x, b, id);
    RefundOutcome(x, id, now);
    RetryRuns(x, w, RefundTask(id), now);
    var all := [Start(w, RefundTask(id))] + Gos(w, now, 6);
    var c := ScheduleSteps(x, b, all);
    BooksSayExactlyOnce(Schedule(x, all), c, id);
  }

  // ---------------------------------------------------------------- sweeps

  /** Whether a sweep makes this order paid: its plan is on sale and either carries no
      credits, or its team's account is open and its own call meets no fault. */
  predicate Recoverable(x: World, id: OrderId, faults: Faults) {
    && id in x.orders && x.orders[id].plan in x.plans && !x.plans[x.orders[id].plan].deleted
    && (0 < CreditsOf(x, id) ==> AccountOpen(x.credit, x.orders[id].team) && FaultOf(faults, id).NoFault?)
  }

  /** The orders that came out of a sweep: the recoverable ones paid, the rest untouched. */
  function Recovered(x: World, stale: set<OrderId>, faults: Faults): map<OrderId, Order> {
    map id | id in x.orders ::
      if id in stale && Recoverable(x, id, faults) then x.orders[id].(status := Paid) else x.orders[id]
  }

  function RecoverableOf(x: World, stale: set<OrderId>, faults: Faults): set<OrderId> {
    set id | id in stale && Recoverable(x, id, faults)
  }

  predicate AllConfirming(x: World, stale: set<OrderId>) {
    forall id :: id in stale ==> id in x.orders && x.orders[id].status.Confirming?
  }

  /** One order of a sweep: only it moves, and nothing changes what becomes of the others. */
  lemma SweptOne(x: World, id: OrderId, faults: Faults, now: nat)
    requires id in x.orders && x.orders[id].status.Confirming?
    ensures var e := ConfirmEnd(x, id, FaultOf(faults, id), now);
            && (e.ok <==> Recoverable(x, id, faults))
            && e.tables.orders == (if e.ok then x.orders[id := x.orders[id].(status := Paid)] else x.orders)
            && e.tables == x.(orders := e.tables.orders, credit := e.tables.credit)
            && (forall other :: other != id ==> Recoverable(e.tables, other, faults) == Recoverable(x, other, faults))
  {
    if x.orders[id].plan in x.plans {
      hide ConfirmEnd, Inv;
      ConfirmOutcome(x, id, FaultOf(faults, id), now);
      assert x.orders[id := x.orders[id].(status := Confirming)] == x.orders;
    }
  }

  /** A sweep that has dealt with `swept` and still has `todo` before it. */
  ghost predicate SweptSoFar(start: World, x: World, swept: set<OrderId>, todo: set<OrderId>, faults: Faults,
                             count: nat) {
    && swept !! todo && AllConfirming(start, todo) && AllConfirming(x, todo)
    && x == start.(orders := Recovered(start, swept, faults), credit := x.credit)
    && count == |RecoverableOf(start, swept, faults)|
    && (forall id :: id in todo ==> Recoverable(x, id, faults) == Recoverable(start, id, faults))
  }

  lemma SweepBegins(start: World, todo: set<OrderId>, faults: Faults)
    requires AllConfirming(start, todo)
    ensures SweptSoFar(start, start, {}, todo, faults, 0)
  {
    hide Recoverable;
    assert Recovered(start, {}, faults) == start.orders;
    assert RecoverableOf(start, {}, faults) == {};
  }

  lemma SweptFurther(start: World, x: World, swept: set<OrderId>, todo: set<OrderId>, faults: Faults, count: nat,
                     id: OrderId, now: nat)
    requires SweptSoFar(start, x, swept, todo, faults, count) && id in todo
    ensures var e := ConfirmEnd(x, id, FaultOf(faults, id), now);
            SweptSoFar(start, e.tables, swept + {id}, todo - {id}, faults, count + if e.ok then 1 else 0)
  {
    hide ConfirmEnd, Recoverable, Recovered, RecoverableOf;
    SweptOne(x, id, faults, now);
    StillUnswept(start, swept, id, faults);
    RecoveredMore(start, swept, id, faults);
  }

  lemma StillUnswept(start: World, swept: set<OrderId>, id: OrderId, faults: Faults)
    requires id in start.orders && id !in swept
    ensures id in Recovered(start, swept, faults) && Recovered(start, swept, faults)[id] == start.orders[id]
  {
  }

  lemma RecoveredMore(start: World, swept: set<OrderId>, id: OrderId, faults: Faults)
    requires id in start.orders && id !in swept
    ensures var before, after := Recovered(start, swept, faults), Recovered(start, swept + {id}, faults);
            var some, more := RecoverableOf(start, swept, faults), RecoverableOf(start, swept + {id}, faults);
            if Recoverable(start, id, faults) then after == before[id := start.orders[id].(status := Paid)]
                && |more| == |some| + 1
            else after == before && more == some
  {
    hide Recoverable;
    var some := RecoverableOf(start, swept, faults);
    assert RecoverableOf(start, swept + {id}, faults) == if Recoverable(start, id, faults) then some + {id} else some;
  }

  /** One failing order stops nothing: exactly the recoverable orders of the list come out
      paid, and they are counted. */
  lemma {:induction false} SweepOutcome(x: World, stale: seq<OrderId>, faults: Faults, now: nat)
    requires AllConfirming(x, set id | id in stale)
    requires forall i, j :: 0 <= i < j < |stale| ==> stale[i] != stale[j]
    ensures var r, ids := SweepEnd(x, stale, faults, now), set id | id in stale;
            && r.tables.orders == Recovered(x, ids, faults) && r.recovered == |RecoverableOf(x, ids, faults)|
            && r.tables == x.(orders := r.tables.orders, credit := r.tables.credit)
    decreases |stale|
  {
    hide ConfirmEnd, Inv, Recoverable;
    if |stale| > 0 {
      var id := stale[0];
      var e := ConfirmEnd(x, id, FaultOf(faults, id), now);
      SweptOne(x, id, faults, now);
      SweepOutcome(e.tables, stale[1..], faults, now);
      SweptRest(x, e, stale, faults);
    } else {
      assert Recovered(x, {}, faults) == x.orders;
    }
  }

  lemma SweptRest(x: World, e: End, stale: seq<OrderId>, faults: Faults)
    requires |stale| > 0 && stale[0] in x.orders && forall j :: 0 < j < |stale| ==> stale[0] != stale[j]
    requires e.ok <==> Recoverable(x, stale[0], faults)
    requires e.tables.orders == (if e.ok then x.orders[stale[0] := x.orders[stale[0]].(status := Paid)] else x.orders)
    requires forall other :: other != stale[0] ==> Recoverable(e.tables, other, faults) == Recoverable(x, other, faults)
    ensures var ids, rest := set id | id in stale, set id | id in stale[1..];
            && Recovered(e.tables, rest, faults) == Recovered(x, ids, faults)
            && |RecoverableOf(x, ids, faults)| == |RecoverableOf(e.tables, rest, faults)| + if e.ok then 1 else 0
  {
    hide Recoverable;
    var ids, rest := set id | id in stale, set id | id in stale[1..];
    assert forall id :: id in ids <==> id == stale[0] || id in rest by { assert stale == [stale[0]] + stale[1..]; }
    assert stale[0] !in rest;
    SweptCount(x, e, stale[0], rest, ids, faults);
  }

  lemma SweptCount(x: World, e: End, id: OrderId, rest: set<OrderId>, ids: set<OrderId>, faults: Faults)
    requires id !in rest && ids == rest + {id} && (e.ok <==> Recoverable(x, id, faults))
    requires forall other :: other != id ==> Recoverable(e.tables, other, faults) == Recoverable(x, other, faults)
    ensures |RecoverableOf(x, ids, faults)| == |RecoverableOf(e.tables, rest, faults)| + if e.ok then 1 else 0
  {
    hide Recoverable;
    var some := RecoverableOf(e.tables, rest, faults);
    assert RecoverableOf(x, ids, faults) == if e.ok then some + {id} else some;
  }

  /** A sweep worker of the machine, left to run, ends with the count of the recoverable
      orders, and with exactly those paid. */
  lemma SweepRecovers(x: World, w: WorkerId, stale: seq<OrderId>, faults: Faults, now: nat)
    requires w !in x.workers && AllConfirming(x, set id | id in stale)
    requires forall i, j :: 0 <= i < j < |stale| ==> stale[i] != stale[j]
    ensures var y := Steps(Act(x, StartSweep(w, stale)), w, faults, now, 7 * |stale| + 1);
            var ids := set id | id in stale;
            && w in y.workers && y.workers[w] == Swept(|RecoverableOf(x, ids, faults)|)
            && y.orders == Recovered(x, ids, faults)
            && y.plans == x.plans && y.refunds == x.refunds && y.events == x.events
  {
    hide Steps, SweepEnd, Inv, Recovered, RecoverableOf;
    SweepOutcome(x, stale, faults, now);
    var start := At(x, w, SweepNext(stale, 0));
    var n := SweepRuns(x, w, stale, 0, faults, now);
    StepsAdd(start, w, faults, now, n, 7 * |stale| + 1 - n);
    OverStays(Steps(start, w, faults, now, n), w, faults, now, 7 * |stale| + 1 - n);
  }

  // ---------------------------------------------------------------- events

  /** Whether processing an event of this kind will come through. */
  predicate EventSucceeds(x: World, kind: EventKind, now: nat) {
    match kind
    case Ignored => true
    case PaymentSucceeded(None) => false
    case PaymentSucceeded(Some(id)) =>
      && id in x.orders
      && (x.orders[id].status.Paid?
          || ((x.orders[id].status.Pending? || x.orders[id].status.Confirming?)
              && x.orders[id].plan in x.plans && CanConfirm(x, id)))
    case RefundSucceeded(None) => false
    case RefundSucceeded(Some(id)) =>
      && id in x.orders
      && ((x.orders[id].status.Refunded? && HasRefund(x.refunds, id))
          || (x.orders[id].status.Paid? && x.orders[id].plan in x.plans
              && CanReverse(x.credit, id, x.orders[id].team, CreditsOf(x, id), now)))
  }

  /** What a processed event promises of its order. */
  predicate Promised(x: World, kind: EventKind) {
    match kind
    case PaymentSucceeded(Some(id)) => id in x.orders && x.orders[id].status.Paid?
    case RefundSucceeded(Some(id)) => id in x.orders && x.orders[id].status.Refunded?
    case _ => true
  }

  lemma TaskOfEvent(x: World, w: WorkerId, task: Task, event: EventId, now: nat)
    requires event in x.events && !x.events[event].status.Processed?
    ensures var e := TaskEnd(x, task, NoFault, now);
            var marked := x.events[event].(status := if e.ok then Processed else FailedEvent);
            Steps(At(x, w, Begun(task, OfEvent(event))), w, map[], now, 7)
            == At(e.tables.(events := x.events[event := marked]), w, Stopped(e.ok))
  {
    hide Steps, TaskEnd;
    var e := TaskEnd(x, task, NoFault, now);
    TaskSparesEvents(x, task, now);
    var n := TaskRuns(x, w, task, OfEvent(event), map[], now);
    var start := At(x, w, Begun(task, OfEvent(event)));
    Completes(e.tables, w, event, e.ok, now);
    StepsAdd(start, w, map[], now, n, 1);
    StepsAdd(start, w, map[], now, n + 1, 6 - n);
    OverStays(Steps(start, w, map[], now, n + 1), w, map[], now, 6 - n);
  }

  lemma TaskSparesEvents(x: World, task: Task, now: nat)
    ensures TaskEnd(x, task, NoFault, now).tables.events == x.events
  {
    hide ClientCall;
  }

  /** The last statement of an event's processing. */
  lemma Completes(x: World, w: WorkerId, event: EventId, ok: bool, now: nat)
    requires event in x.events && !x.events[event].status.Processed?
    ensures Ending(ok, OfEvent(event)) == Completing(event, ok)
    ensures var marked := x.events[event].(status := if ok then Processed else FailedEvent);
            Steps(At(x, w, Completing(event, ok)), w, map[], now, 1)
            == At(x.(events := x.events[event := marked]), w, Stopped(ok))
  {
    var y := x.(events := x.events[event := x.events[event].(status := if ok then Processed else FailedEvent)]);
    AtTwice(x, y, w, Completing(event, ok), Stopped(ok));
    Onward(x, Completing(event, ok), y, Stopped(ok), w, map[], now, 1);
  }

  /** Where the processing of an event ends. */
  function EventEnd(x: World, event: EventId, now: nat): End
    requires event in x.events
  {
    var kind := x.events[event].kind;
    var e := match kind
      case PaymentSucceeded(Some(id)) => ConfirmEnd(x, id, NoFault, now)
      case RefundSucceeded(Some(id)) => RefundEnd(x, id, NoFault, now)
      case _ => End(x, kind.Ignored?);
    End(e.tables.(events := x.events[event := Event(kind, if e.ok then Processed else FailedEvent)]), e.ok)
  }

  /** Processing an event that is received or failed, from its first statement to its last. */
  lemma ProcessRuns(x: World, w: WorkerId, event: EventId, now: nat)
    requires event in x.events && !x.events[event].status.Processed?
    ensures var e := EventEnd(x, event, now);
            Steps(At(x, w, Process(event, x.events[event].kind)), w, map[], now, 7) == At(e.tables, w, Stopped(e.ok))
  {
    hide Steps, ConfirmEnd, RefundEnd;
    var kind := x.events[event].kind;
    match kind
    case PaymentSucceeded(Some(id)) => TaskOfEvent(x, w, Confirm(id), event, now);
    case RefundSucceeded(Some(id)) => TaskOfEvent(x, w, RefundTask(id), event, now);
    case _ => NothingToDo(x, w, event, kind.Ignored?, now);
  }

  /** An event that calls for no task is completed at once. */
  lemma NothingToDo(x: World, w: WorkerId, event: EventId, ok: bool, now: nat)
    requires event in x.events && !x.events[event].status.Processed?
    ensures var marked := x.events[event].(status := if ok then Processed else FailedEvent);
            Steps(At(x, w, Completing(event, ok)), w, map[], now, 7)
            == At(x.(events := x.events[event := marked]), w, Stopped(ok))
  {
    hide Steps;
    var start := At(x, w, Completing(event, ok));
    Completes(x, w, event, ok, now);
    StepsAdd(start, w, map[], now, 1, 6);
    OverStays(Steps(start, w, map[], now, 1), w, map[], now, 6);
  }

  lemma EventOutcome(x: World, event: EventId, now: nat)
    requires Inv(x.credit) && event in x.events
    ensures var e, kind := EventEnd(x, event, now), x.events[event].kind;
            && (e.ok <==> EventSucceeds(x, kind, now)) && (e.ok ==> Promised(e.tables, kind))
            && e.tables.workers == x.workers
            && e.tables.events == x.events[event := Event(kind, if e.ok then Processed else FailedEvent)]
  {
    hide ConfirmEnd, RefundEnd, Inv, CanReverse, AccountOpen;
    match x.events[event].kind
    case PaymentSucceeded(Some(id)) => ConfirmSucceeds(x, id, now);
    case RefundSucceeded(Some(id)) => RefundSucceeds(x, id, now);
    case _ =>
  }

  lemma ConfirmSucceeds(x: World, id: OrderId, now: nat)
    ensures var e := ConfirmEnd(x, id, NoFault, now);
            && (e.ok <==> EventSucceeds(x, PaymentSucceeded(Some(id)), now)) && e.tables.workers == x.workers
            && (e.ok ==> id in e.tables.orders && e.tables.orders[id].status.Paid?)
  {
    hide CallIfDue;
    if id in x.orders && (x.orders[id].status.Pending? || x.orders[id].status.Confirming?)
        && x.orders[id].plan in x.plans {
      ConfirmOutcome(x, id, NoFault, now);
    }
  }

  lemma RefundSucceeds(x: World, id: OrderId, now: nat)
    requires Inv(x.credit)
    ensures var e := RefundEnd(x, id, NoFault, now);
            && (e.ok <==> EventSucceeds(x, RefundSucceeded(Some(id)), now)) && e.tables.workers == x.workers
            && (e.ok ==> id in e.tables.orders && e.tables.orders[id].status.Refunded?)
  {
    hide CallIfDue, CanReverse;
    if id in x.orders && x.orders[id].status.Paid? && x.orders[id].plan in x.plans { RefundOutcome(x, id, now); }
  }

  /** One undisturbed delivery of an event that is new, or was received and not yet
      processed, and one undisturbed replay of an event that is received or failed, leave
      it processed exactly when its processing can come through, and then its order is as
      the event promises; otherwise they leave it failed. */
  lemma EventIsProcessedExactly(start: World, before: seq<Action>, x: World, event: EventId, kind: EventKind,
                                w: WorkerId,
                                now: nat)
    requires Opening(start) && x == Schedule(start, before) && w !in x.workers
    ensures event !in x.events || x.events[event] == Event(kind, Received) ==>
              Handled(x, event, kind, now, w, Schedule(x, [Receive(w, event, kind)] + Gos(w, now, 7)))
    ensures event in x.events && x.events[event].kind == kind && !x.events[event].status.Processed? ==>
              Handled(x, event, kind, now, w, Schedule(x, [Replay(w, event)] + Gos(w, now, 7)))
  {
    hide Inv, RowsInv, LedgerMatches, RefundsMatch, Schedule;
    OpeningMatches(start);
    var b := ScheduleSteps(start, NO_BOOKS, before);
    EventRuns(x, event, kind, w, now);
  }

  predicate Handled(x: World, event: EventId, kind: EventKind, now: nat, w: WorkerId, y: World) {
    var ok := EventSucceeds(x, kind, now);
    && w in y.workers && y.workers[w] == Stopped(ok)
    && y.events == x.events[event := Event(kind, if ok then Processed else FailedEvent)]
    && (ok ==> Promised(y, kind))
  }

  lemma EventRuns(x: World, event: EventId, kind: EventKind, w: WorkerId, now: nat)
    requires Inv(x.credit) && w !in x.workers
    ensures event !in x.events || x.events[event] == Event(kind, Received) ==>
              Handled(x, event, kind, now, w, Schedule(x, [Receive(w, event, kind)] + Gos(w, now, 7)))
    ensures event in x.events && x.events[event].kind == kind && !x.events[event].status.Processed? ==>
              Handled(x, event, kind, now, w, Schedule(x, [Replay(w, event)] + Gos(w, now, 7)))
  {
    hide Inv, EventEnd, EventSucceeds, Schedule, Gos, Act;
    if event !in x.events || x.events[event] == Event(kind, Received) {
      var received := x.(events := x.events[event := Event(kind, Received)]);
      DeliveryRuns(x, event, kind, w, now);
      EventOutcome(received, event, now);
      SucceedsAlike(x, received, kind, now);
    }
    if event in x.events && x.events[event].kind == kind && !x.events[event].status.Processed? {
      ReplayRuns(x, event, w, now);
      EventOutcome(x, event, now);
    }
  }

  lemma SucceedsAlike(x: World, y: World, kind: EventKind, now: nat)
    requires y == x.(events := y.events)
    ensures EventSucceeds(x, kind, now) == EventSucceeds(y, kind, now)
  {
    hide CanReverse, AccountOpen;
  }

  lemma DeliveryRuns(x: World, event: EventId, kind: EventKind, w: WorkerId, now: nat)
    requires w !in x.workers && (event !in x.events || x.events[event] == Event(kind, Received))
    ensures var received := x.(events := x.events[event := Event(kind, Received)]);
            var e := EventEnd(received, event, now);
            Schedule(x, [Receive(w, event, kind)] + Gos(w, now, 7)) == At(e.tables, w, Stopped(e.ok))
  {
    hide Steps, EventEnd, Schedule, Gos, Process;
    var received := x.(events := x.events[event := Event(kind, Received)]);
    assert Act(x, Receive(w, event, kind)) == At(received, w, Process(event, kind));
    StartedGos(x, Receive(w, event, kind), w, now, 7);
    ProcessRuns(received, w, event, now);
  }

  lemma ReplayRuns(x: World, event: EventId, w: WorkerId, now: nat)
    requires w !in x.workers && event in x.events && !x.events[event].status.Processed?
    ensures var e := EventEnd(x, event, now);
            Schedule(x, [Replay(w, event)] + Gos(w, now, 7)) == At(e.tables, w, Stopped(e.ok))
  {
    hide Steps, EventEnd, Schedule, Gos, Process;
    assert Act(x, Replay(w, event)) == At(x, w, Process(event, x.events[event].kind));
    StartedGos(x, Replay(w, event), w, now, 7);
    ProcessRuns(x, w, event, now);
  }

  /** A delivery under a known id changes nothing when it is no longer merely received, or
      says something else, and neither does a replay of a processed or unknown event. */
  lemma RepeatedDeliveryIsIgnored(x: World, event: EventId, kind: EventKind, w: WorkerId)
    requires w !in x.workers
    ensures event in x.events && x.events[event].kind != kind ==>
              Act(x, Receive(w, event, kind)) == At(x, w, Stopped(false))
    ensures event in x.events && x.events[event].kind == kind && !x.events[event].status.Received? ==>
              Act(x, Receive(w, event, kind)) == At(x, w, Stopped(true))
    ensures event in x.events && x.events[event].status.Processed? ==>
            Act(x, Replay(w, event)) == At(x, w, Stopped(true))
    ensures event !in x.events ==> Act(x, Replay(w, event)) == At(x, w, Stopped(false))
  {
  }

  /** Both events of an order do get processed: from any opening, for any plan on sale and
      any open account, creating the order and delivering each event once suffices. */
  lemma BothGetProcessed(start: World, id: OrderId, row: Order, payment: EventId, refund: EventId, now: nat)
    requires Opening(start) && row.status.Pending? && row.plan in start.plans && !start.plans[row.plan].deleted
    requires AccountOpen(start.credit, row.team) && payment != refund
    ensures BothProcessed(Schedule(start, [CreateOrder(id, row)]
                                          + ([Receive(1, payment, PaymentSucceeded(Some(id)))] + Gos(1, now, 7)
                                             + ([Receive(2, refund, RefundSucceeded(Some(id)))] + Gos(2, now, 7)))),
                          id, payment, refund)
  {
    hide Schedule, Inv, CanReverse, Act;
    var pay := [Receive(1, payment, PaymentSucceeded(Some(id)))] + Gos(1, now, 7);
    var back := [Receive(2, refund, RefundSucceeded(Some(id)))] + Gos(2, now, 7);
    var x := CreatedOrder(start, id, row);
    ScheduleAppend(start, [CreateOrder(id, row)], pay + back);
    ScheduleAppend(x, pay, back);
    var y := PaidByEvent(x, id, payment, now);
    EventRuns(y, refund, RefundSucceeded(Some(id)), 2, now);
  }

  lemma CreatedOrder(start: World, id: OrderId, row: Order) returns (x: World)
    requires Opening(start) && row.status.Pending? && row.plan in start.plans
    ensures x == Schedule(start, [CreateOrder(id, row)]) == start.(orders := map[id := row])
  {
    assert [CreateOrder(id, row)][1..] == [];
    x := start.(orders := map[id := row]);
    assert start.orders[id := row] == x.orders;
  }

  lemma PaidByEvent(x: World, id: OrderId, payment: EventId, now: nat) returns (y: World)
    requires Inv(x.credit) && id in x.orders && x.orders[id].status.Pending? && x.orders[id].plan in x.plans
    requires !x.plans[x.orders[id].plan].deleted && AccountOpen(x.credit, x.orders[id].team)
    requires x.workers == map[] && x.events == map[]
    requires forall i :: 0 <= i < |x.credit.ledger| ==> !ReservedKey(x.credit.ledger[i].key)
    ensures y == Schedule(x, [Receive(1, payment, PaymentSucceeded(Some(id)))] + Gos(1, now, 7))
    ensures Inv(y.credit) && 2 !in y.workers && y.events == map[payment := Event(PaymentSucceeded(Some(id)), Processed)]
    ensures EventSucceeds(y, RefundSucceeded(Some(id)), now)
  {
    hide Inv, ConfirmEnd, Schedule, Gos, RefreshRow, CanReverse;
    var kind, row := PaymentSucceeded(Some(id)), x.orders[id];
    var received := x.(events := map[payment := Event(kind, Received)]);
    assert x.events[payment := Event(kind, Received)] == received.events;
    DeliveryRuns(x, payment, kind, 1, now);
    ConfirmOutcome(received, id, NoFault, now);
    var e := ConfirmEnd(received, id, NoFault, now);
    y := At(EventEnd(received, payment, now).tables, 1, Stopped(true));
    assert y.events == map[payment := Event(kind, Processed)];
    PaidBalance(received, id, now);
  }

  /** A grant that was just made covers its own reversal. */
  lemma PaidBalance(x: World, id: OrderId, now: nat)
    requires Inv(x.credit) && id in x.orders && x.orders[id].status.Pending? && x.orders[id].plan in x.plans
    requires !x.plans[x.orders[id].plan].deleted && AccountOpen(x.credit, x.orders[id].team)
    requires forall i :: 0 <= i < |x.credit.ledger| ==> !ReservedKey(x.credit.ledger[i].key)
    ensures var e := ConfirmEnd(x, id, NoFault, now);
            CanReverse(e.tables.credit, id, x.orders[id].team, CreditsOf(x, id), now)
  {
    hide Exec, Inv, RefreshRow, ReversalRecorded, GrantKey;
    var team, credits := x.orders[id].team, CreditsOf(x, id);
    if 0 < credits {
      OrderKeysAreReserved(id);
      var c := Ensure(team, Allowances(0, 0));
      var s := Exec(x.credit, c).state;
      EnsureKeepsOpen(x.credit, team, now);
      EnsureAnswers(x.credit, team, Allowances(0, 0), now);
      GrantAnswers(s, team, credits, SubscriptionGrant, GrantKey(id), now);
      GrantKeepsInv(s, team, credits, GrantKey(id), now);
      var t := Exec(s, Grant(team, credits, SubscriptionGrant, GrantKey(id), now)).state;
      CoversPermanent(t.accounts[team], now);
    }
  }

  lemma GrantKeepsInv(s: State, team: AccountId, credits: nat, key: Key, now: nat)
    requires Inv(s)
    ensures var t := Exec(s, Grant(team, credits, SubscriptionGrant, key, now)).state;
            Inv(t) && (team in t.accounts && team in s.accounts ==>
                       ValidAccount(s.accounts[team]) && ValidAccount(t.accounts[team]))
  {
    hide Exec;
    StepKeepsInv(s, Grant(team, credits, SubscriptionGrant, key, now));
  }

  lemma CoversPermanent(a: Account, now: nat)
    requires ValidAccount(a)
    ensures a.buckets.permanent <= Spendable(a, now)
  {
    hide RefreshRow;
    RefreshRowValid(a, now);
  }
}
