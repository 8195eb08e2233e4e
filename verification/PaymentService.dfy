/** The payment service in place, over a live credit repository: each method runs one
    task alone, statement by statement, and ends where a worker of the payment machine
    ends that is let run. */
module PaymentService {
  import opened CreditBuckets
  import opened CreditEngine
  import opened PaymentSaga
  import opened PaymentRuns
  import opened PaymentRecovery

  class Service {
    var orders: map<OrderId, Order>
    var plans: map<PlanId, Plan>
    var refunds: seq<RefundRow>
    var events: map<EventId, Event>
    const credit: CreditRepository

    ghost function View(): World
      reads this, credit
    {
      World(orders, plans, refunds, events, credit.View(), map[])
    }

    constructor (plans: map<PlanId, Plan>, credit: CreditRepository)
      ensures this.credit == credit && View() == World(map[], plans, [], map[], credit.View(), map[])
    {
      this.orders, this.plans, this.refunds, this.events, this.credit := map[], plans, [], map[], credit;
    }

    /** pending moves to confirming; the answer is the status read back. */
    method MarkOrderConfirming(id: OrderId) returns (ok: bool)
      modifies this`orders
      ensures orders == MarkConfirming(old(orders), id)
      ensures ok <==> id in orders && (orders[id].status.Confirming? || orders[id].status.Paid?)
    {
      if id in orders && orders[id].status.Pending? {
        orders := orders[id := orders[id].(status := Confirming)];
      }
      ok := id in orders && (orders[id].status.Confirming? || orders[id].status.Paid?);
    }

    /** pending or confirming moves to paid; an order already paid is fine too. */
    method MarkOrderPaid(id: OrderId) returns (ok: bool)
      modifies this`orders
      ensures orders == MarkPaid(old(orders), id)
      ensures ok <==> id in orders && orders[id].status.Paid?
    {
      if id in orders && (orders[id].status.Pending? || orders[id].status.Confirming?) {
        orders := orders[id := orders[id].(status := Paid)];
        return true;
      }
      ok := id in orders && orders[id].status.Paid?;
    }

    /** paid moves to refunded together with its refund row, or nothing happens. */
    method RefundOrderAtomically(id: OrderId, amountMinor: int) returns (transitioned: bool)
      modifies this`orders, this`refunds
      ensures transitioned <==> id in old(orders) && old(orders)[id].status.Paid?
      ensures transitioned ==> orders == old(orders)[id := old(orders)[id].(status := Refunded)]
                               && refunds == old(refunds) + [RefundRow(id, amountMinor)]
      ensures !transitioned ==> orders == old(orders) && refunds == old(refunds)
    {
      if id !in orders || !orders[id].status.Paid? { return false; }
      orders := orders[id := orders[id].(status := Refunded)];
      refunds := refunds + [RefundRow(id, amountMinor)];
      transitioned := true;
    }

    /** received or failed moves to the given status; a processed event is left alone. */
    method TransitionPaymentEventStatus(event: EventId, ok: bool) returns (moved: bool)
      modifies this`events
      ensures moved <==> event in old(events) && !old(events)[event].status.Processed?
      ensures events == if moved
              then old(events)[event := old(events)[event].(status := if ok then Processed else FailedEvent)]
                        else old(events)
    {
      moved := event in events && !events[event].status.Processed?;
      if moved {
        events := events[event := events[event].(status := if ok then Processed else FailedEvent)];
      }
    }

    /** The credit client: ensure the account, then grant or spend. */
    method CallCredit(task: Task, row: Order, credits: nat, fault: Fault, now: nat) returns (out: Outcome)
      modifies credit
      ensures Result(credit.View(), out) == ClientCall(old(credit.View()), task, row, credits, fault, now)
    {
      if fault.Lost? { return Failed(UniqueConflict); }
      var ensured := credit.EnsureAccount(row.team, Allowances(0, 0));
      if ensured.Failed? || fault.EnsuredOnly? { return Failed(UniqueConflict); }
      if task.Confirm? {
        out := credit.GrantCredits(row.team, credits, SubscriptionGrant, GrantKey(task.order), now);
      } else {
        out := credit.SpendCredits(row.team, credits, RefundReversal, ReversalKey(task.order), now);
      }
      if fault.NoReply? { out := Failed(UniqueConflict); }
    }

    method ConfirmOrder(id: OrderId, fault: Fault, now: nat) returns (ok: bool)
      modifies this, credit
      ensures End(View(), ok) == ConfirmEnd(old(View()), id, fault, now)
    {
      hide ClientCall, Exec;
      if id !in orders { return false; }
      var order := orders[id];
      if order.status.Paid? { return true; }
      if !order.status.Pending? && !order.status.Confirming? { return false; }
      if order.plan !in plans || plans[order.plan].deleted { return false; }
      var credits := plans[order.plan].creditMicros;
      var intent := MarkOrderConfirming(id);
      if !intent { return false; }
      if credits > 0 {
        var out := CallCredit(Confirm(id), order, credits, fault, now);
        if out.Failed? { return false; }
      }
      ok := MarkOrderPaid(id);
    }

    method RefundOrder(id: OrderId, fault: Fault, now: nat) returns (ok: bool)
      modifies this, credit
      ensures End(View(), ok) == RefundEnd(old(View()), id, fault, now)
    {
      hide ClientCall, Exec;
      if id !in orders { return false; }
      var order := orders[id];
      if order.status.Refunded? { return HasRefund(refunds, id); }
      if !order.status.Paid? { return false; }
      if order.plan !in plans { return false; }
      var credits := plans[order.plan].creditMicros;
      if credits > 0 {
        var out := CallCredit(RefundTask(id), order, credits, fault, now);
        if out.Failed? { return false; }
      }
      var transitioned := RefundOrderAtomically(id, order.amountMinor);
      ok := transitioned || HasRefund(refunds, id);
    }

    /** Retry every order left confirming, in any order, each with its own luck; a failed
        one does not stop the rest: exactly those come out paid, and are counted, whose
        plan is on sale and whose grant is not needed or can be made. */
    method SweepStaleConfirmingOrders(stale: set<OrderId>, faults: Faults, now: nat) returns (recovered: nat)
      requires AllConfirming(View(), stale)
      modifies this, credit
      ensures orders == Recovered(old(View()), stale, faults)
      ensures recovered == |RecoverableOf(old(View()), stale, faults)|
      ensures plans == old(plans) && refunds == old(refunds) && events == old(events)
    {
      hide ConfirmEnd, Recoverable, SweptSoFar;
      ghost var start := View();
      SweepBegins(start, stale, faults);
      recovered := 0;
      var todo := stale;
      ghost var swept: set<OrderId> := {};
      while todo != {}
        invariant swept + todo == stale && SweptSoFar(start, View(), swept, todo, faults, recovered)
        decreases todo
      {
        var id :| id in todo;
        SweptFurther(start, View(), swept, todo, faults, recovered, id, now);
        var ok := ConfirmOrder(id, if id in faults then faults[id] else NoFault, now);
        todo := todo - {id};
        swept := swept + {id};
        if ok {
          recovered := recovered + 1;
        }
      }
      SweepEnds(start, View(), swept, faults, recovered);
    }
  }

  lemma SweepEnds(start: World, x: World, swept: set<OrderId>, faults: Faults, count: nat)
    requires SweptSoFar(start, x, swept, {}, faults, count)
    ensures x == start.(orders := Recovered(start, swept, faults), credit := x.credit)
    ensures count == |RecoverableOf(start, swept, faults)|
  {
    hide Recoverable;
  }
}
