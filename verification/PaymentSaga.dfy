/** Order confirmation, refunds and payment events as a machine of workers with program
    counters. Any worker may crash between two statements, and a call to the credit
    service may be lost before it takes effect or answer too late to be heard.
    The credit side is the credit engine itself, reached only through its calls. */
module PaymentSaga {
  import opened Options
  import opened CreditBuckets
  import opened CreditEngine
  import opened CreditInvariants

  type OrderId = string
  type PlanId = string
  type EventId = string
  type WorkerId = nat

  datatype OrderStatus = Pending | Confirming | Paid | Canceled | Refunded

  datatype Order = Order(team: AccountId, plan: PlanId, amountMinor: int, status: OrderStatus)

  /** `creditMicros` is fixed for as long as the plan has orders. */
  datatype Plan = Plan(creditMicros: nat, deleted: bool)

  datatype RefundRow = RefundRow(order: OrderId, amountMinor: int)

  datatype EventKind = PaymentSucceeded(order: Option<OrderId>) | RefundSucceeded(order: Option<OrderId>) | Ignored

  datatype EventStatus = Received | Processed | FailedEvent

  datatype Event = Event(kind: EventKind, status: EventStatus)

  datatype Task = Confirm(order: OrderId) | RefundTask(order: OrderId)

  /** On whose behalf a task runs. */
  datatype Origin = Direct | OfEvent(event: EventId) | OfSweep(rest: seq<OrderId>, recovered: nat)

  datatype Worker =
    | Begun(task: Task, origin: Origin)
    | OrderRead(task: Task, origin: Origin, row: Order)
    | PlanRead(task: Task, origin: Origin, row: Order, credits: nat)
    | IntentWritten(task: Task, origin: Origin, row: Order, credits: nat)
    | Marked(task: Task, origin: Origin, row: Order, credits: nat)
    | Credited(task: Task, origin: Origin, row: Order, credits: nat)
    | Completing(event: EventId, ok: bool)
    | SweepNext(rest: seq<OrderId>, recovered: nat)
    | Stopped(ok: bool)
    | Swept(recovered: nat)

  datatype World = World(orders: map<OrderId, Order>, plans: map<PlanId, Plan>, refunds: seq<RefundRow>,
                         events: map<EventId, Event>, credit: State, workers: map<WorkerId, Worker>)

  /** What may happen to one call of the credit client, which first ensures the account
      and then posts: nothing goes wrong, it is lost on the way, only the first request
      arrives, or all of it takes effect but the answer is lost. */
  datatype Fault = NoFault | Lost | EnsuredOnly | NoReply

  datatype Action =
    | Start(w: WorkerId, task: Task)
    | StartSweep(w: WorkerId, stale: seq<OrderId>)
    | Receive(w: WorkerId, event: EventId, kind: EventKind)
    | Replay(w: WorkerId, event: EventId)
    | Go(w: WorkerId, fault: Fault, now: nat)
    | Crash(w: WorkerId)
    | CreateOrder(order: OrderId, row: Order)
    | SetPlanDeleted(plan: PlanId, deleted: bool)
    | CreditCall(call: Command)

  // ---------------------------------------------------------------- idempotency keys

  function GrantKey(order: OrderId): Key { "order:" + order }

  function ReversalKey(order: OrderId): Key { "order-refund:" + order }

  lemma KeysAreDistinct(a: OrderId, b: OrderId)
    ensures GrantKey(a) == GrantKey(b) ==> a == b
    ensures ReversalKey(a) == ReversalKey(b) ==> a == b
    ensures GrantKey(a) != ReversalKey(b)
  {
    assert GrantKey(a)[5] == ':' && ReversalKey(b)[5] == '-';
    assert a == GrantKey(a)[6..] && b == GrantKey(b)[6..];
    assert a == ReversalKey(a)[13..] && b == ReversalKey(b)[13..];
  }

  predicate ReservedKey(key: Key) { "order:" <= key || "order-refund:" <= key }

  /** Other users of the credit service stay off the two key families. */
  predicate ForeignCall(c: Command) {
    (c.Grant? || c.Spend? || c.Reset? || c.Capture?) ==> !ReservedKey(c.key)
  }

  // ---------------------------------------------------------------- statements

  /** Ensure the team's account, then post under the key of its job. */
  function ClientCall(credit: State, task: Task, row: Order, credits: nat, fault: Fault, now: nat): Result {
    if fault.Lost? then Result(credit, Failed(UniqueConflict))
    else
      var ensured := Exec(credit, Ensure(row.team, Allowances(0, 0)));
      if ensured.out.Failed? || fault.EnsuredOnly? then Result(ensured.state, Failed(UniqueConflict))
      else
        var posted := Exec(ensured.state, PostCommand(task, row, credits, now));
        Result(posted.state, if fault.NoReply? then Failed(UniqueConflict) else posted.out)
  }

  function PostCommand(task: Task, row: Order, credits: nat, now: nat): Command {
    if task.Confirm? then Grant(row.team, credits, SubscriptionGrant, GrantKey(task.order), now)
    else Spend(row.team, credits, RefundReversal, ReversalKey(task.order), now)
  }

  function MarkConfirming(orders: map<OrderId, Order>, id: OrderId): map<OrderId, Order> {
    if id in orders && orders[id].status.Pending? then orders[id := orders[id].(status := Confirming)] else orders
  }

  function MarkPaid(orders: map<OrderId, Order>, id: OrderId): map<OrderId, Order> {
    if id in orders && (orders[id].status.Pending? || orders[id].status.Confirming?)
    then orders[id := orders[id].(status := Paid)] else orders
  }

  predicate HasRefund(refunds: seq<RefundRow>, id: OrderId) { exists i :: 0 <= i < |refunds| && refunds[i].order == id }

  function Succeed(origin: Origin): Worker {
    match origin
    case Direct => Stopped(true)
    case OfEvent(event) => Completing(event, true)
    case OfSweep(rest, recovered) => SweepNext(rest, recovered + 1)
  }

  function Fail(origin: Origin): Worker {
    match origin
    case Direct => Stopped(false)
    case OfEvent(event) => Completing(event, false)
    case OfSweep(rest, recovered) => SweepNext(rest, recovered)
  }

  function ReadOrder(x: World, w: Worker): Worker
    requires w.Begun?
  {
    var id := w.task.order;
    if id !in x.orders then Fail(w.origin)
    else
      var status := x.orders[id].status;
      if w.task.Confirm? then
        if status.Paid? then Succeed(w.origin)
        else if status.Pending? || status.Confirming? then OrderRead(w.task, w.origin, x.orders[id])
        else Fail(w.origin)
      else
        if status.Refunded? then (if HasRefund(x.refunds, id) then Succeed(w.origin) else Fail(w.origin))
        else if status.Paid? then OrderRead(w.task, w.origin, x.orders[id])
        else Fail(w.origin)
  }

  /** A confirmation refuses a deleted plan, a refund does not. */
  function ReadPlan(x: World, w: Worker): Worker
    requires w.OrderRead?
  {
    if w.row.plan !in x.plans || (w.task.Confirm? && x.plans[w.row.plan].deleted) then Fail(w.origin)
    else PlanRead(w.task, w.origin, w.row, x.plans[w.row.plan].creditMicros)
  }

  function CheckIntent(x: World, w: Worker): Worker
    requires w.IntentWritten?
  {
    if w.task.order in x.orders && (x.orders[w.task.order].status.Confirming? || x.orders[w.task.order].status.Paid?)
    then Marked(w.task, w.origin, w.row, w.credits) else Fail(w.origin)
  }

  /** The grant of a confirmation or the reversal of a refund; none for a plan without credits. */
  function Post(x: World, id: WorkerId, w: Worker, fault: Fault, now: nat): World
    requires w.Marked? || w.PlanRead?
  {
    if w.credits == 0 then x.(workers := x.workers[id := Credited(w.task, w.origin, w.row, w.credits)])
    else
      var r := ClientCall(x.credit, w.task, w.row, w.credits, fault, now);
      var next := if r.out.Failed? then Fail(w.origin) else Credited(w.task, w.origin, w.row, w.credits);
      x.(credit := r.state, workers := x.workers[id := next])
  }

  /** The last statement of a task: mark the order paid, or refunded together with its row. */
  function Conclude(x: World, id: WorkerId, w: Worker): World
    requires w.Credited?
  {
    var o := w.task.order;
    if w.task.Confirm? then
      var orders := MarkPaid(x.orders, o);
      var next := if o in orders && orders[o].status.Paid? then Succeed(w.origin) else Fail(w.origin);
      x.(orders := orders, workers := x.workers[id := next])
    else if o in x.orders && x.orders[o].status.Paid? then
      x.(orders := x.orders[o := x.orders[o].(status := Refunded)],
         refunds := x.refunds + [RefundRow(o, w.row.amountMinor)],
         workers := x.workers[id := Succeed(w.origin)])
    else
      x.(workers := x.workers[id := if HasRefund(x.refunds, o) then Succeed(w.origin) else Fail(w.origin)])
  }

  /** received or failed moves on; processed is left alone. */
  function FinishEvent(x: World, id: WorkerId, w: Worker): World
    requires w.Completing?
  {
    var events :=
      if w.event in x.events && !x.events[w.event].status.Processed?
      then x.events[w.event := x.events[w.event].(status := if w.ok then Processed else FailedEvent)]
      else x.events;
    x.(events := events, workers := x.workers[id := Stopped(w.ok)])
  }

  /** What processing an event starts with. */
  function Process(event: EventId, kind: EventKind): Worker {
    match kind
    case PaymentSucceeded(order) =>
      if order.Some? then Begun(Confirm(order.value), OfEvent(event)) else Completing(event, false)
    case RefundSucceeded(order) =>
      if order.Some? then Begun(RefundTask(order.value), OfEvent(event)) else Completing(event, false)
    case Ignored => Completing(event, true)
  }

  function Advance(x: World, id: WorkerId, fault: Fault, now: nat): World
    requires id in x.workers
  {
    var w := x.workers[id];
    match w
    case Begun(_, _) => x.(workers := x.workers[id := ReadOrder(x, w)])
    case OrderRead(_, _, _) => x.(workers := x.workers[id := ReadPlan(x, w)])
    case PlanRead(task, origin, row, credits) =>
      if task.Confirm? then
        x.(orders := MarkConfirming(x.orders, task.order),
           workers := x.workers[id := IntentWritten(task, origin, row, credits)])
      else Post(x, id, w, fault, now)
    case IntentWritten(_, _, _, _) => x.(workers := x.workers[id := CheckIntent(x, w)])
    case Marked(_, _, _, _) => Post(x, id, w, fault, now)
    case Credited(_, _, _, _) => Conclude(x, id, w)
    case Completing(_, _) => FinishEvent(x, id, w)
    case SweepNext(rest, recovered) =>
      x.(workers :=
         x.workers[id := if rest == [] then Swept(recovered)
                   else Begun(Confirm(rest[0]), OfSweep(rest[1..], recovered))])
    case Stopped(_) => x
    case Swept(_) => x
  }

  /** One action; one that is not enabled changes nothing. */
  function Act(x: World, a: Action): World {
    match a
    case Start(w, task) => if w in x.workers then x else x.(workers := x.workers[w := Begun(task, Direct)])
    case StartSweep(w, stale) => if w in x.workers then x else x.(workers := x.workers[w := SweepNext(stale, 0)])
    case Receive(w, event, kind) =>
      if w in x.workers then x
      else if event !in x.events then
        x.(events := x.events[event := Event(kind, Received)], workers := x.workers[w := Process(event, kind)])
      else if x.events[event].kind != kind then x.(workers := x.workers[w := Stopped(false)])
      else if !x.events[event].status.Received? then x.(workers := x.workers[w := Stopped(true)])
      else x.(workers := x.workers[w := Process(event, kind)])
    case Replay(w, event) =>
      if w in x.workers then x
      else if event !in x.events then x.(workers := x.workers[w := Stopped(false)])
      else if x.events[event].status.Processed? then x.(workers := x.workers[w := Stopped(true)])
      else x.(workers := x.workers[w := Process(event, x.events[event].kind)])
    case Go(w, fault, now) => if w in x.workers then Advance(x, w, fault, now) else x
    case Crash(w) => if w in x.workers then x.(workers := x.workers[w := Stopped(false)]) else x
    case CreateOrder(order, row) =>
      if order in x.orders || !row.status.Pending? || row.plan !in x.plans then x
      else x.(orders := x.orders[order := row])
    case SetPlanDeleted(plan, deleted) =>
      if plan in x.plans then x.(plans := x.plans[plan := x.plans[plan].(deleted := deleted)]) else x
    case CreditCall(call) => if ForeignCall(call) then x.(credit := Exec(x.credit, call).state) else x
  }

  function Schedule(x: World, actions: seq<Action>): World
    decreases |actions|
  {
    if |actions| == 0 then x else Schedule(Act(x, actions[0]), actions[1..])
  }

  /** Nothing sold yet; plans and the credit tables may hold anything reachable, except
      that no order key has been used. */
  ghost predicate Opening(x: World) {
    && x.orders == map[] && x.refunds == [] && x.events == map[] && x.workers == map[]
    && Inv(x.credit)
    && (forall i :: 0 <= i < |x.credit.ledger| ==> !ReservedKey(x.credit.ledger[i].key))
  }
}
