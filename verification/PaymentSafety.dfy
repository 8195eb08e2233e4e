/** What every schedule of the payment machine guarantees: exactly-once grants,
    reversals and refund rows, forward-only orders, and terminal events. */
module PaymentSafety {
  import opened Options
  import opened CreditBuckets
  import opened CreditEngine
  import opened CreditInvariants
  import opened PaymentSaga

  /** What has been posted for orders: the ledger entry under each grant key and each
      reversal key, and the orders with a refund row. */
  datatype Books = Books(grants: map<OrderId, Entry>, reversals: map<OrderId, Entry>, refunded: set<OrderId>)

  function RefundCount(refunds: seq<RefundRow>, id: OrderId): nat {
    if |refunds| == 0 then 0
    else RefundCount(refunds[..|refunds| - 1], id) + if refunds[|refunds| - 1].order == id then 1 else 0
  }

  function Lookup(ledger: seq<Entry>, key: Key): Option<Entry> {
    var i := FindEntry(ledger, key);
    if i.Some? then Some(ledger[i.value]) else None
  }

  function Recorded(m: map<OrderId, Entry>, id: OrderId): Option<Entry> { if id in m then Some(m[id]) else None }

  ghost predicate LedgerMatches(ledger: seq<Entry>, b: Books) {
    && (forall id: OrderId :: Lookup(ledger, GrantKey(id)) == Recorded(b.grants, id))
    && (forall id: OrderId :: Lookup(ledger, ReversalKey(id)) == Recorded(b.reversals, id))
  }

  ghost predicate RefundsMatch(refunds: seq<RefundRow>, refunded: set<OrderId>) {
    forall id: OrderId :: RefundCount(refunds, id) == if id in refunded then 1 else 0
  }

  predicate Settled(status: OrderStatus) { status.Paid? || status.Refunded? }

  // ---------------------------------------------------------------- the invariant

  function CreditsOf(x: World, id: OrderId): nat
    requires id in x.orders && x.orders[id].plan in x.plans
  {
    x.plans[x.orders[id].plan].creditMicros
  }

  /** Where one order stands and what must and must not have been posted for it. */
  ghost predicate OrderOk(x: World, b: Books, id: OrderId)
    requires id in x.orders
  {
    var row := x.orders[id];
    && row.plan in x.plans && !row.status.Canceled?
    && (Settled(row.status) && 0 < CreditsOf(x, id) ==> id in b.grants)
    && (id in b.grants ==>
          0 < CreditsOf(x, id) && !row.status.Pending? && b.grants[id].account == row.team
          && b.grants[id].amount == CreditsOf(x, id))
    && (id in b.reversals ==>
          0 < CreditsOf(x, id) && Settled(row.status) && b.reversals[id].account == row.team
          && b.reversals[id].amount == 0 - CreditsOf(x, id))
    && (row.status.Refunded? && 0 < CreditsOf(x, id) ==> id in b.reversals)
    && (row.status.Refunded? <==> id in b.refunded)
  }

  ghost predicate OrdersOk(x: World, b: Books) {
    && (forall id :: id in x.orders ==> OrderOk(x, b, id))
    && (forall id :: id in b.grants ==> id in x.orders)
    && (forall id :: id in b.reversals ==> id in x.orders)
    && (forall id :: id in b.refunded ==> id in x.orders)
  }

  /** What a processed event of this kind promises. */
  ghost predicate EventMet(x: World, kind: EventKind) {
    match kind
    case PaymentSucceeded(order) => order.Some? && order.value in x.orders && Settled(x.orders[order.value].status)
    case RefundSucceeded(order) => order.Some? && order.value in x.orders && x.orders[order.value].status.Refunded?
    case Ignored => true
  }

  ghost predicate OriginOk(x: World, task: Task, origin: Origin) {
    origin.OfEvent? ==>
      origin.event in x.events && x.events[origin.event].kind == TaskKind(task)
  }

  function TaskKind(task: Task): EventKind {
    if task.Confirm? then PaymentSucceeded(Some(task.order)) else RefundSucceeded(Some(task.order))
  }

  ghost predicate RowOk(x: World, task: Task, row: Order) {
    && task.order in x.orders && x.orders[task.order].(status := row.status) == row
    && (task.RefundTask? ==> Settled(x.orders[task.order].status))
  }

  ghost predicate PlanOk(x: World, row: Order, credits: nat) {
    row.plan in x.plans && credits == x.plans[row.plan].creditMicros
  }

  /** What a worker in the middle of a task has established. */
  ghost predicate InTask(x: World, task: Task, origin: Origin, row: Order, credits: nat) {
    OriginOk(x, task, origin) && RowOk(x, task, row) && PlanOk(x, row, credits)
  }

  ghost predicate WorkerOk(x: World, b: Books, w: Worker) {
    match w
    case Begun(task, origin) => OriginOk(x, task, origin)
    case OrderRead(task, origin, row) => OriginOk(x, task, origin) && RowOk(x, task, row)
    case PlanRead(task, origin, row, credits) => InTask(x, task, origin, row, credits)
    case IntentWritten(task, origin, row, credits) =>
      InTask(x, task, origin, row, credits) && task.Confirm? && !x.orders[task.order].status.Pending?
    case Marked(task, origin, row, credits) =>
      InTask(x, task, origin, row, credits) && task.Confirm? && !x.orders[task.order].status.Pending?
    case Credited(task, origin, row, credits) =>
      InTask(x, task, origin, row, credits) && !x.orders[task.order].status.Pending?
      && (0 < credits ==> task.order in if task.Confirm? then b.grants else b.reversals)
    case Completing(event, ok) => ok ==> event in x.events && EventMet(x, x.events[event].kind)
    case SweepNext(_, _) => true
    case Stopped(_) => true
    case Swept(_) => true
  }

  ghost predicate WorkersOk(x: World, b: Books) { forall w :: w in x.workers ==> WorkerOk(x, b, x.workers[w]) }

  ghost predicate EventsOk(x: World) {
    forall e :: e in x.events && x.events[e].status.Processed? ==> EventMet(x, x.events[e].kind)
  }

  /** Orders, events and workers against the books; nothing about the credit tables. */
  ghost predicate RowsInv(x: World, b: Books) { OrdersOk(x, b) && WorkersOk(x, b) && EventsOk(x) }

  ghost predicate BooksMatch(x: World, b: Books) {
    Inv(x.credit) && LedgerMatches(x.credit.ledger, b) && RefundsMatch(x.refunds, b.refunded)
  }

  // ---------------------------------------------------------------- progress

  function Rank(status: OrderStatus): nat {
    match status
    case Pending => 0
    case Confirming => 1
    case Paid => 2
    case Refunded => 3
    case Canceled => 4
  }

  predicate Forward(a: Order, c: Order) { c.(status := a.status) == a && Rank(a.status) <= Rank(c.status) }

  /** Nothing is taken back: an order only moves forward and keeps its terms, an event
      keeps its kind, and processed is final. */
  ghost predicate RowsProgress(x: World, y: World) {
    && (forall id :: id in x.orders ==> id in y.orders && Forward(x.orders[id], y.orders[id]))
    && (forall p :: p in x.plans ==> p in y.plans && y.plans[p].creditMicros == x.plans[p].creditMicros)
    && EventsProgress(x, y)
  }

  ghost predicate EventsProgress(x: World, y: World) {
    forall e :: e in x.events ==>
      (e in y.events && y.events[e].kind == x.events[e].kind
       && (x.events[e].status.Processed? ==> y.events[e].status.Processed?))
  }

  /** Posted entries and refund rows stay. */
  ghost predicate BooksProgress(b: Books, c: Books) {
    && (forall id :: id in b.grants ==> id in c.grants && c.grants[id] == b.grants[id])
    && (forall id :: id in b.reversals ==> id in c.reversals && c.reversals[id] == b.reversals[id])
    && b.refunded <= c.refunded
  }

  lemma ProgressIsTransitive(x: World, y: World, z: World, b: Books, c: Books, d: Books)
    requires RowsProgress(x, y) && RowsProgress(y, z) && BooksProgress(b, c) && BooksProgress(c, d)
    ensures RowsProgress(x, z) && BooksProgress(b, d)
  {
    forall id | id in x.orders ensures id in z.orders && Forward(x.orders[id], z.orders[id]) {
      assert Forward(x.orders[id], y.orders[id]) && Forward(y.orders[id], z.orders[id]);
    }
  }

  lemma NotCanceled(x: World, b: Books, y: World, id: OrderId)
    requires RowsProgress(x, y) && OrdersOk(y, b) && id in x.orders
    ensures Settled(x.orders[id].status) ==> Settled(y.orders[id].status)
    ensures x.orders[id].status.Refunded? ==> y.orders[id].status.Refunded?
    ensures !x.orders[id].status.Pending? ==> !y.orders[id].status.Pending?
  {
    assert OrderOk(y, b, id) && Forward(x.orders[id], y.orders[id]);
  }

  lemma EventKept(x: World, y: World, b: Books, kind: EventKind)
    requires RowsProgress(x, y) && OrdersOk(y, b) && EventMet(x, kind)
    ensures EventMet(y, kind)
  {
    if !kind.Ignored? { NotCanceled(x, b, y, kind.order.value); }
  }

  lemma WorkerKept(x: World, y: World, b: Books, c: Books, w: Worker)
    requires RowsProgress(x, y) && BooksProgress(b, c) && OrdersOk(y, c) && WorkerOk(x, b, w)
    ensures WorkerOk(y, c, w)
  {
    if w.Completing? {
      if w.ok { EventKept(x, y, c, x.events[w.event].kind); }
    } else if w.OrderRead? || w.PlanRead? || w.IntentWritten? || w.Marked? || w.Credited? {
      assert RowOk(x, w.task, w.row);
      NotCanceled(x, c, y, w.task.order);
      assert Forward(x.orders[w.task.order], y.orders[w.task.order]);
    }
  }

  /** Re-establishes the invariant after a step that moved at most worker `moved`. */
  lemma InvFromProgress(x: World, y: World, b: Books, c: Books, moved: WorkerId)
    requires RowsInv(x, b) && RowsProgress(x, y) && BooksProgress(b, c) && OrdersOk(y, c)
    requires forall w :: w in y.workers && w != moved ==> w in x.workers && y.workers[w] == x.workers[w]
    requires moved in y.workers ==>
             WorkerOk(y, c, y.workers[moved]) || (moved in x.workers && x.workers[moved] == y.workers[moved])
    requires forall e :: e in y.events && y.events[e].status.Processed? ==>
               (e in x.events && x.events[e].status.Processed?) || EventMet(y, y.events[e].kind)
    ensures RowsInv(y, c)
  {
    forall w | w in y.workers ensures WorkerOk(y, c, y.workers[w]) {
      if w != moved || !WorkerOk(y, c, y.workers[w]) { WorkerKept(x, y, b, c, x.workers[w]); }
    }
    forall e | e in y.events && y.events[e].status.Processed? ensures EventMet(y, y.events[e].kind) {
      if e in x.events && x.events[e].status.Processed? { EventKept(x, y, c, x.events[e].kind); }
    }
  }

  lemma SameOrders(x: World, y: World, b: Books)
    requires OrdersOk(x, b) && y.orders == x.orders
    requires forall p :: p in x.plans ==> p in y.plans && y.plans[p].creditMicros == x.plans[p].creditMicros
    ensures OrdersOk(y, b)
  {
    forall id | id in y.orders ensures OrderOk(y, b, id) { assert OrderOk(x, b, id); }
  }

  /** A step of worker `moved` that touches neither orders nor books. */
  lemma QuietStep(x: World, y: World, b: Books, moved: WorkerId)
    requires RowsInv(x, b)
    requires y.orders == x.orders
    requires forall p :: p in x.plans ==> p in y.plans && y.plans[p].creditMicros == x.plans[p].creditMicros
    requires EventsProgress(x, y)
    requires forall w :: w in y.workers && w != moved ==> w in x.workers && y.workers[w] == x.workers[w]
    requires moved in y.workers ==>
             WorkerOk(y, b, y.workers[moved]) || (moved in x.workers && x.workers[moved] == y.workers[moved])
    requires forall e :: e in y.events && y.events[e].status.Processed? ==>
               (e in x.events && x.events[e].status.Processed?) || EventMet(y, y.events[e].kind)
    ensures RowsInv(y, b) && RowsProgress(x, y)
  {
    SameOrders(x, y, b);
    InvFromProgress(x, y, b, b, moved);
  }

  // ---------------------------------------------------------------- the credit side

  predicate Posts(c: Command) { c.Grant? || c.Spend? || c.Reset? || c.Capture? }

  /** A credit call appends at most one entry, under its own key, which was free. */
  lemma CallLedger(s: State, c: Command)
    ensures var t := Exec(s, c).state;
            t.ledger == s.ledger
            || (Posts(c) && FindEntry(s.ledger, c.key).None?
                && exists e: Entry :: t.ledger == s.ledger + [e] && e.key == c.key
                     && (c.Grant? ==> e.account == c.account && e.amount == c.amount)
                     && (c.Spend? ==> e.account == c.account && e.amount == 0 - c.amount))
    ensures Posts(c) && !Exec(s, c).out.Failed? ==> FindEntry(Exec(s, c).state.ledger, c.key).Some?
  {
    var t := Exec(s, c).state;
    if t.ledger != s.ledger {
      var e := t.ledger[|s.ledger|];
      assert t.ledger == s.ledger + [e] && e.key == c.key;
      FindEntryAppend(s.ledger, e, c.key);
    }
  }

  lemma AppendLookup(l: seq<Entry>, e: Entry, key: Key)
    requires FindEntry(l, e.key).None?
    ensures Lookup(l + [e], key) == if key == e.key then Some(e) else Lookup(l, key)
  {
    FindEntryAppend(l, e, key);
  }

  function TaskKey(task: Task): Key { if task.Confirm? then GrantKey(task.order) else ReversalKey(task.order) }

  /** However a client call fares, it appends nothing or its job's own entry, and an
      answer of success means the entry is there. */
  lemma ClientCallPosts(credit: State, task: Task, row: Order, credits: nat, fault: Fault,
                        now: nat) returns (entry: Option<Entry>)
    requires Inv(credit)
    ensures var r := ClientCall(credit, task, row, credits, fault, now);
            && Inv(r.state)
            && (!r.out.Failed? ==> FindEntry(r.state.ledger, TaskKey(task)).Some?)
            && (entry.None? ==> r.state.ledger == credit.ledger)
            && (entry.Some? ==>
                  && FindEntry(credit.ledger, TaskKey(task)).None?
                  && r.state.ledger == credit.ledger + [entry.value] && entry.value.key == TaskKey(task)
                  && entry.value.account == row.team
                  && entry.value.amount == (if task.Confirm? then credits else 0 - credits))
  {
    hide Inv, GrantKey, ReversalKey, FindEntry, ExecEnsure, ExecGrant, ExecSpend;
    var ensured := Exec(credit, Ensure(row.team, Allowances(0, 0))).state;
    StepKeepsInv(credit, Ensure(row.team, Allowances(0, 0)));
    CallLedger(credit, Ensure(row.team, Allowances(0, 0)));
    StepKeepsInv(ensured, PostCommand(task, row, credits, now));
    CallLedger(ensured, PostCommand(task, row, credits, now));
    var after := ClientCall(credit, task, row, credits, fault, now).state.ledger;
    entry := if after == credit.ledger then None else Some(after[|credit.ledger|]);
  }

  /** The books after an entry for a task was posted. */
  function PostTo(b: Books, task: Task, e: Entry): Books {
    if task.Confirm? then b.(grants := b.grants[task.order := e]) else b.(reversals := b.reversals[task.order := e])
  }

  lemma PostedBooksMatch(l: seq<Entry>, b: Books, task: Task, e: Entry)
    requires LedgerMatches(l, b) && FindEntry(l, TaskKey(task)).None? && e.key == TaskKey(task)
    ensures LedgerMatches(l + [e], PostTo(b, task, e))
    ensures task.order !in if task.Confirm? then b.grants else b.reversals
  {
    assert Lookup(l, TaskKey(task)).None?;
    forall id: OrderId
      ensures Lookup(l + [e], GrantKey(id)) == Recorded(PostTo(b, task, e).grants, id)
      ensures Lookup(l + [e], ReversalKey(id)) == Recorded(PostTo(b, task, e).reversals, id)
    {
      KeysAreDistinct(id, task.order);
      KeysAreDistinct(task.order, id);
      AppendLookup(l, e, GrantKey(id));
      AppendLookup(l, e, ReversalKey(id));
    }
  }

  lemma ForeignCallMatches(s: State, b: Books, call: Command)
    requires LedgerMatches(s.ledger, b) && ForeignCall(call)
    ensures LedgerMatches(Exec(s, call).state.ledger, b)
  {
    CallLedger(s, call);
    var t := Exec(s, call).state;
    if t.ledger != s.ledger {
      var e: Entry :| t.ledger == s.ledger + [e] && e.key == call.key;
      forall id: OrderId
        ensures Lookup(t.ledger, GrantKey(id)) == Recorded(b.grants, id)
        ensures Lookup(t.ledger, ReversalKey(id)) == Recorded(b.reversals, id)
      {
        OrderKeysAreReserved(id);
        AppendLookup(s.ledger, e, GrantKey(id));
        AppendLookup(s.ledger, e, ReversalKey(id));
      }
    }
  }

  lemma OrderKeysAreReserved(id: OrderId)
    ensures ReservedKey(GrantKey(id)) && ReservedKey(ReversalKey(id))
  {
    assert "order:" <= GrantKey(id) && "order-refund:" <= ReversalKey(id);
  }

  // ---------------------------------------------------------------- one action

  /** `c` is what the books `b` have become after a step from `x` to `y`. */
  ghost predicate StepOk(x: World, y: World, b: Books, c: Books) {
    RowsInv(y, c) && BooksMatch(y, c) && RowsProgress(x, y) && BooksProgress(b, c)
  }

  lemma FailIsOk(x: World, b: Books, origin: Origin)
    ensures WorkerOk(x, b, Fail(origin))
  {
  }

  lemma SucceedIsOk(x: World, b: Books, task: Task, origin: Origin)
    requires OriginOk(x, task, origin)
    requires task.order in x.orders
    requires if task.Confirm? then Settled(x.orders[task.order].status) else x.orders[task.order].status.Refunded?
    ensures WorkerOk(x, b, Succeed(origin))
  {
  }

  /** The books after a client call that posted `entry`, if any. */
  function BooksAfter(b: Books, task: Task, entry: Option<Entry>): Books {
    if entry.Some? then PostTo(b, task, entry.value) else b
  }

  predicate BookedFor(b: Books, task: Task) { task.order in if task.Confirm? then b.grants else b.reversals }

  lemma PostOrders(x: World, b: Books, w: Worker, e: Entry)
    requires OrdersOk(x, b) && WorkerOk(x, b, w) && (w.Marked? || (w.PlanRead? && w.task.RefundTask?))
    requires 0 < w.credits && e.account == w.row.team
             && e.amount == (if w.task.Confirm? then w.credits else 0 - w.credits)
    requires !BookedFor(b, w.task)
    ensures OrdersOk(x, PostTo(b, w.task, e)) && BooksProgress(b, PostTo(b, w.task, e))
  {
    forall k | k in x.orders ensures OrderOk(x, PostTo(b, w.task, e), k) { assert OrderOk(x, b, k); }
  }

  lemma PostRows(x: World, y: World, b: Books, id: WorkerId, w: Worker, entry: Option<Entry>)
    requires RowsInv(x, b) && WorkerOk(x, b, w) && (w.Marked? || (w.PlanRead? && w.task.RefundTask?))
    requires y.orders == x.orders && y.plans == x.plans && y.events == x.events
    requires id in y.workers && y.workers == x.workers[id := y.workers[id]]
    requires entry.Some? ==> 0 < w.credits && entry.value.account == w.row.team && !BookedFor(b, w.task)
                             && entry.value.amount == (if w.task.Confirm? then w.credits else 0 - w.credits)
    requires y.workers[id] == Fail(w.origin)
             || (y.workers[id] == Credited(w.task, w.origin, w.row, w.credits)
                 && (0 < w.credits ==> BookedFor(BooksAfter(b, w.task, entry), w.task)))
    ensures var c := BooksAfter(b, w.task, entry); RowsInv(y, c) && RowsProgress(x, y) && BooksProgress(b, c)
  {
    var c := BooksAfter(b, w.task, entry);
    if entry.Some? { PostOrders(x, b, w, entry.value); }
    SameOrders(x, y, c);
    if y.workers[id] == Fail(w.origin) { FailIsOk(y, c, w.origin); }
    InvFromProgress(x, y, b, c, id);
  }

  lemma PostStep(x: World, b: Books, id: WorkerId, fault: Fault, now: nat) returns (c: Books)
    requires RowsInv(x, b) && BooksMatch(x, b)
    requires id in x.workers && (x.workers[id].Marked? || (x.workers[id].PlanRead? && x.workers[id].task.RefundTask?))
    ensures StepOk(x, Post(x, id, x.workers[id], fault, now), b, c)
  {
    hide Exec, Inv, RefundsMatch;
    var w := x.workers[id];
    assert WorkerOk(x, b, w);
    var y := Post(x, id, w, fault, now);
    if w.credits == 0 {
      c := b;
      PostRows(x, y, b, id, w, None);
    } else {
      var entry := ClientCallPosts(x.credit, w.task, w.row, w.credits, fault, now);
      var r := ClientCall(x.credit, w.task, w.row, w.credits, fault, now);
      if entry.Some? {
        c := PostTo(b, w.task, entry.value);
        PostedBooksMatch(x.credit.ledger, b, w.task, entry.value);
      } else {
        c := b;
        assert !r.out.Failed? ==> Lookup(x.credit.ledger, TaskKey(w.task)).Some?;
      }
      PostRows(x, y, b, id, w, entry);
    }
  }

  /** Order `o` moves forward and nothing else about orders changes. */
  lemma OrderMoves(x: World, y: World, b: Books, c: Books, o: OrderId, id: WorkerId)
    requires RowsInv(x, b) && BooksProgress(b, c) && o in x.orders && o in y.orders
    requires y.orders == x.orders[o := y.orders[o]] && Forward(x.orders[o], y.orders[o])
    requires y.plans == x.plans && y.events == x.events
    requires c.grants == b.grants && c.reversals == b.reversals && c.refunded - {o} == b.refunded - {o}
    requires OrderOk(y, c, o)
    requires id in y.workers && y.workers == x.workers[id := y.workers[id]] && WorkerOk(y, c, y.workers[id])
    ensures RowsInv(y, c) && RowsProgress(x, y)
  {
    forall k | k in y.orders ensures OrderOk(y, c, k) {
      assert OrderOk(x, b, k);
      assert k != o ==> (k in c.refunded <==> k in c.refunded - {o}) && (k in b.refunded <==> k in b.refunded - {o});
    }
    forall k | k in c.refunded ensures k in y.orders { if k != o { assert k in c.refunded - {o}; } }
    InvFromProgress(x, y, b, c, id);
  }

  lemma ConcludeConfirm(x: World, b: Books, id: WorkerId)
    requires RowsInv(x, b) && BooksMatch(x, b) && id in x.workers && x.workers[id].Credited?
             && x.workers[id].task.Confirm?
    ensures StepOk(x, Conclude(x, id, x.workers[id]), b, b)
  {
    var w := x.workers[id];
    var o := w.task.order;
    var y := Conclude(x, id, w);
    assert WorkerOk(x, b, w) && OrderOk(x, b, o);
    if y.workers[id] == Fail(w.origin) { FailIsOk(y, b, w.origin); } else { SucceedIsOk(y, b, w.task, w.origin); }
    assert OrderOk(y, b, o);
    OrderMoves(x, y, b, b, o, id);
  }

  lemma ConcludeRefund(x: World, b: Books, id: WorkerId) returns (c: Books)
    requires RowsInv(x, b) && BooksMatch(x, b) && id in x.workers && x.workers[id].Credited?
             && x.workers[id].task.RefundTask?
    ensures StepOk(x, Conclude(x, id, x.workers[id]), b, c)
  {
    var w := x.workers[id];
    var o := w.task.order;
    var y := Conclude(x, id, w);
    assert WorkerOk(x, b, w) && OrderOk(x, b, o);
    HasRefundIffBooked(x.refunds, b.refunded, o);
    if x.orders[o].status.Paid? {
      c := b.(refunded := b.refunded + {o});
      RefundBooked(x.refunds, b.refunded, RefundRow(o, w.row.amountMinor));
      SucceedIsOk(y, c, w.task, w.origin);
      assert OrderOk(y, c, o);
    } else {
      c := b;
      SucceedIsOk(y, c, w.task, w.origin);
    }
    OrderMoves(x, y, b, c, o, id);
  }

  lemma ConcludeStep(x: World, b: Books, id: WorkerId) returns (c: Books)
    requires RowsInv(x, b) && BooksMatch(x, b) && id in x.workers && x.workers[id].Credited?
    ensures StepOk(x, Conclude(x, id, x.workers[id]), b, c)
  {
    if x.workers[id].task.Confirm? {
      c := b;
      ConcludeConfirm(x, b, id);
    } else {
      c := ConcludeRefund(x, b, id);
    }
  }

  lemma RefundBooked(refunds: seq<RefundRow>, refunded: set<OrderId>, row: RefundRow)
    requires RefundsMatch(refunds, refunded) && row.order !in refunded
    ensures RefundsMatch(refunds + [row], refunded + {row.order})
  {
    assert (refunds + [row])[..|refunds|] == refunds;
    forall id: OrderId ensures RefundCount(refunds + [row], id) == if id in refunded + {row.order} then 1 else 0 {
      assert RefundCount(refunds, id) == if id in refunded then 1 else 0;
    }
  }

  lemma HasRefundIffBooked(refunds: seq<RefundRow>, refunded: set<OrderId>, id: OrderId)
    requires RefundsMatch(refunds, refunded)
    ensures HasRefund(refunds, id) <==> id in refunded
  {
    RefundCounted(refunds, id);
    assert RefundCount(refunds, id) == if id in refunded then 1 else 0;
  }

  lemma {:induction false} RefundCounted(refunds: seq<RefundRow>, id: OrderId)
    ensures HasRefund(refunds, id) <==> 0 < RefundCount(refunds, id)
  {
    if |refunds| > 0 {
      var earlier := refunds[..|refunds| - 1];
      RefundCounted(earlier, id);
      if HasRefund(earlier, id) {
        var i :| 0 <= i < |earlier| && earlier[i].order == id;
        assert refunds[i].order == id;
      }
    }
  }

  /** Worker `w` starts as `next`, possibly with a new received event. */
  lemma Arrive(x: World, b: Books, w: WorkerId, next: Worker, events: map<EventId, Event>)
    requires RowsInv(x, b) && BooksMatch(x, b)
    requires x.events.Keys <= events.Keys && forall e :: e in x.events ==> events[e] == x.events[e]
    requires forall e :: e in events && e !in x.events ==> events[e].status.Received?
    requires var y := x.(events := events, workers := x.workers[w := next]); WorkerOk(y, b, next)
    ensures StepOk(x, x.(events := events, workers := x.workers[w := next]), b, b)
  {
    QuietStep(x, x.(events := events, workers := x.workers[w := next]), b, w);
  }

  lemma MarkConfirmingStep(x: World, b: Books, id: WorkerId, fault: Fault, now: nat)
    requires RowsInv(x, b) && BooksMatch(x, b)
    requires id in x.workers && x.workers[id].PlanRead? && x.workers[id].task.Confirm?
    ensures StepOk(x, Advance(x, id, fault, now), b, b)
  {
    hide ClientCall, Post, Conclude, LedgerMatches, RefundsMatch, Inv, WorkersOk, EventsOk;
    var w := x.workers[id];
    var o := w.task.order;
    var y := Advance(x, id, fault, now);
    WorkerIn(x, b, id);
    assert OrderOk(x, b, o);
    var moved := MarkConfirming(x.orders, o);
    assert moved == x.orders[o := moved[o]];
    assert OrderOk(y, b, o);
    OrderMoves(x, y, b, b, o, id);
  }

  lemma WorkerIn(x: World, b: Books, id: WorkerId)
    requires RowsInv(x, b) && id in x.workers
    ensures WorkerOk(x, b, x.workers[id])
  {
  }

  lemma ReadOrderIsOk(x: World, b: Books, w: Worker)
    requires OrdersOk(x, b) && WorkerOk(x, b, w) && w.Begun?
    ensures WorkerOk(x, b, ReadOrder(x, w))
  {
    hide HasRefund;
    if w.task.order in x.orders { assert OrderOk(x, b, w.task.order); }
    FailIsOk(x, b, w.origin);
    if w.task.order in x.orders
        && (if w.task.Confirm? then Settled(x.orders[w.task.order].status)
            else x.orders[w.task.order].status.Refunded?) {
      SucceedIsOk(x, b, w.task, w.origin);
    }
  }

  lemma ReadStep(x: World, b: Books, id: WorkerId, fault: Fault, now: nat)
    requires RowsInv(x, b) && BooksMatch(x, b) && id in x.workers
    requires x.workers[id].Begun? || x.workers[id].OrderRead? || x.workers[id].IntentWritten?
             || x.workers[id].SweepNext?
    ensures StepOk(x, Advance(x, id, fault, now), b, b)
  {
    hide ClientCall, Post, Conclude, FinishEvent, ReadOrder, LedgerMatches, RefundsMatch, Inv, EventsOk, WorkersOk;
    var w := x.workers[id];
    WorkerIn(x, b, id);
    var next :=
      if w.Begun? then ReadOrder(x, w) else if w.OrderRead? then ReadPlan(x, w)
      else if w.IntentWritten? then CheckIntent(x, w)
      else if w.rest == [] then PaymentSaga.Swept(w.recovered)
      else Begun(Confirm(w.rest[0]), OfSweep(w.rest[1..], w.recovered));
    if w.Begun? { ReadOrderIsOk(x, b, w); }
    else if w.OrderRead? || w.IntentWritten? { FailIsOk(x, b, w.origin); }
    assert WorkerOk(x, b, next);
    SameWorkerOk(x, b, id, next);
    Arrive(x, b, id, next, x.events);
    assert Advance(x, id, fault, now) == x.(events := x.events, workers := x.workers[id := next]);
  }

  /** What a worker knows does not depend on where workers are. */
  lemma SameWorkerOk(x: World, b: Books, id: WorkerId, w: Worker)
    requires WorkerOk(x, b, w)
    ensures WorkerOk(x.(events := x.events, workers := x.workers[id := w]), b, w)
  {
  }

  lemma FinishStep(x: World, b: Books, id: WorkerId, fault: Fault, now: nat)
    requires RowsInv(x, b) && BooksMatch(x, b) && id in x.workers
    requires x.workers[id].Completing? || x.workers[id].Stopped? || x.workers[id].Swept?
    ensures StepOk(x, Advance(x, id, fault, now), b, b)
  {
    hide ClientCall, Post, Conclude, ReadOrder, LedgerMatches, RefundsMatch, Inv, OrdersOk;
    WorkerIn(x, b, id);
    QuietStep(x, Advance(x, id, fault, now), b, id);
  }

  lemma AdvanceStep(x: World, b: Books, id: WorkerId, fault: Fault, now: nat) returns (c: Books)
    requires RowsInv(x, b) && BooksMatch(x, b) && id in x.workers
    ensures StepOk(x, Advance(x, id, fault, now), b, c)
  {
    var w := x.workers[id];
    if w.PlanRead? && w.task.Confirm? {
      c := b;
      MarkConfirmingStep(x, b, id, fault, now);
    } else if w.PlanRead? || w.Marked? {
      assert WorkerOk(x, b, w);
      c := PostStep(x, b, id, fault, now);
    } else if w.Credited? {
      c := ConcludeStep(x, b, id);
    } else if w.Completing? || w.Stopped? || w.Swept? {
      c := b;
      FinishStep(x, b, id, fault, now);
    } else {
      c := b;
      ReadStep(x, b, id, fault, now);
    }
  }

  lemma CreditCallStep(x: World, b: Books, call: Command)
    requires RowsInv(x, b) && BooksMatch(x, b) && ForeignCall(call)
    ensures StepOk(x, x.(credit := Exec(x.credit, call).state), b, b)
  {
    hide Inv, OrdersOk, EventsOk, Exec, LedgerMatches;
    StepKeepsInv(x.credit, call);
    ForeignCallMatches(x.credit, b, call);
    QuietStep(x, x.(credit := Exec(x.credit, call).state), b, 0);
  }

  lemma CreateOrderStep(x: World, b: Books, id: OrderId, row: Order)
    requires RowsInv(x, b) && BooksMatch(x, b)
    requires id !in x.orders && row.status.Pending? && row.plan in x.plans
    ensures StepOk(x, x.(orders := x.orders[id := row]), b, b)
  {
    hide Inv, LedgerMatches, RefundsMatch;
    var y := x.(orders := x.orders[id := row]);
    forall k | k in y.orders ensures OrderOk(y, b, k) { if k != id { assert OrderOk(x, b, k); } }
    InvFromProgress(x, y, b, b, 0);
  }

  lemma ActStep(x: World, b: Books, a: Action) returns (c: Books)
    requires RowsInv(x, b) && BooksMatch(x, b)
    ensures StepOk(x, Act(x, a), b, c)
  {
    hide Advance, Exec, RowsInv, BooksMatch, StepOk, Process;
    if a.Go? && a.w in x.workers {
      c := AdvanceStep(x, b, a.w, a.fault, a.now);
    } else if a.CreditCall? && ForeignCall(a.call) {
      c := b;
      CreditCallStep(x, b, a.call);
    } else if a.CreateOrder? && Act(x, a) != x {
      c := b;
      CreateOrderStep(x, b, a.order, a.row);
    } else {
      c := b;
      ArrivalStep(x, b, a);
    }
  }

  lemma ProcessIsOk(x: World, b: Books, event: EventId)
    requires event in x.events
    ensures WorkerOk(x, b, Process(event, x.events[event].kind))
  {
  }

  lemma ReceiveStep(x: World, b: Books, a: Action)
    requires RowsInv(x, b) && BooksMatch(x, b) && a.Receive? && a.w !in x.workers
    ensures StepOk(x, Act(x, a), b, b)
  {
    if a.event !in x.events {
      var events := x.events[a.event := Event(a.kind, Received)];
      ProcessIsOk(x.(events := events, workers := x.workers[a.w := Process(a.event, a.kind)]), b, a.event);
      Arrive(x, b, a.w, Process(a.event, a.kind), events);
    } else if x.events[a.event].kind != a.kind {
      Arrive(x, b, a.w, Stopped(false), x.events);
    } else if !x.events[a.event].status.Received? {
      Arrive(x, b, a.w, Stopped(true), x.events);
    } else {
      ProcessIsOk(x.(workers := x.workers[a.w := Process(a.event, a.kind)]), b, a.event);
      Arrive(x, b, a.w, Process(a.event, a.kind), x.events);
    }
  }

  lemma ReplayStep(x: World, b: Books, a: Action)
    requires RowsInv(x, b) && BooksMatch(x, b) && a.Replay? && a.w !in x.workers
    ensures StepOk(x, Act(x, a), b, b)
  {
    if a.event !in x.events {
      Arrive(x, b, a.w, Stopped(false), x.events);
    } else if x.events[a.event].status.Processed? {
      Arrive(x, b, a.w, Stopped(true), x.events);
    } else {
      var next := Process(a.event, x.events[a.event].kind);
      ProcessIsOk(x.(workers := x.workers[a.w := next]), b, a.event);
      Arrive(x, b, a.w, next, x.events);
    }
  }

  lemma PlanMarkStep(x: World, b: Books, plan: PlanId, deleted: bool)
    requires RowsInv(x, b) && BooksMatch(x, b)
    ensures StepOk(x, Act(x, SetPlanDeleted(plan, deleted)), b, b)
  {
    hide LedgerMatches, RefundsMatch, Inv, OrdersOk;
    QuietStep(x, Act(x, SetPlanDeleted(plan, deleted)), b, 0);
  }

  lemma NothingStep(x: World, b: Books)
    requires RowsInv(x, b) && BooksMatch(x, b)
    ensures StepOk(x, x, b, b)
  {
  }

  /** A worker arriving, crashing, or a plan changing its deletion mark. */
  lemma ArrivalStep(x: World, b: Books, a: Action)
    requires RowsInv(x, b) && BooksMatch(x, b)
    requires !(a.Go? && a.w in x.workers) && !(a.CreditCall? && ForeignCall(a.call))
             && !(a.CreateOrder? && Act(x, a) != x)
    ensures StepOk(x, Act(x, a), b, b)
  {
    hide Advance, Exec, Process, RowsInv, BooksMatch, StepOk;
    if a.Receive? && a.w !in x.workers {
      ReceiveStep(x, b, a);
    } else if a.Replay? && a.w !in x.workers {
      ReplayStep(x, b, a);
    } else if a.SetPlanDeleted? {
      PlanMarkStep(x, b, a.plan, a.deleted);
    } else if a.Start? && a.w !in x.workers {
      Arrive(x, b, a.w, Begun(a.task, Direct), x.events);
    } else if a.StartSweep? && a.w !in x.workers {
      Arrive(x, b, a.w, SweepNext(a.stale, 0), x.events);
    } else if a.Crash? && a.w in x.workers {
      Arrive(x, b, a.w, Stopped(false), x.events);
    } else {
      NothingStep(x, b);
    }
  }

  lemma {:induction false} ScheduleSteps(x: World, b: Books, actions: seq<Action>) returns (c: Books)
    requires RowsInv(x, b) && BooksMatch(x, b)
    ensures StepOk(x, Schedule(x, actions), b, c)
    decreases |actions|
  {
    if |actions| == 0 {
      c := b;
    } else {
      var y := Act(x, actions[0]);
      var d := ActStep(x, b, actions[0]);
      c := ScheduleSteps(y, d, actions[1..]);
      ProgressIsTransitive(x, y, Schedule(y, actions[1..]), b, d, c);
    }
  }

  const NO_BOOKS: Books := Books(map[], map[], {})

  lemma OpeningMatches(x: World)
    requires Opening(x)
    ensures RowsInv(x, NO_BOOKS) && BooksMatch(x, NO_BOOKS)
  {
    forall id: OrderId
      ensures Lookup(x.credit.ledger, GrantKey(id)) == None && Lookup(x.credit.ledger, ReversalKey(id)) == None
    {
      OrderKeysAreReserved(id);
    }
  }
}
