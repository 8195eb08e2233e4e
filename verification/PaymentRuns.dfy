/** What one task comes to when its worker is let run: from any tables, with any other
    workers about but not moving, a confirmation, a refund or a sweep takes a bounded
    number of statements to an end that is told by the tables it began with. */
module PaymentRuns {
  import opened CreditEngine
  import opened PaymentSaga

  /** Tables, and whether the job came through. */
  datatype End = End(tables: World, ok: bool)

  /** The client call of a task, if its plan gives credits at all. */
  function CallIfDue(credit: State, task: Task, row: Order, credits: nat, fault: Fault, now: nat): Result {
    if credits == 0 then Result(credit, HoldRow(0)) else ClientCall(credit, task, row, credits, fault, now)
  }

  /** Where a confirmation ends. */
  function ConfirmEnd(x: World, id: OrderId, fault: Fault, now: nat): End {
    if id !in x.orders then End(x, false)
    else if x.orders[id].status.Paid? then End(x, true)
    else if !x.orders[id].status.Pending? && !x.orders[id].status.Confirming? then End(x, false)
    else if x.orders[id].plan !in x.plans || x.plans[x.orders[id].plan].deleted then End(x, false)
    else
      var row := x.orders[id];
      var credits := x.plans[row.plan].creditMicros;
      var intent := x.(orders := x.orders[id := row.(status := Confirming)]);
      var r := CallIfDue(x.credit, Confirm(id), row, credits, fault, now);
      if r.out.Failed? then End(intent.(credit := r.state), false)
      else End(x.(orders := x.orders[id := row.(status := Paid)], credit := r.state), true)
  }

  /** Where a refund ends. */
  function RefundEnd(x: World, id: OrderId, fault: Fault, now: nat): End {
    if id !in x.orders then End(x, false)
    else if x.orders[id].status.Refunded? then End(x, HasRefund(x.refunds, id))
    else if !x.orders[id].status.Paid? || x.orders[id].plan !in x.plans then End(x, false)
    else
      var row := x.orders[id];
      var credits := x.plans[row.plan].creditMicros;
      var r := CallIfDue(x.credit, RefundTask(id), row, credits, fault, now);
      if r.out.Failed? then End(x.(credit := r.state), false)
      else
        End(x.(orders := x.orders[id := row.(status := Refunded)],
               refunds := x.refunds + [RefundRow(id, row.amountMinor)],
               credit := r.state), true)
  }

  function TaskEnd(x: World, task: Task, fault: Fault, now: nat): End {
    if task.Confirm? then ConfirmEnd(x, task.order, fault, now) else RefundEnd(x, task.order, fault, now)
  }

  // ---------------------------------------------------------------- the steps of one worker

  /** What goes wrong with the client call of each order; nothing for the others. */
  type Faults = map<OrderId, Fault>

  function FaultOf(faults: Faults, id: OrderId): Fault { if id in faults then faults[id] else NoFault }

  function FaultAt(faults: Faults, v: Worker): Fault {
    if v.Marked? || v.PlanRead? then FaultOf(faults, v.task.order) else NoFault
  }

  /** Worker `w` takes `n` steps. */
  function Steps(x: World, w: WorkerId, faults: Faults, now: nat, n: nat): World
    requires w in x.workers
    decreases n
  {
    if n == 0 then x
    else
      var y := Advance(x, w, FaultAt(faults, x.workers[w]), now);
      if w in y.workers then Steps(y, w, faults, now, n - 1) else y
  }

  /** `x` with worker `w` at `v`. */
  function At(x: World, w: WorkerId, v: Worker): World { x.(workers := x.workers[w := v]) }

  /** What a worker turns to when its task is over. */
  function Ending(ok: bool, origin: Origin): Worker { if ok then Succeed(origin) else Fail(origin) }

  lemma AtTwice(x: World, y: World, w: WorkerId, u: Worker, v: Worker)
    requires y.workers == x.workers
    ensures At(x, w, u).workers[w := v] == At(y, w, v).workers
  {
  }

  lemma Onward(x: World, u: Worker, y: World, v: Worker, w: WorkerId, faults: Faults, now: nat, n: nat)
    requires 0 < n && Advance(At(x, w, u), w, FaultAt(faults, u), now) == At(y, w, v)
    ensures Steps(At(x, w, u), w, faults, now, n) == Steps(At(y, w, v), w, faults, now, n - 1)
  {
    hide Advance;
  }

  lemma {:induction false} StepsAdd(x: World, w: WorkerId, faults: Faults, now: nat, n: nat, m: nat)
    requires w in x.workers && w in Steps(x, w, faults, now, n).workers
    ensures Steps(x, w, faults, now, n + m) == Steps(Steps(x, w, faults, now, n), w, faults, now, m)
    decreases n
  {
    hide Advance;
    if n > 0 {
      var y := Advance(x, w, FaultAt(faults, x.workers[w]), now);
      WorkerStays(x, w, FaultAt(faults, x.workers[w]), now);
      StepsAdd(y, w, faults, now, n - 1, m);
    }
  }

  lemma WorkerStays(x: World, w: WorkerId, fault: Fault, now: nat)
    requires w in x.workers
    ensures w in Advance(x, w, fault, now).workers
  {
    hide ClientCall, ReadOrder, ReadPlan, CheckIntent, MarkConfirming, MarkPaid, HasRefund, Succeed, Fail;
    match x.workers[w]
    case Begun(_, _) =>
    case OrderRead(_, _, _) =>
    case PlanRead(_, _, _, _) =>
    case IntentWritten(_, _, _, _) =>
    case Marked(_, _, _, _) =>
    case Credited(_, _, _, _) => ConcludeStays(x, w, x.workers[w]);
    case Completing(_, _) =>
    case SweepNext(_, _) =>
    case Stopped(_) =>
    case Swept(_) =>
  }

  lemma ConcludeStays(x: World, w: WorkerId, v: Worker)
    requires v.Credited?
    ensures w in Conclude(x, w, v).workers
  {
    hide MarkPaid, HasRefund, Succeed, Fail;
  }

  lemma {:induction false} OverStays(x: World, w: WorkerId, faults: Faults, now: nat, n: nat)
    requires w in x.workers && (x.workers[w].Stopped? || x.workers[w].Swept?)
    ensures Steps(x, w, faults, now, n) == x
  {
    hide ClientCall;
    if n > 0 { OverStays(x, w, faults, now, n - 1); }
  }

  // ---------------------------------------------------------------- single statements

  lemma AdvanceReads(x: World, w: WorkerId, v: Worker, fault: Fault, now: nat)
    ensures v.Begun? ==> Advance(At(x, w, v), w, fault, now) == At(x, w, ReadOrder(x, v))
    ensures v.OrderRead? ==> Advance(At(x, w, v), w, fault, now) == At(x, w, ReadPlan(x, v))
    ensures v.IntentWritten? ==> Advance(At(x, w, v), w, fault, now) == At(x, w, CheckIntent(x, v))
  {
    if v.Begun? { AtTwice(x, x, w, v, ReadOrder(x, v)); }
    if v.OrderRead? { AtTwice(x, x, w, v, ReadPlan(x, v)); }
    if v.IntentWritten? { AtTwice(x, x, w, v, CheckIntent(x, v)); }
  }

  lemma AdvanceIntent(x: World, w: WorkerId, v: Worker, fault: Fault, now: nat)
    requires v.PlanRead? && v.task.Confirm?
    ensures var y := x.(orders := MarkConfirming(x.orders, v.task.order));
            Advance(At(x, w, v), w, fault, now) == At(y, w, IntentWritten(v.task, v.origin, v.row, v.credits))
  {
    AtTwice(x, x, w, v, IntentWritten(v.task, v.origin, v.row, v.credits));
  }

  lemma AdvancePost(x: World, w: WorkerId, v: Worker, fault: Fault, now: nat)
    requires v.Marked? || (v.PlanRead? && v.task.RefundTask?)
    ensures var r := CallIfDue(x.credit, v.task, v.row, v.credits, fault, now);
            Advance(At(x, w, v), w, fault, now)
            == At(x.(credit := r.state), w,
                  if r.out.Failed? then Fail(v.origin) else Credited(v.task, v.origin, v.row, v.credits))
  {
    hide ClientCall;
    AtTwice(x, x, w, v, Fail(v.origin));
    AtTwice(x, x, w, v, Credited(v.task, v.origin, v.row, v.credits));
  }

  lemma AdvanceConclude(x: World, w: WorkerId, v: Worker, fault: Fault, now: nat)
    requires v.Credited? && v.task.order in x.orders
    ensures v.task.Confirm? && x.orders[v.task.order].status.Confirming? ==>
      Advance(At(x, w, v), w, fault, now)
      == At(x.(orders := x.orders[v.task.order := x.orders[v.task.order].(status := Paid)]), w, Succeed(v.origin))
    ensures v.task.RefundTask? && x.orders[v.task.order].status.Paid? ==>
      Advance(At(x, w, v), w, fault, now)
      == At(x.(orders := x.orders[v.task.order := x.orders[v.task.order].(status := Refunded)],
               refunds := x.refunds + [RefundRow(v.task.order, v.row.amountMinor)]), w, Succeed(v.origin))
  {
    AtTwice(x, x, w, v, Succeed(v.origin));
  }

  // ---------------------------------------------------------------- whole tasks

  /** The two reads that open a task: either both let it pass, or the task is over. */
  lemma BothReads(x: World, w: WorkerId, task: Task, origin: Origin, faults: Faults, now: nat)
    requires task.order in x.orders && x.orders[task.order].plan in x.plans
    requires var row := x.orders[task.order];
             if task.Confirm? then (row.status.Pending? || row.status.Confirming?) && !x.plans[row.plan].deleted
             else row.status.Paid?
    ensures var row := x.orders[task.order];
            Steps(At(x, w, Begun(task, origin)), w, faults, now, 2)
            == At(x, w, PlanRead(task, origin, row, x.plans[row.plan].creditMicros))
  {
    hide Advance;
    var row := x.orders[task.order];
    var u, v := Begun(task, origin), OrderRead(task, origin, row);
    AdvanceReads(x, w, u, NoFault, now);
    Onward(x, u, x, v, w, faults, now, 2);
    AdvanceReads(x, w, v, NoFault, now);
    Onward(x, v, x, PlanRead(task, origin, row, x.plans[row.plan].creditMicros), w, faults, now, 1);
  }

  /** The opening reads that end a task. */
  lemma ReadsEnd(x: World, w: WorkerId, task: Task, origin: Origin, faults: Faults, now: nat, ok: bool) returns (n: nat)
    requires var first := ReadOrder(x, Begun(task, origin));
             first == Ending(ok, origin) || (first.OrderRead? && ReadPlan(x, first) == Ending(ok, origin))
    ensures n <= 2 && Steps(At(x, w, Begun(task, origin)), w, faults, now, n) == At(x, w, Ending(ok, origin))
  {
    hide Advance;
    var u := Begun(task, origin);
    var first := ReadOrder(x, u);
    AdvanceReads(x, w, u, NoFault, now);
    if first == Ending(ok, origin) {
      Onward(x, u, x, first, w, faults, now, 1);
      return 1;
    }
    Onward(x, u, x, first, w, faults, now, 2);
    AdvanceReads(x, w, first, NoFault, now);
    Onward(x, first, x, ReadPlan(x, first), w, faults, now, 1);
    n := 2;
  }

  /** A confirmation, from its first read to its end. */
  lemma ConfirmRuns(x: World, w: WorkerId, id: OrderId, origin: Origin, faults: Faults, now: nat) returns (n: nat)
    ensures var e := ConfirmEnd(x, id, FaultOf(faults, id), now);
            n <= 6 && Steps(At(x, w, Begun(Confirm(id), origin)), w, faults, now, n)
                == At(e.tables, w, Ending(e.ok, origin))
  {
    hide Advance, Steps, ClientCall;
    if id in x.orders && (x.orders[id].status.Pending? || x.orders[id].status.Confirming?)
       && x.orders[id].plan in x.plans && !x.plans[x.orders[id].plan].deleted {
      n := DueConfirmRuns(x, w, id, origin, faults, now);
    } else {
      n := ReadsEnd(x, w, Confirm(id), origin, faults, now, id in x.orders && x.orders[id].status.Paid?);
    }
  }

  lemma DueConfirmRuns(x: World, w: WorkerId, id: OrderId, origin: Origin, faults: Faults, now: nat) returns (n: nat)
    requires id in x.orders && (x.orders[id].status.Pending? || x.orders[id].status.Confirming?)
    requires x.orders[id].plan in x.plans && !x.plans[x.orders[id].plan].deleted
    ensures var e := ConfirmEnd(x, id, FaultOf(faults, id), now);
            n <= 6 && Steps(At(x, w, Begun(Confirm(id), origin)), w, faults, now, n)
                == At(e.tables, w, Ending(e.ok, origin))
  {
    hide Advance, Steps, ClientCall;
    var row := x.orders[id];
    var y := x.(orders := x.orders[id := row.(status := Confirming)]);
    BothReads(x, w, Confirm(id), origin, faults, now);
    IntentIsWritten(x, w, id, origin, faults, now);
    n := ConfirmPosts(y, w, id, row, origin, x.plans[row.plan].creditMicros, faults, now);
    assert y.orders[id := row.(status := Paid)] == x.orders[id := row.(status := Paid)];
    var begun := At(x, w, Begun(Confirm(id), origin));
    StepsAdd(begun, w, faults, now, 2, 2);
    StepsAdd(begun, w, faults, now, 4, n);
    n := n + 4;
  }

  lemma IntentIsWritten(x: World, w: WorkerId, id: OrderId, origin: Origin, faults: Faults, now: nat)
    requires id in x.orders && (x.orders[id].status.Pending? || x.orders[id].status.Confirming?)
    requires x.orders[id].plan in x.plans
    ensures var row := x.orders[id];
            var credits := x.plans[row.plan].creditMicros;
            Steps(At(x, w, PlanRead(Confirm(id), origin, row, credits)), w, faults, now, 2)
            == At(x.(orders := x.orders[id := row.(status := Confirming)]), w,
                  Marked(Confirm(id), origin, row, credits))
  {
    hide Advance;
    var row := x.orders[id];
    var credits := x.plans[row.plan].creditMicros;
    var u, v := PlanRead(Confirm(id), origin, row, credits), IntentWritten(Confirm(id), origin, row, credits);
    var y := x.(orders := x.orders[id := row.(status := Confirming)]);
    assert MarkConfirming(x.orders, id) == y.orders;
    AdvanceIntent(x, w, u, FaultOf(faults, id), now);
    Onward(x, u, y, v, w, faults, now, 2);
    AdvanceReads(y, w, v, NoFault, now);
    Onward(y, v, y, Marked(Confirm(id), origin, row, credits), w, faults, now, 1);
  }

  lemma ConfirmPosts(x: World, w: WorkerId, id: OrderId, row: Order, origin: Origin, credits: nat, faults: Faults,
                     now: nat)
      returns (n: nat)
    requires id in x.orders && x.orders[id] == row.(status := Confirming)
    ensures var r := CallIfDue(x.credit, Confirm(id), row, credits, FaultOf(faults, id), now);
            n <= 2 && Steps(At(x, w, Marked(Confirm(id), origin, row, credits)), w, faults, now, n)
                      == if r.out.Failed? then At(x.(credit := r.state), w, Fail(origin))
                         else At(x.(orders := x.orders[id := row.(status := Paid)], credit := r.state), w,
                                 Succeed(origin))
  {
    hide Advance, ClientCall;
    var r := CallIfDue(x.credit, Confirm(id), row, credits, FaultOf(faults, id), now);
    var u, v := Marked(Confirm(id), origin, row, credits), Credited(Confirm(id), origin, row, credits);
    var y := x.(credit := r.state);
    AdvancePost(x, w, u, FaultOf(faults, id), now);
    if r.out.Failed? {
      Onward(x, u, y, Fail(origin), w, faults, now, 1);
      return 1;
    }
    Onward(x, u, y, v, w, faults, now, 2);
    AdvanceConclude(y, w, v, NoFault, now);
    Onward(y, v, y.(orders := y.orders[id := y.orders[id].(status := Paid)]), Succeed(origin), w, faults, now, 1);
    n := 2;
  }

  /** A refund, from its first read to its end. */
  lemma RefundRuns(x: World, w: WorkerId, id: OrderId, origin: Origin, faults: Faults, now: nat) returns (n: nat)
    ensures var e := RefundEnd(x, id, FaultOf(faults, id), now);
            n <= 6 && Steps(At(x, w, Begun(RefundTask(id), origin)), w, faults, now, n)
                      == At(e.tables, w, Ending(e.ok, origin))
  {
    hide Advance, Steps, ClientCall;
    if id in x.orders && x.orders[id].status.Paid? && x.orders[id].plan in x.plans {
      BothReads(x, w, RefundTask(id), origin, faults, now);
      n := RefundPosts(x, w, id, x.orders[id], origin, x.plans[x.orders[id].plan].creditMicros, faults, now);
      StepsAdd(At(x, w, Begun(RefundTask(id), origin)), w, faults, now, 2, n);
      n := n + 2;
    } else {
      var ok := id in x.orders && x.orders[id].status.Refunded? && HasRefund(x.refunds, id);
      n := ReadsEnd(x, w, RefundTask(id), origin, faults, now, ok);
    }
  }

  lemma RefundPosts(x: World, w: WorkerId, id: OrderId, row: Order, origin: Origin, credits: nat, faults: Faults,
                    now: nat)
      returns (n: nat)
    requires id in x.orders && x.orders[id] == row && row.status.Paid?
    ensures var r := CallIfDue(x.credit, RefundTask(id), row, credits, FaultOf(faults, id), now);
            n <= 2 && Steps(At(x, w, PlanRead(RefundTask(id), origin, row, credits)), w, faults, now, n)
                      == if r.out.Failed? then At(x.(credit := r.state), w, Fail(origin))
                         else At(x.(orders := x.orders[id := row.(status := Refunded)],
                                    refunds := x.refunds + [RefundRow(id, row.amountMinor)],
                                    credit := r.state), w, Succeed(origin))
  {
    hide Advance, ClientCall;
    var r := CallIfDue(x.credit, RefundTask(id), row, credits, FaultOf(faults, id), now);
    var u, v := PlanRead(RefundTask(id), origin, row, credits), Credited(RefundTask(id), origin, row, credits);
    var y := x.(credit := r.state);
    AdvancePost(x, w, u, FaultOf(faults, id), now);
    if r.out.Failed? {
      Onward(x, u, y, Fail(origin), w, faults, now, 1);
      return 1;
    }
    Onward(x, u, y, v, w, faults, now, 2);
    AdvanceConclude(y, w, v, NoFault, now);
    Onward(y, v, y.(orders := y.orders[id := row.(status := Refunded)],
                    refunds := y.refunds + [RefundRow(id, row.amountMinor)]), Succeed(origin), w, faults, now, 1);
    n := 2;
  }

  /** Either task; started directly, its worker has stopped after at most six steps. */
  lemma TaskRuns(x: World, w: WorkerId, task: Task, origin: Origin, faults: Faults, now: nat) returns (n: nat)
    ensures var e := TaskEnd(x, task, FaultOf(faults, task.order), now);
            n <= 6 && Steps(At(x, w, Begun(task, origin)), w, faults, now, n) == At(e.tables, w, Ending(e.ok, origin))
  {
    hide Steps, ConfirmEnd, RefundEnd;
    if task.Confirm? {
      n := ConfirmRuns(x, w, task.order, origin, faults, now);
    } else {
      n := RefundRuns(x, w, task.order, origin, faults, now);
    }
  }

  lemma DirectTaskRuns(x: World, w: WorkerId, task: Task, faults: Faults, now: nat)
    ensures var e := TaskEnd(x, task, FaultOf(faults, task.order), now);
            Steps(At(x, w, Begun(task, Direct)), w, faults, now, 6) == At(e.tables, w, Stopped(e.ok))
  {
    hide Steps, TaskEnd;
    var e := TaskEnd(x, task, FaultOf(faults, task.order), now);
    var n := TaskRuns(x, w, task, Direct, faults, now);
    StepsAdd(At(x, w, Begun(task, Direct)), w, faults, now, n, 6 - n);
    OverStays(At(e.tables, w, Stopped(e.ok)), w, faults, now, 6 - n);
  }

  // ---------------------------------------------------------------- sweeps

  datatype Sweep = Sweep(tables: World, recovered: nat)

  /** One confirmation after the other, each counted when it came through. */
  function SweepEnd(x: World, stale: seq<OrderId>, faults: Faults, now: nat): Sweep
    decreases |stale|
  {
    if |stale| == 0 then Sweep(x, 0)
    else
      var e := ConfirmEnd(x, stale[0], FaultOf(faults, stale[0]), now);
      var rest := SweepEnd(e.tables, stale[1..], faults, now);
      Sweep(rest.tables, rest.recovered + if e.ok then 1 else 0)
  }

  /** A sweep worker goes through its whole list. */
  lemma {:induction false} SweepRuns(x: World, w: WorkerId, stale: seq<OrderId>, k: nat, faults: Faults, now: nat)
      returns (n: nat)
    ensures var r := SweepEnd(x, stale, faults, now);
            n <= 7 * |stale| + 1
            && Steps(At(x, w, SweepNext(stale, k)), w, faults, now, n) == At(r.tables, w, Swept(k + r.recovered))
    decreases |stale|
  {
    hide Steps, ConfirmEnd;
    var start := At(x, w, SweepNext(stale, k));
    SweepTakes(x, w, stale, k, faults, now);
    if |stale| == 0 {
      n := 1;
    } else {
      var origin := OfSweep(stale[1..], k);
      var e := ConfirmEnd(x, stale[0], FaultOf(faults, stale[0]), now);
      var i := ConfirmRuns(x, w, stale[0], origin, faults, now);
      StepsAdd(start, w, faults, now, 1, i);
      var next := if e.ok then k + 1 else k;
      assert Ending(e.ok, origin) == SweepNext(stale[1..], next);
      var j := SweepRuns(e.tables, w, stale[1..], next, faults, now);
      StepsAdd(start, w, faults, now, 1 + i, j);
      n := 1 + i + j;
    }
  }

  lemma SweepTakes(x: World, w: WorkerId, stale: seq<OrderId>, k: nat, faults: Faults, now: nat)
    ensures Steps(At(x, w, SweepNext(stale, k)), w, faults, now, 1)
         == At(x, w, if |stale| == 0 then Swept(k) else Begun(Confirm(stale[0]), OfSweep(stale[1..], k)))
  {
    var v := if |stale| == 0 then Swept(k) else Begun(Confirm(stale[0]), OfSweep(stale[1..], k));
    AtTwice(x, x, w, SweepNext(stale, k), v);
    Onward(x, SweepNext(stale, k), x, v, w, faults, now, 1);
  }

  // ---------------------------------------------------------------- as schedules

  function Gos(w: WorkerId, now: nat, n: nat): seq<Action> { seq(n, i => Go(w, NoFault, now)) }

  /** Undisturbed steps without faults, as a schedule. */
  lemma {:induction false} GosAreSteps(x: World, w: WorkerId, now: nat, n: nat)
    requires w in x.workers
    ensures Schedule(x, Gos(w, now, n)) == Steps(x, w, map[], now, n)
    decreases n
  {
    hide Advance;
    if n > 0 {
      assert Gos(w, now, n)[1..] == Gos(w, now, n - 1);
      WorkerStays(x, w, NoFault, now);
      GosAreSteps(Advance(x, w, NoFault, now), w, now, n - 1);
    }
  }

  /** The same after the action that starts the worker. */
  lemma StartedGos(x: World, first: Action, w: WorkerId, now: nat, n: nat)
    requires w in Act(x, first).workers
    ensures Schedule(x, [first] + Gos(w, now, n)) == Steps(Act(x, first), w, map[], now, n)
  {
    hide Act;
    assert ([first] + Gos(w, now, n))[1..] == Gos(w, now, n);
    GosAreSteps(Act(x, first), w, now, n);
  }
}
