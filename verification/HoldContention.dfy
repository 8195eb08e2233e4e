/** Captures, releases, sweeps, resets and deletions racing on the same rows, interleaved
    statement by statement, under MySQL's default isolation (no other level is set):
    the plain reads of a transaction see the tables as they stood when it began, also
    after a lost update; an update sees the latest committed row and takes its lock,
    which its transaction keeps until it commits or rolls back. */
module HoldContention {
  import opened Options
  import opened CreditBuckets
  import opened CreditEngine
  import opened CreditInvariants

  type WorkerId = nat

  /** A sweep works through the ids it collected, counting the holds it reclaimed. */
  datatype Sweep = NoSweep | InSweep(now: nat, rest: seq<nat>, count: nat)

  datatype Answer = Answered(out: Outcome) | Swept(count: nat) | Crashed

  /** Where a worker is: between the transactions of a sweep; inside a settlement after
      reading the hold as `row`, after winning the status update, or after writing the
      account row as `returned`; inside a reset or deletion that read the account as
      `seen`; or finished. What `HasWon` and `HasReturned` wrote is not yet committed. */
  datatype Worker =
    | Between(sweep: Sweep)
    | HasRead(call: Command, row: Hold, sweep: Sweep)
    | HasWon(call: Command, row: Hold, sweep: Sweep)
    | HasReturned(call: Command, row: Hold, sweep: Sweep, returned: Account)
    | HasSeen(call: Command, seen: Account)
    | Done(answer: Answer)

  /** A committed settlement. */
  datatype Move = Move(worker: WorkerId, hold: nat, status: HoldStatus)

  /** Committed tables, worker positions, and the settlements so far. */
  datatype Cluster = Cluster(db: State, workers: map<WorkerId, Worker>, history: seq<Move>)

  const START: Cluster := Cluster(EMPTY, map[], [])

  datatype Action =
    | Begin(w: WorkerId, call: Command)
    | BeginSweep(w: WorkerId, now: nat)
    | NextHold(w: WorkerId)
    | Update(w: WorkerId)
    | Return(w: WorkerId)
    | Commit(w: WorkerId)
    | BeginWrite(w: WorkerId, call: Command)
    | Write(w: WorkerId)
    | Crash(w: WorkerId)
    | Other(call: Command)

  predicate Settles(c: Command) { c.Capture? || c.Release? || c.Reclaim? }

  /** Calls that read the account row without a lock and write it in a later statement. */
  predicate Writes(c: Command) { c.Reset? || c.Delete? }

  function Target(c: Command): HoldStatus
    requires Settles(c)
  {
    match c
    case Capture(_, _, _, _, _) => Captured
    case Release(_) => Released
    case Reclaim(_, _) => Expired
  }

  /** The answer a call gives from its opening reads alone; `None` if it goes on to the update. */
  function EarlyAnswer(db: State, c: Command): Option<Outcome>
    requires Settles(c)
  {
    match c
    case Capture(hold, actual, _, key, _) =>
      if FindEntry(db.ledger, key).Some? then Some(Mutation(FindEntry(db.ledger, key).value))
      else if actual <= 0 then Some(Failed(InvalidAmount))
      else if |db.holds| <= hold then Some(Failed(HoldNotFound))
      else if !db.holds[hold].status.Active? then Some(Failed(HoldNotActive))
      else if db.holds[hold].amount < actual then Some(Failed(CaptureExceedsHold))
      else None
    case Release(hold) =>
      if |db.holds| <= hold then Some(Failed(HoldNotFound))
      else if db.holds[hold].status.Released? then Some(HoldRow(hold))
      else if !db.holds[hold].status.Active? then Some(Failed(HoldNotActive))
      else None
    case Reclaim(hold, now) =>
      if |db.holds| <= hold || !Overdue(db.holds[hold], now) then Some(Reclaimed(false)) else None
  }

  /** The answer of a call whose conditional update matched no row. A release reads the
      hold once more, and sees the row it saw before. */
  function LosersAnswer(c: Command, row: Hold): Outcome
    requires Settles(c)
  {
    match c
    case Capture(_, _, _, _, _) => Failed(HoldNotActive)
    case Release(hold) => if row.status.Released? then HoldRow(hold) else Failed(HoldNotActive)
    case Reclaim(_, _) => Reclaimed(false)
  }

  /** A finished transaction ends a call, or returns to the sweep it belongs to. */
  function Finish(out: Outcome, sweep: Sweep): Worker {
    if sweep.NoSweep? then Done(Answered(out))
    else if out.Failed? then Done(Crashed)
    else Between(sweep.(count := sweep.count + if out == Reclaimed(true) then 1 else 0))
  }

  function Reading(c: Cluster, w: WorkerId, call: Command, sweep: Sweep): Cluster
    requires Settles(call)
  {
    var early := EarlyAnswer(c.db, call);
    var next := if early.Some? then Finish(early.value, sweep)
                else if |c.db.holds| <= call.hold then Done(Crashed)
                else HasRead(call, c.db.holds[call.hold], sweep);
    c.(workers := c.workers[w := next])
  }

  predicate Holding(x: Worker, hold: nat) { (x.HasWon? || x.HasReturned?) && Settles(x.call) && x.call.hold == hold }

  predicate RowLocked(c: Cluster, w: WorkerId, hold: nat) {
    exists v :: v in c.workers && v != w && Holding(c.workers[v], hold)
  }

  predicate Returning(x: Worker, account: AccountId) { x.HasReturned? && x.row.account == account }

  predicate AccountLocked(c: Cluster, w: Option<WorkerId>, account: AccountId) {
    exists v :: v in c.workers && w != Some(v) && Returning(c.workers[v], account)
  }

  function Updating(c: Cluster, w: WorkerId): Cluster
    requires w in c.workers && c.workers[w].HasRead?
  {
    var HasRead(call, row, sweep) := c.workers[w];
    if !Settles(call) || |c.db.holds| <= call.hold || RowLocked(c, w, call.hold) then c
    else if c.db.holds[call.hold].status.Active? then c.(workers := c.workers[w := HasWon(call, row, sweep)])
    else c.(workers := c.workers[w := Finish(LosersAnswer(call, row), sweep)])
  }

  /** The account row a winner writes back, from the hold it read when it began. */
  function ReturnedRow(a: Account, call: Command, row: Hold): Account {
    ReturnToBuckets(a, if call.Capture? then Unspent(row, call.actual) else row.reserved, row.amount)
  }

  /** The bucket return: lock the account, read it, write it. */
  function ReturningTo(c: Cluster, w: WorkerId): Cluster
    requires w in c.workers && c.workers[w].HasWon?
  {
    var HasWon(call, row, sweep) := c.workers[w];
    if row.account !in c.db.accounts then c.(workers := c.workers[w := Finish(Failed(AccountNotFound), sweep)])
    else if AccountLocked(c, Some(w), row.account) then c
    else c.(workers :=
            c.workers[w := HasReturned(call, row, sweep, ReturnedRow(c.db.accounts[row.account], call, row))])
  }

  /** What a winner commits: the hold, the account row it wrote, and for a capture its
      entry and usage row. A clash on one of their keys undoes the transaction. */
  function Settlement(db: State, call: Command, row: Hold, returned: Account): Result
    requires Settles(call) && call.hold < |db.holds|
  {
    var moved := db.(holds := db.holds[call.hold := db.holds[call.hold].(status := Target(call))],
                     accounts := db.accounts[row.account := returned]);
    if call.Release? then Result(moved, HoldRow(call.hold))
    else if call.Reclaim? then Result(moved, Reclaimed(true))
    else if FindEntry(db.ledger, call.key).Some? then Result(db, Mutation(FindEntry(db.ledger, call.key).value))
    else if UsageKey(call.key) in db.usages then Result(db, Failed(UniqueConflict))
    else
      var entry := Entry(row.account, -call.actual, Available(returned.buckets), call.reason, call.key, call.now);
      Result(moved.(ledger := db.ledger + [entry],
                    usages := db.usages[UsageKey(call.key) := Usage(row.account, call.actual)]),
             Mutation(|db.ledger|))
  }

  function Committing(c: Cluster, w: WorkerId): Cluster
    requires w in c.workers && c.workers[w].HasReturned?
  {
    var HasReturned(call, row, sweep, returned) := c.workers[w];
    if !Settles(call) || |c.db.holds| <= call.hold then c
    else
      var r := Settlement(c.db, call, row, returned);
      Cluster(r.state, c.workers[w := Finish(r.out, sweep)],
              if r.state != c.db then c.history + [Move(w, call.hold, Target(call))] else c.history)
  }

  /** The answer a reset or deletion gives from its reads; `None` if it goes on to write. */
  function Refusal(db: State, c: Command): Option<Outcome>
    requires Writes(c)
  {
    if c.Reset? && FindEntry(db.ledger, c.key).Some? then Some(Mutation(FindEntry(db.ledger, c.key).value))
    else if c.Reset? && c.target < 0 then Some(Failed(InvalidAmount))
    else if c.account !in db.accounts then Some(Failed(AccountNotFound))
    else if c.Reset? then
      if db.accounts[c.account].deleted then Some(Failed(AccountDeleted))
      else if c.target < db.accounts[c.account].held then Some(Failed(BelowHeld))
      else None
    else if db.accounts[c.account].deleted then Some(AccountRow(c.account))
    else if HasActiveHold(db.holds, c.account) then Some(Failed(ActiveHoldExists))
    else None
  }

  /** The write that follows, on whatever row is there by then. A reset posts the
      difference to the balance it saw; a clash on its key undoes it. */
  function RowWrite(db: State, c: Command, seen: Account): Result
    requires Writes(c) && c.account in db.accounts
  {
    var a := db.accounts[c.account];
    if c.Delete? then Result(db.(accounts := db.accounts[c.account := a.(deleted := true)]), AccountRow(c.account))
    else if FindEntry(db.ledger, c.key).Some? then Result(db, Mutation(FindEntry(db.ledger, c.key).value))
    else
      var entry := Entry(c.account, c.target - seen.buckets.permanent, c.target, c.reason, c.key, c.now);
      Result(db.(accounts := db.accounts[c.account := a.(buckets := a.buckets.(permanent := c.target))],
                 ledger := db.ledger + [entry]),
             Mutation(|db.ledger|))
  }

  function Seeing(c: Cluster, w: WorkerId, call: Command): Cluster
    requires Writes(call)
  {
    var refused := Refusal(c.db, call);
    c.(workers :=
       c.workers[w := if refused.Some? then Done(Answered(refused.value))
                 else HasSeen(call, c.db.accounts[call.account])])
  }

  predicate WriteEnabled(c: Cluster, w: WorkerId) {
    && w in c.workers && c.workers[w].HasSeen? && Writes(c.workers[w].call)
    && c.workers[w].call.account in c.db.accounts && !AccountLocked(c, None, c.workers[w].call.account)
  }

  function Writing(c: Cluster, w: WorkerId): Cluster
    requires WriteEnabled(c, w)
  {
    var r := RowWrite(c.db, c.workers[w].call, c.workers[w].seen);
    c.(db := r.state, workers := c.workers[w := Done(Answered(r.out))])
  }

  /** Every other call is one transaction that locks the account row it writes. */
  predicate OtherEnabled(c: Cluster, call: Command) {
    !Settles(call) && !Writes(call) && !AccountLocked(c, None, call.account)
  }

  /** One statement of one worker. An action that is not enabled changes nothing. */
  function Act(c: Cluster, a: Action): Cluster {
    match a
    case Begin(w, call) =>
      if w in c.workers || !(call.Capture? || call.Release?) then c else Reading(c, w, call, NoSweep)
    case BeginSweep(w, now) =>
      if w in c.workers then c
      else c.(workers := c.workers[w := Between(InSweep(now, OverdueIds(c.db.holds, now, |c.db.holds|), 0))])
    case NextHold(w) =>
      if !(w in c.workers && c.workers[w].Between? && c.workers[w].sweep.InSweep?) then c
      else
        var sweep := c.workers[w].sweep;
        if sweep.rest == [] then c.(workers := c.workers[w := Done(Swept(sweep.count))])
        else Reading(c, w, Reclaim(sweep.rest[0], sweep.now), sweep.(rest := sweep.rest[1..]))
    case Update(w) => if w in c.workers && c.workers[w].HasRead? then Updating(c, w) else c
    case Return(w) => if w in c.workers && c.workers[w].HasWon? then ReturningTo(c, w) else c
    case Commit(w) => if w in c.workers && c.workers[w].HasReturned? then Committing(c, w) else c
    case BeginWrite(w, call) => if w in c.workers || !Writes(call) then c else Seeing(c, w, call)
    case Write(w) => if WriteEnabled(c, w) then Writing(c, w) else c
    case Crash(w) => if w in c.workers && !c.workers[w].Done? then c.(workers := c.workers[w := Done(Crashed)]) else c
    case Other(call) => if OtherEnabled(c, call) then c.(db := Exec(c.db, call).state) else c
  }

  function Schedule(c: Cluster, actions: seq<Action>): Cluster
    decreases |actions|
  {
    if |actions| == 0 then c else Schedule(Act(c, actions[0]), actions[1..])
  }

  // ---------------------------------------------------------------- what every schedule keeps

  function MovesOf(history: seq<Move>, hold: nat): nat {
    if |history| == 0 then 0
    else MovesOf(history[..|history| - 1], hold) + if history[|history| - 1].hold == hold then 1 else 0
  }

  /** How many active-to-expired moves a worker committed. */
  function ExpiredBy(history: seq<Move>, w: WorkerId): nat {
    if |history| == 0 then 0
    else
      var m := history[|history| - 1];
      ExpiredBy(history[..|history| - 1], w) + if m.worker == w && m.status.Expired? then 1 else 0
  }

  lemma AppendMove(history: seq<Move>, m: Move)
    ensures forall h: nat :: MovesOf(history + [m], h) == MovesOf(history, h) + if m.hold == h then 1 else 0
    ensures forall w: WorkerId ::
            ExpiredBy(history + [m], w) == ExpiredBy(history, w) + if m.worker == w && m.status.Expired? then 1 else 0
  {
    assert (history + [m])[..|history|] == history;
  }

  predicate Settling(x: Worker) { x.HasRead? || x.HasWon? || x.HasReturned? }

  function SweepOf(x: Worker): Sweep { if x.Between? || Settling(x) then x.sweep else NoSweep }

  /** The row a worker read is still the stored row, up to its status. */
  ghost predicate RowCurrent(db: State, x: Worker)
    requires Settling(x)
  {
    && Settles(x.call) && x.call.hold < |db.holds|
    && x.row.status.Active? && x.row == db.holds[x.call.hold].(status := Active) && x.row.account in db.accounts
    && (x.call.Capture? ==> 0 < x.call.actual <= x.row.amount)
    && (x.call.Reclaim? ==> x.row.expiresAt.Some? && x.row.expiresAt.value < x.call.now)
    && (x.call.Reclaim? <==> x.sweep.InSweep?)
  }

  /** A winner's hold is still active, and the account row it wrote is the return into
      the row that is still stored. */
  ghost predicate WorkerOk(db: State, x: Worker) {
    && (Settling(x) ==> RowCurrent(db, x))
    && (x.HasWon? || x.HasReturned? ==> db.holds[x.call.hold].status.Active?)
    && (x.HasReturned? ==> x.returned == ReturnedRow(db.accounts[x.row.account], x.call, x.row))
    && (x.HasSeen? ==> Writes(x.call) && x.call.account in db.accounts && (x.call.Reset? ==> 0 <= x.call.target))
    && (x.Between? ==> x.sweep.InSweep?)
  }

  ghost predicate WorkersOk(c: Cluster) { forall w :: w in c.workers ==> WorkerOk(c.db, c.workers[w]) }

  /** No two workers hold the lock of one hold row, nor of one account row. */
  ghost predicate LocksOk(c: Cluster) {
    && (forall v, w, h: nat ::
        (v in c.workers && w in c.workers && Holding(c.workers[v], h) && Holding(c.workers[w], h)) ==> v == w)
    && (forall v, w, a ::
        (v in c.workers && w in c.workers && Returning(c.workers[v], a) && Returning(c.workers[w], a)) ==> v == w)
  }

  ghost predicate HistoryOk(c: Cluster) {
    && (forall h: nat :: h < |c.db.holds| ==> MovesOf(c.history, h) == if c.db.holds[h].status.Active? then 0 else 1)
    && (forall h: nat :: |c.db.holds| <= h ==> MovesOf(c.history, h) == 0)
    && (forall i :: 0 <= i < |c.history| ==>
          c.history[i].hold < |c.db.holds| && c.db.holds[c.history[i].hold].status == c.history[i].status)
  }

  ghost predicate CountsOk(c: Cluster) {
    && (forall w: WorkerId :: w !in c.workers ==> ExpiredBy(c.history, w) == 0)
    && (forall w ::
        w in c.workers && SweepOf(c.workers[w]).InSweep? ==> SweepOf(c.workers[w]).count == ExpiredBy(c.history, w))
    && (forall w :: w in c.workers && c.workers[w].Done? && c.workers[w].answer.Swept? ==>
          c.workers[w].answer.count == ExpiredBy(c.history, w))
  }

  ghost predicate ClusterInv(c: Cluster) {
    Inv(c.db) && WorkersOk(c) && LocksOk(c) && HistoryOk(c) && CountsOk(c)
  }

  // ---------------------------------------------------------------- each statement against the atomic calls

  /** A call that stops after its reads answers what the atomic call would answer there. */
  lemma EarlyAnswerIsAtomic(db: State, c: Command)
    requires Settles(c)
    ensures EarlyAnswer(db, c).Some? ==> Exec(db, c) == Result(db, EarlyAnswer(db, c).value)
    ensures EarlyAnswer(db, c).None? ==>
      c.hold < |db.holds| && db.holds[c.hold].status.Active?
      && (c.Capture? ==> 0 < c.actual <= db.holds[c.hold].amount) && (c.Reclaim? ==> Overdue(db.holds[c.hold], c.now))
  {
  }

  /** A winner's writes, computed from the rows it read earlier, are those of the atomic
      call at the moment of its commit. */
  lemma SettlementIsAtomic(db: State, x: Worker)
    requires Inv(db) && x.HasReturned? && WorkerOk(db, x)
    ensures Settlement(db, x.call, x.row, x.returned) == Exec(db, x.call)
    ensures Exec(db, x.call).state != db ==>
            Exec(db, x.call).state.holds == db.holds[x.call.hold := x.row.(status := Target(x.call))]
    ensures Exec(db, x.call).state == db ==> x.call.Capture?
    ensures x.call.Reclaim? ==> Exec(db, x.call).out == Reclaimed(true)
    ensures Exec(db, x.call).state.accounts.Keys == db.accounts.Keys
    ensures forall a :: a in db.accounts && a != x.row.account ==> Exec(db, x.call).state.accounts[a] == db.accounts[a]
  {
    hide DebitOf, FindEntry, Reserved;
    var h := db.holds[x.call.hold];
    assert h == x.row && ValidHold(db, h);
    if x.call.Capture? && FindEntry(db.ledger, x.call.key).None? {
      var t := Exec(db, x.call).state;
      assert UsageKey(x.call.key) !in db.usages;
      assert t.holds == db.holds[x.call.hold := h.(status := Captured)];
    }
  }

  /** A worker that lost the update answers like the atomic call, with two exceptions: a
      capture whose key was recorded meanwhile, which would have been answered with the
      recorded entry, and a release of a hold that was released meanwhile, which would
      have been answered with the hold. Both are refused. */
  lemma LoserAnswersAtomically(db: State, x: Worker)
    requires x.HasRead? && RowCurrent(db, x) && !db.holds[x.call.hold].status.Active?
    ensures Exec(db, x.call) == Result(db, LosersAnswer(x.call, x.row))
            <==> !(x.call.Capture? && FindEntry(db.ledger, x.call.key).Some?)
                 && !(x.call.Release? && db.holds[x.call.hold].status.Released?)
  {
  }

  // ---------------------------------------------------------------- preservation

  /** Moving one worker, with the tables unchanged. */
  lemma WorkerMoves(c: Cluster, w: WorkerId, x: Worker)
    requires ClusterInv(c) && WorkerOk(c.db, x)
    requires x.HasWon? || x.HasReturned? ==> !RowLocked(c, w, x.call.hold)
    requires x.HasReturned? ==> !AccountLocked(c, Some(w), x.row.account)
    requires SweepOf(x).InSweep? ==> SweepOf(x).count == ExpiredBy(c.history, w)
    requires x.Done? && x.answer.Swept? ==> x.answer.count == ExpiredBy(c.history, w)
    ensures ClusterInv(c.(workers := c.workers[w := x]))
  {
    hide Inv, ExpiredBy, MovesOf, RowLocked, AccountLocked, LocksOk;
    LocksMove(c, w, x);
  }

  lemma LocksMove(c: Cluster, w: WorkerId, x: Worker)
    requires LocksOk(c)
    requires x.HasWon? || x.HasReturned? ==> Settles(x.call) && !RowLocked(c, w, x.call.hold)
    requires x.HasReturned? ==> !AccountLocked(c, Some(w), x.row.account)
    ensures LocksOk(c.(workers := c.workers[w := x]))
  {
    var d := c.(workers := c.workers[w := x]);
    forall u, v, h: nat | u in d.workers && v in d.workers && Holding(d.workers[u], h) && Holding(d.workers[v], h)
      ensures u == v
    {
      assert u != w ==> u in c.workers && d.workers[u] == c.workers[u];
      assert v != w ==> v in c.workers && d.workers[v] == c.workers[v];
    }
    forall u, v, a | u in d.workers && v in d.workers && Returning(d.workers[u], a) && Returning(d.workers[v], a)
      ensures u == v
    {
      assert u != w ==> u in c.workers && d.workers[u] == c.workers[u];
      assert v != w ==> v in c.workers && d.workers[v] == c.workers[v];
    }
  }

  lemma ReadingKeepsInv(c: Cluster, w: WorkerId, call: Command, sweep: Sweep)
    requires ClusterInv(c) && Settles(call)
    requires call.Reclaim? <==> sweep.InSweep?
    requires sweep.InSweep? ==> sweep.count == ExpiredBy(c.history, w)
    ensures ClusterInv(Reading(c, w, call, sweep))
  {
    hide EarlyAnswer, Exec, ExpiredBy, MovesOf, LocksOk, WorkersOk, HistoryOk, UniqueKeys, Reserved;
    EarlyAnswerIsAtomic(c.db, call);
    if EarlyAnswer(c.db, call).None? { assert ValidHold(c.db, c.db.holds[call.hold]); }
    if EarlyAnswer(c.db, call).Some? { EarlyCounts(c.db, call); }
    WorkerMoves(c, w, Reading(c, w, call, sweep).workers[w]);
  }

  lemma EarlyCounts(db: State, call: Command)
    requires Settles(call) && EarlyAnswer(db, call).Some?
    ensures EarlyAnswer(db, call).value != Reclaimed(true)
  {
  }

  lemma UpdatingKeepsInv(c: Cluster, w: WorkerId)
    requires ClusterInv(c) && w in c.workers && c.workers[w].HasRead?
    ensures ClusterInv(Updating(c, w))
  {
    hide Inv, ExpiredBy, MovesOf, LocksOk, HistoryOk;
    assert WorkerOk(c.db, c.workers[w]);
    if Updating(c, w) != c { WorkerMoves(c, w, Updating(c, w).workers[w]); }
  }

  lemma ReturningKeepsInv(c: Cluster, w: WorkerId)
    requires ClusterInv(c) && w in c.workers && c.workers[w].HasWon?
    ensures ClusterInv(ReturningTo(c, w))
  {
    hide Inv, ExpiredBy, MovesOf, HistoryOk, ReturnedRow;
    assert WorkerOk(c.db, c.workers[w]);
    if ReturningTo(c, w) != c { WorkerMoves(c, w, ReturningTo(c, w).workers[w]); }
  }

  /** Tables moved by a statement that leaves alone the holds there are and every
      account row some worker has locked. */
  lemma TablesMove(c: Cluster, db: State)
    requires ClusterInv(c) && Inv(db) && c.db.accounts.Keys <= db.accounts.Keys
    requires |c.db.holds| <= |db.holds| && forall h :: 0 <= h < |c.db.holds| ==> db.holds[h] == c.db.holds[h]
    requires forall h :: |c.db.holds| <= h < |db.holds| ==> db.holds[h].status.Active?
    requires forall a :: a in c.db.accounts && AccountLocked(c, None, a) ==> db.accounts[a] == c.db.accounts[a]
    ensures ClusterInv(c.(db := db))
  {
    hide Inv, ExpiredBy, MovesOf, ReturnedRow, LocksOk;
    var d := c.(db := db);
    forall w | w in d.workers ensures WorkerOk(d.db, d.workers[w]) {
      assert WorkerOk(c.db, c.workers[w]);
      var x := c.workers[w];
      if x.HasReturned? { assert Returning(x, x.row.account) && AccountLocked(c, None, x.row.account); }
    }
    assert LocksOk(d) by { LocksSame(c, d); }
  }

  lemma LocksSame(c: Cluster, d: Cluster)
    requires LocksOk(c) && d.workers == c.workers
    ensures LocksOk(d)
  {
  }

  lemma CommittingKeepsInv(c: Cluster, w: WorkerId)
    requires ClusterInv(c) && w in c.workers && c.workers[w].HasReturned?
    ensures ClusterInv(Committing(c, w))
    ensures Committing(c, w).db == Exec(c.db, c.workers[w].call).state
  {
    hide Inv, Exec, Settlement, LocksOk, ExpiredBy, MovesOf;
    var x := c.workers[w];
    assert WorkerOk(c.db, x);
    SettlementIsAtomic(c.db, x);
    StepKeepsInv(c.db, x.call);
    var d := Committing(c, w);
    if d.db == c.db {
      WorkerMoves(c, w, d.workers[w]);
    } else {
      CommittedHistory(c, d, Move(w, x.call.hold, Target(x.call)));
      CommittedWorkers(c, d, w);
    }
  }

  lemma CommittedHistory(c: Cluster, d: Cluster, m: Move)
    requires HistoryOk(c) && CountsOk(c)
    requires m.hold < |c.db.holds| && c.db.holds[m.hold].status.Active? && !m.status.Active?
    requires |d.db.holds| == |c.db.holds| && d.db.holds[m.hold].status == m.status
    requires forall h :: 0 <= h < |c.db.holds| && h != m.hold ==> d.db.holds[h] == c.db.holds[h]
    requires d.history == c.history + [m] && m.worker in c.workers && c.workers[m.worker].HasReturned?
    requires m.worker in d.workers && d.workers == c.workers[m.worker := d.workers[m.worker]]
    requires var x, y := c.workers[m.worker], d.workers[m.worker];
             && (m.status.Expired? <==> x.sweep.InSweep?)
             && (y.Done? ==> !y.answer.Swept?)
             && (!y.Done? ==> y.Between? && y.sweep.InSweep? && x.sweep.InSweep? && y.sweep.count == x.sweep.count + 1)
    ensures HistoryOk(d) && CountsOk(d)
  {
    AppendMove(c.history, m);
    forall i | 0 <= i < |d.history|
      ensures d.history[i].hold < |d.db.holds| && d.db.holds[d.history[i].hold].status == d.history[i].status
    {
      if i < |c.history| { MoveCounted(c.history, i); }
    }
  }

  /** The other workers when `w` commits: their holds and their locked accounts are not
      the ones it writes. */
  lemma CommittedWorkers(c: Cluster, d: Cluster, w: WorkerId)
    requires WorkersOk(c) && LocksOk(c) && w in c.workers && c.workers[w].HasReturned?
    requires w in d.workers && d.workers == c.workers[w := d.workers[w]]
             && (d.workers[w].Done? || d.workers[w].Between?)
    requires d.workers[w].Between? ==> d.workers[w].sweep.InSweep?
    requires var x := c.workers[w];
             && |d.db.holds| == |c.db.holds| && x.call.hold < |c.db.holds| && d.db.accounts.Keys == c.db.accounts.Keys
             && d.db.holds[x.call.hold].(status := Active) == x.row
             && (forall h :: 0 <= h < |c.db.holds| && h != x.call.hold ==> d.db.holds[h] == c.db.holds[h])
             && (forall a :: a in c.db.accounts && a != x.row.account ==> d.db.accounts[a] == c.db.accounts[a])
    ensures WorkersOk(d) && LocksOk(d)
  {
    hide ReturnedRow;
    var x := c.workers[w];
    assert WorkerOk(c.db, x) && Holding(x, x.call.hold) && Returning(x, x.row.account);
    forall v | v in d.workers ensures WorkerOk(d.db, d.workers[v]) {
      if v != w {
        var y := c.workers[v];
        assert WorkerOk(c.db, y);
        if y.HasWon? || y.HasReturned? { assert Holding(y, y.call.hold); }
        if y.HasReturned? { assert Returning(y, y.row.account); }
      }
    }
    LocksMove(c, w, d.workers[w]);
    LocksSame(c.(workers := d.workers), d);
  }

  lemma {:induction false} MoveCounted(history: seq<Move>, i: nat)
    requires i < |history|
    ensures 1 <= MovesOf(history, history[i].hold)
  {
    if i < |history| - 1 { MoveCounted(history[..|history| - 1], i); }
  }

  /** A call of another kind writes one account row and at most adds an active hold. */
  lemma OtherCallTouchesOne(db: State, c: Command)
    requires !Settles(c)
    ensures var t := Exec(db, c).state;
            && |db.holds| <= |t.holds| && (forall h :: 0 <= h < |db.holds| ==> t.holds[h] == db.holds[h])
            && (forall h :: |db.holds| <= h < |t.holds| ==> t.holds[h].status.Active?)
            && db.accounts.Keys <= t.accounts.Keys
            && (forall a :: a in db.accounts && a != c.account ==> t.accounts[a] == db.accounts[a])
  {
    hide DebitOf, FindEntry, FindHold, RefreshRow;
  }

  lemma RowWriteKeepsInv(db: State, c: Command, seen: Account)
    requires Inv(db) && Writes(c) && c.account in db.accounts && (c.Reset? ==> 0 <= c.target)
    ensures Inv(RowWrite(db, c, seen).state)
  {
    hide FindEntry, Reserved;
    var t := RowWrite(db, c, seen).state;
    if t != db {
      if c.Reset? { LedgerMoveKeepsInv(db, t, c.account); } else { RowChangeKeepsInv(db, t, c.account); }
    }
  }

  lemma WritingKeepsInv(c: Cluster, w: WorkerId)
    requires ClusterInv(c) && WriteEnabled(c, w)
    ensures ClusterInv(Writing(c, w))
  {
    hide Inv, ExpiredBy, MovesOf, LocksOk, HistoryOk, FindEntry, CountsOk;
    var x := c.workers[w];
    assert WorkerOk(c.db, x);
    RowWriteKeepsInv(c.db, x.call, x.seen);
    TablesMove(c, RowWrite(c.db, x.call, x.seen).state);
    WorkerMoves(c.(db := RowWrite(c.db, x.call, x.seen).state), w, Writing(c, w).workers[w]);
  }

  lemma SeeingKeepsInv(c: Cluster, w: WorkerId, call: Command)
    requires ClusterInv(c) && w !in c.workers && Writes(call)
    ensures ClusterInv(Seeing(c, w, call))
  {
    hide Inv, ExpiredBy, MovesOf, LocksOk, HistoryOk, FindEntry, HasActiveHold;
    WorkerMoves(c, w, Seeing(c, w, call).workers[w]);
  }

  lemma OtherKeepsInv(c: Cluster, call: Command)
    requires ClusterInv(c) && OtherEnabled(c, call)
    ensures ClusterInv(c.(db := Exec(c.db, call).state))
  {
    hide Inv, Exec, ExpiredBy, MovesOf, LocksOk, HistoryOk, CountsOk, WorkersOk;
    OtherCallTouchesOne(c.db, call);
    StepKeepsInv(c.db, call);
    TablesMove(c, Exec(c.db, call).state);
  }

  lemma ActKeepsInv(c: Cluster, a: Action)
    requires ClusterInv(c)
    ensures ClusterInv(Act(c, a))
  {
    hide Inv, ExpiredBy, MovesOf, Exec, Settlement, EarlyAnswer, LocksOk, HistoryOk, WorkersOk, Reading, Updating,
         ReturningTo,
         Committing, Seeing, Writing, WriteEnabled, OtherEnabled;
    match a
    case Begin(w, call) =>
      if w !in c.workers && (call.Capture? || call.Release?) { ReadingKeepsInv(c, w, call, NoSweep); }
    case BeginSweep(w, now) =>
      if w !in c.workers { WorkerMoves(c, w, Act(c, a).workers[w]); }
    case NextHold(w) =>
      if w in c.workers && c.workers[w].Between? && c.workers[w].sweep.InSweep? {
        var sweep := c.workers[w].sweep;
        if sweep.rest == [] { WorkerMoves(c, w, Done(Swept(sweep.count))); }
        else { ReadingKeepsInv(c, w, Reclaim(sweep.rest[0], sweep.now), sweep.(rest := sweep.rest[1..])); }
      }
    case Update(w) => if w in c.workers && c.workers[w].HasRead? { UpdatingKeepsInv(c, w); }
    case Return(w) => if w in c.workers && c.workers[w].HasWon? { ReturningKeepsInv(c, w); }
    case Commit(w) => if w in c.workers && c.workers[w].HasReturned? { CommittingKeepsInv(c, w); }
    case BeginWrite(w, call) => if w !in c.workers && Writes(call) { SeeingKeepsInv(c, w, call); }
    case Write(w) => if WriteEnabled(c, w) { WritingKeepsInv(c, w); }
    case Crash(w) => if w in c.workers && !c.workers[w].Done? { WorkerMoves(c, w, Done(Crashed)); }
    case Other(call) => if OtherEnabled(c, call) { OtherKeepsInv(c, call); }
  }

  lemma {:induction false} ScheduleKeepsInv(c: Cluster, actions: seq<Action>)
    requires ClusterInv(c)
    ensures ClusterInv(Schedule(c, actions))
    decreases |actions|
  {
    hide ClusterInv, Act;
    if |actions| > 0 {
      ActKeepsInv(c, actions[0]);
      ScheduleKeepsInv(Act(c, actions[0]), actions[1..]);
    }
  }
}
