/** That calls get through: a call nobody blocks ends with the answer and the tables of
    the atomic call, a sweep nobody blocks expires every overdue hold, and among any
    workers there is always one that can go on. */
module HoldProgress {
  import opened Options
  import opened CreditEngine
  import opened CreditInvariants
  import opened HoldContention
  import opened HoldRaces

  /** Nobody but `w` is between winning a hold and committing its settlement. */
  ghost predicate Unblocked(c: Cluster, w: WorkerId) {
    forall v :: v in c.workers && v != w ==> !c.workers[v].HasWon? && !c.workers[v].HasReturned?
  }

  lemma NoLocks(c: Cluster, w: WorkerId, hold: nat, account: AccountId)
    requires Unblocked(c, w)
    ensures !RowLocked(c, w, hold) && !AccountLocked(c, Some(w), account)
    ensures (w in c.workers ==> !c.workers[w].HasReturned?) ==> !AccountLocked(c, None, account)
  {
  }

  // ---------------------------------------------------------------- one settlement

  /** The three statements after the opening reads. */
  function Settling3(w: WorkerId): seq<Action> { [Update(w), Return(w), Commit(w)] }

  lemma ThreeActs(c: Cluster, w: WorkerId)
    ensures Schedule(c, Settling3(w)) == Act(Act(Act(c, Update(w)), Return(w)), Commit(w))
  {
    hide Act;
    var a := Settling3(w);
    assert a[1..] == [Return(w), Commit(w)] && a[1..][1..] == [Commit(w)] && a[1..][1..][1..] == [];
    var c1 := Act(c, a[0]);
    var c2 := Act(c1, Return(w));
    assert Schedule(c1, a[1..]) == Schedule(c2, [Commit(w)]);
    assert Schedule(c2, [Commit(w)]) == Schedule(Act(c2, Commit(w)), []);
  }

  /** A worker that is not inside a settlement makes none of the three. */
  lemma Passed(c: Cluster, w: WorkerId)
    requires w in c.workers && (c.workers[w].Done? || c.workers[w].Between?)
    ensures Schedule(c, Settling3(w)) == c
  {
    ThreeActs(c, w);
  }

  /** A settlement that has read its hold, with nobody in its way, is the atomic call. */
  lemma SettlementGetsThrough(c: Cluster, w: WorkerId)
    requires ClusterInv(c) && w in c.workers && c.workers[w].HasRead? && Unblocked(c, w)
    requires c.db.holds[c.workers[w].call.hold].status.Active?
    ensures var d, x := Schedule(c, Settling3(w)), c.workers[w];
            && d.db == Exec(c.db, x.call).state
            && d.workers == c.workers[w := Finish(Exec(c.db, x.call).out, x.sweep)]
  {
    hide Inv, Exec, Settlement, LocksOk, HistoryOk, CountsOk, ReturnedRow, Unblocked, RowLocked, AccountLocked;
    var x := c.workers[w];
    assert WorkerOk(c.db, x);
    ThreeActs(c, w);
    NoLocks(c, w, x.call.hold, x.row.account);
    ActKeepsInv(c, Update(w));
    var c1 := Act(c, Update(w));
    assert c1.workers[w] == HasWon(x.call, x.row, x.sweep);
    ActKeepsInv(c1, Return(w));
    SameOthers(c, c1, w);
    NoLocks(c1, w, x.call.hold, x.row.account);
    var c2 := Act(c1, Return(w));
    assert c2.workers[w].HasReturned? && WorkerOk(c2.db, c2.workers[w]);
    SettlementIsAtomic(c2.db, c2.workers[w]);
    assert c2.workers[w := Finish(Exec(c.db, x.call).out, x.sweep)]
        == c.workers[w := Finish(Exec(c.db, x.call).out, x.sweep)];
  }

  lemma SameOthers(c: Cluster, d: Cluster, w: WorkerId)
    requires Unblocked(c, w) && w in d.workers && d.workers == c.workers[w := d.workers[w]]
    ensures Unblocked(d, w)
  {
  }

  lemma BeginReads(c: Cluster, w: WorkerId, call: Command)
    requires w !in c.workers && (call.Capture? || call.Release?)
    ensures Act(c, Begin(w, call)) == Reading(c, w, call, NoSweep)
  {
  }

  /** A capture or release with nobody in its way is the atomic call. */
  lemma LoneCallIsAtomic(c: Cluster, w: WorkerId, call: Command)
    requires ClusterInv(c) && w !in c.workers && Unblocked(c, w) && (call.Capture? || call.Release?)
    ensures var d := Schedule(c, [Begin(w, call)] + Settling3(w));
            && d.db == Exec(c.db, call).state
            && d.workers == c.workers[w := Done(Answered(Exec(c.db, call).out))]
  {
    hide Inv, Exec, EarlyAnswer, LocksOk, HistoryOk, CountsOk, WorkersOk, Act, Settling3, Schedule;
    OneThen(c, Begin(w, call), Settling3(w));
    BeginReads(c, w, call);
    ActKeepsInv(c, Begin(w, call));
    EarlyAnswerIsAtomic(c.db, call);
    var c1 := Reading(c, w, call, NoSweep);
    SameOthers(c, c1, w);
    if EarlyAnswer(c.db, call).Some? {
      Passed(c1, w);
    } else {
      SettlementGetsThrough(c1, w);
      assert c1.workers[w := Finish(Exec(c.db, call).out, NoSweep)]
          == c.workers[w := Finish(Exec(c.db, call).out, NoSweep)];
    }
  }

  lemma OneThen(c: Cluster, a: Action, rest: seq<Action>)
    ensures Schedule(c, [a] + rest) == Schedule(Act(c, a), rest)
  {
    hide Act;
    assert ([a] + rest)[1..] == rest;
  }

  lemma {:induction false} ScheduleAppend(c: Cluster, xs: seq<Action>, ys: seq<Action>)
    ensures Schedule(c, xs + ys) == Schedule(Schedule(c, xs), ys)
    decreases |xs|
  {
    hide Act;
    if |xs| == 0 {
      assert xs + ys == ys;
    } else {
      assert (xs + ys)[1..] == xs[1..] + ys;
      ScheduleAppend(Act(c, xs[0]), xs[1..], ys);
    }
  }

  /** A reset or deletion with nobody in its way is the atomic call. */
  lemma LoneWriteIsAtomic(c: Cluster, w: WorkerId, call: Command)
    requires ClusterInv(c) && w !in c.workers && Unblocked(c, w) && Writes(call)
    ensures var d := Schedule(c, [BeginWrite(w, call)] + [Write(w)]);
            && d.db == Exec(c.db, call).state
            && d.workers == c.workers[w := Done(Answered(Exec(c.db, call).out))]
  {
    hide Inv, Exec, LocksOk, HistoryOk, CountsOk, WorkersOk, RowWrite, Undisturbed, AccountLocked, Unblocked;
    OneThen(c, BeginWrite(w, call), [Write(w)]);
    var c1 := Act(c, BeginWrite(w, call));
    OneThen(c1, Write(w), []);
    assert [Write(w)] + [] == [Write(w)];
    RefusalIsAtomic(c.db, call);
    if Refusal(c.db, call).None? {
      SameOthers(c, c1, w);
      NoLocks(c1, w, 0, call.account);
      SeenIsCurrent(c.db, call);
      RowWriteIsAtomic(c.db, call, c.db.accounts[call.account]);
    }
  }

  /** Every other call is one statement; it goes through unless a settlement has its account
      row locked. */
  lemma OtherCallIsAtomic(c: Cluster, call: Command)
    requires !Settles(call) && !Writes(call)
    requires forall v :: v in c.workers && c.workers[v].HasReturned? ==> c.workers[v].row.account != call.account
    ensures Act(c, Other(call)) == c.(db := Exec(c.db, call).state)
  {
    hide Exec;
  }

  lemma SeenIsCurrent(db: State, call: Command)
    requires Writes(call) && Refusal(db, call).None?
    ensures call.account in db.accounts && Undisturbed(db, call, db.accounts[call.account])
    ensures call.Reset? ==> 0 <= call.target
  {
  }

  // ---------------------------------------------------------------- a whole sweep

  /** The statements of a sweep over `n` collected holds. */
  function Sweeping(w: WorkerId, n: nat): seq<Action> {
    if n == 0 then [NextHold(w)] else [NextHold(w)] + (Settling3(w) + Sweeping(w, n - 1))
  }

  ghost predicate AllOverdue(holds: seq<Hold>, ids: seq<nat>, now: nat) {
    && (forall j :: 0 <= j < |ids| ==> ids[j] < |holds| && Overdue(holds[ids[j]], now))
    && (forall j, k :: 0 <= j < k < |ids| ==> ids[j] < ids[k])
  }

  lemma NextReads(c: Cluster, w: WorkerId)
    requires w in c.workers && c.workers[w].Between? && c.workers[w].sweep.InSweep?
    ensures var sweep := c.workers[w].sweep;
            Act(c, NextHold(w))
            == if sweep.rest == [] then c.(workers := c.workers[w := Done(Swept(sweep.count))])
               else Reading(c, w, Reclaim(sweep.rest[0], sweep.now), sweep.(rest := sweep.rest[1..]))
  {
  }

  /** One reclaimed hold leaves the later ones overdue. */
  lemma OneReclaimed(db: State, ids: seq<nat>, now: nat)
    requires Inv(db) && |ids| > 0 && AllOverdue(db.holds, ids, now)
    ensures var r := Exec(db, Reclaim(ids[0], now));
            && r.out == Reclaimed(true) && Inv(r.state)
            && r.state.holds == db.holds[ids[0] := db.holds[ids[0]].(status := Expired)]
            && AllOverdue(r.state.holds, ids[1..], now)
  {
    hide ReturnToBuckets, Reserved;
    StepKeepsInv(db, Reclaim(ids[0], now));
    assert ValidHold(db, db.holds[ids[0]]);
  }

  lemma {:induction false} SweepGetsThrough(c: Cluster, w: WorkerId, ids: seq<nat>)
    requires ClusterInv(c) && w in c.workers && Unblocked(c, w) && c.workers[w].Between?
    requires c.workers[w].sweep.InSweep? && c.workers[w].sweep.rest == ids
    requires AllOverdue(c.db.holds, ids, c.workers[w].sweep.now)
    ensures var d, x := Schedule(c, Sweeping(w, |ids|)), c.workers[w].sweep;
            && d.db == Run(c.db, ReclaimAll(ids, x.now))
            && d.workers == c.workers[w := Done(Swept(x.count + |ids|))]
    decreases |ids|
  {
    hide Inv, Exec, EarlyAnswer, LocksOk, HistoryOk, CountsOk, WorkersOk, Act, Settling3, Schedule, Unblocked,
         AllOverdue, Run, ReclaimAll;
    var x := c.workers[w].sweep;
    NextReads(c, w);
    if ids == [] {
      OneThen(c, NextHold(w), []);
      assert [NextHold(w)] + [] == [NextHold(w)];
      NothingLeft(Act(c, NextHold(w)));
      ReclaimNone(c.db, x.now);
    } else {
      var call, rest := Reclaim(ids[0], x.now), x.(rest := ids[1..]);
      var more := Sweeping(w, |ids| - 1);
      OneThen(c, NextHold(w), Settling3(w) + more);
      var c1 := Act(c, NextHold(w));
      ActKeepsInv(c, NextHold(w));
      ScheduleAppend(c1, Settling3(w), more);
      FirstIsRead(c.db, ids, x.now);
      SameOthers(c, c1, w);
      SettlementGetsThrough(c1, w);
      ScheduleKeepsCluster(c1, Settling3(w));
      var c2 := Schedule(c1, Settling3(w));
      OneReclaimed(c.db, ids, x.now);
      SameOthers(c1, c2, w);
      SweepGetsThrough(c2, w, ids[1..]);
      FirstThenRest(c.db, ids, x.now);
      var end := Done(Swept(x.count + |ids|));
      assert c2.workers[w := end] == c.workers[w := end];
    }
  }

  lemma NothingLeft(c: Cluster)
    ensures Schedule(c, []) == c
  {
  }

  lemma FirstIsRead(db: State, ids: seq<nat>, now: nat)
    requires |ids| > 0 && AllOverdue(db.holds, ids, now)
    ensures EarlyAnswer(db, Reclaim(ids[0], now)).None? && ids[0] < |db.holds| && db.holds[ids[0]].status.Active?
  {
  }

  lemma FirstThenRest(db: State, ids: seq<nat>, now: nat)
    requires |ids| > 0
    ensures Run(db, ReclaimAll(ids, now)) == Run(Exec(db, Reclaim(ids[0], now)).state, ReclaimAll(ids[1..], now))
  {
    hide Exec;
    assert ReclaimAll(ids, now)[1..] == ReclaimAll(ids[1..], now);
  }

  lemma {:induction false} ScheduleKeepsCluster(c: Cluster, actions: seq<Action>)
    requires ClusterInv(c)
    ensures ClusterInv(Schedule(c, actions))
    decreases |actions|
  {
    hide ClusterInv, Act;
    if |actions| > 0 {
      ActKeepsInv(c, actions[0]);
      ScheduleKeepsCluster(Act(c, actions[0]), actions[1..]);
    }
  }

  /** A sweep with nobody in its way expires every hold that was overdue, one
      transaction each, and reports their number. */
  lemma LoneSweepExpiresAll(c: Cluster, w: WorkerId, now: nat)
    requires ClusterInv(c) && w !in c.workers && Unblocked(c, w)
    ensures var ids := OverdueIds(c.db.holds, now, |c.db.holds|);
            var d := Schedule(c, [BeginSweep(w, now)] + Sweeping(w, |ids|));
            && d.db == Run(c.db, ReclaimAll(ids, now))
            && d.workers == c.workers[w := Done(Swept(|ids|))]
            && |d.db.holds| == |c.db.holds|
            && forall i :: 0 <= i < |c.db.holds| ==>
                 d.db.holds[i] == if Overdue(c.db.holds[i], now) then c.db.holds[i].(status := Expired)
                                  else c.db.holds[i]
  {
    hide Inv, LocksOk, HistoryOk, CountsOk, WorkersOk, Schedule, Unblocked, Run, ReclaimAll, OverdueIds;
    var ids := OverdueIds(c.db.holds, now, |c.db.holds|);
    OneThen(c, BeginSweep(w, now), Sweeping(w, |ids|));
    var c1 := Act(c, BeginSweep(w, now));
    ActKeepsInv(c, BeginSweep(w, now));
    SameOthers(c, c1, w);
    assert AllOverdue(c.db.holds, ids, now);
    SweepGetsThrough(c1, w, ids);
    var end := Done(Swept(|ids|));
    assert c1.workers[w := end] == c.workers[w := end];
    AllReclaimed(c.db, ids, now);
  }

  lemma {:induction false} AllReclaimed(db: State, ids: seq<nat>, now: nat)
    requires Inv(db) && AllOverdue(db.holds, ids, now)
    ensures var holds := Run(db, ReclaimAll(ids, now)).holds;
            && |holds| == |db.holds|
            && forall i :: 0 <= i < |holds| ==>
                 holds[i] == if i in ids then db.holds[i].(status := Expired) else db.holds[i]
    decreases |ids|
  {
    hide Inv, Exec, Run, ReclaimAll;
    if ids == [] {
      ReclaimNone(db, now);
    } else {
      OneReclaimed(db, ids, now);
      FirstThenRest(db, ids, now);
      AllReclaimed(Exec(db, Reclaim(ids[0], now)).state, ids[1..], now);
    }
  }

  // ---------------------------------------------------------------- no deadlock

  /** The action moves some worker on, and not by a crash. */
  predicate CanMove(c: Cluster, a: Action) { !a.Crash? && Act(c, a).workers != c.workers }

  /** However the statements of any workers interleaved so far: as long as one of them has
      not ended, one of them can make its next statement. Hold rows are always locked before
      account rows, and who has written an account row can commit. */
  lemma NoDeadlock(c: Cluster, w: WorkerId)
    requires ClusterInv(c) && w in c.workers && !c.workers[w].Done?
    ensures exists v :: v in c.workers && !c.workers[v].Done?
                        && (CanMove(c, NextHold(v)) || CanMove(c, Update(v)) || CanMove(c, Return(v))
                            || CanMove(c, Commit(v)) || CanMove(c, Write(v)))
  {
    hide Inv, LocksOk, HistoryOk, CountsOk, Exec, EarlyAnswer, Settlement, ReturnedRow, RowWrite, CanMove;
    assert WorkerOk(c.db, c.workers[w]);
    if v :| v in c.workers && c.workers[v].HasReturned? {
      Commits(c, v);
    } else if v :| v in c.workers && c.workers[v].HasWon? {
      Returns(c, v);
    } else {
      Goes(c, w);
    }
  }

  lemma Commits(c: Cluster, v: WorkerId)
    requires ClusterInv(c) && v in c.workers && c.workers[v].HasReturned?
    ensures CanMove(c, Commit(v))
  {
    hide Inv, LocksOk, HistoryOk, CountsOk, Settlement, ReturnedRow;
    assert WorkerOk(c.db, c.workers[v]);
    assert !Committing(c, v).workers[v].HasReturned?;
  }

  lemma Returns(c: Cluster, v: WorkerId)
    requires ClusterInv(c) && v in c.workers && c.workers[v].HasWon?
    requires forall u :: u in c.workers ==> !c.workers[u].HasReturned?
    ensures CanMove(c, Return(v))
  {
    hide Inv, LocksOk, HistoryOk, CountsOk, ReturnedRow;
    assert WorkerOk(c.db, c.workers[v]);
    assert !ReturningTo(c, v).workers[v].HasWon?;
  }

  lemma Goes(c: Cluster, w: WorkerId)
    requires ClusterInv(c) && w in c.workers && !c.workers[w].Done?
    requires forall u :: u in c.workers ==> !c.workers[u].HasReturned? && !c.workers[u].HasWon?
    ensures CanMove(c, NextHold(w)) || CanMove(c, Update(w)) || CanMove(c, Write(w))
  {
    hide Inv, LocksOk, HistoryOk, CountsOk, EarlyAnswer, RowWrite;
    var x := c.workers[w];
    assert WorkerOk(c.db, x);
    if x.Between? {
      assert Act(c, NextHold(w)).workers[w] != x;
    } else if x.HasRead? {
      assert Act(c, Update(w)).workers[w] != x;
    } else {
      assert Act(c, Write(w)).workers[w] != x;
    }
  }
}
