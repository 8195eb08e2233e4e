/** What the racing statements of `HoldContention` amount to: one winner per hold, sequential
    runs, and exactly when the unlocked reset and deletion keep the engine's laws. */
module HoldRaces {
  import opened CreditEngine
  import opened CreditInvariants
  import opened CreditConservation
  import opened HoldContention

  // ---------------------------------------------------------------- settlements

  /** For any workers, any schedule and any crashes: no two workers hold one row lock; a
      hold is settled at most once, exactly once if and only if it is no longer active,
      and then in the way its status says; and the committed `held` is the sum over the
      committed active holds. */
  lemma EachHoldSettledOnce(actions: seq<Action>)
    ensures var c := Schedule(START, actions);
            && LocksOk(c)
            && (forall h: nat ::
                h < |c.db.holds| ==> MovesOf(c.history, h) == if c.db.holds[h].status.Active? then 0 else 1)
            && (forall i :: 0 <= i < |c.history| ==>
                  c.history[i].hold < |c.db.holds| && c.db.holds[c.history[i].hold].status == c.history[i].status)
            && (forall a :: a in c.db.accounts ==> c.db.accounts[a].held == Reserved(c.db.holds, a).amount)
  {
    assert ClusterInv(START);
    ScheduleKeepsInv(START, actions);
  }

  /** A finished sweep reports exactly the active-to-expired moves it committed. */
  lemma SweepCountsItsWins(actions: seq<Action>, w: WorkerId)
    ensures var c := Schedule(START, actions);
            w in c.workers && c.workers[w].Done? && c.workers[w].answer.Swept? ==>
              c.workers[w].answer.count == ExpiredBy(c.history, w)
  {
    assert ClusterInv(START);
    ScheduleKeepsInv(START, actions);
  }

  // ---------------------------------------------------------------- the rows as last written

  predicate Returned(c: Cluster, hold: nat) {
    exists w ::
        w in c.workers && c.workers[w].HasReturned? && Settles(c.workers[w].call) && c.workers[w].call.hold == hold
  }

  /** An account's `held` as last written, committed or not. */
  ghost function HeldInPlace(c: Cluster, account: AccountId): int
    requires account in c.db.accounts
  {
    if w :| w in c.workers && Returning(c.workers[w], account) then c.workers[w].returned.held
    else c.db.accounts[account].held
  }

  /** The holds with those struck out that are won and returned; a hold that is won but
      not yet returned still counts as active. */
  ghost function Outstanding(c: Cluster): (holds: seq<Hold>)
    ensures |holds| == |c.db.holds|
  {
    seq(|c.db.holds|, i requires 0 <= i < |c.db.holds| =>
      if Returned(c, i) then c.db.holds[i].(status := Released) else c.db.holds[i])
  }

  lemma {:induction false} SameParts(x: seq<Hold>, y: seq<Hold>, account: AccountId)
    requires |x| == |y| && forall i :: 0 <= i < |x| ==> PartOf(x[i], account) == PartOf(y[i], account)
    ensures Reserved(x, account) == Reserved(y, account)
    decreases |x|
  {
    if |x| > 0 { SameParts(x[..|x| - 1], y[..|y| - 1], account); }
  }

  /** At every moment of every schedule, uncommitted writes included: an account's `held`
      is the sum over its holds that are active or won and not yet returned. */
  lemma HeldIsOutstanding(actions: seq<Action>, account: AccountId)
    ensures var c := Schedule(START, actions);
            account in c.db.accounts ==> HeldInPlace(c, account) == Reserved(Outstanding(c), account).amount
  {
    hide HeldInPlace, Outstanding, Reserved, ClusterInv, Schedule;
    StartsOk();
    ScheduleKeepsInv(START, actions);
    var c := Schedule(START, actions);
    if account in c.db.accounts { OutstandingSum(c, account); }
  }

  lemma StartsOk()
    ensures ClusterInv(START)
  {
  }

  lemma OutstandingSum(c: Cluster, account: AccountId)
    requires ClusterInv(c) && account in c.db.accounts
    ensures HeldInPlace(c, account) == Reserved(Outstanding(c), account).amount
  {
    hide Reserved, HistoryOk, CountsOk, UniqueKeys, ExpiredBy, MovesOf;
    if w :| w in c.workers && Returning(c.workers[w], account) {
      ReturnedOut(c, w, account);
    } else {
      forall i | 0 <= i < |c.db.holds| ensures PartOf(Outstanding(c)[i], account) == PartOf(c.db.holds[i], account) {
        if Returned(c, i) {
          var v :| v in c.workers && c.workers[v].HasReturned? && Settles(c.workers[v].call)
              && c.workers[v].call.hold == i;
          assert WorkerOk(c.db, c.workers[v]) && !Returning(c.workers[v], account);
        }
      }
      SameParts(Outstanding(c), c.db.holds, account);
    }
  }

  lemma ReturnedOut(c: Cluster, w: WorkerId, account: AccountId)
    requires ClusterInv(c) && account in c.db.accounts && w in c.workers && Returning(c.workers[w], account)
    ensures Reserved(Outstanding(c), account).amount == c.workers[w].returned.held
    ensures HeldInPlace(c, account) == c.workers[w].returned.held
  {
    hide Reserved, HistoryOk, CountsOk, UniqueKeys, ExpiredBy, MovesOf;
    var x := c.workers[w];
    assert WorkerOk(c.db, x);
    var h := x.call.hold;
    var settled := c.db.holds[h := c.db.holds[h].(status := Released)];
    forall i | 0 <= i < |c.db.holds| ensures PartOf(Outstanding(c)[i], account) == PartOf(settled[i], account) {
      if Returned(c, i) && i != h {
        var v :| v in c.workers && c.workers[v].HasReturned? && Settles(c.workers[v].call)
            && c.workers[v].call.hold == i;
        assert WorkerOk(c.db, c.workers[v]) && !Returning(c.workers[v], account);
      }
    }
    SameParts(Outstanding(c), settled, account);
    ReservedUpdate(c.db.holds, h, settled[h], account);
    assert x.returned.held == c.db.accounts[account].held - x.row.amount;
  }

  // ---------------------------------------------------------------- sequential runs

  /** Nothing that a reset or deletion read, and its write relies on, has changed: the
      reset's key is new or the row is live, covers no larger hold total and has the
      permanent bucket it had; the deletion's account has no active hold. */
  predicate Undisturbed(db: State, c: Command, seen: Account)
    requires Writes(c) && c.account in db.accounts
  {
    var a := db.accounts[c.account];
    if c.Delete? then a.deleted || !HasActiveHold(db.holds, c.account)
    else
      || FindEntry(db.ledger, c.key).Some?
      || (!a.deleted && a.held <= c.target && a.buckets.permanent == seen.buckets.permanent)
  }

  /** The late write is the atomic call exactly when it was not disturbed. */
  lemma RowWriteIsAtomic(db: State, c: Command, seen: Account)
    requires Writes(c) && c.account in db.accounts && (c.Reset? ==> 0 <= c.target)
    ensures RowWrite(db, c, seen) == Exec(db, c) <==> Undisturbed(db, c, seen)
  {
    hide HasActiveHold;
    var a := db.accounts[c.account];
    if c.Delete? && a.deleted { assert db.accounts == db.accounts[c.account := a.(deleted := true)]; }
    if c.Reset? && FindEntry(db.ledger, c.key).None? {
      var t := RowWrite(db, c, seen).state;
      assert t.ledger[|db.ledger|].amount == c.target - seen.buckets.permanent;
    }
  }

  /** A call that is refused on its reads answers what the atomic call answers there. */
  lemma RefusalIsAtomic(db: State, c: Command)
    requires Writes(c)
    ensures Refusal(db, c).Some? ==> Exec(db, c) == Result(db, Refusal(db, c).value)
  {
    hide HasActiveHold, FindEntry;
  }

  predicate Quiet(c: Cluster, a: Action) {
    a.Write? && WriteEnabled(c, a.w) ==> Undisturbed(c.db, c.workers[a.w].call, c.workers[a.w].seen)
  }

  predicate AllQuiet(c: Cluster, actions: seq<Action>)
    decreases |actions|
  {
    |actions| > 0 ==> Quiet(c, actions[0]) && AllQuiet(Act(c, actions[0]), actions[1..])
  }

  /** The call a statement commits, if any. */
  function Committed(c: Cluster, a: Action): seq<Command> {
    match a
    case Commit(w) => if w in c.workers && c.workers[w].HasReturned? then [c.workers[w].call] else []
    case Write(w) => if WriteEnabled(c, w) then [c.workers[w].call] else []
    case Other(call) => if OtherEnabled(c, call) then [call] else []
    case _ => []
  }

  function CommittedCalls(c: Cluster, actions: seq<Action>): seq<Command>
    decreases |actions|
  {
    if |actions| == 0 then [] else Committed(c, actions[0]) + CommittedCalls(Act(c, actions[0]), actions[1..])
  }

  lemma RunOfOne(s: State, c: Command)
    ensures Run(s, [c]) == Exec(s, c).state
  {
    assert [c][1..] == [] && Run(Exec(s, c).state, []) == Exec(s, c).state;
  }

  lemma StatementIsAtomicOrSilent(c: Cluster, a: Action)
    requires ClusterInv(c) && Quiet(c, a)
    ensures Act(c, a).db == Run(c.db, Committed(c, a))
  {
    hide Inv, Exec, LocksOk, HistoryOk, CountsOk, Run, Undisturbed, Settlement, EarlyAnswer;
    if |Committed(c, a)| == 1 { RunOfOne(c.db, Committed(c, a)[0]); } else { NoCalls(c.db); }
    match a
    case Commit(w) => if w in c.workers && c.workers[w].HasReturned? { CommittingKeepsInv(c, w); }
    case Write(w) =>
      if WriteEnabled(c, w) {
        assert WorkerOk(c.db, c.workers[w]);
        RowWriteIsAtomic(c.db, c.workers[w].call, c.workers[w].seen);
      }
    case _ =>
  }

  lemma NoCalls(s: State)
    ensures Run(s, []) == s
  {
  }

  /** Every interleaving whose late writes are undisturbed is equivalent to running the
      committed calls one at a time, in commit order: every law of the sequential engine
      holds of it. */
  lemma {:induction false} InterleavingIsSequential(c: Cluster, actions: seq<Action>)
    requires ClusterInv(c) && AllQuiet(c, actions)
    ensures Schedule(c, actions).db == Run(c.db, CommittedCalls(c, actions))
    decreases |actions|
  {
    hide ClusterInv, Act, Quiet;
    if |actions| > 0 {
      StatementIsAtomicOrSilent(c, actions[0]);
      ActKeepsInv(c, actions[0]);
      InterleavingIsSequential(Act(c, actions[0]), actions[1..]);
      RunAppend(c.db, Committed(c, actions[0]), CommittedCalls(Act(c, actions[0]), actions[1..]));
    } else {
      NoCalls(c.db);
    }
  }

  // ---------------------------------------------------------------- the ledger under late resets

  /** How far a late reset takes an account's worth away from its ledger: the change of
      its permanent bucket since the reset read it, the other way round. */
  function Drift(c: Cluster, a: Action, account: AccountId): int {
    if a.Write? && WriteEnabled(c, a.w) && c.workers[a.w].call.Reset? && c.workers[a.w].call.account == account
       && FindEntry(c.db.ledger, c.workers[a.w].call.key).None?
    then c.workers[a.w].seen.buckets.permanent - c.db.accounts[account].buckets.permanent
    else 0
  }

  /** What a statement adds by refreshing and destroys by the caps. */
  function Flow(c: Cluster, a: Action, account: AccountId): int {
    var calls := Committed(c, a);
    if |calls| == 1 && !a.Write? then RefreshedBy(c.db, calls[0], account) - ForfeitedBy(c.db, calls[0], account) else 0
  }

  function Sum(c: Cluster, actions: seq<Action>, account: AccountId): int
    decreases |actions|
  {
    if |actions| == 0 then 0
    else Flow(c, actions[0], account) + Drift(c, actions[0], account) + Sum(Act(c, actions[0]), actions[1..], account)
  }

  /** A late write keeps the ledger law exactly when its drift is zero. */
  lemma LateWriteDrifts(db: State, c: Command, seen: Account, account: AccountId)
    requires Writes(c) && c.account in db.accounts
    ensures var t := RowWrite(db, c, seen).state;
            Worth(t, account) - LedgerSum(t.ledger, account) == Worth(db, account) - LedgerSum(db.ledger, account)
            + if c.Reset? && c.account == account && FindEntry(db.ledger, c.key).None?
              then seen.buckets.permanent - db.accounts[account].buckets.permanent else 0
  {
    hide LedgerSum, FindEntry;
    var t := RowWrite(db, c, seen).state;
    if t.ledger != db.ledger { LedgerSumAppend(db.ledger, t.ledger[|db.ledger|], account); }
  }

  lemma StatementConserves(c: Cluster, a: Action, account: AccountId)
    requires ClusterInv(c)
    ensures var d := Act(c, a);
            Worth(d.db, account) - LedgerSum(d.db.ledger, account)
            == Worth(c.db, account) - LedgerSum(c.db.ledger, account) + Flow(c, a, account) + Drift(c, a, account)
  {
    hide Inv, Exec, LocksOk, HistoryOk, CountsOk, WorkersOk, Settlement, EarlyAnswer, LedgerSum, Worth, RowWrite,
         RefreshedBy, ForfeitedBy,
         TimeSpentBy, PermanentWorth;
    match a
    case Commit(w) =>
      if w in c.workers && c.workers[w].HasReturned? {
        CommittingKeepsInv(c, w);
        EveryStepConserves(c.db, c.workers[w].call, account);
      }
    case Write(w) => if WriteEnabled(c, w) { LateWriteDrifts(c.db, c.workers[w].call, c.workers[w].seen, account); }
    case Other(call) => if OtherEnabled(c, call) { EveryStepConserves(c.db, call, account); }
    case _ =>
  }

  /** Conservation over every schedule, late resets included. */
  lemma {:induction false} ScheduleConserves(c: Cluster, actions: seq<Action>, account: AccountId)
    requires ClusterInv(c)
    ensures var d := Schedule(c, actions);
            Worth(d.db, account) - LedgerSum(d.db.ledger, account)
            == Worth(c.db, account) - LedgerSum(c.db.ledger, account) + Sum(c, actions, account)
    decreases |actions|
  {
    hide ClusterInv, Act, Flow, Drift, Worth, LedgerSum;
    if |actions| > 0 {
      StatementConserves(c, actions[0], account);
      ActKeepsInv(c, actions[0]);
      ScheduleConserves(Act(c, actions[0]), actions[1..], account);
    }
  }

  /** From empty tables, with zero allowances: the ledger explains an account's balance
      exactly when the drifts of its late resets cancel out. */
  lemma LedgerExplainsBalanceUnlessDrift(actions: seq<Action>, account: AccountId)
    requires forall i :: 0 <= i < |actions| && actions[i].Other? ==> !GivesAllowances(actions[i].call, account)
    ensures var s := Schedule(START, actions).db;
            account in s.accounts ==>
              (s.accounts[account].buckets.permanent + s.accounts[account].held == LedgerSum(s.ledger, account)
               <==> Drifts(START, actions, account) == 0)
  {
    hide Worth, LedgerSum, Schedule, Act;
    var s := Schedule(START, actions).db;
    assert ClusterInv(START) && NoAllowances(START.db, account);
    ScheduleKeepsInv(START, actions);
    ScheduleConserves(START, actions, account);
    OnlyDrifts(START, actions, account);
    EmptyIsWorthless(account);
    if account in s.accounts { BareWorth(s, account); }
  }

  function Drifts(c: Cluster, actions: seq<Action>, account: AccountId): int
    decreases |actions|
  {
    if |actions| == 0 then 0 else Drift(c, actions[0], account) + Drifts(Act(c, actions[0]), actions[1..], account)
  }

  lemma EmptyIsWorthless(account: AccountId)
    ensures Worth(EMPTY, account) == 0 && LedgerSum(EMPTY.ledger, account) == 0
  {
  }

  lemma BareWorth(s: State, account: AccountId)
    requires Inv(s) && NoAllowances(s, account) && account in s.accounts
    ensures Worth(s, account) == s.accounts[account].buckets.permanent + s.accounts[account].held
  {
    assert ValidAccount(s.accounts[account]);
  }

  lemma StatementWithoutAllowances(c: Cluster, a: Action, account: AccountId)
    requires ClusterInv(c) && NoAllowances(c.db, account) && (a.Other? ==> !GivesAllowances(a.call, account))
    ensures Flow(c, a, account) == 0 && NoAllowances(Act(c, a).db, account)
  {
    hide Inv, Exec, LocksOk, HistoryOk, CountsOk, Settlement, EarlyAnswer, RefreshedBy, ForfeitedBy, FindEntry;
    match a
    case Commit(w) =>
      if w in c.workers && c.workers[w].HasReturned? {
        assert WorkerOk(c.db, c.workers[w]);
        CommittingKeepsInv(c, w);
        StepWithoutAllowances(c.db, c.workers[w].call, account);
      }
    case Other(call) => if OtherEnabled(c, call) { StepWithoutAllowances(c.db, call, account); }
    case _ =>
  }

  lemma {:induction false} OnlyDrifts(c: Cluster, actions: seq<Action>, account: AccountId)
    requires ClusterInv(c) && NoAllowances(c.db, account)
    requires forall i :: 0 <= i < |actions| && actions[i].Other? ==> !GivesAllowances(actions[i].call, account)
    ensures Sum(c, actions, account) == Drifts(c, actions, account) && NoAllowances(Schedule(c, actions).db, account)
    decreases |actions|
  {
    hide ClusterInv, Act, Flow, Drift, NoAllowances, GivesAllowances;
    if |actions| > 0 {
      StatementWithoutAllowances(c, actions[0], account);
      ActKeepsInv(c, actions[0]);
      OnlyDrifts(Act(c, actions[0]), actions[1..], account);
    }
  }

  // ---------------------------------------------------------------- deletions

  /** A deletion writes although its account has an active hold by now. */
  predicate LateDelete(c: Cluster, a: Action) {
    && a.Write? && WriteEnabled(c, a.w) && c.workers[a.w].call.Delete?
    && HasActiveHold(c.db.holds, c.workers[a.w].call.account)
  }

  lemma RowWriteOnDeletion(db: State, c: Command, seen: Account)
    requires Writes(c) && c.account in db.accounts && DeletedIdle(db)
    ensures DeletedIdle(RowWrite(db, c, seen).state) <==> !(c.Delete? && HasActiveHold(db.holds, c.account))
  {
    hide HasActiveHold, FindEntry;
    var t := RowWrite(db, c, seen).state;
    assert t.holds == db.holds && c.account in t.accounts;
  }

  /** One statement puts an active hold on a deleted account exactly when it is such a
      deletion. */
  lemma StatementOnDeletion(c: Cluster, a: Action)
    requires ClusterInv(c) && DeletedIdle(c.db)
    ensures DeletedIdle(Act(c, a).db) <==> !LateDelete(c, a)
  {
    hide Inv, Exec, LocksOk, HistoryOk, CountsOk, WorkersOk, Settlement, EarlyAnswer, HasActiveHold, DeletedIdle,
         RowWrite;
    match a
    case Commit(w) =>
      if w in c.workers && c.workers[w].HasReturned? {
        CommittingKeepsInv(c, w);
        StepKeepsIdle(c.db, c.workers[w].call);
      }
    case Write(w) => if WriteEnabled(c, w) { RowWriteOnDeletion(c.db, c.workers[w].call, c.workers[w].seen); }
    case Other(call) => if OtherEnabled(c, call) { StepKeepsIdle(c.db, call); }
    case _ =>
  }

  ghost predicate AlwaysIdle(c: Cluster, actions: seq<Action>)
    decreases |actions|
  {
    DeletedIdle(c.db) && (|actions| > 0 ==> AlwaysIdle(Act(c, actions[0]), actions[1..]))
  }

  predicate NoLateDelete(c: Cluster, actions: seq<Action>)
    decreases |actions|
  {
    |actions| > 0 ==> !LateDelete(c, actions[0]) && NoLateDelete(Act(c, actions[0]), actions[1..])
  }

  /** A deleted account holds nothing throughout a schedule exactly when no hold was placed
      between the count and the write of a deletion. */
  lemma {:induction false} DeletedIdleUnlessLate(c: Cluster, actions: seq<Action>)
    requires ClusterInv(c) && DeletedIdle(c.db)
    ensures AlwaysIdle(c, actions) <==> NoLateDelete(c, actions)
    decreases |actions|
  {
    hide ClusterInv, Act, LateDelete, DeletedIdle;
    if |actions| > 0 {
      StatementOnDeletion(c, actions[0]);
      ActKeepsInv(c, actions[0]);
      if DeletedIdle(Act(c, actions[0]).db) { DeletedIdleUnlessLate(Act(c, actions[0]), actions[1..]); }
    }
  }
}
