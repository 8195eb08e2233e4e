/** The overlapping calls that do differ from a sequential run, each as a schedule. */
module HoldRaceInputs {
  import opened Options
  import opened CreditBuckets
  import opened ResetBoundary
  import opened CreditEngine
  import opened CreditInvariants
  import opened HoldContention

  lemma {:induction false} ScheduleStep(c: Cluster, a: Action, rest: seq<Action>)
    ensures Schedule(c, [a] + rest) == Schedule(Act(c, a), rest)
  {
    hide Act;
    assert ([a] + rest)[1..] == rest;
  }

  lemma FiveSteps(c: Cluster, a1: Action, a2: Action, a3: Action, a4: Action, a5: Action)
    ensures Schedule(c, [a1, a2, a3, a4, a5]) == Act(Act(Act(Act(Act(c, a1), a2), a3), a4), a5)
  {
    hide Act, Schedule;
    assert [a1, a2, a3, a4, a5] == [a1] + ([a2] + ([a3] + ([a4] + ([a5] + []))));
    ScheduleStep(c, a1, [a2] + ([a3] + ([a4] + ([a5] + []))));
    var c1 := Act(c, a1);
    ScheduleStep(c1, a2, [a3] + ([a4] + ([a5] + [])));
    var c2 := Act(c1, a2);
    ScheduleStep(c2, a3, [a4] + ([a5] + []));
    var c3 := Act(c2, a3);
    ScheduleStep(c3, a4, [a5] + []);
    ScheduleStep(Act(c3, a4), a5, []);
    ScheduleEnd(Act(Act(c3, a4), a5));
  }

  lemma ScheduleEnd(c: Cluster)
    ensures Schedule(c, []) == c
  {
  }

  // ---------------------------------------------------------------- one call twice at once

  /** Two workers have read the hold as active; the first has won it and returned it. */
  function Racing(db: State, call: Command, row: Hold): Cluster
    requires row.account in db.accounts
  {
    Cluster(db,
            map[1 := HasReturned(call, row, NoSweep, ReturnedRow(db.accounts[row.account], call, row)),
                2 := HasRead(call, row, NoSweep)], [])
  }

  lemma BothRead(db: State, call: Command, row: Hold)
    requires (call.Capture? || call.Release?) && EarlyAnswer(db, call).None? && call.hold < |db.holds|
    requires db.holds[call.hold] == row && row.status.Active? && row.account in db.accounts
    ensures var c0 := Cluster(db, map[], []);
            Act(Act(Act(Act(c0, Begin(1, call)), Begin(2, call)), Update(1)), Return(1)) == Racing(db, call, row)
  {
    hide EarlyAnswer, ReturnedRow;
    var read, won := HasRead(call, row, NoSweep), HasWon(call, row, NoSweep);
    var c1 := Act(Cluster(db, map[], []), Begin(1, call));
    assert c1 == Cluster(db, map[1 := read], []);
    var c2 := Act(c1, Begin(2, call));
    assert c2 == Cluster(db, map[1 := read, 2 := read], []);
    assert !RowLocked(c2, 1, call.hold);
    var c3 := Act(c2, Update(1));
    assert c3 == Cluster(db, map[1 := won, 2 := read], []);
    assert !AccountLocked(c3, Some(1), row.account);
    assert c3.workers[1 := Racing(db, call, row).workers[1]] == Racing(db, call, row).workers;
  }

  lemma FirstCommits(db: State, call: Command, row: Hold)
    requires Inv(db) && (call.Capture? || call.Release?) && EarlyAnswer(db, call).None? && call.hold < |db.holds|
    requires db.holds[call.hold] == row && row.status.Active? && row.account in db.accounts
    ensures var c := Act(Racing(db, call, row), Commit(1));
            var r := Exec(db, call);
            && c.db == r.state && c.workers == map[1 := Done(Answered(r.out)), 2 := HasRead(call, row, NoSweep)]
            && call.hold < |r.state.holds| && !r.state.holds[call.hold].status.Active?
            && r.out == (if call.Capture? then Mutation(|db.ledger|) else HoldRow(call.hold))
            && Exec(r.state, call) == Result(r.state, r.out)
  {
    hide Exec, Settlement, ReturnedRow, EarlyAnswer, Inv;
    SettledThenRepeated(db, call, row);
    var x := Racing(db, call, row).workers[1];
    SettlementIsAtomic(db, x) by { WonByOne(db, call, row); }
  }

  lemma WonByOne(db: State, call: Command, row: Hold)
    requires Inv(db) && (call.Capture? || call.Release?) && EarlyAnswer(db, call).None? && call.hold < |db.holds|
    requires db.holds[call.hold] == row && row.status.Active? && row.account in db.accounts
    ensures WorkerOk(db, Racing(db, call, row).workers[1])
  {
    hide Reserved, ReturnToBuckets, DebitOf;
    assert ValidHold(db, row);
  }

  lemma SettledThenRepeated(db: State, call: Command, row: Hold)
    requires Inv(db) && (call.Capture? || call.Release?) && EarlyAnswer(db, call).None? && call.hold < |db.holds|
    requires db.holds[call.hold] == row && row.status.Active? && row.account in db.accounts
    ensures var r := Exec(db, call);
            && call.hold < |r.state.holds| && !r.state.holds[call.hold].status.Active?
            && r.out == (if call.Capture? then Mutation(|db.ledger|) else HoldRow(call.hold))
            && Exec(r.state, call) == Result(r.state, r.out)
  {
    hide DebitOf, ReturnToBuckets, Reserved, FindEntry, FindHold, ExecEnsure, ExecGrant, ExecSpend, ExecReset,
         ExecPlaceHold, ExecRefresh, ExecReclaim, ExecDelete, ExecRestore;
    assert ValidHold(db, row);
    if call.Capture? {
      assert UsageKey(call.key) !in db.usages;
      FindEntryAppend(db.ledger, Exec(db, call).state.ledger[|db.ledger|], call.key);
    }
  }

  lemma SecondLoses(c: Cluster, call: Command, row: Hold)
    requires (call.Capture? || call.Release?) && call.hold < |c.db.holds| && !c.db.holds[call.hold].status.Active?
             && row.status.Active?
    requires 1 in c.workers && c.workers[1].Done?
             && c.workers == map[1 := c.workers[1], 2 := HasRead(call, row, NoSweep)]
    ensures var d := Act(c, Update(2));
            d.db == c.db && d.workers == map[1 := c.workers[1], 2 := Done(Answered(Failed(HoldNotActive)))]
  {
  }

  /** Both exceptions are real: of two overlapping captures with one key, and of two
      overlapping releases, of any active hold in any reachable tables, the second is
      refused, though in sequence it would be answered like the first. */
  lemma OverlappingRepeatIsRefused(db: State, call: Command)
    requires Inv(db) && (call.Capture? || call.Release?) && EarlyAnswer(db, call).None?
    ensures var c :=
            Schedule(Cluster(db, map[], []), [Begin(1, call), Begin(2, call), Update(1), Return(1), Commit(1)]);
            var d := Act(c, Update(2));
            && 1 in d.workers && d.workers[1] == Done(Answered(Exec(db, call).out))
            && Exec(db, call).out.Failed? == false
            && 2 in d.workers && d.workers[2] == Done(Answered(Failed(HoldNotActive)))
            && Exec(d.db, call) == Result(d.db, Exec(db, call).out)
  {
    hide Act, Exec, Schedule, EarlyAnswer;
    EarlyAnswerIsAtomic(db, call);
    var row := db.holds[call.hold];
    assert ValidHold(db, row);
    BothRead(db, call, row);
    FirstCommits(db, call, row);
    SecondLoses(Act(Racing(db, call, row), Commit(1)), call, row);
    FiveSteps(Cluster(db, map[], []), Begin(1, call), Begin(2, call), Update(1), Return(1), Commit(1));
  }

  // ---------------------------------------------------------------- a hold inside a reset or deletion

  /** An account without allowances that was granted 100 at time 0. */
  function Funded(account: AccountId, key: Key): State {
    State(map[account := Account(Buckets(0, 0, 100), 0, None, None, Allowances(0, 0), true, false)], [],
          [Entry(account, 100, 100, ManualAdjustment, key, 0)], map[])
  }

  function Opening(account: AccountId): Action { Other(Ensure(account, Allowances(0, 0))) }

  function Granting(account: AccountId, key: Key): Action { Other(Grant(account, 100, ManualAdjustment, key, 0)) }

  function Holding60(account: AccountId, key: Key): Command { PlaceHold(account, 60, key, None, 0) }

  lemma FundingWorks(account: AccountId, key: Key)
    ensures Act(Act(START, Opening(account)), Granting(account, key)) == Cluster(Funded(account, key), map[], [])
  {
    var c := Act(START, Opening(account));
    assert c.db
        == State(map[account := Account(Buckets(0, 0, 0), 0, None, None, Allowances(0, 0), true, false)], [], [],
                 map[]);
    var d := Act(c, Granting(account, key));
    assert d.db.accounts == Funded(account, key).accounts;
  }

  /** 60 of the 100 are held while worker 1 is about to write. */
  lemma HoldGoesBetween(account: AccountId, granted: Key, call: Command, held: Key)
    requires Writes(call) && call.account == account && Refusal(Funded(account, granted), call).None?
    ensures var db := Funded(account, granted);
            var c := Act(Act(Cluster(db, map[], []), BeginWrite(1, call)), Other(Holding60(account, held)));
            && c.workers == map[1 := HasSeen(call, db.accounts[account])] && c.db.ledger == db.ledger
            && c.db.accounts.Keys == {account}
            && c.db.accounts[account].buckets == Buckets(0, 0, 40) && c.db.accounts[account].held == 60
            && c.db.holds == [Hold(account, 60, Buckets(0, 0, 60), Active, held, None)]
  {
    hide Exec, Refusal;
    var db := Funded(account, granted);
    var c := Act(Cluster(db, map[], []), BeginWrite(1, call));
    assert c == Cluster(db, map[1 := HasSeen(call, db.accounts[account])], []);
    assert !AccountLocked(c, None, account);
    HoldTakes60(account, granted, held);
  }

  lemma HoldTakes60(account: AccountId, granted: Key, held: Key)
    ensures var db := Funded(account, granted);
            var t := Exec(db, Holding60(account, held)).state;
            && t.ledger == db.ledger && t.accounts.Keys == {account}
            && t.accounts[account].buckets == Buckets(0, 0, 40) && t.accounts[account].held == 60
            && t.holds == [Hold(account, 60, Buckets(0, 0, 60), Active, held, None)]
  {
    hide RefreshRow, DebitOf, Exec;
    var db := Funded(account, granted);
    assert FindHold([], held).None?;
    HoldTakes(db, account, 60, held, 0);
  }

  lemma HoldTakes(db: State, account: AccountId, amount: int, key: Key, now: nat)
    requires account in db.accounts && FindHold(db.holds, key).None?
             && 0 < amount <= db.accounts[account].buckets.permanent
    requires var a := db.accounts[account];
             a.allow == Allowances(0, 0) && a.buckets.daily == 0 && a.buckets.period == 0 && a.active && !a.deleted
    ensures var a := db.accounts[account];
            var t := Exec(db, PlaceHold(account, amount, key, None, now)).state;
            && t.ledger == db.ledger && t.accounts.Keys == db.accounts.Keys
            && t.accounts[account].buckets == Buckets(0, 0, a.buckets.permanent - amount)
            && t.accounts[account].held == a.held + amount
            && t.holds == db.holds + [Hold(account, amount, Buckets(0, 0, amount), Active, key, None)]
  {
    hide RefreshRow, FindHold;
    var a := RefreshRow(db.accounts[account], now);
    BareRefresh(db.accounts[account], now);
    assert DebitOf(a.buckets, amount) == Debit(Buckets(0, 0, amount), 0);
  }

  /** Without allowances a refresh moves the watermarks only. */
  lemma BareRefresh(a: Account, now: nat)
    requires a.allow == Allowances(0, 0) && a.buckets.daily == 0 && a.buckets.period == 0
    ensures var b := RefreshRow(a, now);
            b.buckets == a.buckets && b.held == a.held && b.active == a.active && b.deleted == a.deleted
            && b.allow == a.allow
  {
    hide DailyBoundary, PeriodBoundary;
  }

  /** A reset to 50 reads a balance of 100, a hold takes 60, the reset writes: the ledger
      sums to 50 while 110 are there. */
  lemma ResetAroundHold(account: AccountId, granted: Key, key: Key, held: Key)
    requires granted != key
    ensures var reset := Reset(account, 50, ManualAdjustment, key, 0);
            var c :=
                Schedule(START,
                         [Opening(account), Granting(account, granted), BeginWrite(1, reset),
                          Other(Holding60(account, held)), Write(1)]);
            && account in c.db.accounts && c.db.accounts[account].buckets.permanent + c.db.accounts[account].held == 110
            && LedgerSum(c.db.ledger, account) == 50
  {
    hide Schedule, Act;
    var reset := Reset(account, 50, ManualAdjustment, key, 0);
    var db := Funded(account, granted);
    FundingWorks(account, granted);
    NotYetPosted(account, granted, key);
    HoldGoesBetween(account, granted, reset, held);
    var c := Act(Act(Cluster(db, map[], []), BeginWrite(1, reset)), Other(Holding60(account, held)));
    FiveSteps(START, Opening(account), Granting(account, granted), BeginWrite(1, reset),
              Other(Holding60(account, held)), Write(1));
    ResetWrites(c, account, granted, reset);
  }

  lemma NotYetPosted(account: AccountId, granted: Key, key: Key)
    requires granted != key
    ensures FindEntry(Funded(account, granted).ledger, key).None?
  {
    assert Funded(account, granted).ledger[..0] == [];
  }

  lemma ResetWrites(c: Cluster, account: AccountId, granted: Key, reset: Command)
    requires reset.Reset? && reset.account == account && reset.target == 50 && FindEntry(c.db.ledger, reset.key).None?
    requires account in c.db.accounts && c.db.ledger == Funded(account, granted).ledger
             && c.db.accounts[account].held == 60
    requires c.workers == map[1 := HasSeen(reset, Funded(account, granted).accounts[account])]
    ensures var d := Act(c, Write(1)).db;
            account in d.accounts && d.accounts[account].buckets.permanent + d.accounts[account].held == 110
            && LedgerSum(d.ledger, account) == 50
  {
    hide FindEntry, LedgerSum;
    assert WriteEnabled(c, 1);
    var d := Act(c, Write(1)).db;
    assert d.ledger == c.db.ledger + [d.ledger[1]];
    SumOfTwo(c.db.ledger[0], d.ledger[1], account);
    assert c.db.ledger == [c.db.ledger[0]];
  }

  lemma SumOfTwo(e: Entry, f: Entry, account: AccountId)
    requires e.account == f.account == account
    ensures LedgerSum([e] + [f], account) == e.amount + f.amount
  {
    LedgerSumAppend([], e, account);
    LedgerSumAppend([e], f, account);
    assert [] + [e] == [e];
  }

  /** A deletion counts no hold, a hold is placed, the deletion writes: the deleted account
      has an active hold. */
  lemma DeleteAroundHold(account: AccountId, granted: Key, held: Key)
    ensures var c :=
            Schedule(START,
                     [Opening(account), Granting(account, granted), BeginWrite(1, Delete(account)),
                      Other(Holding60(account, held)), Write(1)]);
            account in c.db.accounts && c.db.accounts[account].deleted && HasActiveHold(c.db.holds, account)
  {
    hide Schedule, Act;
    var db := Funded(account, granted);
    FundingWorks(account, granted);
    assert Refusal(db, Delete(account)).None?;
    HoldGoesBetween(account, granted, Delete(account), held);
    var c := Act(Act(Cluster(db, map[], []), BeginWrite(1, Delete(account))), Other(Holding60(account, held)));
    FiveSteps(START, Opening(account), Granting(account, granted), BeginWrite(1, Delete(account)),
              Other(Holding60(account, held)), Write(1));
    DeleteWrites(c, account);
  }

  lemma DeleteWrites(c: Cluster, account: AccountId)
    requires account in c.db.accounts && |c.db.holds| == 1 && c.db.holds[0].account == account
             && c.db.holds[0].status.Active?
    requires 1 in c.workers && c.workers[1].HasSeen? && c.workers[1].call == Delete(account)
             && c.workers == map[1 := c.workers[1]]
    ensures var d := Act(c, Write(1)).db;
            account in d.accounts && d.accounts[account].deleted && HasActiveHold(d.holds, account)
  {
    assert WriteEnabled(c, 1);
    assert c.db.holds[0].status.Active?;
  }
}
