/** Where credit comes from and goes to, over every run of repository calls. */
module CreditConservation {
  import opened Options
  import opened CreditBuckets
  import opened CreditEngine
  import opened CreditInvariants

  /** Spendable plus held credit of an account; 0 before it exists. */
  function Worth(s: State, account: AccountId): int {
    if account in s.accounts then Available(s.accounts[account].buckets) + s.accounts[account].held else 0
  }

  /** Permanent credit, spendable or inside an active reservation. */
  function PermanentWorth(s: State, account: AccountId): int {
    if account in s.accounts then s.accounts[account].buckets.permanent + Reserved(s.holds, account).permanent else 0
  }

  /** What a refresh at `now` adds to the time buckets (negative when unused credit lapses). */
  function RefreshGain(a: Account, now: nat): int {
    (if DailyStale(a, now) then a.allow.daily - a.buckets.daily else 0)
    + (if PeriodStale(a, now) then a.allow.period - a.buckets.period else 0)
  }

  /** A spend, hold or read that went through refreshed its account on the way. */
  predicate Refreshes(s: State, c: Command, account: AccountId) {
    match c
    case Spend(a, _, _, key, _) => a == account && FindEntry(s.ledger, key).None? && Exec(s, c).out.Mutation?
    case PlaceHold(a, _, key, _, _) => a == account && FindHold(s.holds, key).None? && Exec(s, c).out.HoldRow?
    case RefreshAllowances(a, _) => a == account && a in s.accounts
    case _ => false
  }

  function RefreshedBy(s: State, c: Command, account: AccountId): int {
    if Refreshes(s, c, account) && account in s.accounts && (c.Spend? || c.PlaceHold? || c.RefreshAllowances?)
    then RefreshGain(s.accounts[account], c.now) else 0
  }

  /** A capture, release or reclaim that wins its hold settles it: this is what it returns. */
  function ReturnedBy(s: State, c: Command, account: AccountId): Option<Buckets> {
    match c
    case Capture(hold, actual, _, key, _) =>
      if FindEntry(s.ledger, key).None? && Exec(s, c).out.Mutation? && s.holds[hold].account == account
      then Some(Unspent(s.holds[hold], actual)) else None
    case Release(hold) =>
      if hold < |s.holds| && s.holds[hold].status.Active? && Exec(s, c).out.HoldRow? && s.holds[hold].account == account
      then Some(s.holds[hold].reserved) else None
    case Reclaim(hold, _) =>
      if Exec(s, c).out == Reclaimed(true) && s.holds[hold].account == account
      then Some(s.holds[hold].reserved) else None
    case _ => None
  }

  /** Expired gift credit destroyed by the give-back caps. */
  function ForfeitedBy(s: State, c: Command, account: AccountId): nat {
    var returned := ReturnedBy(s, c, account);
    if returned.Some? && account in s.accounts
    then Forfeit(s.accounts[account].buckets, returned.value, s.accounts[account].allow) else 0
  }

  /** Spending that daily and period credit paid for. */
  function TimeSpentBy(s: State, c: Command, account: AccountId): int {
    match c
    case Spend(a, amount, _, _, now) =>
      if Refreshes(s, c, account) && a in s.accounts then
        var taken := DebitOf(RefreshRow(s.accounts[a], now).buckets, amount).taken;
        taken.daily + taken.period
      else 0
    case Capture(hold, actual, _, _, _) =>
      if ReturnedBy(s, c, account).Some? then
        var taken := DebitOf(s.holds[hold].reserved, actual).taken;
        taken.daily + taken.period
      else 0
    case _ => 0
  }

  function Refreshed(s: State, cs: seq<Command>, account: AccountId): int
    decreases |cs|
  {
    if |cs| == 0 then 0 else RefreshedBy(s, cs[0], account) + Refreshed(Exec(s, cs[0]).state, cs[1..], account)
  }

  function Forfeited(s: State, cs: seq<Command>, account: AccountId): nat
    decreases |cs|
  {
    if |cs| == 0 then 0 else ForfeitedBy(s, cs[0], account) + Forfeited(Exec(s, cs[0]).state, cs[1..], account)
  }

  function TimeSpent(s: State, cs: seq<Command>, account: AccountId): int
    decreases |cs|
  {
    if |cs| == 0 then 0 else TimeSpentBy(s, cs[0], account) + TimeSpent(Exec(s, cs[0]).state, cs[1..], account)
  }

  // ---------------------------------------------------------------- one call

  lemma SettleMoves(s: State, hold: nat, status: HoldStatus, returned: Buckets, account: AccountId)
    requires Inv(s) && hold < |s.holds| && s.holds[hold].status.Active? && !status.Active?
    ensures s.holds[hold].account in s.accounts
    ensures var t := SettleHold(s, hold, status, returned);
            var mine := s.holds[hold].account == account;
            var owner := s.accounts[s.holds[hold].account];
            var lost := Forfeit(owner.buckets, returned, owner.allow);
            && Worth(t, account) == Worth(s, account)
                 + (if mine then Available(returned) - s.holds[hold].amount - lost else 0)
            && PermanentWorth(t, account) == PermanentWorth(s, account)
                 + (if mine then returned.permanent - s.holds[hold].reserved.permanent else 0)
  {
    assert ValidHold(s, s.holds[hold]);
    ReservedUpdate(s.holds, hold, s.holds[hold].(status := status), account);
    if s.holds[hold].account == account {
      CreditBackConserves(s.accounts[account].buckets, returned, s.accounts[account].allow);
    }
  }

  /** What a capture of part of a hold spends of it, and what it gives back. */
  lemma UnspentRest(h: Hold, actual: int)
    requires h.reserved.NonNegative() && Available(h.reserved) == h.amount && 0 < actual <= h.amount
    ensures var taken := DebitOf(h.reserved, actual).taken;
            && taken.daily + taken.period + taken.permanent == actual
            && Available(Unspent(h, actual)) == h.amount - actual
            && Unspent(h, actual).permanent == h.reserved.permanent - taken.permanent
  {
    hide DebitOf;
    DebitIsGreedy(h.reserved, actual);
  }

  /** A capture that goes through settles its hold and appends its entry. */
  lemma CaptureSettles(s: State, c: Command)
    requires Inv(s) && c.Capture? && FindEntry(s.ledger, c.key).None? && Exec(s, c).out.Mutation?
    ensures 0 < c.actual && c.hold < |s.holds| && s.holds[c.hold].status.Active? && c.actual <= s.holds[c.hold].amount
    ensures ValidHold(s, s.holds[c.hold])
    ensures var t, h := Exec(s, c).state, s.holds[c.hold];
            var settled := SettleHold(s, c.hold, Captured, Unspent(h, c.actual));
            && t.accounts == settled.accounts && t.holds == settled.holds && |t.ledger| == |s.ledger| + 1
            && t.ledger == s.ledger + [t.ledger[|s.ledger|]]
            && t.ledger[|s.ledger|].account == h.account && t.ledger[|s.ledger|].amount == -c.actual
  {
    hide DebitOf, FindEntry, Min, Max, CreditBack;
    if c.hold < |s.holds| { assert ValidHold(s, s.holds[c.hold]); }
  }

  lemma CaptureConserves(s: State, c: Command, account: AccountId)
    requires Inv(s) && c.Capture?
    ensures StepConserves(s, c, account)
  {
    hide DailyStale, PeriodStale, DebitOf, FindEntry, Reserved, LedgerSum, SettleHold, Min, Max, Forfeit, Unspent;
    if FindEntry(s.ledger, c.key).None? && Exec(s, c).out.Mutation? {
      hide Exec, Inv;
      var t, h := Exec(s, c).state, s.holds[c.hold];
      CaptureSettles(s, c);
      UnspentRest(h, c.actual);
      SettleMoves(s, c.hold, Captured, Unspent(h, c.actual), account);
      LedgerSumAppend(s.ledger, t.ledger[|s.ledger|], account);
    }
  }

  lemma ReturnConserves(s: State, c: Command, account: AccountId)
    requires Inv(s) && (c.Release? || c.Reclaim?)
    ensures StepConserves(s, c, account)
  {
    hide DailyStale, PeriodStale, DebitOf, FindEntry, Reserved;
    if Exec(s, c).state != s {
      assert ValidHold(s, s.holds[c.hold]);
      SettleMoves(s, c.hold, if c.Release? then Released else Expired, s.holds[c.hold].reserved, account);
    }
  }

  lemma RefreshAddsItsGain(a: Account, now: nat)
    ensures Available(RefreshRow(a, now).buckets) == Available(a.buckets) + RefreshGain(a, now)
    ensures RefreshRow(a, now).buckets.permanent == a.buckets.permanent && RefreshRow(a, now).held == a.held
  {
  }

  lemma DebitMeetsDemand(b: Buckets, amount: int)
    requires 0 < amount && DebitOf(b, amount).shortfall <= 0
    requires b.NonNegative()
    ensures Available(DebitOf(b, amount).taken) == amount
    ensures Available(b.Minus(DebitOf(b, amount).taken)) == Available(b) - amount
  {
    DebitIsGreedy(b, amount);
  }

  lemma SpendConserves(s: State, c: Command, account: AccountId)
    requires Inv(s) && c.Spend?
    ensures StepConserves(s, c, account)
  {
    hide DailyStale, PeriodStale, DebitOf, FindEntry, Reserved, RefreshGain;
    var t := Exec(s, c).state;
    if FindEntry(s.ledger, c.key).None? && Exec(s, c).out.Mutation? {
      var a := s.accounts[c.account];
      RefreshRowValid(a, c.now);
      RefreshAddsItsGain(a, c.now);
      DebitMeetsDemand(RefreshRow(a, c.now).buckets, c.amount);
      LedgerSumAppend(s.ledger, t.ledger[|s.ledger|], account);
      if account == c.account {
        assert Refreshes(s, c, account);
        assert ReturnedBy(s, c, account).None?;
      }
    }
  }

  /** Calls that neither refresh a row nor settle a hold. */
  lemma NoFlows(s: State, c: Command, account: AccountId)
    requires c.Ensure? || c.Grant? || c.Reset? || c.Delete? || c.Restore?
    ensures RefreshedBy(s, c, account) == 0 && ForfeitedBy(s, c, account) == 0 && TimeSpentBy(s, c, account) == 0
  {
    hide Exec, RefreshGain, Forfeit, DebitOf;
  }

  lemma GrantConserves(s: State, c: Command, account: AccountId)
    requires Inv(s) && (c.Grant? || c.Reset?)
    ensures StepConserves(s, c, account)
  {
    hide Inv, FindEntry, Reserved, RefreshedBy, ForfeitedBy, TimeSpentBy, LedgerSum;
    NoFlows(s, c, account);
    var t := Exec(s, c).state;
    if FindEntry(s.ledger, c.key).None? && Exec(s, c).out.Mutation? {
      LedgerSumAppend(s.ledger, t.ledger[|s.ledger|], account);
    }
  }

  lemma PlaceHoldConserves(s: State, c: Command, account: AccountId)
    requires Inv(s) && c.PlaceHold?
    ensures StepConserves(s, c, account)
  {
    hide DailyStale, PeriodStale, DebitOf, FindEntry, Reserved, RefreshGain;
    var t := Exec(s, c).state;
    if FindHold(s.holds, c.key).None? && Exec(s, c).out.HoldRow? {
      var a := s.accounts[c.account];
      RefreshRowValid(a, c.now);
      RefreshAddsItsGain(a, c.now);
      DebitMeetsDemand(RefreshRow(a, c.now).buckets, c.amount);
      ReservedAppend(s.holds, t.holds[|s.holds|], account);
      if account == c.account {
        assert Refreshes(s, c, account);
        assert ReturnedBy(s, c, account).None?;
      }
    }
  }

  lemma RowCallConserves(s: State, c: Command, account: AccountId)
    requires Inv(s) && (c.Ensure? || c.Delete? || c.Restore?)
    ensures StepConserves(s, c, account)
  {
    hide Inv, FindEntry, Reserved, RefreshedBy, ForfeitedBy, TimeSpentBy, LedgerSum;
    NoFlows(s, c, account);
    if account !in s.accounts { NoRowNoHolds(s, account); }
  }

  lemma NoRowNoHolds(s: State, account: AccountId)
    requires Inv(s) && account !in s.accounts
    ensures Reserved(s.holds, account) == Totals(0, 0)
  {
    forall i | 0 <= i < |s.holds| ensures s.holds[i].account != account { assert ValidHold(s, s.holds[i]); }
    NothingReserved(s.holds, account);
  }

  lemma RefreshConserves(s: State, c: Command, account: AccountId)
    requires c.RefreshAllowances?
    ensures StepConserves(s, c, account)
  {
    hide FindEntry, Reserved, RefreshGain, RefreshRow, LedgerSum;
    if c.account in s.accounts { RefreshAddsItsGain(s.accounts[c.account], c.now); }
  }

  /** One call moves an account's worth by exactly its ledger amount, plus what a
      refresh added, minus what the caps destroyed; and moves its permanent credit
      by the ledger amount not paid out of time buckets. */
  ghost predicate StepConserves(s: State, c: Command, account: AccountId) {
    var t := Exec(s, c).state;
    var posted := LedgerSum(t.ledger, account) - LedgerSum(s.ledger, account);
    && Worth(t, account) - Worth(s, account) == posted + RefreshedBy(s, c, account) - ForfeitedBy(s, c, account)
    && PermanentWorth(t, account) - PermanentWorth(s, account) == posted + TimeSpentBy(s, c, account)
  }

  lemma EveryStepConserves(s: State, c: Command, account: AccountId)
    requires Inv(s)
    ensures StepConserves(s, c, account)
  {
    match c
    case Ensure(_, _) => RowCallConserves(s, c, account);
    case Grant(_, _, _, _, _) => GrantConserves(s, c, account);
    case Spend(_, _, _, _, _) => SpendConserves(s, c, account);
    case Reset(_, _, _, _, _) => GrantConserves(s, c, account);
    case PlaceHold(_, _, _, _, _) => PlaceHoldConserves(s, c, account);
    case Capture(_, _, _, _, _) => CaptureConserves(s, c, account);
    case Release(_) => ReturnConserves(s, c, account);
    case Reclaim(_, _) => ReturnConserves(s, c, account);
    case RefreshAllowances(_, _) => RefreshConserves(s, c, account);
    case Delete(_) => RowCallConserves(s, c, account);
    case Restore(_) => RowCallConserves(s, c, account);
  }

  // ---------------------------------------------------------------- every run

  /** Conservation over every run: credit is created only by positive ledger
      entries and refreshes, and destroyed only by negative entries and caps. */
  lemma {:induction false} RunConserves(s: State, cs: seq<Command>, account: AccountId)
    requires Inv(s)
    ensures var t := Run(s, cs);
            && Worth(t, account) - Worth(s, account)
               == LedgerSum(t.ledger, account) - LedgerSum(s.ledger, account)
                  + Refreshed(s, cs, account) - Forfeited(s, cs, account)
    decreases |cs|
  {
    if |cs| > 0 {
      EveryStepConserves(s, cs[0], account);
      StepKeepsInv(s, cs[0]);
      RunConserves(Exec(s, cs[0]).state, cs[1..], account);
    }
  }

  /** Paid-for credit is exact: no refresh creates it and no cap destroys it. */
  lemma {:induction false} RunConservesPermanent(s: State, cs: seq<Command>, account: AccountId)
    requires Inv(s)
    ensures var t := Run(s, cs);
            && PermanentWorth(t, account) - PermanentWorth(s, account)
               == LedgerSum(t.ledger, account) - LedgerSum(s.ledger, account) + TimeSpent(s, cs, account)
    ensures 0 <= TimeSpent(s, cs, account)
    decreases |cs|
  {
    if |cs| > 0 {
      EveryStepConserves(s, cs[0], account);
      TimeSpentNonNegative(s, cs[0], account);
      StepKeepsInv(s, cs[0]);
      RunConservesPermanent(Exec(s, cs[0]).state, cs[1..], account);
    }
  }

  lemma TimeSpentNonNegative(s: State, c: Command, account: AccountId)
    requires Inv(s)
    ensures 0 <= TimeSpentBy(s, c, account)
  {
    if c.Spend? && c.account in s.accounts {
      RefreshRowValid(s.accounts[c.account], c.now);
      DebitIsGreedy(RefreshRow(s.accounts[c.account], c.now).buckets, c.amount);
    } else if c.Capture? && ReturnedBy(s, c, account).Some? {
      assert ValidHold(s, s.holds[c.hold]);
      DebitIsGreedy(s.holds[c.hold].reserved, c.actual);
    }
  }

  /** An account without allowances: the ledger explains every micro. */
  ghost predicate NoAllowances(s: State, account: AccountId) {
    account in s.accounts ==> s.accounts[account].allow == Allowances(0, 0)
  }

  lemma AllowancesNeverChange(s: State, c: Command, account: AccountId)
    requires Inv(s) && account in s.accounts
    ensures var t := Exec(s, c).state; account in t.accounts && t.accounts[account].allow == s.accounts[account].allow
  {
    hide DailyStale, PeriodStale, DebitOf, FindEntry, Reserved;
    if c.Capture? && Exec(s, c).state != s { assert ValidHold(s, s.holds[c.hold]); }
  }

  predicate GivesAllowances(c: Command, account: AccountId) {
    c.Ensure? && c.account == account && c.allow != Allowances(0, 0)
  }

  lemma StepWithoutAllowances(s: State, c: Command, account: AccountId)
    requires Inv(s) && NoAllowances(s, account) && !GivesAllowances(c, account)
    ensures NoAllowances(Exec(s, c).state, account)
    ensures RefreshedBy(s, c, account) == 0 && ForfeitedBy(s, c, account) == 0
  {
    hide DailyStale, PeriodStale, DebitOf, FindEntry, Reserved;
    if account in s.accounts {
      AllowancesNeverChange(s, c, account);
      if ReturnedBy(s, c, account).Some? {
        assert ValidHold(s, s.holds[c.hold]);
        if c.Capture? { DebitIsGreedy(s.holds[c.hold].reserved, c.actual); }
      }
    }
  }

  lemma {:induction false} RunWithoutAllowances(s: State, cs: seq<Command>, account: AccountId)
    requires Inv(s) && NoAllowances(s, account)
    requires forall i :: 0 <= i < |cs| ==> !GivesAllowances(cs[i], account)
    ensures Refreshed(s, cs, account) == 0 && Forfeited(s, cs, account) == 0
    ensures NoAllowances(Run(s, cs), account)
    decreases |cs|
  {
    if |cs| > 0 {
      StepWithoutAllowances(s, cs[0], account);
      StepKeepsInv(s, cs[0]);
      RunWithoutAllowances(Exec(s, cs[0]).state, cs[1..], account);
    }
  }

  /** With zero allowances (what the shipped schema defaults to), permanent credit
      plus held credit is the sum of the ledger, in every state reachable from
      empty tables. */
  lemma LedgerExplainsBalance(cs: seq<Command>, account: AccountId)
    requires forall i :: 0 <= i < |cs| ==> !GivesAllowances(cs[i], account)
    ensures var s := Run(EMPTY, cs);
            account in s.accounts ==>
              s.accounts[account].buckets.permanent + s.accounts[account].held == LedgerSum(s.ledger, account)
  {
    var s := Run(EMPTY, cs);
    RunKeepsInv(EMPTY, cs);
    RunConserves(EMPTY, cs, account);
    RunWithoutAllowances(EMPTY, cs, account);
    if account in s.accounts { assert ValidAccount(s.accounts[account]); }
  }
}
