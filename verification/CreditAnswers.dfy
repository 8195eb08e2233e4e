/** Every repository call from the caller's side: exactly when it goes through, which
    error it gives otherwise, and what it writes, in terms of the rows alone. */
module CreditAnswers {
  import opened Options
  import opened CreditBuckets
  import opened CreditEngine
  import opened CreditInvariants
  import opened ResetBoundary

  /** The buckets of an account as the clock has refilled them by `now`. */
  function Refilled(a: Account, now: nat): Buckets { RefreshRow(a, now).buckets }

  /** What an account can spend at `now`. */
  function Spendable(a: Account, now: nat): int {
    var b := Refilled(a, now);
    b.daily + b.period + b.permanent
  }

  /** Nothing was reset since that moment. */
  predicate ResetBefore(resetOn: Option<nat>, moment: nat) { resetOn == None || resetOn.value < moment }

  /** The clock refills a time bucket to its allowance, and no further, once a UTC midnight
      (for the period bucket the midnight that opens a month) lies after its last reset;
      the permanent bucket, the held total and the flags stay. */
  lemma RefilledIs(a: Account, now: nat)
    ensures var midnight, month, r := now / DAY_MS * DAY_MS, PeriodBoundary(now), RefreshRow(a, now);
            var day, period := ResetBefore(a.dailyResetOn, midnight), ResetBefore(a.periodResetOn, month);
            && r == Account(Buckets(if day then a.allow.daily else a.buckets.daily,
                                    if period then a.allow.period else a.buckets.period, a.buckets.permanent),
                            a.held, if day then Some(midnight) else a.dailyResetOn,
                            if period then Some(month) else a.periodResetOn, a.allow, a.active, a.deleted)
            && Refilled(a, now) == r.buckets
  {
    DailyBoundaryIsLastMidnight(now);
  }

  predicate NewEntryKey(s: State, key: Key) { forall i :: 0 <= i < |s.ledger| ==> s.ledger[i].key != key }

  predicate NewHoldKey(s: State, key: Key) { forall i :: 0 <= i < |s.holds| ==> s.holds[i].key != key }

  predicate Live(s: State, account: AccountId) { account in s.accounts && !s.accounts[account].deleted }

  /** `t` is `s` with one account row replaced. */
  predicate RowWritten(s: State, t: State, account: AccountId, row: Account) {
    t.accounts == s.accounts[account := row]
  }

  /** A call with a ledger key that is known answers the entry and writes nothing. */
  predicate KnownEntry(s: State, r: Result, key: Key) {
    forall i :: 0 <= i < |s.ledger| && s.ledger[i].key == key ==> r == Result(s, Mutation(i))
  }

  /** Keys are unique, so a lookup finds the row of its key. */
  lemma EntryLookup(s: State, key: Key)
    requires Inv(s)
    ensures FindEntry(s.ledger, key).None? <==> NewEntryKey(s, key)
    ensures forall i: nat :: i < |s.ledger| && s.ledger[i].key == key ==> FindEntry(s.ledger, key) == Some(i)
  {
  }

  lemma HoldLookup(s: State, key: Key)
    requires Inv(s)
    ensures FindHold(s.holds, key).None? <==> NewHoldKey(s, key)
    ensures forall i: nat :: i < |s.holds| && s.holds[i].key == key ==> FindHold(s.holds, key) == Some(i)
  {
  }

  /** The errors every call on one account starts with, in this order. */
  predicate OpeningErrors(s: State, r: Result, account: AccountId, amountOk: bool) {
    && (r.out == Failed(InvalidAmount) <==> !amountOk)
    && (r.out == Failed(AccountNotFound) <==> amountOk && account !in s.accounts)
    && (r.out == Failed(AccountDeleted) <==> amountOk && account in s.accounts && s.accounts[account].deleted)
  }

  /** Taken from the earliest-expiring buckets first, without overdrawing any. */
  ghost predicate Drawn(before: Buckets, amount: int, taken: Buckets) { IsGreedySplit(before, amount, Debit(taken, 0)) }

  // ---------------------------------------------------------------- holds

  /** A hold goes through exactly when the amount is positive, the account is live and
      active and its refilled buckets cover the amount, whatever it already holds and
      whenever the hold expires. It moves the amount out of the buckets, earliest-expiring
      first, into the held total and the new row. */
  lemma HoldAnswers(s: State, account: AccountId, amount: int, key: Key, expiresAt: Option<nat>, now: nat)
    requires Inv(s)
    ensures var r := Exec(s, PlaceHold(account, amount, key, expiresAt, now));
            && (forall i :: 0 <= i < |s.holds| && s.holds[i].key == key ==> r == Result(s, HoldRow(i)))
            && (NewHoldKey(s, key) ==>
                  && OpeningErrors(s, r, account, 0 < amount)
                  && (r.out == Failed(InsufficientCredit)
                      <==> 0 < amount && Live(s, account)
                           && (!s.accounts[account].active || Spendable(s.accounts[account], now) < amount))
                  && (r.out == HoldRow(|s.holds|)
                      <==> 0 < amount && Live(s, account)
                           && s.accounts[account].active && amount <= Spendable(s.accounts[account], now))
                  && (r.out.Failed? ==> r.state == s)
                  && (!r.out.Failed? ==> Reserves(s, r.state, account, amount, key, expiresAt, now)))
  {
    hide RefreshRow, DebitOf, FindHold;
    HoldLookup(s, key);
    if NewHoldKey(s, key) && 0 < amount && Live(s, account) {
      RefreshRowValid(s.accounts[account], now);
      DebitCovers(Refilled(s.accounts[account], now), amount);
      if s.accounts[account].active && amount <= Spendable(s.accounts[account], now) {
        HoldReserves(s, account, amount, key, expiresAt, now);
      }
    }
  }

  ghost predicate Reserves(s: State, t: State, account: AccountId, amount: int, key: Key, expiresAt: Option<nat>,
                           now: nat) {
    && account in s.accounts && |t.holds| == |s.holds| + 1
    && (var a, h := RefreshRow(s.accounts[account], now), t.holds[|s.holds|];
        && h == Hold(account, amount, h.reserved, Active, key, expiresAt) && Drawn(a.buckets, amount, h.reserved)
        && RowWritten(s, t, account, a.(buckets := a.buckets.Minus(h.reserved), held := a.held + amount))
        && t == s.(accounts := t.accounts, holds := s.holds + [h]))
  }

  /** The greedy debit falls short exactly when the buckets together do not cover it. */
  lemma DebitCovers(b: Buckets, amount: int)
    requires b.NonNegative() && 0 < amount
    ensures 0 < DebitOf(b, amount).shortfall <==> b.daily + b.period + b.permanent < amount
    ensures amount <= b.daily + b.period + b.permanent ==> Drawn(b, amount, DebitOf(b, amount).taken)
  {
    hide DebitOf;
    DebitIsGreedy(b, amount);
    assert DebitOf(b, amount) == Debit(DebitOf(b, amount).taken, DebitOf(b, amount).shortfall);
  }

  lemma HoldReserves(s: State, account: AccountId, amount: int, key: Key, expiresAt: Option<nat>, now: nat)
    requires Inv(s) && NewHoldKey(s, key) && 0 < amount && Live(s, account) && s.accounts[account].active
    requires amount <= Spendable(s.accounts[account], now)
    ensures Reserves(s, Exec(s, PlaceHold(account, amount, key, expiresAt, now)).state, account, amount, key, expiresAt,
                     now)
  {
    hide RefreshRow, DebitOf, IsGreedySplit;
    RefreshRowValid(s.accounts[account], now);
    DebitCovers(Refilled(s.accounts[account], now), amount);
  }

  /** Settling a hold: its status changes, its amount leaves the held total and `back`
      goes to the buckets, the time buckets filled up to their allowance at most. */
  ghost predicate GivesBack(s: State, t: State, hold: nat, status: HoldStatus, back: Buckets) {
    && hold < |s.holds| && s.holds[hold].account in s.accounts
    && t.holds == s.holds[hold := s.holds[hold].(status := status)]
    && (var h := s.holds[hold];
        var a := s.accounts[h.account];
        var daily, period := a.buckets.daily + back.daily, a.buckets.period + back.period;
        RowWritten(s, t, h.account,
                   a.(held := a.held - h.amount,
                      buckets := Buckets(if daily <= a.allow.daily then daily else a.allow.daily,
                                         if period <= a.allow.period then period else a.allow.period,
                                         a.buckets.permanent + back.permanent))))
  }

  /** A capture goes through exactly when the amount is positive and within a hold that
      is still active. It spends the amount of the reservation, earliest-expiring first,
      and gives the rest back. */
  lemma CaptureAnswers(s: State, hold: nat, actual: int, reason: Reason, key: Key, now: nat)
    requires Inv(s)
    ensures var r := Exec(s, Capture(hold, actual, reason, key, now));
            && KnownEntry(s, r, key)
            && (NewEntryKey(s, key) ==>
                  && (r.out == Failed(InvalidAmount) <==> actual <= 0)
                  && (r.out == Failed(HoldNotFound) <==> 0 < actual && |s.holds| <= hold)
                  && (r.out == Failed(HoldNotActive)
                      <==> 0 < actual && hold < |s.holds| && !s.holds[hold].status.Active?)
                  && (r.out == Failed(CaptureExceedsHold)
                      <==> hold < |s.holds| && s.holds[hold].status.Active? && s.holds[hold].amount < actual)
                  && (r.out == Mutation(|s.ledger|)
                      <==> hold < |s.holds| && s.holds[hold].status.Active? && 0 < actual <= s.holds[hold].amount)
                  && (r.out.Failed? ==> r.state == s)
                  && (!r.out.Failed? ==> Captures(s, r.state, hold, actual, reason, key, now)))
  {
    hide DebitOf, FindEntry, SettleHold, Unspent;
    EntryLookup(s, key);
    if NewEntryKey(s, key) && hold < |s.holds| {
      assert ValidHold(s, s.holds[hold]);
      assert UsageKey(key) !in s.usages;
      if s.holds[hold].status.Active? && 0 < actual <= s.holds[hold].amount {
        CaptureSpends(s, hold, actual, reason, key, now);
      }
    }
  }

  ghost predicate Captures(s: State, t: State, hold: nat, actual: int, reason: Reason, key: Key, now: nat) {
    && hold < |s.holds| && s.holds[hold].account in t.accounts
    && (var h := s.holds[hold];
        var b := t.accounts[h.account].buckets;
        && (exists spent :: Drawn(h.reserved, actual, spent)
              && GivesBack(s, t, hold, Captured,
                           Buckets(h.reserved.daily - spent.daily, h.reserved.period - spent.period,
                                   h.reserved.permanent - spent.permanent)))
        && t.ledger == s.ledger + [Entry(h.account, 0 - actual, b.daily + b.period + b.permanent, reason, key, now)]
        && t.usages == s.usages[key + ":usage" := Usage(h.account, actual)])
  }

  lemma CaptureSpends(s: State, hold: nat, actual: int, reason: Reason, key: Key, now: nat)
    requires Inv(s) && NewEntryKey(s, key) && UsageKey(key) !in s.usages && hold < |s.holds|
    requires ValidHold(s, s.holds[hold]) && s.holds[hold].status.Active? && 0 < actual <= s.holds[hold].amount
    ensures Captures(s, Exec(s, Capture(hold, actual, reason, key, now)).state, hold, actual, reason, key, now)
  {
    hide DebitOf, IsGreedySplit, Inv, FindEntry;
    var h := s.holds[hold];
    DebitCovers(h.reserved, actual);
    var spent := DebitOf(h.reserved, actual).taken;
    assert Drawn(h.reserved, actual, spent);
    assert FindEntry(s.ledger, key).None?;
  }

  /** A release answers for an active hold and again once it is released; it gives the
      whole reservation back once. */
  lemma ReleaseAnswers(s: State, hold: nat)
    requires Inv(s)
    ensures var r := Exec(s, Release(hold));
            && (r.out == Failed(HoldNotFound) <==> |s.holds| <= hold)
            && (r.out == Failed(HoldNotActive)
                <==> hold < |s.holds| && (s.holds[hold].status.Captured? || s.holds[hold].status.Expired?))
            && (r.out == HoldRow(hold)
                <==> hold < |s.holds| && (s.holds[hold].status.Active? || s.holds[hold].status.Released?))
            && (hold < |s.holds| && s.holds[hold].status.Active? ==>
                  GivesBack(s, r.state, hold, Released, s.holds[hold].reserved)
                  && r.state.ledger == s.ledger && r.state.usages == s.usages)
            && (hold < |s.holds| && !s.holds[hold].status.Active? ==> r.state == s)
            && (|s.holds| <= hold ==> r.state == s)
  {
    if hold < |s.holds| { assert ValidHold(s, s.holds[hold]); }
  }

  /** A hold is reclaimed exactly when it is active and its expiry lies before `now`. */
  lemma ReclaimAnswers(s: State, hold: nat, now: nat)
    requires Inv(s)
    ensures var r := Exec(s, Reclaim(hold, now));
            var due := hold < |s.holds| && s.holds[hold].status.Active? && s.holds[hold].expiresAt.Some?
                       && s.holds[hold].expiresAt.value < now;
            && r.out == Reclaimed(due)
            && (due ==> GivesBack(s, r.state, hold, Expired, s.holds[hold].reserved)
                        && r.state.ledger == s.ledger && r.state.usages == s.usages)
            && (!due ==> r.state == s)
  {
    if hold < |s.holds| { assert ValidHold(s, s.holds[hold]); }
  }

  // ---------------------------------------------------------------- postings

  /** A spend goes through exactly when a hold of the amount would, and takes the amount
      from the same buckets. */
  lemma SpendAnswers(s: State, account: AccountId, amount: int, reason: Reason, key: Key, now: nat)
    requires Inv(s)
    ensures var r := Exec(s, Spend(account, amount, reason, key, now));
            && KnownEntry(s, r, key)
            && (NewEntryKey(s, key) ==>
                  && OpeningErrors(s, r, account, 0 < amount)
                  && (r.out == Failed(InsufficientCredit)
                      <==> 0 < amount && Live(s, account)
                           && (!s.accounts[account].active || Spendable(s.accounts[account], now) < amount))
                  && (r.out == Mutation(|s.ledger|)
                      <==> 0 < amount && Live(s, account)
                           && s.accounts[account].active && amount <= Spendable(s.accounts[account], now))
                  && (r.out.Failed? ==> r.state == s)
                  && (!r.out.Failed? ==> Spends(s, r.state, account, amount, reason, key, now)))
  {
    hide RefreshRow, DebitOf, FindEntry;
    EntryLookup(s, key);
    if NewEntryKey(s, key) && 0 < amount && Live(s, account) {
      RefreshRowValid(s.accounts[account], now);
      DebitCovers(Refilled(s.accounts[account], now), amount);
      if s.accounts[account].active && amount <= Spendable(s.accounts[account], now) {
        SpendTakes(s, account, amount, reason, key, now);
      }
    }
  }

  ghost predicate Spends(s: State, t: State, account: AccountId, amount: int, reason: Reason, key: Key, now: nat) {
    && account in s.accounts
    && (var a := RefreshRow(s.accounts[account], now);
        && (exists taken :: Drawn(a.buckets, amount, taken)
              && RowWritten(s, t, account, a.(buckets := a.buckets.Minus(taken))))
        && t == s.(accounts := t.accounts,
                   ledger :=
                       s.ledger + [Entry(account, 0 - amount, Spendable(s.accounts[account], now) - amount, reason,
                                               key, now)]))
  }

  lemma SpendTakes(s: State, account: AccountId, amount: int, reason: Reason, key: Key, now: nat)
    requires NewEntryKey(s, key) && 0 < amount && Live(s, account) && s.accounts[account].active
    requires ValidAccount(s.accounts[account]) && amount <= Spendable(s.accounts[account], now)
    ensures Spends(s, Exec(s, Spend(account, amount, reason, key, now)).state, account, amount, reason, key, now)
  {
    hide RefreshRow, DebitOf, FindEntry;
    RefreshRowValid(s.accounts[account], now);
    var a := RefreshRow(s.accounts[account], now);
    DebitCovers(a.buckets, amount);
    var taken := DebitOf(a.buckets, amount).taken;
    assert Drawn(a.buckets, amount, taken);
    assert FindEntry(s.ledger, key).None?;
    assert RowWritten(s, Exec(s, Spend(account, amount, reason, key, now)).state, account,
                      a.(buckets := a.buckets.Minus(taken)));
  }

  /** A grant goes through exactly for a positive amount to a live account, active or not,
      and adds to the permanent bucket alone. */
  lemma GrantAnswers(s: State, account: AccountId, amount: int, reason: Reason, key: Key, now: nat)
    requires Inv(s)
    ensures var r := Exec(s, Grant(account, amount, reason, key, now));
            && KnownEntry(s, r, key)
            && (NewEntryKey(s, key) ==>
                  && OpeningErrors(s, r, account, 0 < amount)
                  && (r.out == Mutation(|s.ledger|) <==> 0 < amount && Live(s, account))
                  && (r.out.Failed? ==> r.state == s)
                  && (!r.out.Failed? ==> PermanentSet(s, r.state, account, amount, reason, key, now)))
  {
    hide FindEntry;
    EntryLookup(s, key);
  }

  /** The permanent bucket moved by `delta`, with an entry that records it and the new level. */
  predicate PermanentSet(s: State, t: State, account: AccountId, delta: int, reason: Reason, key: Key, now: nat) {
    && account in s.accounts
    && (var a := s.accounts[account];
        var b := Buckets(a.buckets.daily, a.buckets.period, a.buckets.permanent + delta);
        && RowWritten(s, t, account, a.(buckets := b))
        && t == s.(accounts := t.accounts, ledger := s.ledger + [Entry(account, delta, b.permanent, reason, key, now)]))
  }

  /** A reset goes through exactly when the target is not below what is held, and moves
      the permanent bucket alone to it. */
  lemma ResetAnswers(s: State, account: AccountId, target: int, reason: Reason, key: Key, now: nat)
    requires Inv(s)
    ensures var r := Exec(s, Reset(account, target, reason, key, now));
            && KnownEntry(s, r, key)
            && (NewEntryKey(s, key) ==>
                  && OpeningErrors(s, r, account, 0 <= target)
                  && (r.out == Failed(BelowHeld)
                      <==> 0 <= target && Live(s, account) && target < s.accounts[account].held)
                  && (r.out == Mutation(|s.ledger|)
                      <==> 0 <= target && Live(s, account) && s.accounts[account].held <= target)
                  && (r.out.Failed? ==> r.state == s)
                  && (!r.out.Failed? ==>
                        PermanentSet(s, r.state, account, target - s.accounts[account].buckets.permanent, reason, key,
                                     now)))
  {
    hide FindEntry;
    EntryLookup(s, key);
  }

  // ---------------------------------------------------------------- accounts

  /** A new account starts with nothing in its buckets, never refreshed; a live one is
      made active; a deleted one is refused. */
  lemma EnsureAnswers(s: State, account: AccountId, allow: Allowances, now: nat)
    ensures var r := Exec(s, Ensure(account, allow));
            && (r.out == Failed(AccountDeleted) <==> account in s.accounts && s.accounts[account].deleted)
            && (r.out == AccountRow(account) <==> account !in s.accounts || !s.accounts[account].deleted)
            && (r.out.Failed? ==> r.state == s)
            && (!r.out.Failed? ==>
                  && r.state == s.(accounts := r.state.accounts) && account in r.state.accounts
                  && (var a := r.state.accounts[account];
                      && RowWritten(s, r.state, account, a) && a.active && !a.deleted
                      && (account in s.accounts ==> a == s.accounts[account].(active := true))
                      && (account !in s.accounts ==>
                            a.held == 0 && a.allow == allow
                            && Refilled(a, now) == Buckets(allow.daily, allow.period, 0))))
  {
  }

  /** A deletion is refused exactly for an unknown account and for one with an active
      hold, and restoring undoes it. */
  lemma DeleteAnswers(s: State, account: AccountId)
    ensures var r := Exec(s, Delete(account));
            && (r.out == Failed(AccountNotFound) <==> account !in s.accounts)
            && (r.out == Failed(ActiveHoldExists)
                <==> Live(s, account)
                     && exists i :: 0 <= i < |s.holds| && s.holds[i].account == account && s.holds[i].status.Active?)
            && (r.out.Failed? ==> r.state == s)
            && (!r.out.Failed? ==>
                r.out == AccountRow(account) && account in r.state.accounts && !Live(r.state, account))
            && (!r.out.Failed? && Live(s, account) ==>
                Exec(r.state, Restore(account)) == Result(s, AccountRow(account)))
  {
    var r := Exec(s, Delete(account));
    if !r.out.Failed? && Live(s, account) {
      assert Exec(r.state, Restore(account)).state.accounts == s.accounts;
    }
  }

  /** A restored account is live again with everything else as it was; restoring one that
      was not deleted changes nothing. */
  lemma RestoreAnswers(s: State, account: AccountId)
    ensures var r := Exec(s, Restore(account));
            && (r.out == Failed(AccountNotFound) <==> account !in s.accounts)
            && (r.out.Failed? ==> r.state == s)
            && (account in s.accounts ==>
                  && r.out == AccountRow(account) && Live(r.state, account)
                  && RowWritten(s, r.state, account, s.accounts[account].(deleted := false))
                  && r.state == s.(accounts := r.state.accounts))
            && (Live(s, account) ==> r.state == s)
  {
    if Live(s, account) { assert Exec(s, Restore(account)).state.accounts == s.accounts; }
  }

  /** A read refreshes the account it reads and nothing else. */
  lemma RefreshAnswers(s: State, account: AccountId, now: nat)
    ensures var r := Exec(s, RefreshAllowances(account, now));
            && (account !in s.accounts ==> r == Result(s, Failed(AccountNotFound)))
            && (account in s.accounts ==>
                  && r.out == AccountRow(account)
                  && r.state == s.(accounts := s.accounts[account := RefreshRow(s.accounts[account], now)]))
  {
    hide RefreshRow;
  }
}
