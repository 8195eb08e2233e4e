/** What every reachable state of the credit tables satisfies, and where the money is. */
module CreditInvariants {
  import opened Options
  import opened CreditBuckets
  import opened CreditEngine

  // ---------------------------------------------------------------- sums over rows

  /** Amount and permanent part of the active reservations of one account. */
  datatype Totals = Totals(amount: int, permanent: int)

  function PartOf(h: Hold, account: AccountId): Totals {
    if h.status.Active? && h.account == account then Totals(h.amount, h.reserved.permanent) else Totals(0, 0)
  }

  function Reserved(holds: seq<Hold>, account: AccountId): Totals {
    if |holds| == 0 then Totals(0, 0)
    else
      var r, p := Reserved(holds[..|holds| - 1], account), PartOf(holds[|holds| - 1], account);
      Totals(r.amount + p.amount, r.permanent + p.permanent)
  }

  lemma {:induction false} ReservedUpdate(holds: seq<Hold>, i: nat, h: Hold, account: AccountId)
    requires i < |holds|
    ensures Reserved(holds[i := h], account).amount
         == Reserved(holds, account).amount - PartOf(holds[i], account).amount + PartOf(h, account).amount
    ensures Reserved(holds[i := h], account).permanent
         == Reserved(holds, account).permanent - PartOf(holds[i], account).permanent + PartOf(h, account).permanent
  {
    var last := |holds| - 1;
    if i == last {
      assert holds[i := h][..last] == holds[..last];
    } else {
      assert holds[i := h][..last] == holds[..last][i := h];
      ReservedUpdate(holds[..last], i, h, account);
    }
  }

  lemma ReservedAppend(holds: seq<Hold>, h: Hold, account: AccountId)
    ensures Reserved(holds + [h], account).amount == Reserved(holds, account).amount + PartOf(h, account).amount
    ensures Reserved(holds + [h], account).permanent
            == Reserved(holds, account).permanent + PartOf(h, account).permanent
  {
    assert (holds + [h])[..|holds|] == holds;
  }

  lemma {:induction false} NothingReserved(holds: seq<Hold>, account: AccountId)
    requires !HasActiveHold(holds, account)
    ensures Reserved(holds, account) == Totals(0, 0)
  {
    if |holds| > 0 {
      NothingReserved(holds[..|holds| - 1], account);
    }
  }

  /** The sum of an account's ledger amounts. */
  function LedgerSum(ledger: seq<Entry>, account: AccountId): int {
    if |ledger| == 0 then 0
    else
      var e := ledger[|ledger| - 1];
      LedgerSum(ledger[..|ledger| - 1], account) + if e.account == account then e.amount else 0
  }

  lemma LedgerSumAppend(ledger: seq<Entry>, e: Entry, account: AccountId)
    ensures LedgerSum(ledger + [e], account)
            == LedgerSum(ledger, account) + if e.account == account then e.amount else 0
  {
    assert (ledger + [e])[..|ledger|] == ledger;
  }

  // ---------------------------------------------------------------- reachable states

  predicate ValidAccount(a: Account) {
    && a.buckets.NonNegative() && 0 <= a.held
    && a.buckets.daily <= a.allow.daily && a.buckets.period <= a.allow.period
  }

  ghost predicate ValidHold(s: State, h: Hold) {
    && h.reserved.NonNegative() && Available(h.reserved) == h.amount && 0 < h.amount
    && h.account in s.accounts
    && h.reserved.daily <= s.accounts[h.account].allow.daily
    && h.reserved.period <= s.accounts[h.account].allow.period
  }

  ghost predicate UniqueKeys(s: State) {
    && (forall i, j :: 0 <= i < j < |s.ledger| ==> s.ledger[i].key != s.ledger[j].key)
    && (forall i, j :: 0 <= i < j < |s.holds| ==> s.holds[i].key != s.holds[j].key)
    && (forall k :: UsageKey(k) in s.usages ==> FindEntry(s.ledger, k).Some?)
  }

  ghost predicate Inv(s: State) {
    && (forall a :: a in s.accounts ==> ValidAccount(s.accounts[a]))
    && (forall i :: 0 <= i < |s.holds| ==> ValidHold(s, s.holds[i]))
    && (forall a :: a in s.accounts ==> s.accounts[a].held == Reserved(s.holds, a).amount)
    && UniqueKeys(s)
  }

  /** No active hold on a deleted account. */
  ghost predicate DeletedIdle(s: State) {
    forall a :: a in s.accounts && s.accounts[a].deleted ==> !HasActiveHold(s.holds, a)
  }

  /** Refresh keeps an account valid and leaves its allowance, hold total and flags alone. */
  lemma RefreshRowValid(a: Account, now: nat)
    requires ValidAccount(a)
    ensures ValidAccount(RefreshRow(a, now))
    ensures RefreshRow(a, now).allow == a.allow && RefreshRow(a, now).held == a.held
    ensures RefreshRow(a, now).buckets.permanent == a.buckets.permanent
  {
  }

  /** The reserved total of an account covers each of its active holds. */
  lemma {:induction false} HoldCovered(s: State, holds: seq<Hold>, i: nat, account: AccountId)
    requires i < |holds| && forall j :: 0 <= j < |holds| ==> ValidHold(s, holds[j])
    ensures PartOf(holds[i], account).amount <= Reserved(holds, account).amount
    ensures 0 <= Reserved(holds, account).amount
  {
    var last := |holds| - 1;
    if last > 0 {
      HoldCovered(s, holds[..last], if i < last then i else 0, account);
    }
  }

  lemma SettleKeepsInv(s: State, hold: nat, status: HoldStatus, returned: Buckets)
    requires Inv(s) && hold < |s.holds| && s.holds[hold].status.Active? && !status.Active?
    requires returned.NonNegative() && returned.AtMost(s.holds[hold].reserved)
    ensures Inv(SettleHold(s, hold, status, returned))
  {
    hide Reserved;
    var h := s.holds[hold];
    var t := SettleHold(s, hold, status, returned);
    HoldCovered(s, s.holds, hold, h.account);
    forall a | a in t.accounts
      ensures t.accounts[a].held == Reserved(t.holds, a).amount
    {
      ReservedUpdate(s.holds, hold, t.holds[hold], a);
    }
    forall i | 0 <= i < |t.holds| ensures ValidHold(t, t.holds[i]) {
      assert ValidHold(s, s.holds[i]);
    }
  }

  lemma FindEntryAppend(ledger: seq<Entry>, e: Entry, key: Key)
    ensures FindEntry(ledger + [e], key)
         == if FindEntry(ledger, key).Some? then FindEntry(ledger, key)
            else if e.key == key then Some(|ledger|) else None
  {
    assert (ledger + [e])[..|ledger|] == ledger;
  }

  lemma AppendEntryKeepsKeys(s: State, t: State, e: Entry)
    requires UniqueKeys(s) && FindEntry(s.ledger, e.key).None?
    requires t.ledger == s.ledger + [e] && t.holds == s.holds
    requires t.usages == s.usages || t.usages.Keys == s.usages.Keys + {UsageKey(e.key)}
    ensures UniqueKeys(t)
  {
    hide FindEntry;
    forall k | UsageKey(k) in t.usages ensures FindEntry(t.ledger, k).Some? {
      FindEntryAppend(s.ledger, e, k);
      if UsageKey(k) == UsageKey(e.key) {
        assert k == UsageKey(k)[..|k|] && e.key == UsageKey(e.key)[..|e.key|];
      }
    }
  }

  /** A write to one account row that keeps its allowance and hold total keeps the invariant. */
  lemma RowChangeKeepsInv(s: State, t: State, account: AccountId)
    requires Inv(s) && account in s.accounts && account in t.accounts
    requires t.accounts == s.accounts[account := t.accounts[account]]
    requires t.holds == s.holds && UniqueKeys(t)
    requires var a, b := s.accounts[account], t.accounts[account];
             ValidAccount(b) && b.allow == a.allow && b.held == a.held
    ensures Inv(t)
  {
    forall i | 0 <= i < |t.holds| ensures ValidHold(t, t.holds[i]) { assert ValidHold(s, s.holds[i]); }
  }

  /** The same for a write that also appends one ledger entry under a new key. */
  lemma LedgerMoveKeepsInv(s: State, t: State, account: AccountId)
    requires Inv(s) && account in s.accounts && account in t.accounts
    requires t.accounts == s.accounts[account := t.accounts[account]]
    requires t.holds == s.holds && t.usages == s.usages
    requires |t.ledger| == |s.ledger| + 1 && t.ledger == s.ledger + [t.ledger[|s.ledger|]]
    requires FindEntry(s.ledger, t.ledger[|s.ledger|].key).None?
    requires var a, b := s.accounts[account], t.accounts[account];
             ValidAccount(b) && b.allow == a.allow && b.held == a.held
    ensures Inv(t)
  {
    AppendEntryKeepsKeys(s, t, t.ledger[|s.ledger|]);
    RowChangeKeepsInv(s, t, account);
  }

  lemma PlaceHoldKeepsInv(s: State, c: Command)
    requires Inv(s) && c.PlaceHold?
    ensures Inv(Exec(s, c).state)
  {
    hide DailyStale, PeriodStale, DebitOf, Reserved, ExecEnsure, ExecGrant, ExecSpend, ExecReset, ExecCapture,
         ExecRelease, ExecRefresh, ExecReclaim, ExecDelete, ExecRestore;
    var t := Exec(s, c).state;
    if t == s { return; }
    var h := t.holds[|s.holds|];
    RefreshRowValid(s.accounts[c.account], c.now);
    DebitIsGreedy(RefreshRow(s.accounts[c.account], c.now).buckets, c.amount);
    forall a | a in t.accounts ensures t.accounts[a].held == Reserved(t.holds, a).amount {
      ReservedAppend(s.holds, h, a);
    }
    forall i | 0 <= i < |t.holds| ensures ValidHold(t, t.holds[i]) {
      if i < |s.holds| { assert ValidHold(s, s.holds[i]); }
    }
  }

  lemma EnsureKeepsInv(s: State, c: Command)
    requires Inv(s) && c.Ensure?
    ensures Inv(Exec(s, c).state)
  {
    var t := Exec(s, c).state;
    var account := c.account;
    if account !in s.accounts {
      forall i | 0 <= i < |s.holds| ensures ValidHold(t, s.holds[i]) && s.holds[i].account != account {
        assert ValidHold(s, s.holds[i]);
      }
      assert !HasActiveHold(s.holds, account);
      NothingReserved(s.holds, account);
    } else if t != s {
      RowChangeKeepsInv(s, t, account);
    }
  }

  lemma LedgerCallKeepsInv(s: State, c: Command)
    requires Inv(s) && (c.Grant? || c.Spend? || c.Reset?)
    ensures Inv(Exec(s, c).state)
  {
    hide DailyStale, PeriodStale, DebitOf, Reserved;
    var t := Exec(s, c).state;
    if t != s {
      if c.Spend? {
        RefreshRowValid(s.accounts[c.account], c.now);
        DebitIsGreedy(RefreshRow(s.accounts[c.account], c.now).buckets, c.amount);
      }
      LedgerMoveKeepsInv(s, t, c.account);
    }
  }

  lemma CaptureKeepsInv(s: State, c: Command)
    requires Inv(s) && c.Capture?
    ensures Inv(Exec(s, c).state)
  {
    hide DebitOf, FindEntry, Min, Max;
    var t := Exec(s, c).state;
    if t != s {
      var h := s.holds[c.hold];
      assert ValidHold(s, h);
      DebitIsGreedy(h.reserved, c.actual);
      var settled := SettleHold(s, c.hold, Captured, Unspent(h, c.actual));
      SettleKeepsInv(s, c.hold, Captured, Unspent(h, c.actual));
      AppendEntryKeepsKeys(settled, t, t.ledger[|s.ledger|]);
      forall i | 0 <= i < |t.holds| ensures ValidHold(t, t.holds[i]) { assert ValidHold(settled, settled.holds[i]); }
    }
  }

  lemma ReturnKeepsInv(s: State, c: Command)
    requires Inv(s) && (c.Release? || c.Reclaim?)
    ensures Inv(Exec(s, c).state)
  {
    if Exec(s, c).state != s {
      assert ValidHold(s, s.holds[c.hold]);
      SettleKeepsInv(s, c.hold, if c.Release? then Released else Expired, s.holds[c.hold].reserved);
    }
  }

  lemma RowCallKeepsInv(s: State, c: Command)
    requires Inv(s) && (c.RefreshAllowances? || c.Delete? || c.Restore?)
    ensures Inv(Exec(s, c).state)
  {
    var t := Exec(s, c).state;
    if t != s {
      if c.RefreshAllowances? {
        RefreshRowValid(s.accounts[c.account], c.now);
      }
      RowChangeKeepsInv(s, t, c.account);
    }
  }

  /** Every repository call keeps the invariant. */
  lemma StepKeepsInv(s: State, c: Command)
    requires Inv(s)
    ensures Inv(Exec(s, c).state)
  {
    match c
    case Ensure(_, _) => EnsureKeepsInv(s, c);
    case Grant(_, _, _, _, _) => LedgerCallKeepsInv(s, c);
    case Spend(_, _, _, _, _) => LedgerCallKeepsInv(s, c);
    case Reset(_, _, _, _, _) => LedgerCallKeepsInv(s, c);
    case PlaceHold(_, _, _, _, _) => PlaceHoldKeepsInv(s, c);
    case Capture(_, _, _, _, _) => CaptureKeepsInv(s, c);
    case Release(_) => ReturnKeepsInv(s, c);
    case Reclaim(_, _) => ReturnKeepsInv(s, c);
    case RefreshAllowances(_, _) => RowCallKeepsInv(s, c);
    case Delete(_) => RowCallKeepsInv(s, c);
    case Restore(_) => RowCallKeepsInv(s, c);
  }

  /** What a call does to the holds: at most one is appended, active and on a live
      account, and at most one stops being active. */
  lemma CallOnHolds(s: State, c: Command)
    requires Inv(s)
    ensures var t := Exec(s, c).state;
            && |s.holds| <= |t.holds|
            && (forall i ::
                0 <= i < |s.holds| ==>
                    t.holds[i] == s.holds[i] || t.holds[i] == s.holds[i].(status := t.holds[i].status))
            && (forall i :: 0 <= i < |s.holds| ==> t.holds[i].status.Active? ==> s.holds[i].status.Active?)
            && (forall i :: |s.holds| <= i < |t.holds| ==>
                  t.holds[i].account in s.accounts && !s.accounts[t.holds[i].account].deleted && !c.Delete?)
  {
    hide DailyStale, PeriodStale, DebitOf, Reserved, FindEntry, FindHold;
  }

  /** Only a deletion marks an account deleted, and only one without active holds. */
  lemma CallOnDeletion(s: State, c: Command, account: AccountId)
    requires Inv(s) && account in Exec(s, c).state.accounts && Exec(s, c).state.accounts[account].deleted
    ensures account in s.accounts
    ensures s.accounts[account].deleted || (c == Delete(account) && !HasActiveHold(s.holds, account))
  {
    hide DailyStale, PeriodStale, DebitOf, Reserved, FindEntry, FindHold, HasActiveHold;
    if c.Capture? || c.Release? || c.Reclaim? {
      if c.hold < |s.holds| { assert ValidHold(s, s.holds[c.hold]); }
    }
  }

  lemma StepKeepsIdle(s: State, c: Command)
    requires Inv(s) && DeletedIdle(s)
    ensures DeletedIdle(Exec(s, c).state)
  {
    hide Exec, Inv;
    var t := Exec(s, c).state;
    CallOnHolds(s, c);
    forall a | a in t.accounts && t.accounts[a].deleted ensures !HasActiveHold(t.holds, a) {
      CallOnDeletion(s, c, a);
    }
  }

  /** Every state any sequence of calls can reach from empty tables: buckets are
      never negative, time buckets never exceed their allowance, `held` is the sum
      of the active reservations, each reservation splits into its three parts, a
      deleted account holds nothing, and idempotency keys are unique. */
  lemma {:induction false} RunKeepsInv(s: State, cs: seq<Command>)
    requires Inv(s)
    ensures Inv(Run(s, cs))
    ensures DeletedIdle(s) ==> DeletedIdle(Run(s, cs))
    decreases |cs|
  {
    hide Inv, DeletedIdle, Exec;
    if |cs| > 0 {
      StepKeepsInv(s, cs[0]);
      if DeletedIdle(s) { StepKeepsIdle(s, cs[0]); }
      RunKeepsInv(Exec(s, cs[0]).state, cs[1..]);
    }
  }

  lemma DeletedAccountHoldsNothing(cs: seq<Command>, account: AccountId)
    ensures var s := Run(EMPTY, cs);
            account in s.accounts && s.accounts[account].deleted ==>
              s.accounts[account].held == 0 && !HasActiveHold(s.holds, account)
  {
    RunKeepsInv(EMPTY, cs);
    var s := Run(EMPTY, cs);
    if account in s.accounts && s.accounts[account].deleted {
      NothingReserved(s.holds, account);
    }
  }

  /** What a posted entry records as the balance after it: the permanent bucket for a
      grant or reset, the three buckets together for a spend or capture. The two mean
      the same exactly when no time credit is left. */
  lemma BalanceAfterMeans(s: State, c: Command)
    requires Inv(s)
    ensures var t := Exec(s, c).state;
            |t.ledger| > |s.ledger| ==>
              (var e := t.ledger[|s.ledger|];
               && e.account in t.accounts
               && (var b := t.accounts[e.account].buckets;
                   && (e.balanceAfter == Available(b) <==> c.Spend? || c.Capture? || b.daily + b.period == 0)
                   && (e.balanceAfter == b.permanent <==> c.Grant? || c.Reset? || b.daily + b.period == 0)))
  {
    hide DailyStale, PeriodStale, DebitOf, Reserved, FindEntry, FindHold;
  }
}
