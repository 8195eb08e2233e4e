/** The credit repository: accounts, holds, usage rows and the append-only ledger.
    `Exec` is the meaning of one repository call (one database transaction) on a
    snapshot of the tables; class `CreditRepository` does the same in place. */
module CreditEngine {
  import opened Options
  import opened CreditBuckets
  import opened ResetBoundary

  /** Stands for the unique (site, owner kind, owner) triple of an account. */
  type AccountId = string
  type Key = string

  datatype Reason = ManualAdjustment | SubscriptionGrant | ModelCall | ToolCall | RefundReversal | Welcome

  datatype HoldStatus = Active | Captured | Released | Expired

  /** `buckets.permanent` is the column `balanceMicros`; the allowances are never written. */
  datatype Account = Account(buckets: Buckets, held: int, dailyResetOn: Option<nat>, periodResetOn: Option<nat>,
                             allow: Allowances, active: bool, deleted: bool)

  datatype Entry = Entry(account: AccountId, amount: int, balanceAfter: int, reason: Reason, key: Key, at: nat)

  datatype Hold = Hold(account: AccountId, amount: int, reserved: Buckets, status: HoldStatus, key: Key,
                       expiresAt: Option<nat>)

  datatype Usage = Usage(account: AccountId, amount: int)

  /** Hold and entry ids are positions: rows are only ever appended. */
  datatype State = State(accounts: map<AccountId, Account>, holds: seq<Hold>, ledger: seq<Entry>,
                         usages: map<Key, Usage>)

  const EMPTY: State := State(map[], [], [], map[])

  datatype Command =
    | Ensure(account: AccountId, allow: Allowances)
    | Grant(account: AccountId, amount: int, reason: Reason, key: Key, now: nat)
    | Spend(account: AccountId, amount: int, reason: Reason, key: Key, now: nat)
    | Reset(account: AccountId, target: int, reason: Reason, key: Key, now: nat)
    | PlaceHold(account: AccountId, amount: int, key: Key, expiresAt: Option<nat>, now: nat)
    | Capture(hold: nat, actual: int, reason: Reason, key: Key, now: nat)
    | Release(hold: nat)
    | RefreshAllowances(account: AccountId, now: nat)
    | Reclaim(hold: nat, now: nat)
    | Delete(account: AccountId)
    | Restore(account: AccountId)

  datatype Error = InvalidAmount | AccountNotFound | AccountDeleted | InsufficientCredit | BelowHeld | HoldNotFound
    | HoldNotActive | CaptureExceedsHold | ActiveHoldExists | UniqueConflict

  datatype Outcome =
    | Mutation(entry: nat)
    | HoldRow(hold: nat)
    | AccountRow(account: AccountId)
    | Reclaimed(won: bool)
    | Failed(error: Error)

  datatype Result = Result(state: State, out: Outcome)

  // ---------------------------------------------------------------- row lookups

  function FindEntry(ledger: seq<Entry>, key: Key): (r: Option<nat>)
    ensures r.Some? ==> r.value < |ledger| && ledger[r.value].key == key
    ensures r.None? ==> forall i :: 0 <= i < |ledger| ==> ledger[i].key != key
  {
    PositionOf(ledger, (e: Entry) => e.key, key)
  }

  function FindHold(holds: seq<Hold>, key: Key): (r: Option<nat>)
    ensures r.Some? ==> r.value < |holds| && holds[r.value].key == key
    ensures r.None? ==> forall i :: 0 <= i < |holds| ==> holds[i].key != key
  {
    PositionOf(holds, (h: Hold) => h.key, key)
  }

  predicate HasActiveHold(holds: seq<Hold>, account: AccountId) {
    exists i :: 0 <= i < |holds| && holds[i].account == account && holds[i].status.Active?
  }

  // ---------------------------------------------------------------- row arithmetic

  function DailyStale(a: Account, now: nat): bool { IsStale(a.dailyResetOn, DailyBoundary(now)) }

  function PeriodStale(a: Account, now: nat): bool { IsStale(a.periodResetOn, PeriodBoundary(now)) }

  /** The lazily refreshed row: stale buckets are overwritten and their watermark moves to the boundary. */
  function RefreshRow(a: Account, now: nat): Account {
    a.(buckets := Refresh(a.buckets, a.allow, DailyStale(a, now), PeriodStale(a, now)),
       dailyResetOn := if DailyStale(a, now) then Some(DailyBoundary(now)) else a.dailyResetOn,
       periodResetOn := if PeriodStale(a, now) then Some(PeriodBoundary(now)) else a.periodResetOn)
  }

  /** Return part of a reservation and drop the whole of it from `held`. */
  function ReturnToBuckets(a: Account, returned: Buckets, heldDecrement: int): Account {
    a.(buckets := CreditBack(a.buckets, returned, a.allow), held := a.held - heldDecrement)
  }

  function SettleHold(s: State, hold: nat, status: HoldStatus, returned: Buckets): State
    requires hold < |s.holds| && s.holds[hold].account in s.accounts
  {
    var h := s.holds[hold];
    s.(holds := s.holds[hold := h.(status := status)],
       accounts := s.accounts[h.account := ReturnToBuckets(s.accounts[h.account], returned, h.amount)])
  }

  /** The part of a reservation that a capture of `actual` does not spend. */
  function Unspent(h: Hold, actual: int): Buckets { h.reserved.Minus(DebitOf(h.reserved, actual).taken) }

  // ---------------------------------------------------------------- one call

  function ExecEnsure(s: State, account: AccountId, allow: Allowances): Result {
    if account !in s.accounts then
      Result(s.(accounts := s.accounts[account := Account(Buckets(0, 0, 0), 0, None, None, allow, true, false)]),
             AccountRow(account))
    else if s.accounts[account].deleted then Result(s, Failed(AccountDeleted))
    else Result(s.(accounts := s.accounts[account := s.accounts[account].(active := true)]), AccountRow(account))
  }

  function ExecGrant(s: State, account: AccountId, amount: int, reason: Reason, key: Key, now: nat): Result {
    var existing := FindEntry(s.ledger, key);
    if existing.Some? then Result(s, Mutation(existing.value))
    else if amount <= 0 then Result(s, Failed(InvalidAmount))
    else if account !in s.accounts then Result(s, Failed(AccountNotFound))
    else if s.accounts[account].deleted then Result(s, Failed(AccountDeleted))
    else
      var a := s.accounts[account];
      var balance := a.buckets.permanent + amount;
      Result(s.(accounts := s.accounts[account := a.(buckets := a.buckets.(permanent := balance))],
                ledger := s.ledger + [Entry(account, amount, balance, reason, key, now)]),
             Mutation(|s.ledger|))
  }

  function ExecSpend(s: State, account: AccountId, amount: int, reason: Reason, key: Key, now: nat): Result {
    var existing := FindEntry(s.ledger, key);
    if existing.Some? then Result(s, Mutation(existing.value))
    else if amount <= 0 then Result(s, Failed(InvalidAmount))
    else if account !in s.accounts then Result(s, Failed(AccountNotFound))
    else if s.accounts[account].deleted then Result(s, Failed(AccountDeleted))
    else if !s.accounts[account].active then Result(s, Failed(InsufficientCredit))
    else
      var renewed := RefreshRow(s.accounts[account], now);
      var d := DebitOf(renewed.buckets, amount);
      if 0 < d.shortfall then Result(s, Failed(InsufficientCredit))
      else
        var left := renewed.buckets.Minus(d.taken);
        Result(s.(accounts := s.accounts[account := renewed.(buckets := left)],
                  ledger := s.ledger + [Entry(account, -amount, Available(left), reason, key, now)]),
               Mutation(|s.ledger|))
  }

  function ExecReset(s: State, account: AccountId, target: int, reason: Reason, key: Key, now: nat): Result {
    var existing := FindEntry(s.ledger, key);
    if existing.Some? then Result(s, Mutation(existing.value))
    else if target < 0 then Result(s, Failed(InvalidAmount))
    else if account !in s.accounts then Result(s, Failed(AccountNotFound))
    else if s.accounts[account].deleted then Result(s, Failed(AccountDeleted))
    else if target < s.accounts[account].held then Result(s, Failed(BelowHeld))
    else
      var a := s.accounts[account];
      Result(s.(accounts := s.accounts[account := a.(buckets := a.buckets.(permanent := target))],
                ledger := s.ledger + [Entry(account, target - a.buckets.permanent, target, reason, key, now)]),
             Mutation(|s.ledger|))
  }

  function ExecPlaceHold(s: State, account: AccountId, amount: int, key: Key, expiresAt: Option<nat>,
                         now: nat): Result {
    var existing := FindHold(s.holds, key);
    if existing.Some? then Result(s, HoldRow(existing.value))
    else if amount <= 0 then Result(s, Failed(InvalidAmount))
    else if account !in s.accounts then Result(s, Failed(AccountNotFound))
    else if s.accounts[account].deleted then Result(s, Failed(AccountDeleted))
    else if !s.accounts[account].active then Result(s, Failed(InsufficientCredit))
    else
      var renewed := RefreshRow(s.accounts[account], now);
      var d := DebitOf(renewed.buckets, amount);
      if 0 < d.shortfall then Result(s, Failed(InsufficientCredit))
      else
        Result(s.(accounts :=
                  s.accounts[account :=
                             renewed.(buckets := renewed.buckets.Minus(d.taken), held := renewed.held + amount)],
                  holds := s.holds + [Hold(account, amount, d.taken, Active, key, expiresAt)]),
               HoldRow(|s.holds|))
  }

  function UsageKey(key: Key): Key { key + ":usage" }

  function ExecCapture(s: State, hold: nat, actual: int, reason: Reason, key: Key, now: nat): Result {
    var existing := FindEntry(s.ledger, key);
    if existing.Some? then Result(s, Mutation(existing.value))
    else if actual <= 0 then Result(s, Failed(InvalidAmount))
    else if |s.holds| <= hold then Result(s, Failed(HoldNotFound))
    else if !s.holds[hold].status.Active? then Result(s, Failed(HoldNotActive))
    else if s.holds[hold].amount < actual then Result(s, Failed(CaptureExceedsHold))
    else if s.holds[hold].account !in s.accounts then Result(s, Failed(AccountNotFound))
    else if UsageKey(key) in s.usages then Result(s, Failed(UniqueConflict))
    else
      var h := s.holds[hold];
      var settled := SettleHold(s, hold, Captured, Unspent(h, actual));
      var balance := Available(settled.accounts[h.account].buckets);
      Result(settled.(ledger := s.ledger + [Entry(h.account, -actual, balance, reason, key, now)],
                      usages := s.usages[UsageKey(key) := Usage(h.account, actual)]),
             Mutation(|s.ledger|))
  }

  function ExecRelease(s: State, hold: nat): Result {
    if |s.holds| <= hold then Result(s, Failed(HoldNotFound))
    else if s.holds[hold].status.Released? then Result(s, HoldRow(hold))
    else if !s.holds[hold].status.Active? then Result(s, Failed(HoldNotActive))
    else if s.holds[hold].account !in s.accounts then Result(s, Failed(AccountNotFound))
    else Result(SettleHold(s, hold, Released, s.holds[hold].reserved), HoldRow(hold))
  }

  function ExecRefresh(s: State, account: AccountId, now: nat): Result {
    if account !in s.accounts then Result(s, Failed(AccountNotFound))
    else Result(s.(accounts := s.accounts[account := RefreshRow(s.accounts[account], now)]), AccountRow(account))
  }

  predicate Overdue(h: Hold, now: nat) { h.status.Active? && h.expiresAt.Some? && h.expiresAt.value < now }

  function ExecReclaim(s: State, hold: nat, now: nat): Result {
    if |s.holds| <= hold || !Overdue(s.holds[hold], now) then Result(s, Reclaimed(false))
    else if s.holds[hold].account !in s.accounts then Result(s, Failed(AccountNotFound))
    else Result(SettleHold(s, hold, Expired, s.holds[hold].reserved), Reclaimed(true))
  }

  function ExecDelete(s: State, account: AccountId): Result {
    if account !in s.accounts then Result(s, Failed(AccountNotFound))
    else if s.accounts[account].deleted then Result(s, AccountRow(account))
    else if HasActiveHold(s.holds, account) then Result(s, Failed(ActiveHoldExists))
    else Result(s.(accounts := s.accounts[account := s.accounts[account].(deleted := true)]), AccountRow(account))
  }

  function ExecRestore(s: State, account: AccountId): Result {
    if account !in s.accounts then Result(s, Failed(AccountNotFound))
    else Result(s.(accounts := s.accounts[account := s.accounts[account].(deleted := false)]), AccountRow(account))
  }

  /** The meaning of one repository call. */
  function Exec(s: State, c: Command): Result {
    match c
    case Ensure(account, allow) => ExecEnsure(s, account, allow)
    case Grant(account, amount, reason, key, now) => ExecGrant(s, account, amount, reason, key, now)
    case Spend(account, amount, reason, key, now) => ExecSpend(s, account, amount, reason, key, now)
    case Reset(account, target, reason, key, now) => ExecReset(s, account, target, reason, key, now)
    case PlaceHold(account, amount, key, expiresAt, now) => ExecPlaceHold(s, account, amount, key, expiresAt, now)
    case Capture(hold, actual, reason, key, now) => ExecCapture(s, hold, actual, reason, key, now)
    case Release(hold) => ExecRelease(s, hold)
    case RefreshAllowances(account, now) => ExecRefresh(s, account, now)
    case Reclaim(hold, now) => ExecReclaim(s, hold, now)
    case Delete(account) => ExecDelete(s, account)
    case Restore(account) => ExecRestore(s, account)
  }

  /** The state after a sequence of calls. */
  function Run(s: State, cs: seq<Command>): State
    decreases |cs|
  {
    if |cs| == 0 then s else Run(Exec(s, cs[0]).state, cs[1..])
  }

  lemma {:induction false} RunAppend(s: State, xs: seq<Command>, ys: seq<Command>)
    ensures Run(s, xs + ys) == Run(Run(s, xs), ys)
    decreases |xs|
  {
    if |xs| == 0 {
      assert xs + ys == ys;
    } else {
      assert (xs + ys)[1..] == xs[1..] + ys;
      RunAppend(Exec(s, xs[0]).state, xs[1..], ys);
    }
  }

  /** The ids a sweep collects before it starts: overdue active holds. */
  function OverdueIds(holds: seq<Hold>, now: nat, upTo: nat): (ids: seq<nat>)
    requires upTo <= |holds|
    ensures forall i :: i in ids <==> 0 <= i < upTo && Overdue(holds[i], now)
    ensures forall j :: 0 <= j < |ids| ==> ids[j] < upTo
    ensures forall j, k :: 0 <= j < k < |ids| ==> ids[j] < ids[k]
  {
    if upTo == 0 then []
    else
      var earlier := OverdueIds(holds, now, upTo - 1);
      if Overdue(holds[upTo - 1], now) then earlier + [upTo - 1] else earlier
  }

  // ---------------------------------------------------------------- in place

  /** The repository over its live tables. Each method is one transaction of the
      source, except the sweep, which loops over one transaction per hold. */
  class CreditRepository {
    var accounts: map<AccountId, Account>
    var holds: seq<Hold>
    var ledger: seq<Entry>
    var usages: map<Key, Usage>

    ghost function View(): State
      reads this
    {
      State(accounts, holds, ledger, usages)
    }

    constructor ()
      ensures View() == EMPTY
    {
      accounts, holds, ledger, usages := map[], [], [], map[];
    }

    method EnsureAccount(account: AccountId, allow: Allowances) returns (out: Outcome)
      modifies this
      ensures Result(View(), out) == Exec(old(View()), Ensure(account, allow))
    {
      if account in accounts {
        if accounts[account].deleted { return Failed(AccountDeleted); }
        accounts := accounts[account := accounts[account].(active := true)];
      } else {
        accounts := accounts[account := Account(Buckets(0, 0, 0), 0, None, None, allow, true, false)];
      }
      out := AccountRow(account);
    }

    method GrantCredits(account: AccountId, amount: int, reason: Reason, key: Key, now: nat) returns (out: Outcome)
      modifies this
      ensures Result(View(), out) == Exec(old(View()), Grant(account, amount, reason, key, now))
    {
      var existing := FindEntry(ledger, key);
      if existing.Some? { return Mutation(existing.value); }
      if amount <= 0 { return Failed(InvalidAmount); }
      if account !in accounts { return Failed(AccountNotFound); }
      var before := accounts[account];
      if before.deleted { return Failed(AccountDeleted); }
      var balance := before.buckets.permanent + amount;
      accounts := accounts[account := before.(buckets := before.buckets.(permanent := balance))];
      ledger := ledger + [Entry(account, amount, balance, reason, key, now)];
      out := Mutation(|ledger| - 1);
    }

    method SpendCredits(account: AccountId, amount: int, reason: Reason, key: Key, now: nat) returns (out: Outcome)
      modifies this
      ensures Result(View(), out) == Exec(old(View()), Spend(account, amount, reason, key, now))
    {
      var existing := FindEntry(ledger, key);
      if existing.Some? { return Mutation(existing.value); }
      if amount <= 0 { return Failed(InvalidAmount); }
      if account !in accounts { return Failed(AccountNotFound); }
      var row := accounts[account];
      if row.deleted { return Failed(AccountDeleted); }
      if !row.active { return Failed(InsufficientCredit); }
      var renewed := RefreshRow(row, now);
      var d := DebitInOrder(renewed.buckets, amount);
      if 0 < d.shortfall { return Failed(InsufficientCredit); }
      var left := renewed.buckets.Minus(d.taken);
      accounts := accounts[account := renewed.(buckets := left)];
      ledger := ledger + [Entry(account, -amount, Available(left), reason, key, now)];
      out := Mutation(|ledger| - 1);
    }

    method ResetBalance(account: AccountId, target: int, reason: Reason, key: Key, now: nat) returns (out: Outcome)
      modifies this
      ensures Result(View(), out) == Exec(old(View()), Reset(account, target, reason, key, now))
    {
      var existing := FindEntry(ledger, key);
      if existing.Some? { return Mutation(existing.value); }
      if target < 0 { return Failed(InvalidAmount); }
      if account !in accounts { return Failed(AccountNotFound); }
      var before := accounts[account];
      if before.deleted { return Failed(AccountDeleted); }
      if target < before.held { return Failed(BelowHeld); }
      accounts := accounts[account := before.(buckets := before.buckets.(permanent := target))];
      ledger := ledger + [Entry(account, target - before.buckets.permanent, target, reason, key, now)];
      out := Mutation(|ledger| - 1);
    }

    method HoldCredits(account: AccountId, amount: int, key: Key, expiresAt: Option<nat>,
                       now: nat) returns (out: Outcome)
      modifies this
      ensures Result(View(), out) == Exec(old(View()), PlaceHold(account, amount, key, expiresAt, now))
    {
      var existing := FindHold(holds, key);
      if existing.Some? { return HoldRow(existing.value); }
      if amount <= 0 { return Failed(InvalidAmount); }
      if account !in accounts { return Failed(AccountNotFound); }
      var row := accounts[account];
      if row.deleted { return Failed(AccountDeleted); }
      if !row.active { return Failed(InsufficientCredit); }
      var renewed := RefreshRow(row, now);
      var d := DebitInOrder(renewed.buckets, amount);
      if 0 < d.shortfall { return Failed(InsufficientCredit); }
      accounts :=
          accounts[account := renewed.(buckets := renewed.buckets.Minus(d.taken), held := renewed.held + amount)];
      holds := holds + [Hold(account, amount, d.taken, Active, key, expiresAt)];
      out := HoldRow(|holds| - 1);
    }

    /** The bucket half of a settlement; the caller has moved the hold's status. */
    method ApplyBucketReturn(account: AccountId, returned: Buckets, heldDecrement: int)
      requires account in accounts
      modifies this`accounts
      ensures accounts == old(accounts)[account := ReturnToBuckets(old(accounts)[account], returned, heldDecrement)]
    {
      var row := accounts[account];
      var next := CreditBack(row.buckets, returned, row.allow);
      accounts := accounts[account := row.(buckets := next, held := row.held - heldDecrement)];
    }

    method CaptureHold(id: nat, actual: int, reason: Reason, key: Key, now: nat) returns (out: Outcome)
      modifies this
      ensures Result(View(), out) == Exec(old(View()), Capture(id, actual, reason, key, now))
    {
      var existing := FindEntry(ledger, key);
      if existing.Some? { return Mutation(existing.value); }
      if actual <= 0 { return Failed(InvalidAmount); }
      if |holds| <= id { return Failed(HoldNotFound); }
      var hold := holds[id];
      if !hold.status.Active? { return Failed(HoldNotActive); }
      if hold.amount < actual { return Failed(CaptureExceedsHold); }
      // A failure from here on rolls the transaction back, so it is tested before the first write.
      if hold.account !in accounts { return Failed(AccountNotFound); }
      if UsageKey(key) in usages { return Failed(UniqueConflict); }
      holds := holds[id := hold.(status := Captured)];
      var spent := DebitInOrder(hold.reserved, actual);
      ApplyBucketReturn(hold.account, hold.reserved.Minus(spent.taken), hold.amount);
      ledger := ledger + [Entry(hold.account, -actual, Available(accounts[hold.account].buckets), reason, key, now)];
      usages := usages[UsageKey(key) := Usage(hold.account, actual)];
      out := Mutation(|ledger| - 1);
    }

    method ReleaseHold(id: nat) returns (out: Outcome)
      modifies this
      ensures Result(View(), out) == Exec(old(View()), Release(id))
    {
      if |holds| <= id { return Failed(HoldNotFound); }
      var hold := holds[id];
      if hold.status.Released? { return HoldRow(id); }
      if !hold.status.Active? { return Failed(HoldNotActive); }
      if hold.account !in accounts { return Failed(AccountNotFound); }
      holds := holds[id := hold.(status := Released)];
      ApplyBucketReturn(hold.account, hold.reserved, hold.amount);
      out := HoldRow(id);
    }

    method Refreshed(account: AccountId, now: nat) returns (out: Outcome)
      modifies this
      ensures Result(View(), out) == Exec(old(View()), RefreshAllowances(account, now))
    {
      if account !in accounts { return Failed(AccountNotFound); }
      var row := accounts[account];
      if !DailyStale(row, now) && !PeriodStale(row, now) {
        assert RefreshRow(row, now) == row;
        assert accounts == accounts[account := row];
        return AccountRow(account);
      }
      accounts := accounts[account := RefreshRow(row, now)];
      out := AccountRow(account);
    }

    method ReclaimExpiredHold(id: nat, now: nat) returns (out: Outcome)
      modifies this
      ensures Result(View(), out) == Exec(old(View()), Reclaim(id, now))
    {
      if |holds| <= id || !Overdue(holds[id], now) { return Reclaimed(false); }
      var hold := holds[id];
      if hold.account !in accounts { return Failed(AccountNotFound); }
      holds := holds[id := hold.(status := Expired)];
      ApplyBucketReturn(hold.account, hold.reserved, hold.amount);
      out := Reclaimed(true);
    }

    /** Collect the overdue ids, then reclaim them one transaction at a time.
        Every hold that was overdue is expired, no other hold changes, and the
        count is the number of overdue holds. The precondition is the foreign
        key from holds to accounts. */
    method SweepExpiredHolds(now: nat) returns (reclaimed: nat)
      requires forall i :: 0 <= i < |holds| ==> holds[i].account in accounts
      modifies this
      ensures |holds| == |old(holds)|
      ensures forall i :: 0 <= i < |holds| ==>
        holds[i] == if Overdue(old(holds)[i], now) then old(holds)[i].(status := Expired) else old(holds)[i]
      ensures reclaimed == |OverdueIds(old(holds), now, |old(holds)|)|
      ensures View() == Run(old(View()), ReclaimAll(OverdueIds(old(holds), now, |old(holds)|), now))
    {
      hide ReturnToBuckets, OverdueIds, ReclaimAll, Run;
      ghost var before := View();
      var ids := OverdueIds(holds, now, |holds|);
      assert Run(before, ReclaimAll([], now)) == before by { ReclaimNone(before, now); }
      assert ids[..0] == [];
      reclaimed := 0;
      var n := 0;
      while n < |ids|
        invariant n <= |ids| && reclaimed == n
        invariant |holds| == |before.holds| && accounts.Keys == before.accounts.Keys
        invariant forall i :: 0 <= i < |holds| ==>
          holds[i] == if i in ids[..n] then before.holds[i].(status := Expired) else before.holds[i]
        invariant View() == Run(before, ReclaimAll(ids[..n], now))
      {
        var id := ids[n];
        assert id in ids && id !in ids[..n];
        assert ids[..n + 1] == ids[..n] + [id];
        ReclaimAllStep(before, ids[..n], id, now);
        var out := ReclaimExpiredHold(id, now);
        if out == Reclaimed(true) {
          reclaimed := reclaimed + 1;
        }
        n := n + 1;
      }
      assert ids[..n] == ids;
    }

    method DeleteAccount(account: AccountId) returns (out: Outcome)
      modifies this
      ensures Result(View(), out) == Exec(old(View()), Delete(account))
    {
      if account !in accounts { return Failed(AccountNotFound); }
      if accounts[account].deleted { return AccountRow(account); }
      if HasActiveHold(holds, account) { return Failed(ActiveHoldExists); }
      accounts := accounts[account := accounts[account].(deleted := true)];
      out := AccountRow(account);
    }

    method RestoreAccount(account: AccountId) returns (out: Outcome)
      modifies this
      ensures Result(View(), out) == Exec(old(View()), Restore(account))
    {
      if account !in accounts { return Failed(AccountNotFound); }
      if !accounts[account].deleted {
        assert accounts == accounts[account := accounts[account].(deleted := false)];
        return AccountRow(account);
      }
      accounts := accounts[account := accounts[account].(deleted := false)];
      out := AccountRow(account);
    }
  }

  function ReclaimAll(ids: seq<nat>, now: nat): seq<Command> {
    seq(|ids|, i requires 0 <= i < |ids| => Reclaim(ids[i], now))
  }

  lemma ReclaimNone(s: State, now: nat)
    ensures Run(s, ReclaimAll([], now)) == s
  {
  }

  lemma ReclaimAllStep(s: State, ids: seq<nat>, id: nat, now: nat)
    ensures Run(s, ReclaimAll(ids + [id], now)) == Exec(Run(s, ReclaimAll(ids, now)), Reclaim(id, now)).state
  {
    assert ReclaimAll(ids + [id], now) == ReclaimAll(ids, now) + [Reclaim(id, now)];
    RunAppend(s, ReclaimAll(ids, now), [Reclaim(id, now)]);
    var t := Run(s, ReclaimAll(ids, now));
    assert [Reclaim(id, now)][1..] == [];
    assert Run(t, [Reclaim(id, now)]) == Run(Exec(t, Reclaim(id, now)).state, []);
  }
}
