/** Usage billing on top of the credit repository: holds priced from an estimate and
    rounded up to whole credits, settlements priced from real use, and the monthly
    quota an organisation may set on an account. */
module UsageQuota {
  import opened Options
  import opened CreditBuckets
  import opened ResetBoundary
  import opened CreditEngine
  import opened CreditInvariants
  import opened CreditAnswers

  const MICROS_PER_CREDIT: int := 10_000

  function CeilToCreditMicros(micros: int): int {
    if micros <= 0 then 0
    else if micros % MICROS_PER_CREDIT == 0 then micros
    else micros + (MICROS_PER_CREDIT - micros % MICROS_PER_CREDIT)
  }

  predicate Whole(micros: int) { micros % MICROS_PER_CREDIT == 0 }

  /** The least number of whole credits that covers an amount. */
  lemma CeilIsLeast(micros: int, whole: int)
    requires Whole(whole)
    ensures Whole(CeilToCreditMicros(micros)) && micros <= CeilToCreditMicros(micros)
    ensures CeilToCreditMicros(micros) <= whole <==> 0 <= whole && micros <= whole
  {
    var k := whole / MICROS_PER_CREDIT;
    var q, r := micros / MICROS_PER_CREDIT, micros % MICROS_PER_CREDIT;
    assert whole == k * MICROS_PER_CREDIT && micros == q * MICROS_PER_CREDIT + r;
  }

  function ApplyBufferPercent(base: nat, percent: nat): nat { base * (100 + percent) / 100 }

  /** `welcome` is granted once to a new account; holds expire `ttl` ms after they are placed. */
  datatype Billing = Billing(bufferPercent: nat, ttl: nat, welcome: int, allow: Allowances)

  /** The amount a run freezes: the buffered estimate in whole credits, at least one. */
  function HoldAmount(estimate: nat, b: Billing): int {
    var buffered := ApplyBufferPercent(estimate, b.bufferPercent);
    CeilToCreditMicros(if buffered > 0 then buffered else 1)
  }

  // ---------------------------------------------------------------- the quota

  predicate UsageReason(r: Reason) { r.ModelCall? || r.ToolCall? }

  predicate Settles(e: Entry, account: AccountId, since: nat) {
    e.account == account && UsageReason(e.reason) && since <= e.at
  }

  function UsageSum(ledger: seq<Entry>, account: AccountId, since: nat): int {
    if |ledger| == 0 then 0
    else
      var e := ledger[|ledger| - 1];
      UsageSum(ledger[..|ledger| - 1], account, since) + if Settles(e, account, since) then e.amount else 0
  }

  function SumCapturedUsageSince(ledger: seq<Entry>, account: AccountId, since: nat): nat {
    var sum := UsageSum(ledger, account, since);
    if sum < 0 then -sum else sum
  }

  function HeldBy(s: State, account: AccountId): int { if account in s.accounts then s.accounts[account].held else 0 }

  /** This month's settled usage plus what active holds may still cost. */
  function Committed(s: State, account: AccountId, now: nat): int {
    SumCapturedUsageSince(s.ledger, account, PeriodBoundary(now)) + HeldBy(s, account)
  }

  /** Quotas by account; an account without one is not limited. */
  type Quotas = map<AccountId, int>

  datatype UsageOutcome = Repository(out: Outcome) | QuotaExceeded

  datatype Billed = Billed(state: State, out: UsageOutcome)

  datatype UsageCall =
    | HoldForUsage(account: AccountId, estimate: nat, key: Key, now: nat)
    | SettleUsage(hold: nat, price: nat, key: Key, now: nat)
    | Plain(command: Command, now: nat)

  function WelcomeKey(account: AccountId): Key { "welcome:" + account }

  /** Find or create the account, with its welcome grant when it is new. */
  function EnsureWelcomed(s: State, account: AccountId, b: Billing, now: nat): Result {
    var ensured := Exec(s, Ensure(account, b.allow));
    if account in s.accounts || b.welcome <= 0 then ensured
    else Result(Exec(ensured.state, Grant(account, b.welcome, Welcome, WelcomeKey(account), now)).state, ensured.out)
  }

  /** Held credit is read from the row that was ensured, before the welcome grant. */
  function ExecHoldForUsage(s: State, b: Billing, quotas: Quotas, account: AccountId, estimate: nat, key: Key,
                            now: nat): Billed {
    var ensured := EnsureWelcomed(s, account, b, now);
    if ensured.out.Failed? then Billed(ensured.state, Repository(ensured.out))
    else
      var amount := HoldAmount(estimate, b);
      if account in s.accounts && account in quotas && Committed(ensured.state, account, now) + amount > quotas[account]
      then Billed(ensured.state, QuotaExceeded)
      else
        var placed := Exec(ensured.state, PlaceHold(account, amount, key, Some(now + b.ttl), now));
        Billed(placed.state, Repository(placed.out))
  }

  function ExecSettleUsage(s: State, hold: nat, price: nat, key: Key, now: nat): Billed {
    if |s.holds| <= hold then Billed(s, Repository(Failed(HoldNotFound)))
    else
      var clamped := Min(CeilToCreditMicros(price), s.holds[hold].amount);
      var r := if clamped == 0 then Exec(s, Release(hold)) else Exec(s, Capture(hold, clamped, ModelCall, key, now));
      Billed(r.state, Repository(r.out))
  }

  function ExecUsage(s: State, b: Billing, quotas: Quotas, u: UsageCall): Billed {
    match u
    case HoldForUsage(account, estimate, key, now) => ExecHoldForUsage(s, b, quotas, account, estimate, key, now)
    case SettleUsage(hold, price, key, now) => ExecSettleUsage(s, hold, price, key, now)
    case Plain(command, _) => var r := Exec(s, command); Billed(r.state, Repository(r.out))
  }

  function RunUsage(s: State, b: Billing, quotas: Quotas, us: seq<UsageCall>): State
    decreases |us|
  {
    if |us| == 0 then s else RunUsage(ExecUsage(s, b, quotas, us[0]).state, b, quotas, us[1..])
  }

  /** Repository calls outside usage billing: they place no hold and post no usage. */
  predicate Neutral(c: Command) {
    match c
    case PlaceHold(_, _, _, _, _) => false
    case Capture(_, _, _, _, _) => false
    case Grant(_, _, reason, _, _) => !UsageReason(reason)
    case Spend(_, _, reason, _, _) => !UsageReason(reason)
    case Reset(_, _, reason, _, _) => !UsageReason(reason)
    case _ => true
  }

  predicate Sequential(us: seq<UsageCall>, clock: nat) {
    && (forall i :: 0 <= i < |us| ==> clock <= us[i].now && (us[i].Plain? ==> Neutral(us[i].command)))
    && (forall i, j :: 0 <= i < j < |us| ==> us[i].now <= us[j].now)
  }

  // ---------------------------------------------------------------- what every call keeps

  predicate UsageDebits(ledger: seq<Entry>) {
    forall i :: 0 <= i < |ledger| && UsageReason(ledger[i].reason) ==> ledger[i].amount <= 0
  }

  predicate WholeHolds(holds: seq<Hold>) { forall i :: 0 <= i < |holds| ==> Whole(holds[i].amount) }

  ghost predicate BillingOk(s: State, quotas: Quotas, clock: nat) {
    && Inv(s) && UsageDebits(s.ledger) && WholeHolds(s.holds)
    && (forall a :: a in quotas ==> a in s.accounts && Committed(s, a, clock) <= quotas[a])
  }

  lemma UsageSumAppend(ledger: seq<Entry>, e: Entry, account: AccountId, since: nat)
    ensures UsageSum(ledger + [e], account, since) == UsageSum(ledger, account, since) + if Settles(e, account, since)
            then e.amount else 0
  {
    assert (ledger + [e])[..|ledger|] == ledger;
  }

  /** A later period counts fewer debits. */
  lemma {:induction false} UsageSumMonotone(ledger: seq<Entry>, account: AccountId, since: nat, later: nat)
    requires UsageDebits(ledger) && since <= later
    ensures UsageSum(ledger, account, since) <= UsageSum(ledger, account, later) <= 0
    decreases |ledger|
  {
    if |ledger| > 0 { UsageSumMonotone(ledger[..|ledger| - 1], account, since, later); }
  }

  /** Time passing, a new month included, never raises what counts against the quota. */
  lemma CommittedLater(s: State, account: AccountId, clock: nat, now: nat)
    requires UsageDebits(s.ledger) && clock <= now
    ensures Committed(s, account, now) <= Committed(s, account, clock)
  {
    hide PeriodBoundary;
    BoundariesMonotone(clock, now);
    UsageSumMonotone(s.ledger, account, PeriodBoundary(clock), PeriodBoundary(now));
    UsageSumMonotone(s.ledger, account, PeriodBoundary(now), PeriodBoundary(now));
  }

  /** What a neutral call does to holds, held totals and the usage ledger. */
  lemma NeutralEffect(s: State, c: Command, account: AccountId, since: nat)
    requires Inv(s) && Neutral(c)
    ensures var t := Exec(s, c).state;
            && (account in s.accounts ==> account in t.accounts)
            && HeldBy(t, account) <= HeldBy(s, account)
            && UsageSum(t.ledger, account, since) == UsageSum(s.ledger, account, since)
            && (UsageDebits(s.ledger) ==> UsageDebits(t.ledger)) && (WholeHolds(s.holds) ==> WholeHolds(t.holds))
  {
    hide DailyBoundary, PeriodBoundary, DebitOf, FindEntry, Reserved, UsageSum;
    match c
    case Release(hold) => if hold < |s.holds| { assert ValidHold(s, s.holds[hold]); }
    case Reclaim(hold, _) => if hold < |s.holds| { assert ValidHold(s, s.holds[hold]); }
    case _ => NeutralPosts(s, c, account, since);
  }

  lemma NeutralPosts(s: State, c: Command, account: AccountId, since: nat)
    requires Neutral(c) && !c.Release? && !c.Reclaim?
    ensures var t := Exec(s, c).state;
            && (account in s.accounts ==> account in t.accounts)
            && HeldBy(t, account) <= HeldBy(s, account) && t.holds == s.holds
            && UsageSum(t.ledger, account, since) == UsageSum(s.ledger, account, since)
            && (UsageDebits(s.ledger) ==> UsageDebits(t.ledger))
  {
    hide DailyBoundary, PeriodBoundary, DebitOf, FindEntry, UsageSum;
    var t := Exec(s, c).state;
    if t.ledger != s.ledger { UsageSumAppend(s.ledger, t.ledger[|s.ledger|], account, since); }
  }

  lemma PlaceHoldEffect(s: State, account: AccountId, amount: int, key: Key, expiresAt: Option<nat>, now: nat,
                        other: AccountId)
    requires Whole(amount)
    ensures var t := Exec(s, PlaceHold(account, amount, key, expiresAt, now)).state;
            && t.ledger == s.ledger && t.accounts.Keys == s.accounts.Keys
            && HeldBy(t, other) <= HeldBy(s, other) + (if other == account && t != s then amount else 0)
            && (WholeHolds(s.holds) ==> WholeHolds(t.holds))
  {
    hide DailyBoundary, PeriodBoundary, DebitOf, FindHold;
  }

  /** A capture turns part of a hold into usage: what counts does not grow. */
  lemma CaptureEffect(s: State, hold: nat, actual: int, key: Key, now: nat, account: AccountId, since: nat)
    requires Inv(s) && UsageDebits(s.ledger) && WholeHolds(s.holds)
    ensures var t := Exec(s, Capture(hold, actual, ModelCall, key, now)).state;
            && t.accounts.Keys == s.accounts.Keys && UsageDebits(t.ledger) && WholeHolds(t.holds)
            && SumCapturedUsageSince(t.ledger, account, since) + HeldBy(t, account)
               <= SumCapturedUsageSince(s.ledger, account, since) + HeldBy(s, account)
  {
    hide DailyBoundary, PeriodBoundary, DebitOf, FindEntry, Reserved, UsageSum;
    UsageSumMonotone(s.ledger, account, since, since);
    var t := Exec(s, Capture(hold, actual, ModelCall, key, now)).state;
    if t != s {
      assert ValidHold(s, s.holds[hold]);
      UsageSumAppend(s.ledger, t.ledger[|s.ledger|], account, since);
    }
  }

  lemma PlainKeeps(s: State, quotas: Quotas, c: Command, clock: nat)
    requires BillingOk(s, quotas, clock) && Neutral(c)
    ensures BillingOk(Exec(s, c).state, quotas, clock)
  {
    hide PeriodBoundary, UsageSum, Inv, Exec;
    StepKeepsInv(s, c);
    forall a ensures NeutralFor(s, c, a, PeriodBoundary(clock)) { NeutralEffect(s, c, a, PeriodBoundary(clock)); }
    assert NeutralFor(s, c, "", PeriodBoundary(clock));
    forall a | a in quotas
      ensures a in Exec(s, c).state.accounts && Committed(Exec(s, c).state, a, clock) <= quotas[a]
    {
      assert NeutralFor(s, c, a, PeriodBoundary(clock));
    }
  }

  ghost predicate NeutralFor(s: State, c: Command, account: AccountId, since: nat) {
    var t := Exec(s, c).state;
    && (account in s.accounts ==> account in t.accounts)
    && HeldBy(t, account) <= HeldBy(s, account)
    && UsageSum(t.ledger, account, since) == UsageSum(s.ledger, account, since)
    && (UsageDebits(s.ledger) ==> UsageDebits(t.ledger)) && (WholeHolds(s.holds) ==> WholeHolds(t.holds))
  }

  lemma LaterKeeps(s: State, quotas: Quotas, clock: nat, now: nat)
    requires BillingOk(s, quotas, clock) && clock <= now
    ensures BillingOk(s, quotas, now)
  {
    hide PeriodBoundary, Inv, Committed;
    forall a | a in quotas ensures Committed(s, a, now) <= quotas[a] { CommittedLater(s, a, clock, now); }
  }

  lemma EnsureWelcomedKeeps(s: State, quotas: Quotas, account: AccountId, b: Billing, now: nat)
    requires BillingOk(s, quotas, now)
    ensures BillingOk(EnsureWelcomed(s, account, b, now).state, quotas, now)
    ensures !EnsureWelcomed(s, account, b, now).out.Failed? ==>
            account in EnsureWelcomed(s, account, b, now).state.accounts
  {
    hide BillingOk, Committed;
    PlainKeeps(s, quotas, Ensure(account, b.allow), now);
    var ensured := Exec(s, Ensure(account, b.allow)).state;
    PlainKeeps(ensured, quotas, Grant(account, b.welcome, Welcome, WelcomeKey(account), now), now);
  }

  lemma HoldAmountWhole(estimate: nat, b: Billing)
    ensures Whole(HoldAmount(estimate, b)) && MICROS_PER_CREDIT <= HoldAmount(estimate, b)
    ensures ApplyBufferPercent(estimate, b.bufferPercent) <= HoldAmount(estimate, b)
  {
    var buffered := ApplyBufferPercent(estimate, b.bufferPercent);
    CeilIsLeast(if buffered > 0 then buffered else 1, 0);
  }

  lemma HoldKeeps(s: State, b: Billing, quotas: Quotas, account: AccountId, estimate: nat, key: Key, now: nat)
    requires BillingOk(s, quotas, now)
    ensures BillingOk(ExecHoldForUsage(s, b, quotas, account, estimate, key, now).state, quotas, now)
  {
    hide PeriodBoundary, UsageSum, Inv, Exec, EnsureWelcomed, HoldAmount;
    EnsureWelcomedKeeps(s, quotas, account, b, now);
    var e := EnsureWelcomed(s, account, b, now).state;
    var amount := HoldAmount(estimate, b);
    HoldAmountWhole(estimate, b);
    var c := PlaceHold(account, amount, key, Some(now + b.ttl), now);
    StepKeepsInv(e, c);
    var t := Exec(e, c).state;
    PlaceHoldEffect(e, account, amount, key, Some(now + b.ttl), now, account);
    forall a | a in quotas ensures HeldBy(t, a) <= HeldBy(e, a) + (if a == account && t != e then amount else 0) {
      PlaceHoldEffect(e, account, amount, key, Some(now + b.ttl), now, a);
    }
  }

  lemma SettleKeeps(s: State, quotas: Quotas, hold: nat, price: nat, key: Key, now: nat)
    requires BillingOk(s, quotas, now)
    ensures BillingOk(ExecSettleUsage(s, hold, price, key, now).state, quotas, now)
  {
    hide PeriodBoundary, UsageSum, Inv, Exec, SumCapturedUsageSince;
    if hold < |s.holds| {
      var clamped := Min(CeilToCreditMicros(price), s.holds[hold].amount);
      if clamped == 0 {
        PlainKeeps(s, quotas, Release(hold), now);
      } else {
        StepKeepsInv(s, Capture(hold, clamped, ModelCall, key, now));
        CaptureEffect(s, hold, clamped, key, now, s.holds[hold].account, PeriodBoundary(now));
        var t := Exec(s, Capture(hold, clamped, ModelCall, key, now)).state;
        forall a | a in quotas
          ensures Committed(t, a, now) <= quotas[a]
        {
          CaptureEffect(s, hold, clamped, key, now, a, PeriodBoundary(now));
        }
      }
    }
  }

  lemma UsageStepKeeps(s: State, b: Billing, quotas: Quotas, u: UsageCall, clock: nat)
    requires BillingOk(s, quotas, clock) && clock <= u.now && (u.Plain? ==> Neutral(u.command))
    ensures BillingOk(ExecUsage(s, b, quotas, u).state, quotas, u.now)
  {
    hide BillingOk, Exec, ExecHoldForUsage, ExecSettleUsage;
    LaterKeeps(s, quotas, clock, u.now);
    match u
    case HoldForUsage(account, estimate, key, now) => HoldKeeps(s, b, quotas, account, estimate, key, now);
    case SettleUsage(hold, price, key, now) => SettleKeeps(s, quotas, hold, price, key, now);
    case Plain(command, now) => PlainKeeps(s, quotas, command, now);
  }

  function LastTime(us: seq<UsageCall>, clock: nat): nat { if |us| == 0 then clock else us[|us| - 1].now }

  lemma {:induction false} UsageRunKeeps(s: State, b: Billing, quotas: Quotas, us: seq<UsageCall>, clock: nat)
    requires BillingOk(s, quotas, clock) && Sequential(us, clock)
    ensures BillingOk(RunUsage(s, b, quotas, us), quotas, LastTime(us, clock))
    decreases |us|
  {
    hide BillingOk, ExecUsage;
    if |us| > 0 {
      UsageStepKeeps(s, b, quotas, us[0], clock);
      UsageRunKeeps(ExecUsage(s, b, quotas, us[0]).state, b, quotas, us[1..], us[0].now);
    }
  }

  // ---------------------------------------------------------------- results

  /** In a sequential run under fixed quotas, at any later moment and across any number
      of months: what an account has settled this month plus what it holds never
      exceeds its quota, and every hold is a positive number of whole credits. */
  lemma QuotaNeverExceeded(s: State, b: Billing, quotas: Quotas, us: seq<UsageCall>, clock: nat, account: AccountId,
                           now: nat)
    requires BillingOk(s, quotas, clock) && Sequential(us, clock)
    ensures account in quotas && LastTime(us, clock) <= now ==>
            Committed(RunUsage(s, b, quotas, us), account, now) <= quotas[account]
    ensures forall i :: 0 <= i < |RunUsage(s, b, quotas, us).holds| ==>
              RunUsage(s, b, quotas, us).holds[i].amount >= MICROS_PER_CREDIT
              && Whole(RunUsage(s, b, quotas, us).holds[i].amount)
  {
    hide Committed, RunUsage, UsageDebits, Reserved;
    UsageRunKeeps(s, b, quotas, us, clock);
    var t := RunUsage(s, b, quotas, us);
    if LastTime(us, clock) <= now { LaterKeeps(t, quotas, LastTime(us, clock), now); }
    forall i | 0 <= i < |t.holds| ensures t.holds[i].amount >= MICROS_PER_CREDIT && Whole(t.holds[i].amount) {
      assert ValidHold(t, t.holds[i]);
    }
  }

  /** The hold of an estimate is the least number of whole credits, at least one, that
      covers the estimate with its buffer, fractions of a micro cut off. */
  lemma HoldAmountExact(estimate: nat, b: Billing, whole: int)
    requires Whole(whole)
    ensures Whole(HoldAmount(estimate, b))
    ensures HoldAmount(estimate, b) <= whole <==> 0 < whole && estimate * (100 + b.bufferPercent) < (whole + 1) * 100
  {
    var buffered := ApplyBufferPercent(estimate, b.bufferPercent);
    CeilIsLeast(if buffered > 0 then buffered else 1, whole);
    FloorBelow(estimate * (100 + b.bufferPercent), whole);
  }

  lemma FloorBelow(n: nat, whole: int)
    ensures n / 100 <= whole <==> n < (whole + 1) * 100
  {
  }

  /** What a namespace can spend at its first usage call: its account as it stands, or a
      new one with its allowances and, under a fresh key, its welcome grant. */
  function FirstBalance(s: State, account: AccountId, b: Billing, now: nat): int {
    if account in s.accounts then Spendable(s.accounts[account], now)
    else
      b.allow.daily + b.allow.period
      + if 0 < b.welcome && NewEntryKey(s, WelcomeKey(account)) then b.welcome else 0
  }

  lemma WelcomedBalance(s: State, account: AccountId, b: Billing, now: nat)
    requires Inv(s) && (account in s.accounts ==> !s.accounts[account].deleted)
    ensures var r := EnsureWelcomed(s, account, b, now);
            && Inv(r.state) && !r.out.Failed? && Live(r.state, account) && r.state.accounts[account].active
            && Spendable(r.state.accounts[account], now) == FirstBalance(s, account, b, now)
            && r.state.holds == s.holds && r.state.accounts[account].held == HeldBy(s, account)
            && (account in s.accounts ==> r.state.ledger == s.ledger)
  {
    hide Exec, Inv;
    var e := Exec(s, Ensure(account, b.allow)).state;
    StepKeepsInv(s, Ensure(account, b.allow));
    EnsureAnswers(s, account, b.allow, now);
    if account !in s.accounts && 0 < b.welcome {
      StepKeepsInv(e, Grant(account, b.welcome, Welcome, WelcomeKey(account), now));
      GrantAnswers(e, account, b.welcome, Welcome, WelcomeKey(account), now);
    }
  }

  /** Welcome keys tell accounts apart. */
  lemma WelcomeKeysDistinct(a: AccountId, b: AccountId)
    ensures WelcomeKey(a) == WelcomeKey(b) <==> a == b
  {
    assert WelcomeKey(a)[8..] == a && WelcomeKey(b)[8..] == b;
  }

  /** The first call for an account opens it and posts one welcome grant of the configured
      amount to its permanent credit; a later one posts nothing. */
  lemma WelcomePosts(s: State, account: AccountId, b: Billing, now: nat)
    requires Inv(s) && 0 < b.welcome && NewEntryKey(s, "welcome:" + account) && !(account in s.accounts)
    ensures var r := EnsureWelcomed(s, account, b, now);
            && r.out == AccountRow(account) && account in r.state.accounts
            && r.state.accounts[account].buckets == Buckets(0, 0, b.welcome)
            && r.state.accounts.Keys == s.accounts.Keys + {account}
            && (forall other :: other in s.accounts ==> r.state.accounts[other] == s.accounts[other])
            && r.state.ledger
               == s.ledger + [Entry(account, b.welcome, b.welcome, Welcome, "welcome:" + account, now)]
            && r.state.holds == s.holds && r.state.usages == s.usages
            && EnsureWelcomed(r.state, account, b, now) == Result(r.state, AccountRow(account))
  {
    var e := Exec(s, Ensure(account, b.allow)).state;
    StepKeepsInv(s, Ensure(account, b.allow));
    EntryLookup(e, WelcomeKey(account));
    var r := EnsureWelcomed(s, account, b, now);
    assert r.state.accounts[account := r.state.accounts[account].(active := true)] == r.state.accounts;
  }

  /** What counts against a quota: each entry of the account for a model or tool call since
      the month began counts its amount, nothing else does, and held credit is added. */
  lemma CommittedIs(s: State, e: Entry, account: AccountId, now: nat)
    requires forall x :: x in s.ledger + [e] && (x.reason == ModelCall || x.reason == ToolCall) ==> x.amount <= 0
    ensures s.ledger == [] ==>
              Committed(s, account, now) == if account in s.accounts then s.accounts[account].held else 0
    ensures Committed(s.(ledger := s.ledger + [e]), account, now)
            == Committed(s, account, now)
               - if e.account == account && (e.reason == ModelCall || e.reason == ToolCall)
                    && PeriodBoundary(now) <= e.at then e.amount else 0
  {
    hide PeriodBoundary;
    var since, longer := PeriodBoundary(now), s.ledger + [e];
    assert longer[..|s.ledger|] == s.ledger;
    NeverCredits(s.ledger, account, since);
    NeverCredits(longer, account, since);
  }

  lemma {:induction false} NeverCredits(ledger: seq<Entry>, account: AccountId, since: nat)
    requires forall x :: x in ledger && (x.reason == ModelCall || x.reason == ToolCall) ==> x.amount <= 0
    ensures UsageSum(ledger, account, since) <= 0
    decreases |ledger|
  {
    if |ledger| > 0 { NeverCredits(ledger[..|ledger| - 1], account, since); }
  }

  /** A usage hold under a new key goes through exactly when the account is not deleted,
      the quota, if it has one, leaves room for the hold beside what is settled this month
      and held, and the account can spend it; an existing account need not be active. The
      hold carries that amount and expires `ttl` after it was placed. */
  lemma UsageHoldAnswers(s: State, b: Billing, quotas: Quotas, account: AccountId, estimate: nat, key: Key, now: nat)
    requires Inv(s) && NewHoldKey(s, key)
    ensures var t, amount := ExecHoldForUsage(s, b, quotas, account, estimate, key, now), HoldAmount(estimate, b);
            var deleted := account in s.accounts && s.accounts[account].deleted;
            var room := account in s.accounts && account in quotas ==>
                Committed(s, account, now) + amount <= quotas[account];
            && (t.out == Repository(Failed(AccountDeleted)) <==> deleted)
            && (t.out == QuotaExceeded <==> !deleted && !room)
            && (t.out == Repository(Failed(InsufficientCredit))
                <==> !deleted && room && FirstBalance(s, account, b, now) < amount)
            && (t.out == Repository(HoldRow(|s.holds|))
                <==> !deleted && room && amount <= FirstBalance(s, account, b, now))
            && (t.out == Repository(HoldRow(|s.holds|)) ==>
                  |t.state.holds| == |s.holds| + 1
                  && (var h := t.state.holds[|s.holds|];
                      h == Hold(account, amount, h.reserved, Active, key, Some(now + b.ttl))
                      && t.state.holds == s.holds + [h]))
  {
    hide Exec, Inv, EnsureWelcomed, HoldAmount, UsageSum, PeriodBoundary, Spendable;
    HoldAmountWhole(estimate, b);
    if account in s.accounts && s.accounts[account].deleted {
      EnsureAnswers(s, account, b.allow, now);
      DeletedNotWelcomed(s, account, b, now);
    } else {
      WelcomedBalance(s, account, b, now);
      HoldAnswers(EnsureWelcomed(s, account, b, now).state, account, HoldAmount(estimate, b), key, Some(now + b.ttl),
                  now);
    }
  }

  lemma DeletedNotWelcomed(s: State, account: AccountId, b: Billing, now: nat)
    requires account in s.accounts && s.accounts[account].deleted
    ensures EnsureWelcomed(s, account, b, now) == Result(s, Failed(AccountDeleted))
  {
  }

  /** A settlement charges the smaller of the hold and the least number of whole
      credits that covers the price, and gives the hold back when that is nothing. */
  lemma SettlementCharge(s: State, hold: nat, price: nat, key: Key, now: nat)
    requires Inv(s) && WholeHolds(s.holds) && hold < |s.holds| && s.holds[hold].status.Active?
             && FindEntry(s.ledger, key).None?
    ensures var t := ExecSettleUsage(s, hold, price, key, now);
            && (price == 0 ==>
                t.out == Repository(HoldRow(hold)) && t.state.ledger == s.ledger
                && t.state.holds[hold].status.Released?)
            && (price > 0 ==>
                  (t.out == Repository(Mutation(|s.ledger|)) && |t.state.ledger| == |s.ledger| + 1
                   && t.state.holds[hold].status.Captured?
                   && (var e := t.state.ledger[|s.ledger|];
                       var charged := 0 - e.amount;
                       && e == Entry(s.holds[hold].account, e.amount, e.balanceAfter, ModelCall, key, now)
                       && Whole(charged) && 0 < charged <= s.holds[hold].amount
                       && forall whole: int :: Whole(whole) && 0 < whole ==>
                            (charged <= whole <==> price <= whole || s.holds[hold].amount <= whole))))
  {
    hide DailyBoundary, PeriodBoundary, DebitOf, Reserved;
    assert ValidHold(s, s.holds[hold]);
    assert UsageKey(key) !in s.usages;
    forall whole: int | Whole(whole)
      ensures CeilToCreditMicros(price) <= whole <==> 0 <= whole && price <= whole
    {
      CeilIsLeast(price, whole);
    }
    CeilIsLeast(price, 0);
  }

  /** The quota is checked before the idempotency key: a repeated hold call is answered
      with its hold exactly when a new hold of that amount would still fit. */
  lemma RepeatedHoldNeedsRoom(s: State, b: Billing, quotas: Quotas, account: AccountId, estimate: nat, key: Key,
                              now: nat)
    requires account in s.accounts && !s.accounts[account].deleted && FindHold(s.holds, key).Some? && account in quotas
    ensures var t := ExecHoldForUsage(s, b, quotas, account, estimate, key, now);
            && (t.out == Repository(HoldRow(FindHold(s.holds, key).value))
                <==> Committed(s, account, now) + HoldAmount(estimate, b) <= quotas[account])
            && t.state.holds == s.holds && t.state.ledger == s.ledger
  {
    hide DailyBoundary, PeriodBoundary, DebitOf, HoldAmount, UsageSum;
  }

  // ---------------------------------------------------------------- the service

  class CreditService {
    const repository: CreditRepository
    const billing: Billing
    var quotas: Quotas

    constructor (repository: CreditRepository, billing: Billing, quotas: Quotas)
      ensures this.repository == repository && this.billing == billing && this.quotas == quotas
    {
      this.repository := repository;
      this.billing := billing;
      this.quotas := quotas;
    }

    method EnsureAccount(account: AccountId, now: nat) returns (out: Outcome)
      modifies repository
      ensures Result(repository.View(), out) == EnsureWelcomed(old(repository.View()), account, billing, now)
    {
      var created := account !in repository.accounts;
      out := repository.EnsureAccount(account, billing.allow);
      if created && billing.welcome > 0 {
        var granted := repository.GrantCredits(account, billing.welcome, Welcome, WelcomeKey(account), now);
      }
    }

    method PlaceUsageHold(account: AccountId, estimate: nat, key: Key, now: nat) returns (out: UsageOutcome)
      modifies repository
      ensures Billed(repository.View(), out)
              == ExecHoldForUsage(old(repository.View()), billing, quotas, account, estimate, key, now)
    {
      hide Exec, PeriodBoundary;
      var existed := account in repository.accounts;
      var ensured := EnsureAccount(account, now);
      if ensured.Failed? { return Repository(ensured); }
      var amount := HoldAmount(estimate, billing);
      if existed && account in quotas {
        var settled := SumCapturedUsageSince(repository.ledger, account, PeriodBoundary(now));
        var held := if account in repository.accounts then repository.accounts[account].held else 0;
        if settled + held + amount > quotas[account] { return QuotaExceeded; }
      }
      var placed := repository.HoldCredits(account, amount, key, Some(now + billing.ttl), now);
      out := Repository(placed);
    }

    method Settle(hold: nat, price: nat, key: Key, now: nat) returns (out: UsageOutcome)
      modifies repository
      ensures Billed(repository.View(), out) == ExecSettleUsage(old(repository.View()), hold, price, key, now)
    {
      hide Exec;
      if |repository.holds| <= hold { return Repository(Failed(HoldNotFound)); }
      var actual := CeilToCreditMicros(price);
      var clamped := if actual < repository.holds[hold].amount then actual else repository.holds[hold].amount;
      var r;
      if clamped == 0 {
        r := repository.ReleaseHold(hold);
      } else {
        r := repository.CaptureHold(hold, clamped, ModelCall, key, now);
      }
      out := Repository(r);
    }
  }
}
