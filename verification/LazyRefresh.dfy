/** Lazy refresh against a clock that resets allowances eagerly, for whole runs with
    spending, holds, settlements and sweeps in between. */
module LazyRefresh {
  import opened Options
  import opened CreditBuckets
  import opened ResetBoundary
  import opened CreditEngine
  import opened CreditInvariants

  // ---------------------------------------------------------------- one row

  /** Refreshing on the way changes nothing: only the last access time matters. */
  lemma RefreshAbsorbsEarlierRefresh(a: Account, earlier: nat, now: nat)
    requires earlier <= now
    ensures RefreshRow(RefreshRow(a, earlier), now) == RefreshRow(a, now)
  {
    BoundariesMonotone(earlier, now);
  }

  function RefreshAt(a: Account, times: seq<nat>): Account
    decreases |times|
  {
    if |times| == 0 then a else RefreshAt(RefreshRow(a, times[0]), times[1..])
  }

  predicate NonDecreasing(times: seq<nat>) { forall i, j :: 0 <= i < j < |times| ==> times[i] <= times[j] }

  /** A watermark never moves back. */
  predicate NoEarlier(w: Option<nat>, v: Option<nat>) { w.Some? ==> v.Some? && w.value <= v.value }

  /** Any non-decreasing series of accesses equals one access at the last time, and
      no watermark ever moves back. */
  lemma {:induction false} AccessesCollapse(a: Account, times: seq<nat>)
    requires |times| > 0 && NonDecreasing(times)
    ensures RefreshAt(a, times) == RefreshRow(a, times[|times| - 1])
    ensures NoEarlier(a.dailyResetOn, RefreshAt(a, times).dailyResetOn)
    ensures NoEarlier(a.periodResetOn, RefreshAt(a, times).periodResetOn)
    decreases |times|
  {
    if |times| == 1 {
      assert RefreshAt(RefreshRow(a, times[0]), times[1..]) == RefreshRow(a, times[0]);
    } else {
      AccessesCollapse(RefreshRow(a, times[0]), times[1..]);
      RefreshAbsorbsEarlierRefresh(a, times[0], times[|times| - 1]);
    }
  }

  predicate FirstOfMonth(day: nat) { CivilOf(day * DAY_MS).date == 1 }

  /** What a clock does at the midnight that opens day `day`: reset the daily bucket,
      and the period bucket too when a month begins. */
  function ClockReset(a: Account, day: nat): Account {
    var first := FirstOfMonth(day);
    a.(buckets := Buckets(a.allow.daily, if first then a.allow.period else a.buckets.period, a.buckets.permanent),
       dailyResetOn := Some(day * DAY_MS),
       periodResetOn := if first then Some(day * DAY_MS) else a.periodResetOn)
  }

  /** The clock-driven account after every midnight of the days `day + 1` to `last`. */
  function ClockDriven(a: Account, day: nat, last: nat): Account
    requires day <= last
    decreases last
  {
    if day == last then a else ClockReset(ClockDriven(a, day, last - 1), last)
  }

  predicate FreshAt(a: Account, now: nat) {
    a.dailyResetOn == Some(DailyBoundary(now)) && a.periodResetOn == Some(PeriodBoundary(now))
  }

  lemma DayTurn(day: nat)
    ensures DailyBoundary(day * DAY_MS) == day * DAY_MS
    ensures FirstOfMonth(day + 1) ==> PeriodBoundary((day + 1) * DAY_MS) == (day + 1) * DAY_MS
    ensures !FirstOfMonth(day + 1) ==> PeriodBoundary((day + 1) * DAY_MS) == PeriodBoundary(day * DAY_MS)
  {
    hide DailyBoundary, PeriodBoundary, CivilFrom;
    DailyBoundaryIsLastMidnight(day * DAY_MS);
    assert (day + 1) * DAY_MS / DAY_MS == day + 1 && day * DAY_MS / DAY_MS == day;
    CivilFromCorrect(0, day + 1);
    var c := CivilOf((day + 1) * DAY_MS);
    var k := MonthIndex(c);
    PeriodBoundaryIsMonthStart((day + 1) * DAY_MS, k);
    PeriodBoundaryIsMonthStart(day * DAY_MS, k);
    assert MonthStart(k + 1) == MonthStart(k) + MonthLength(k);
    assert MonthStart(k) + c.date - 1 == day + 1;
  }

  lemma {:induction false} FreshIsClockDriven(a: Account, s: nat, t: nat)
    requires s <= t && FreshAt(a, s)
    ensures RefreshRow(a, t) == ClockDriven(a, s / DAY_MS, t / DAY_MS)
    ensures FreshAt(RefreshRow(a, t), t)
    decreases t / DAY_MS
  {
    FreshStaysFresh(a, s, t);
    var first, today := s / DAY_MS, t / DAY_MS;
    SameDaySameRefresh(a, t);
    if first < today {
      var yesterday := (today - 1) * DAY_MS;
      assert yesterday / DAY_MS == today - 1;
      if first == today - 1 {
        FreshAllDay(a, s);
        TurnOfDay(a, first);
      } else {
        FreshIsClockDriven(a, s, yesterday);
        TurnOfDay(RefreshRow(a, yesterday), today - 1);
        RefreshAbsorbsEarlierRefresh(a, yesterday, today * DAY_MS);
      }
    } else {
      FreshAllDay(a, s);
      FreshAllDay(a, t);
    }
  }

  /** No watermark lies ahead of the clock. */
  predicate NotAhead(a: Account, now: nat) {
    && (a.dailyResetOn.Some? ==> a.dailyResetOn.value <= DailyBoundary(now))
    && (a.periodResetOn.Some? ==> a.periodResetOn.value <= PeriodBoundary(now))
  }

  /** Lazy equals eager: an account, refreshed before or never, that is read at `s` and
      next at `t` holds what the account of the first read holds after a clock has reset
      it at all midnights in between. */
  lemma LazyIsClockDriven(a: Account, s: nat, t: nat)
    requires s <= t && NotAhead(a, s)
    ensures RefreshRow(a, t) == ClockDriven(RefreshRow(a, s), s / DAY_MS, t / DAY_MS)
    ensures FreshAt(RefreshRow(a, t), t)
  {
    hide DailyBoundary, PeriodBoundary;
    FreshIsClockDriven(RefreshRow(a, s), s, t);
    RefreshAbsorbsEarlierRefresh(a, s, t);
  }

  lemma FreshStaysFresh(a: Account, s: nat, t: nat)
    requires s <= t && FreshAt(a, s)
    ensures FreshAt(RefreshRow(a, t), t)
  {
    BoundariesMonotone(s, t);
  }

  /** Being fresh at some time of a day is being fresh at its midnight, and then nothing is due. */
  lemma FreshAllDay(a: Account, t: nat)
    ensures FreshAt(a, t) <==> FreshAt(a, t / DAY_MS * DAY_MS)
    ensures FreshAt(a, t) ==> RefreshRow(a, t) == a
  {
    DailyBoundaryIsLastMidnight(t);
    PeriodBoundaryFacts(t);
  }

  lemma SameDaySameRefresh(a: Account, t: nat)
    ensures RefreshRow(a, t) == RefreshRow(a, t / DAY_MS * DAY_MS)
  {
    DailyBoundaryIsLastMidnight(t);
    PeriodBoundaryFacts(t);
  }

  lemma TurnOfDay(a: Account, day: nat)
    requires FreshAt(a, day * DAY_MS)
    ensures RefreshRow(a, (day + 1) * DAY_MS) == ClockReset(a, day + 1)
  {
    DayTurn(day);
    DayTurn(day + 1);
    BoundariesMonotone(day * DAY_MS, (day + 1) * DAY_MS);
    PeriodBoundaryFacts(day * DAY_MS);
  }

  // ---------------------------------------------------------------- whole runs

  /** Entries up to the recorded balance snapshot. */
  function Posting(e: Entry): Entry { e.(balanceAfter := 0) }

  /** The same tables, but for refreshes that a reader at `now` would still perform. */
  ghost predicate SameFrom(s: State, e: State, now: nat) {
    && s.holds == e.holds && s.usages == e.usages
    && |s.ledger| == |e.ledger| && (forall i :: 0 <= i < |s.ledger| ==> Posting(s.ledger[i]) == Posting(e.ledger[i]))
    && s.accounts.Keys == e.accounts.Keys
    && (forall a :: a in s.accounts ==> RefreshRow(s.accounts[a], now) == RefreshRow(e.accounts[a], now))
  }

  lemma SameFromLater(s: State, e: State, earlier: nat, now: nat)
    requires SameFrom(s, e, earlier) && earlier <= now
    ensures SameFrom(s, e, now)
  {
    forall a | a in s.accounts ensures RefreshRow(s.accounts[a], now) == RefreshRow(e.accounts[a], now) {
      RefreshAbsorbsEarlierRefresh(s.accounts[a], earlier, now);
      RefreshAbsorbsEarlierRefresh(e.accounts[a], earlier, now);
    }
  }

  lemma {:induction false} SameLookups(l: seq<Entry>, m: seq<Entry>, key: Key)
    requires |l| == |m| && forall i :: 0 <= i < |l| ==> Posting(l[i]) == Posting(m[i])
    ensures FindEntry(l, key) == FindEntry(m, key)
  {
    if |l| > 0 {
      assert Posting(l[|l| - 1]) == Posting(m[|m| - 1]);
      SameLookups(l[..|l| - 1], m[..|m| - 1], key);
    }
  }

  /** A give-back to a stale row and to its refreshed twin look the same to the next reader. */
  lemma ReturnCommutesWithRefresh(a: Account, b: Account, returned: Buckets, held: int, now: nat)
    requires RefreshRow(a, now) == RefreshRow(b, now)
    requires returned.NonNegative()
    ensures RefreshRow(ReturnToBuckets(a, returned, held), now) == RefreshRow(ReturnToBuckets(b, returned, held), now)
    ensures a.allow == b.allow
  {
    assert a.allow == RefreshRow(a, now).allow == RefreshRow(b, now).allow == b.allow;
    assert a.held == RefreshRow(a, now).held == RefreshRow(b, now).held == b.held;
    ReturnRefreshed(a, returned, held, now);
    ReturnRefreshed(b, returned, held, now);
  }

  /** Refresh first and give back after is, up to the caps, give back first and refresh after. */
  lemma ReturnRefreshed(a: Account, returned: Buckets, held: int, now: nat)
    requires returned.NonNegative()
    ensures RefreshRow(ReturnToBuckets(a, returned, held), now) == ReturnToBuckets(RefreshRow(a, now), returned, held)
  {
  }

  function ClockOf(c: Command, clock: nat): nat {
    match c
    case Grant(_, _, _, _, now) => now
    case Spend(_, _, _, _, now) => now
    case Reset(_, _, _, _, now) => now
    case PlaceHold(_, _, _, _, now) => now
    case Capture(_, _, _, _, now) => now
    case RefreshAllowances(_, now) => now
    case Reclaim(_, now) => now
    case _ => clock
  }

  lemma SettlementStaysSame(s: State, e: State, hold: nat, status: HoldStatus, returned: Buckets, now: nat)
    requires SameFrom(s, e, now) && Inv(s)
    requires hold < |s.holds| && s.holds[hold].account in s.accounts && returned.NonNegative()
    ensures SameFrom(SettleHold(s, hold, status, returned), SettleHold(e, hold, status, returned), now)
  {
    var h := s.holds[hold];
    ReturnCommutesWithRefresh(s.accounts[h.account], e.accounts[h.account], returned, h.amount, now);
  }

  lemma RowStaysSame(s: State, e: State, account: AccountId, a: Account, b: Account, now: nat)
    requires SameFrom(s, e, now) && RefreshRow(a, now) == RefreshRow(b, now)
    ensures SameFrom(s.(accounts := s.accounts[account := a]), e.(accounts := e.accounts[account := b]), now)
  {
  }

  /** Rows that refresh alike agree on everything a call looks at besides time buckets. */
  lemma SameRowFacts(a: Account, b: Account, now: nat)
    requires RefreshRow(a, now) == RefreshRow(b, now)
    ensures a.allow == b.allow && a.held == b.held && a.active == b.active && a.deleted == b.deleted
    ensures a.buckets.permanent == b.buckets.permanent
  {
    assert RefreshRow(a, now).allow == a.allow && RefreshRow(b, now).allow == b.allow;
    assert RefreshRow(a, now).active == a.active && RefreshRow(b, now).active == b.active;
    assert RefreshRow(a, now).deleted == a.deleted && RefreshRow(b, now).deleted == b.deleted;
    assert RefreshRow(a, now).held == a.held && RefreshRow(b, now).held == b.held;
    assert RefreshRow(a, now).buckets.permanent == a.buckets.permanent
        && RefreshRow(b, now).buckets.permanent == b.buckets.permanent;
  }

  /** A write of the permanent bucket commutes with refresh. */
  lemma PermanentWrite(a: Account, b: Account, permanent: int, now: nat)
    requires RefreshRow(a, now) == RefreshRow(b, now)
    ensures RefreshRow(a.(buckets := a.buckets.(permanent := permanent)), now)
         == RefreshRow(b.(buckets := b.buckets.(permanent := permanent)), now)
  {
    SameRowFacts(a, b, now);
    var r := RefreshRow(a, now);
    assert RefreshRow(a.(buckets := a.buckets.(permanent := permanent)), now)
        == r.(buckets := r.buckets.(permanent := permanent));
    assert RefreshRow(b.(buckets := b.buckets.(permanent := permanent)), now)
        == r.(buckets := r.buckets.(permanent := permanent));
  }

  /** One call, with `now` the time it runs at: on tables that a reader at `now`
      cannot tell apart it answers alike and leaves tables that stay alike. */
  ghost predicate StepsAlike(s: State, e: State, c: Command, now: nat) {
    Exec(s, c).out == Exec(e, c).out && SameFrom(Exec(s, c).state, Exec(e, c).state, now)
  }

  lemma RowCallsAlike(s: State, e: State, c: Command, now: nat)
    requires SameFrom(s, e, now) && now == ClockOf(c, now)
    requires c.Ensure? || c.Delete? || c.Restore? || c.RefreshAllowances?
    ensures StepsAlike(s, e, c, now)
  {
    hide DailyBoundary, PeriodBoundary, DebitOf, FindEntry;
    if c.account !in s.accounts {
      if c.Ensure? {
        var a := Account(Buckets(0, 0, 0), 0, None, None, c.allow, true, false);
        RowStaysSame(s, e, c.account, a, a, now);
      }
    } else {
      var a, b := s.accounts[c.account], e.accounts[c.account];
      SameRowFacts(a, b, now);
      FlagWrite(a, b, true, a.deleted, now);
      FlagWrite(a, b, a.active, true, now);
      FlagWrite(a, b, a.active, false, now);
      if c.Ensure? {
        if !a.deleted { RowStaysSame(s, e, c.account, a.(active := true), b.(active := true), now); }
      } else if c.Delete? {
        if !a.deleted && !HasActiveHold(s.holds, c.account) {
          RowStaysSame(s, e, c.account, a.(deleted := true), b.(deleted := true), now);
        }
      } else if c.Restore? {
        RowStaysSame(s, e, c.account, a.(deleted := false), b.(deleted := false), now);
      } else {
        RowStaysSame(s, e, c.account, RefreshRow(a, now), RefreshRow(b, now), now);
      }
    }
  }

  lemma FlagWrite(a: Account, b: Account, active: bool, deleted: bool, now: nat)
    requires RefreshRow(a, now) == RefreshRow(b, now)
    ensures RefreshRow(a.(active := active, deleted := deleted), now)
            == RefreshRow(b.(active := active, deleted := deleted), now)
    ensures a.(active := active, deleted := a.deleted) == a.(active := active)
    ensures a.(active := a.active, deleted := deleted) == a.(deleted := deleted)
  {
    SameRowFacts(a, b, now);
    assert RefreshRow(a.(active := active, deleted := deleted), now)
        == RefreshRow(a, now).(active := active, deleted := deleted);
    assert RefreshRow(b.(active := active, deleted := deleted), now)
        == RefreshRow(b, now).(active := active, deleted := deleted);
  }

  lemma GrantsAlike(s: State, e: State, c: Command, now: nat)
    requires SameFrom(s, e, now) && now == ClockOf(c, now)
    requires c.Grant? || c.Reset?
    ensures StepsAlike(s, e, c, now)
  {
    hide RefreshRow, FindEntry, ExecEnsure, ExecSpend, ExecPlaceHold, ExecCapture, ExecRelease, ExecRefresh,
         ExecReclaim, ExecDelete, ExecRestore;
    SameLookups(s.ledger, e.ledger, c.key);
    if c.account in s.accounts {
      var a, b := s.accounts[c.account], e.accounts[c.account];
      SameRowFacts(a, b, now);
      PermanentWrite(a, b, if c.Grant? then a.buckets.permanent + c.amount else c.target, now);
    }
  }

  lemma SpendsAlike(s: State, e: State, c: Command, now: nat)
    requires SameFrom(s, e, now) && now == ClockOf(c, now)
    requires c.Spend? || c.PlaceHold?
    ensures StepsAlike(s, e, c, now)
  {
    hide RefreshRow, DebitOf, FindEntry, FindHold, ExecEnsure, ExecGrant, ExecReset, ExecCapture, ExecRelease,
         ExecRefresh, ExecReclaim, ExecDelete, ExecRestore;
    SameLookups(s.ledger, e.ledger, c.key);
    if c.account in s.accounts {
      SameRowFacts(s.accounts[c.account], e.accounts[c.account], now);
    }
  }

  lemma CapturesAlike(s: State, e: State, c: Command, now: nat)
    requires SameFrom(s, e, now) && now == ClockOf(c, now) && Inv(s)
    requires c.Capture?
    ensures StepsAlike(s, e, c, now)
  {
    hide RefreshRow, FindEntry, ReturnToBuckets, DebitOf, ExecEnsure, ExecGrant, ExecSpend, ExecReset,
         ExecPlaceHold, ExecRelease, ExecRefresh, ExecReclaim, ExecDelete, ExecRestore;
    SameLookups(s.ledger, e.ledger, c.key);
    if Exec(s, c).state != s {
      var h := s.holds[c.hold];
      assert ValidHold(s, h);
      DebitIsGreedy(h.reserved, c.actual);
      SettlementStaysSame(s, e, c.hold, Captured, Unspent(h, c.actual), now);
    }
  }

  lemma ReturnsAlike(s: State, e: State, c: Command, now: nat)
    requires SameFrom(s, e, now) && now == ClockOf(c, now) && Inv(s)
    requires c.Release? || c.Reclaim?
    ensures StepsAlike(s, e, c, now)
  {
    hide RefreshRow, FindEntry, ReturnToBuckets, ExecEnsure, ExecGrant, ExecSpend, ExecReset, ExecPlaceHold,
         ExecCapture, ExecRefresh, ExecDelete, ExecRestore;
    if Exec(s, c).state != s {
      assert ValidHold(s, s.holds[c.hold]);
      SettlementStaysSame(s, e, c.hold, if c.Release? then Released else Expired, s.holds[c.hold].reserved, now);
    }
  }

  lemma EveryStepAlike(s: State, e: State, c: Command, clock: nat)
    requires SameFrom(s, e, clock) && clock <= ClockOf(c, clock) && Inv(s)
    ensures StepsAlike(s, e, c, ClockOf(c, clock))
  {
    var now := ClockOf(c, clock);
    SameFromLater(s, e, clock, now);
    match c
    case Ensure(_, _) => RowCallsAlike(s, e, c, now);
    case Grant(_, _, _, _, _) => GrantsAlike(s, e, c, now);
    case Spend(_, _, _, _, _) => SpendsAlike(s, e, c, now);
    case Reset(_, _, _, _, _) => GrantsAlike(s, e, c, now);
    case PlaceHold(_, _, _, _, _) => SpendsAlike(s, e, c, now);
    case Capture(_, _, _, _, _) => CapturesAlike(s, e, c, now);
    case Release(_) => ReturnsAlike(s, e, c, now);
    case Reclaim(_, _) => ReturnsAlike(s, e, c, now);
    case RefreshAllowances(_, _) => RowCallsAlike(s, e, c, now);
    case Delete(_) => RowCallsAlike(s, e, c, now);
    case Restore(_) => RowCallsAlike(s, e, c, now);
  }

  /** A step of an eager run: a call, or a refresh that only the eager run performs. */
  datatype Step = Call(command: Command) | EagerRefresh(account: AccountId, at: nat)

  function StepCommand(x: Step): Command {
    if x.Call? then x.command else RefreshAllowances(x.account, x.at)
  }

  /** The clock does not go back along the run. */
  predicate Ordered(xs: seq<Step>, clock: nat)
    decreases |xs|
  {
    |xs| > 0 ==> clock <= ClockOf(StepCommand(xs[0]), clock) && Ordered(xs[1..], ClockOf(StepCommand(xs[0]), clock))
  }

  function EndClock(xs: seq<Step>, clock: nat): nat
    decreases |xs|
  {
    if |xs| == 0 then clock else EndClock(xs[1..], ClockOf(StepCommand(xs[0]), clock))
  }

  /** Final tables and the answers to the calls. */
  datatype History = History(state: State, answers: seq<Outcome>)

  function Eagerly(s: State, xs: seq<Step>): History
    decreases |xs|
  {
    if |xs| == 0 then History(s, [])
    else
      var r := Exec(s, StepCommand(xs[0]));
      var rest := Eagerly(r.state, xs[1..]);
      History(rest.state, if xs[0].Call? then [r.out] + rest.answers else rest.answers)
  }

  /** The same run without the eager refreshes: what the source does. */
  function Lazily(s: State, xs: seq<Step>): History
    decreases |xs|
  {
    if |xs| == 0 then History(s, [])
    else if xs[0].EagerRefresh? then Lazily(s, xs[1..])
    else
      var r := Exec(s, xs[0].command);
      var rest := Lazily(r.state, xs[1..]);
      History(rest.state, [r.out] + rest.answers)
  }

  /** Refreshing accounts at any extra moments, in particular at every midnight,
      changes no answer of any later call, no hold, no usage row and no posted
      amount, and no bucket as the next reader sees it. */
  lemma {:induction false} EagerRefreshIsUnobservable(s: State, e: State, xs: seq<Step>, clock: nat)
    requires Inv(s) && Inv(e) && SameFrom(s, e, clock) && Ordered(xs, clock)
    ensures Lazily(s, xs).answers == Eagerly(e, xs).answers
    ensures SameFrom(Lazily(s, xs).state, Eagerly(e, xs).state, EndClock(xs, clock))
    decreases |xs|
  {
    hide Exec, Inv, SameFrom;
    if |xs| > 0 {
      var c := StepCommand(xs[0]);
      var now := ClockOf(c, clock);
      StepKeepsInv(s, c);
      StepKeepsInv(e, c);
      if xs[0].Call? {
        EveryStepAlike(s, e, c, clock);
        EagerRefreshIsUnobservable(Exec(s, c).state, Exec(e, c).state, xs[1..], now);
      } else {
        ExtraRefresh(s, e, c.account, c.now, clock);
        EagerRefreshIsUnobservable(s, Exec(e, c).state, xs[1..], now);
      }
    }
  }

  lemma ExtraRefresh(s: State, e: State, account: AccountId, now: nat, clock: nat)
    requires SameFrom(s, e, clock) && clock <= now
    ensures SameFrom(s, Exec(e, RefreshAllowances(account, now)).state, now)
    ensures ClockOf(RefreshAllowances(account, now), clock) == now
  {
    hide DailyBoundary, PeriodBoundary;
    SameFromLater(s, e, clock, now);
    if account in e.accounts { RefreshAbsorbsEarlierRefresh(e.accounts[account], now, now); }
  }

  // ---------------------------------------------------------------- the one visible trace

  /** The balance snapshot of a capture is the one column the two may disagree on,
      because a capture does not refresh first. They agree exactly when whatever is
      stale is filled up to its allowance by what the capture returns. */
  lemma CaptureSnapshotAgrees(s: State, c: Command)
    requires Inv(s) && c.Capture? && FindEntry(s.ledger, c.key).None? && Exec(s, c).out.Mutation?
    ensures c.hold < |s.holds| && s.holds[c.hold].account in s.accounts
    ensures var h := s.holds[c.hold];
            var a := s.accounts[h.account];
            var returned := Unspent(h, c.actual);
            var lazy := Exec(s, c);
            var eager := Exec(Exec(s, RefreshAllowances(h.account, c.now)).state, c);
            && lazy.out == eager.out == Mutation(|s.ledger|)
            && |lazy.state.ledger| == |eager.state.ledger| == |s.ledger| + 1
            && (lazy.state.ledger[|s.ledger|].balanceAfter == eager.state.ledger[|s.ledger|].balanceAfter
                <==> (DailyStale(a, c.now) ==> a.allow.daily <= a.buckets.daily + returned.daily)
                     && (PeriodStale(a, c.now) ==> a.allow.period <= a.buckets.period + returned.period))
  {
    hide DailyBoundary, PeriodBoundary, DebitOf, FindEntry;
    var h := s.holds[c.hold];
    assert ValidHold(s, h);
    DebitIsGreedy(h.reserved, c.actual);
    var a := s.accounts[h.account];
    assert ValidAccount(a);
    SnapshotGap(a, Unspent(h, c.actual), c.now);
  }

  lemma SnapshotGap(a: Account, returned: Buckets, now: nat)
    requires ValidAccount(a) && returned.NonNegative()
    ensures Available(CreditBack(a.buckets, returned, a.allow))
            == Available(CreditBack(RefreshRow(a, now).buckets, returned, a.allow))
       <==> (DailyStale(a, now) ==> a.allow.daily <= a.buckets.daily + returned.daily)
            && (PeriodStale(a, now) ==> a.allow.period <= a.buckets.period + returned.period)
  {
  }

  /** A team with a daily allowance, refreshed at time 0, with one hold placed and one
      spend made on that day. */
  function OneDay(team: AccountId, daily: nat, hold: int, spend: int, held: Key, spent: Key): seq<Command> {
    [Ensure(team, Allowances(daily, 0)), RefreshAllowances(team, 0), PlaceHold(team, hold, held, None, 0),
     Spend(team, spend, ManualAdjustment, spent, 0)]
  }

  /** The row of that team, with what is left of the day's allowance and what is held. */
  function DayRow(daily: nat, left: int, held: int): Account {
    Account(Buckets(left, 0, 0), held, Some(DailyBoundary(0)), Some(PeriodBoundary(0)), Allowances(daily, 0), true,
            false)
  }

  function AfterOneDay(team: AccountId, daily: nat, hold: int, spend: int, held: Key, spent: Key): State {
    State(map[team := DayRow(daily, daily - hold - spend, hold)],
          [Hold(team, hold, Buckets(hold, 0, 0), Active, held, None)],
          [Entry(team, -spend, daily - hold - spend, ManualAdjustment, spent, 0)], map[])
  }

  lemma FourCalls(s: State, a: Command, b: Command, c: Command, d: Command)
    ensures Run(s, [a, b, c, d]) == Exec(Exec(Exec(Exec(s, a).state, b).state, c).state, d).state
  {
    hide Exec;
    assert [a, b, c, d][1..] == [b, c, d] && [b, c, d][1..] == [c, d] && [c, d][1..] == [d] && [d][1..] == [];
    var s3 := Exec(Exec(Exec(s, a).state, b).state, c).state;
    assert Run(s3, [d]) == Run(Exec(s3, d).state, []);
    assert Run(Exec(Exec(s, a).state, b).state, [c, d]) == Run(s3, [d]);
    assert Run(Exec(s, a).state, [b, c, d]) == Run(Exec(Exec(s, a).state, b).state, [c, d]);
  }

  lemma DayRowIsFresh(daily: nat, left: int, held: int)
    ensures RefreshRow(DayRow(daily, left, held), 0) == DayRow(daily, left, held)
  {
    hide DailyBoundary, PeriodBoundary;
  }

  lemma DayOpens(team: AccountId, daily: nat)
    ensures Exec(Exec(EMPTY, Ensure(team, Allowances(daily, 0))).state, RefreshAllowances(team, 0)).state
            == State(map[team := DayRow(daily, daily, 0)], [], [], map[])
  {
    hide DailyBoundary, PeriodBoundary;
    var s := Exec(EMPTY, Ensure(team, Allowances(daily, 0))).state;
    assert s.accounts == map[team := s.accounts[team]];
    assert s.accounts[team := DayRow(daily, daily, 0)] == map[team := DayRow(daily, daily, 0)];
  }

  lemma DayHold(team: AccountId, daily: nat, hold: int, held: Key)
    requires 0 < hold <= daily
    ensures Exec(State(map[team := DayRow(daily, daily, 0)], [], [], map[]), PlaceHold(team, hold, held, None, 0)).state
            == State(map[team := DayRow(daily, daily - hold, hold)],
                     [Hold(team, hold, Buckets(hold, 0, 0), Active, held, None)], [], map[])
  {
    hide RefreshRow;
    var s := State(map[team := DayRow(daily, daily, 0)], [], [], map[]);
    DayRowIsFresh(daily, daily, 0);
    assert DebitOf(Buckets(daily, 0, 0), hold) == Debit(Buckets(hold, 0, 0), 0);
    var row := DayRow(daily, daily - hold, hold);
    assert s.accounts[team := row] == map[team := row];
  }

  lemma DaySpend(team: AccountId, daily: nat, hold: int, spend: int, held: Key, spent: Key)
    requires 0 < hold && 0 < spend && hold + spend <= daily
    ensures var holds := [Hold(team, hold, Buckets(hold, 0, 0), Active, held, None)];
            Exec(State(map[team := DayRow(daily, daily - hold, hold)], holds, [], map[]),
                 Spend(team, spend, ManualAdjustment, spent, 0)).state
            == AfterOneDay(team, daily, hold, spend, held, spent)
  {
    hide RefreshRow;
    var s :=
        State(map[team := DayRow(daily, daily - hold, hold)],
              [Hold(team, hold, Buckets(hold, 0, 0), Active, held, None)], [], map[]);
    DayRowIsFresh(daily, daily - hold, hold);
    assert DebitOf(Buckets(daily - hold, 0, 0), spend) == Debit(Buckets(spend, 0, 0), 0);
    var row := DayRow(daily, daily - hold - spend, hold);
    assert s.accounts[team := row] == map[team := row];
  }

  lemma OneDayRuns(team: AccountId, daily: nat, hold: int, spend: int, held: Key, spent: Key)
    requires 0 < hold && 0 < spend && hold + spend <= daily
    ensures Run(EMPTY, OneDay(team, daily, hold, spend, held, spent))
            == AfterOneDay(team, daily, hold, spend, held, spent)
  {
    hide Exec, Run, DayRow;
    var c := OneDay(team, daily, hold, spend, held, spent);
    FourCalls(EMPTY, c[0], c[1], c[2], c[3]);
    DayOpens(team, daily);
    DayHold(team, daily, hold, held);
    DaySpend(team, daily, hold, spend, held, spent);
  }

  /** The balance recorded when the hold is captured in full. */
  lemma CapturedInFull(s: State, team: AccountId, hold: int, captured: Key, now: nat)
    requires team in s.accounts && ValidAccount(s.accounts[team]) && 0 < hold && |s.holds| == 1
    requires s.holds[0].account == team && s.holds[0].amount == hold && s.holds[0].reserved == Buckets(hold, 0, 0)
             && s.holds[0].status.Active?
    requires FindEntry(s.ledger, captured).None? && s.usages == map[]
    ensures var ledger := Exec(s, Capture(0, hold, ModelCall, captured, now)).state.ledger;
            |ledger| == |s.ledger| + 1 && ledger[|s.ledger|].balanceAfter == Available(s.accounts[team].buckets)
  {
    hide FindEntry;
    assert Unspent(s.holds[0], hold) == Buckets(0, 0, 0);
    assert CreditBack(s.accounts[team].buckets, Buckets(0, 0, 0), s.accounts[team].allow) == s.accounts[team].buckets;
  }

  lemma NotYetPosted(ledger: seq<Entry>, key: Key)
    requires |ledger| == 1 && ledger[0].key != key
    ensures FindEntry(ledger, key).None?
  {
    assert ledger[..0] == [];
  }

  lemma NextDayIsStale(daily: nat, left: int, held: int, now: nat)
    requires DAY_MS <= now
    ensures RefreshRow(DayRow(daily, left, held), now).buckets == Buckets(daily, 0, 0)
  {
    hide PeriodBoundary, DailyBoundary;
    DailyBoundaryIsLastMidnight(0);
    DailyBoundaryIsLastMidnight(now);
  }

  /** A run in which the two differ: of a daily allowance of 100, 20 are held and 40 spent
      on the first day; captured in full on any later day, the hold records a balance of
      40, and of 100 had the account been refreshed first. */
  lemma CaptureSnapshotCanLag(team: AccountId, held: Key, spent: Key, captured: Key, now: nat)
    requires spent != captured && DAY_MS <= now
    ensures var s := Run(EMPTY, OneDay(team, 100, 20, 40, held, spent));
            var capture := Capture(0, 20, ModelCall, captured, now);
            var lazy, eager :=
                Exec(s, capture).state.ledger, Exec(Exec(s, RefreshAllowances(team, now)).state, capture).state.ledger;
            |lazy| == |eager| == 2 && lazy[1].balanceAfter == 40 && eager[1].balanceAfter == 100
  {
    LagsBy(team, 100, 20, 40, held, spent, captured, now);
  }

  lemma RefreshedState(s: State, team: AccountId, now: nat)
    requires team in s.accounts
    ensures Exec(s, RefreshAllowances(team, now)).state
            == s.(accounts := s.accounts[team := RefreshRow(s.accounts[team], now)])
  {
    hide RefreshRow;
  }

  /** The same capture by an account refreshed on a later day. */
  lemma CapturedAfterRefresh(s: State, team: AccountId, daily: nat, left: int, hold: int, captured: Key, now: nat)
    requires s.accounts == map[team := DayRow(daily, left, hold)] && 0 <= left <= daily && 0 < hold && DAY_MS <= now
    requires |s.holds| == 1
             && s.holds[0] == Hold(team, hold, Buckets(hold, 0, 0), Active, s.holds[0].key, s.holds[0].expiresAt)
    requires FindEntry(s.ledger, captured).None? && s.usages == map[]
    ensures var ledger :=
            Exec(Exec(s, RefreshAllowances(team, now)).state, Capture(0, hold, ModelCall, captured, now)).state.ledger;
            |ledger| == |s.ledger| + 1 && ledger[|s.ledger|].balanceAfter == daily
  {
    hide Exec, RefreshRow, FindEntry, DailyBoundary, PeriodBoundary;
    RefreshedState(s, team, now);
    NextDayIsStale(daily, left, hold, now);
    RefreshRowValid(s.accounts[team], now);
    CapturedInFull(Exec(s, RefreshAllowances(team, now)).state, team, hold, captured, now);
  }

  lemma LagsBy(team: AccountId, daily: nat, hold: int, spend: int, held: Key, spent: Key, captured: Key, now: nat)
    requires 0 < hold && 0 < spend && hold + spend <= daily && spent != captured && DAY_MS <= now
    ensures var s := Run(EMPTY, OneDay(team, daily, hold, spend, held, spent));
            var capture := Capture(0, hold, ModelCall, captured, now);
            var lazy, eager :=
                Exec(s, capture).state.ledger, Exec(Exec(s, RefreshAllowances(team, now)).state, capture).state.ledger;
            |lazy| == |eager| == 2 && lazy[1].balanceAfter == daily - hold - spend && eager[1].balanceAfter == daily
  {
    hide Exec, Run, OneDay, FindEntry, DailyBoundary, PeriodBoundary;
    OneDayRuns(team, daily, hold, spend, held, spent);
    var s := AfterOneDay(team, daily, hold, spend, held, spent);
    NotYetPosted(s.ledger, captured);
    CapturedInFull(s, team, hold, captured, now);
    CapturedAfterRefresh(s, team, daily, daily - hold - spend, hold, captured, now);
  }
}
