/** Idempotency of the credit calls over whole runs, and the two-phase reserve and
    settle against a direct spend. */
module CreditReplay {
  import opened Options
  import opened CreditBuckets
  import opened CreditEngine
  import opened CreditInvariants

  // ---------------------------------------------------------------- duplicates

  predicate PostsUnderKey(c: Command) { c.Grant? || c.Spend? || c.Reset? || c.Capture? }

  /** `d` repeats `c`: the same idempotency key, whatever the other arguments, or
      for a release the same hold. */
  predicate Repeats(c: Command, d: Command) {
    || (PostsUnderKey(c) && PostsUnderKey(d) && d.key == c.key)
    || (c.PlaceHold? && d.PlaceHold? && d.key == c.key)
    || (c.Release? && d == c)
  }

  predicate Succeeded(out: Outcome) { !out.Failed? }

  /** `out` is already on record in `s`: a repeat of `c` will find it. */
  ghost predicate OnRecord(s: State, c: Command, out: Outcome) {
    || (PostsUnderKey(c) && out.Mutation? && FindEntry(s.ledger, c.key) == Some(out.entry))
    || (c.PlaceHold? && out.HoldRow? && FindHold(s.holds, c.key) == Some(out.hold))
    || (c.Release? && out == HoldRow(c.hold) && c.hold < |s.holds| && s.holds[c.hold].status.Released?)
  }

  lemma FindHoldAppend(holds: seq<Hold>, h: Hold, key: Key)
    ensures FindHold(holds + [h], key)
         == if FindHold(holds, key).Some? then FindHold(holds, key) else if h.key == key then Some(|holds|) else None
  {
    assert (holds + [h])[..|holds|] == holds;
  }

  lemma {:induction false} FindHoldUpdate(holds: seq<Hold>, i: nat, h: Hold, key: Key)
    requires i < |holds| && h.key == holds[i].key
    ensures FindHold(holds[i := h], key) == FindHold(holds, key)
  {
    var last := |holds| - 1;
    if i == last {
      assert holds[i := h][..last] == holds[..last];
    } else {
      assert holds[i := h][..last] == holds[..last][i := h];
      FindHoldUpdate(holds[..last], i, h, key);
    }
  }

  /** What a call may do to the rows: append one entry, append one hold or move one
      active hold's status; never rewrite or remove. */
  ghost predicate RowsOnlyGrow(s: State, t: State) {
    && (t.ledger == s.ledger || exists e :: t.ledger == s.ledger + [e])
    && (t.holds == s.holds
        || (exists h :: t.holds == s.holds + [h])
        || (exists i: nat, st: HoldStatus :: i < |s.holds| && s.holds[i].status.Active?
              && t.holds == s.holds[i := s.holds[i].(status := st)]))
  }

  lemma StepGrowsRows(s: State, c: Command)
    ensures RowsOnlyGrow(s, Exec(s, c).state)
  {
    var t := Exec(s, c).state;
    if t.ledger != s.ledger { assert t.ledger == s.ledger + [t.ledger[|s.ledger|]]; }
    if t.holds != s.holds {
      match c
      case PlaceHold(_, _, _, _, _) => assert t.holds == s.holds + [t.holds[|s.holds|]];
      case Capture(i, _, _, _, _) => assert t.holds == s.holds[i := s.holds[i].(status := Captured)];
      case Release(i) => assert t.holds == s.holds[i := s.holds[i].(status := Released)];
      case Reclaim(i, _) => assert t.holds == s.holds[i := s.holds[i].(status := Expired)];
    }
  }

  lemma RecordKept(s: State, t: State, c: Command, out: Outcome)
    requires OnRecord(s, c, out) && RowsOnlyGrow(s, t)
    ensures OnRecord(t, c, out)
  {
    if PostsUnderKey(c) {
      if t.ledger != s.ledger {
        var e :| t.ledger == s.ledger + [e];
        FindEntryAppend(s.ledger, e, c.key);
      }
    } else if t.holds != s.holds {
      if h :| t.holds == s.holds + [h] {
        if c.PlaceHold? { FindHoldAppend(s.holds, h, c.key); }
      } else {
        var i: nat, st: HoldStatus :| i < |s.holds| && s.holds[i].status.Active?
            && t.holds == s.holds[i := s.holds[i].(status := st)];
        if c.PlaceHold? { FindHoldUpdate(s.holds, i, s.holds[i].(status := st), c.key); }
      }
    }
  }

  lemma {:induction false} RecordKeptOverRun(s: State, cs: seq<Command>, c: Command, out: Outcome)
    requires OnRecord(s, c, out)
    ensures OnRecord(Run(s, cs), c, out)
    decreases |cs|
  {
    if |cs| > 0 {
      StepGrowsRows(s, cs[0]);
      RecordKept(s, Exec(s, cs[0]).state, c, out);
      RecordKeptOverRun(Exec(s, cs[0]).state, cs[1..], c, out);
    }
  }

  lemma SuccessIsRecorded(s: State, c: Command)
    requires PostsUnderKey(c) || c.PlaceHold? || c.Release?
    requires Succeeded(Exec(s, c).out)
    ensures OnRecord(Exec(s, c).state, c, Exec(s, c).out)
  {
    var t := Exec(s, c).state;
    if PostsUnderKey(c) && FindEntry(s.ledger, c.key).None? {
      FindEntryAppend(s.ledger, t.ledger[|s.ledger|], c.key);
    } else if c.PlaceHold? && FindHold(s.holds, c.key).None? {
      FindHoldAppend(s.holds, t.holds[|s.holds|], c.key);
    }
  }

  /** Once a call has succeeded, a repeat at any later point of any run changes no
      row at all and returns the same entry or hold. */
  lemma RepeatIsNoOp(s: State, c: Command, between: seq<Command>, d: Command)
    requires Repeats(c, d) && Succeeded(Exec(s, c).out)
    ensures var later := Run(Exec(s, c).state, between);
            Exec(later, d) == Result(later, Exec(s, c).out)
  {
    SuccessIsRecorded(s, c);
    RecordKeptOverRun(Exec(s, c).state, between, c, Exec(s, c).out);
  }

  /** So a run with a repeat inserted anywhere after the first success ends in the
      same state as the run without it. */
  lemma InsertedRepeatChangesNothing(s: State, before: seq<Command>, c: Command, between: seq<Command>, d: Command,
                                     after: seq<Command>)
    requires Repeats(c, d) && Succeeded(Exec(Run(s, before), c).out)
    ensures Run(s, before + [c] + between + [d] + after) == Run(s, before + [c] + between + after)
  {
    var s1 := Run(s, before + [c]);
    RunAppend(s, before, [c]);
    RunOne(Run(s, before), c);
    var s2 := Run(s1, between);
    RepeatIsNoOp(Run(s, before), c, between, d);
    RunOne(s2, d);
    RunAppend(s, before + [c], between);
    RunAppend(s, before + [c] + between, [d]);
    RunAppend(s, before + [c] + between + [d], after);
    RunAppend(s, before + [c] + between, after);
  }

  lemma RunOne(s: State, c: Command)
    ensures Run(s, [c]) == Exec(s, c).state
  {
    assert [c][1..] == [];
    assert Run(Exec(s, c).state, []) == Exec(s, c).state;
  }

  // ---------------------------------------------------------------- two phases

  /** `t` is any later state in which nothing has touched the account row and the
      hold that placing it in `s` produced. */
  ghost predicate Undisturbed(s: State, hold: Command, t: State)
    requires hold.PlaceHold? && Exec(s, hold).out == HoldRow(|s.holds|)
  {
    var held := Exec(s, hold).state;
    && |s.holds| < |t.holds| && |s.holds| < |held.holds| && t.holds[|s.holds|] == held.holds[|s.holds|]
    && hold.account in t.accounts && hold.account in held.accounts
    && t.accounts[hold.account] == held.accounts[hold.account]
  }

  lemma PlacedHold(s: State, c: Command)
    requires Inv(s) && c.PlaceHold? && FindHold(s.holds, c.key).None? && Succeeded(Exec(s, c).out)
    ensures Exec(s, c).out == HoldRow(|s.holds|) && c.account in s.accounts && 0 < c.amount
    ensures !s.accounts[c.account].deleted && s.accounts[c.account].active
    ensures var ready := RefreshRow(s.accounts[c.account], c.now);
            var d := DebitOf(ready.buckets, c.amount);
            && ready.buckets.NonNegative() && ValidAccount(ready) && IsGreedySplit(ready.buckets, c.amount, d)
            && d.shortfall == 0
            && Exec(s, c).state.accounts
                == s.accounts[c.account :=
                              ready.(buckets := ready.buckets.Minus(d.taken), held := ready.held + c.amount)]
            && Exec(s, c).state.holds == s.holds + [Hold(c.account, c.amount, d.taken, Active, c.key, c.expiresAt)]
            && Exec(s, c).state.ledger == s.ledger
  {
    RefreshRowValid(s.accounts[c.account], c.now);
    DebitIsGreedy(RefreshRow(s.accounts[c.account], c.now).buckets, c.amount);
  }

  /** A hold placed at `hold.now` and captured for `actual` in any undisturbed later
      state leaves the account row (buckets, watermarks, hold total) of a direct spend
      of `actual` at `hold.now`, and posts the entry that spend would have posted.
      The capture succeeds whenever its key is new. */
  lemma HoldThenCaptureIsSpend(s: State, hold: Command, t: State, actual: int, reason: Reason, key: Key, later: nat)
    requires Inv(s) && Inv(t)
    requires hold.PlaceHold? && 0 < actual <= hold.amount
    requires FindHold(s.holds, hold.key).None? && FindEntry(s.ledger, key).None? && FindEntry(t.ledger, key).None?
    requires Succeeded(Exec(s, hold).out) && Exec(s, hold).out == HoldRow(|s.holds|)
    requires Undisturbed(s, hold, t)
    ensures var settled := Exec(t, Capture(|s.holds|, actual, reason, key, later));
            var direct := Exec(s, Spend(hold.account, actual, reason, key, hold.now));
            && settled.out == Mutation(|t.ledger|) && direct.out == Mutation(|s.ledger|)
            && hold.account in direct.state.accounts && |direct.state.ledger| == |s.ledger| + 1
            && settled.state.accounts == t.accounts[hold.account := direct.state.accounts[hold.account]]
            && settled.state.ledger == t.ledger + [direct.state.ledger[|s.ledger|].(at := later)]
  {
    hide RefreshRow, DebitOf, FindEntry, Inv, ValidAccount, IsGreedySplit, Exec, ReturnToBuckets;
    PlacedHold(s, hold);
    var ready := RefreshRow(s.accounts[hold.account], hold.now);
    var reserved := DebitOf(ready.buckets, hold.amount).taken;
    DebitOfReservation(ready.buckets, hold.amount, actual);
    CapturedRow(ready, reserved, hold.amount, actual);
    SpendCovered(ready.buckets, hold.amount, actual);
    assert t.holds[|s.holds|] == Hold(hold.account, hold.amount, reserved, Active, hold.key, hold.expiresAt);
    CaptureGoesThrough(t, |s.holds|, actual, reason, key, later);
    SpendGoesThrough(s, hold.account, actual, reason, key, hold.now);
  }

  lemma CaptureGoesThrough(t: State, id: nat, actual: int, reason: Reason, key: Key, later: nat)
    requires Inv(t) && id < |t.holds| && t.holds[id].status.Active? && t.holds[id].account in t.accounts
    requires 0 < actual <= t.holds[id].amount && FindEntry(t.ledger, key).None?
    ensures var h := t.holds[id];
            var a := ReturnToBuckets(t.accounts[h.account], Unspent(h, actual), h.amount);
            var r := Exec(t, Capture(id, actual, reason, key, later));
            && r.out == Mutation(|t.ledger|) && r.state.accounts == t.accounts[h.account := a]
            && r.state.ledger == t.ledger + [Entry(h.account, -actual, Available(a.buckets), reason, key, later)]
  {
    hide DebitOf, FindEntry, ReturnToBuckets;
    assert UsageKey(key) !in t.usages;
  }

  lemma SpendGoesThrough(s: State, account: AccountId, actual: int, reason: Reason, key: Key, now: nat)
    requires account in s.accounts && !s.accounts[account].deleted && s.accounts[account].active
    requires 0 < actual && FindEntry(s.ledger, key).None?
             && DebitOf(RefreshRow(s.accounts[account], now).buckets, actual).shortfall == 0
    ensures var ready := RefreshRow(s.accounts[account], now);
            var left := ready.buckets.Minus(DebitOf(ready.buckets, actual).taken);
            var r := Exec(s, Spend(account, actual, reason, key, now));
            && r.out == Mutation(|s.ledger|) && r.state.accounts == s.accounts[account := ready.(buckets := left)]
            && r.state.ledger == s.ledger + [Entry(account, -actual, Available(left), reason, key, now)]
  {
    hide DebitOf, FindEntry, RefreshRow;
  }

  lemma SpendCovered(b: Buckets, amount: int, actual: int)
    requires b.NonNegative() && 0 < actual <= amount && DebitOf(b, amount).shortfall == 0
    ensures DebitOf(b, actual).shortfall == 0
  {
    DebitIsGreedy(b, amount);
    DebitIsGreedy(b, actual);
  }

  lemma CapturedRow(ready: Account, reserved: Buckets, amount: int, actual: int)
    requires ready.buckets.NonNegative() && ValidAccount(ready)
    requires reserved == DebitOf(ready.buckets, amount).taken
    requires DebitOf(reserved, actual) == DebitOf(ready.buckets, actual)
    ensures ReturnToBuckets(ready.(buckets := ready.buckets.Minus(reserved), held := ready.held + amount),
                            reserved.Minus(DebitOf(reserved, actual).taken), amount)
         == ready.(buckets := ready.buckets.Minus(DebitOf(ready.buckets, actual).taken))
  {
    DebitIsGreedy(ready.buckets, amount);
    DebitIsGreedy(reserved, actual);
    ReserveThenReturn(ready.buckets, reserved, DebitOf(reserved, actual).taken, ready.allow);
  }

  lemma ReserveThenReturn(b: Buckets, reserved: Buckets, spent: Buckets, allow: Allowances)
    requires b.daily <= allow.daily && b.period <= allow.period
    requires spent.NonNegative() && spent.AtMost(reserved)
    ensures CreditBack(b.Minus(reserved), reserved.Minus(spent), allow) == b.Minus(spent)
  {
  }

  /** A hold that is released, or expires, in any undisturbed later state leaves just
      the account refreshed at the time of the hold, and posts nothing. */
  lemma HoldThenReturnIsRefresh(s: State, hold: Command, t: State, c: Command)
    requires Inv(s) && hold.PlaceHold? && FindHold(s.holds, hold.key).None?
    requires Succeeded(Exec(s, hold).out) && Exec(s, hold).out == HoldRow(|s.holds|)
    requires Undisturbed(s, hold, t)
    requires c == Release(|s.holds|)
             || (c.Reclaim? && c.hold == |s.holds| && hold.expiresAt.Some? && hold.expiresAt.value < c.now)
    ensures var settled := Exec(t, c);
            && Succeeded(settled.out)
            && settled.state.accounts == t.accounts[hold.account := RefreshRow(s.accounts[hold.account], hold.now)]
            && settled.state.ledger == t.ledger
  {
    PlacedHold(s, hold);
    var ready := RefreshRow(s.accounts[hold.account], hold.now);
    var reserved := DebitOf(ready.buckets, hold.amount).taken;
    ReserveThenReturn(ready.buckets, reserved, Buckets(0, 0, 0), ready.allow);
    assert reserved.Minus(Buckets(0, 0, 0)) == reserved;
    assert ready.buckets.Minus(Buckets(0, 0, 0)) == ready.buckets;
  }
}
