/** That every admin command gets its answer: a command nobody blocks commits or is
    refused as the tables say, one under a used identity is told so, and among any
    transactions there is always one that can go on. */
module AdminAnswers {
  import opened Options
  import opened ReceiptResults
  import opened AdminReceipts
  import opened AdminEffects

  ghost predicate Alone(c: World, w: WorkerId) {
    forall v :: v in c.workers && v != w ==> !InTransaction(c.workers[v])
  }

  /** The five statements of a command. */
  ghost function Executed(c: World, w: WorkerId, cmd: Command): World {
    Act(Act(Act(Act(Act(c, Begin(w, cmd)), Read(w)), Insert(w)), RunEffect(w)), Commit(w))
  }

  lemma ReachesInserted(c: World, w: WorkerId, cmd: Command)
    requires WorldOk(c) && w !in c.workers && Alone(c, w) && !Clashes(c.receipts, cmd.identity)
    ensures var d := Act(Act(Act(c, Begin(w, cmd)), Read(w)), Insert(w));
            d == Move(c, w, Inserted(cmd, false)) && WorldOk(d)
  {
    hide WorldOk, Found;
    ActKeeps(c, Begin(w, cmd));
    var c1 := Act(c, Begin(w, cmd));
    ActKeeps(c1, Read(w));
    FoundIffClashes(c.receipts, cmd.identity);
    var c2 := Act(c1, Read(w));
    ActKeeps(c2, Insert(w));
    assert c2 == Move(c, w, Missed(cmd, false));
  }

  /** A command whose identity is new, with no other transaction under way, commits its
      effect and its receipt exactly when the tables allow the effect; otherwise it is
      refused and writes nothing. */
  lemma LoneCommandIsAnswered(c: World, w: WorkerId, cmd: Command)
    requires WorldOk(c) && w !in c.workers && Alone(c, w) && !Clashes(c.receipts, cmd.identity)
    ensures var d := Executed(c, w, cmd);
            && w in d.workers && d.workers[w].Done?
            && (if Doable(c.tables, cmd.effect) then
                  && d.workers[w].answer.Answered? && d.workers[w].answer.receipt.result.Some?
                  && (var result := d.workers[w].answer.receipt.result.value;
                      && Effected(c.tables, d.tables, cmd.effect, result)
                      && d.receipts == c.receipts[cmd.identity.command := CommittedRow(cmd, result)]
                      && d.workers[w].answer.receipt
                         == Receipt(cmd.identity, cmd.operation, Committed, Some(result), cmd.recordedAt))
                else
                  && d.workers[w].answer == (if cmd.effect.ConsumeToken? then EffectRefused else Unavailable)
                  && d.tables == c.tables && d.receipts == c.receipts)
  {
    hide WorldOk, Effected, Doable, Apply, CommittedRow, MapReceipt;
    ReachesInserted(c, w, cmd);
    var c3 := Move(c, w, Inserted(cmd, false));
    RunAnswers(c3, w);
    ActKeeps(c3, RunEffect(w));
    var c4 := Act(c3, RunEffect(w));
    if Doable(c.tables, cmd.effect) { CommitWrites(c4, w); }
  }

  // ---------------------------------------------------------------- used identities

  predicate SameIdentity(x: Command, y: Command) {
    x.identity.command == y.identity.command && x.identity.key == y.identity.key && x.operation == y.operation
  }

  /** However the world went on since, a caller that uses the id or the key of a committed
      command, but not both for the same operation, gets an identity conflict and touches
      no table. */
  lemma OtherIdentityConflicts(c: World, i: nat, later: seq<Action>, w: WorkerId, other: Command)
    requires WorldOk(c) && i < |c.applied| && w !in Schedule(c, later).workers
    requires other.identity.command == c.applied[i].identity.command || other.identity.key == c.applied[i].identity.key
    requires !SameIdentity(other, c.applied[i])
    ensures var d := Schedule(c, later);
            Act(Act(d, Begin(w, other)), Read(w)) == Move(d, w, Done(IdentityConflict))
  {
    hide Schedule, Recorded, Act;
    ScheduleKeeps(c, later);
    var d := Schedule(c, later);
    assert d.applied[i] == c.applied[i];
    ConflictNow(d, i, w, other);
  }

  lemma ConflictNow(d: World, i: nat, w: WorkerId, other: Command)
    requires WorldOk(d) && i < |d.applied| && w !in d.workers
    requires other.identity.command == d.applied[i].identity.command || other.identity.key == d.applied[i].identity.key
    requires !SameIdentity(other, d.applied[i])
    ensures Act(Act(d, Begin(w, other)), Read(w)) == Move(d, w, Done(IdentityConflict))
  {
    hide ResultAt, Replay, SerializeResult, ParseResult;
    var cmd := d.applied[i];
    assert Recorded(d.receipts, d.applied, i);
    var b := Act(d, Begin(w, other));
    assert b == Move(d, w, Ready(other, false));
    assert Found(d.receipts, other.identity).Some? by {
      assert other.identity.key == cmd.identity.key ==> d.receipts[cmd.identity.command].key == other.identity.key;
    }
    var r := Found(d.receipts, other.identity).value;
    var j :| 0 <= j < |d.applied| && d.applied[j].identity.command == r.identity.command;
    assert Recorded(d.receipts, d.applied, j);
    assert r.identity.key == d.applied[j].identity.key && r.operation == d.applied[j].operation;
    assert ReplayOrConflict(r, other) == IdentityConflict;
    assert d.workers[w := Ready(other, false)][w := Done(IdentityConflict)] == d.workers[w := Done(IdentityConflict)];
  }

  // ---------------------------------------------------------------- no deadlock

  ghost predicate CanMove(c: World, a: Action) { Act(c, a).workers != c.workers }

  /** However the statements interleaved so far: as long as a worker has not ended, one of
      them can make its next statement. Receipt rows are always locked before tokens. */
  lemma NoDeadlock(c: World, w: WorkerId)
    requires w in c.workers && !c.workers[w].Done?
    ensures exists v :: v in c.workers && !c.workers[v].Done?
                        && (CanMove(c, Read(v)) || CanMove(c, Insert(v)) || CanMove(c, RunEffect(v))
                            || CanMove(c, Commit(v)))
  {
    hide CanMove;
    if v :| v in c.workers && c.workers[v].Ran? {
      Commits(c, v);
    } else if v :| v in c.workers && c.workers[v].Inserted? {
      Runs(c, v);
    } else {
      Goes(c, w);
    }
  }

  lemma Commits(c: World, v: WorkerId)
    requires v in c.workers && c.workers[v].Ran?
    ensures CanMove(c, Commit(v))
  {
    hide Apply, MapReceipt, CommittedRow;
    assert Act(c, Commit(v)).workers[v].Done?;
  }

  lemma Runs(c: World, v: WorkerId)
    requires v in c.workers && c.workers[v].Inserted? && forall u :: u in c.workers ==> !c.workers[u].Ran?
    ensures CanMove(c, RunEffect(v))
  {
    hide Apply;
    assert !EffectLocked(c, v, c.workers[v].cmd.effect);
    assert !Act(c, RunEffect(v)).workers[v].Inserted?;
  }

  lemma Goes(c: World, w: WorkerId)
    requires w in c.workers && !c.workers[w].Done? && forall u :: u in c.workers ==> !InTransaction(c.workers[u])
    ensures CanMove(c, Read(w)) || CanMove(c, Insert(w))
  {
    hide Found, ReplayOrConflict;
    if c.workers[w].Ready? {
      assert !Act(c, Read(w)).workers[w].Ready?;
    } else {
      assert !ReceiptLocked(c, w, c.workers[w].cmd.identity);
      assert !Act(c, Insert(w)).workers[w].Missed?;
    }
  }
}
