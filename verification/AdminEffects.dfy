/** What the committed admin auth commands amount to, told from their order alone: which
    tokens are stored and by whom they were created, and what each command answered. */
module AdminEffects {
  import opened Options
  import opened ReceiptResults
  import opened AdminReceipts

  /** The committed command that created a token now stored. */
  function Creator(applied: seq<Command>, token: string): (r: Option<nat>)
    ensures r.Some? ==>
            r.value < |applied| && applied[r.value].effect.CreateToken? && applied[r.value].effect.token == token
    decreases |applied|
  {
    if |applied| == 0 then None
    else
      var e := applied[|applied| - 1].effect;
      if e.RecordEvent? || e.token != token then Creator(applied[..|applied| - 1], token)
      else if e.CreateToken? then Some(|applied| - 1)
      else None
  }

  /** The events recorded, in order. */
  function EventLog(applied: seq<Command>): seq<Logged>
    decreases |applied|
  {
    if |applied| == 0 then []
    else
      EventLog(applied[..|applied| - 1])
      + match applied[|applied| - 1].effect
        case RecordEvent(email, event, occurredAt) => [Logged(email, event, occurredAt)]
        case _ => []
  }

  /** The tables hold exactly the tokens created and not consumed since, as created, and
      the recorded events. */
  ghost predicate Explained(t: Tables, applied: seq<Command>) {
    && (forall token :: token in t.tokens <==> Creator(applied, token).Some?)
    && (forall token :: token in t.tokens ==>
          var e := applied[Creator(applied, token).value].effect; t.tokens[token] == TokenRow(e.identifier, e.expires))
    && t.events == EventLog(applied)
  }

  /** One more committed effect. */
  lemma ExplainedNext(t: Tables, u: Tables, earlier: seq<Command>, cmd: Command, result: CommandResult)
    requires Explained(t, earlier) && Effected(t, u, cmd.effect, result)
    ensures Explained(u, earlier + [cmd])
  {
    var applied := earlier + [cmd];
    assert applied[..|earlier|] == earlier;
    forall token
      ensures token in u.tokens <==> Creator(applied, token).Some?
      ensures token in u.tokens ==>
                (var e := applied[Creator(applied, token).value].effect;
                 u.tokens[token] == TokenRow(e.identifier, e.expires))
    {
      var k := Creator(earlier, token);
      if k.Some? { assert applied[k.value] == earlier[k.value]; }
    }
  }

  lemma {:induction false} ReplayExplained(applied: seq<Command>)
    requires Replay(applied).Some?
    ensures Explained(Replay(applied).value, applied)
    decreases |applied|
  {
    hide Apply, Effected, Explained;
    if |applied| > 0 {
      var front, last := applied[..|applied| - 1], applied[|applied| - 1];
      ReplayExplained(front);
      var before := Replay(front).value;
      ApplyEffects(before, last.effect);
      ExplainedNext(before, Replay(applied).value, front, last, Apply(before, last.effect).value.result);
      assert applied == front + [last];
    } else {
      NothingExplained();
    }
  }

  lemma NothingExplained()
    ensures Explained(Tables(map[], []), [])
  {
  }

  /** A token is created only while it is not stored, and consumed only while it is, by the
      identifier it was created for; each is answered accordingly. */
  ghost predicate Answers(earlier: seq<Command>, e: Effect, result: CommandResult) {
    match e
    case CreateToken(identifier, token, expires) =>
      Creator(earlier, token).None? && result == VerificationToken(identifier, expires, false)
    case ConsumeToken(identifier, token) =>
      var k := Creator(earlier, token);
      && k.Some? && earlier[k.value].effect.identifier == identifier
      && result == VerificationToken(identifier, earlier[k.value].effect.expires, true)
    case RecordEvent(_, event, occurredAt) => result == AuthEvent(event, occurredAt)
  }

  lemma CommittedAnswers(applied: seq<Command>, i: nat)
    requires i < |applied| && ResultAt(applied, i).Some?
    ensures Answers(applied[..i], applied[i].effect, ResultAt(applied, i).value)
  {
    hide Apply;
    ReplayExplained(applied[..i]);
    ApplyEffects(Replay(applied[..i]).value, applied[i].effect);
  }

  /** After any interleaving of any commands: the tables are those of the committed
      commands, and each receipt reads back what its command answered in its turn. */
  lemma EffectsAreExact(actions: seq<Action>)
    ensures var c := Schedule(EMPTY, actions);
            && Explained(c.tables, c.applied)
            && (forall i :: 0 <= i < |c.applied| ==> ReceiptTells(c.receipts, c.applied, i))
  {
    hide Replay, Act, Schedule, Explained, Answers, MapReceipt, ResultAt;
    ReceiptSafety(actions);
    var c := Schedule(EMPTY, actions);
    ReplayExplained(c.applied);
    forall i | 0 <= i < |c.applied| ensures ReceiptTells(c.receipts, c.applied, i) {
      assert ReadsBack(c.receipts, c.applied, i);
      CommittedAnswers(c.applied, i);
    }
  }

  ghost predicate ReceiptTells(rs: Receipts, applied: seq<Command>, i: nat)
    requires i < |applied|
  {
    var cmd := applied[i];
    && cmd.identity.command in rs
    && (var r := MapReceipt(cmd.identity.command, rs[cmd.identity.command]);
        && r == Receipt(cmd.identity, cmd.operation, Committed, r.result, cmd.recordedAt)
        && r.result.Some? && Answers(applied[..i], cmd.effect, r.result.value))
  }

  predicate Touches(cmd: Command, token: string) { !cmd.effect.RecordEvent? && cmd.effect.token == token }

  /** The creator of a stored token is the last command that touched it. */
  lemma {:induction false} CreatorIsLast(applied: seq<Command>, token: string, i: nat)
    requires Creator(applied, token).Some? && i < |applied| && Touches(applied[i], token)
    ensures i <= Creator(applied, token).value
    decreases |applied|
  {
    if i < |applied| - 1 && !Touches(applied[|applied| - 1], token) {
      CreatorIsLast(applied[..|applied| - 1], token, i);
    }
  }

  /** Between two committed consumptions of a token it was created again: a token is
      consumed once. */
  lemma ConsumedOnce(actions: seq<Action>, i: nat, j: nat, token: string)
    requires var applied := Schedule(EMPTY, actions).applied;
             i < j < |applied| && applied[i].effect.ConsumeToken? && applied[j].effect.ConsumeToken?
             && applied[i].effect.token == applied[j].effect.token == token
    ensures var applied := Schedule(EMPTY, actions).applied;
            exists k :: i < k < j && applied[k].effect.CreateToken? && applied[k].effect.token == token
                        && applied[k].effect.identifier == applied[j].effect.identifier
  {
    hide Schedule, MapReceipt;
    EffectsAreExact(actions);
    var applied := Schedule(EMPTY, actions).applied;
    assert ReceiptTells(Schedule(EMPTY, actions).receipts, applied, j);
    CreatorIsLast(applied[..j], token, i);
    var k := Creator(applied[..j], token).value;
    assert applied[k] == applied[..j][k];
  }

  /** Running an effect: it waits for a transaction that holds its token; otherwise it runs
      exactly when it can, and else ends the transaction. */
  lemma RunAnswers(c: World, w: WorkerId)
    requires w in c.workers && c.workers[w].Inserted?
    ensures var x, d := c.workers[w], Act(c, RunEffect(w));
            && d.tables == c.tables && d.receipts == c.receipts
            && (EffectLocked(c, w, x.cmd.effect) ==> d == c)
            && (!EffectLocked(c, w, x.cmd.effect) ==>
                  && (d.workers[w].Ran? <==> Doable(c.tables, x.cmd.effect))
                  && (d.workers[w].Done? <==> !Doable(c.tables, x.cmd.effect))
                  && (d.workers[w].Done? ==>
                        d.workers[w].answer == if x.cmd.effect.ConsumeToken? then EffectRefused else Unavailable))
  {
    hide EffectLocked;
    ApplyEffects(c.tables, c.workers[w].cmd.effect);
  }

  /** A commit puts the effect into the tables and its receipt beside it, at once. */
  lemma CommitWrites(c: World, w: WorkerId)
    requires WorldOk(c) && w in c.workers && c.workers[w].Ran?
    ensures var x, d := c.workers[w], Act(c, Commit(w));
            && Effected(c.tables, d.tables, x.cmd.effect, x.result)
            && d.receipts == c.receipts[x.cmd.identity.command := CommittedRow(x.cmd, x.result)]
            && d.workers[w] == Done(Answered(Receipt(x.cmd.identity, x.cmd.operation, Committed, Some(x.result),
                                                     x.cmd.recordedAt)))
  {
    hide Effected, Replay, ReceiptsOk, LocksOk, Apply, SerializeResult, ParseResult;
    var x := c.workers[w];
    assert WorkerOk(c, x);
    ApplyEffects(c.tables, x.cmd.effect);
    ResultRoundTrip(x.result);
  }
}
