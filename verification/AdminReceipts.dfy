/** Exactly-once admin auth commands: a receipt row is created, the effect runs and the
    receipt is committed in one transaction; concurrent duplicates meet on the two
    unique keys and read the winner's receipt on their one retry. */
module AdminReceipts {
  import opened Options
  import opened IsoTime
  import opened ReceiptResults

  type CommandId = string
  type IdempotencyKey = string

  datatype State = Accepted | Committed | Rejected | OutcomeUnknown

  /** A stored row; `result` is the JSON column. */
  datatype Row = Row(key: IdempotencyKey, digest: string, operation: string, state: State, result: Option<Stored>,
                     recordedAt: nat)

  datatype Identity = Identity(command: CommandId, key: IdempotencyKey, digest: string)

  /** The receipt as callers see it. */
  datatype Receipt = Receipt(identity: Identity, operation: string, state: State, result: Option<CommandResult>,
                             recordedAt: nat)

  datatype Effect =
    | CreateToken(identifier: string, token: string, expires: Time)
    | ConsumeToken(identifier: string, token: string)
    | RecordEvent(email: string, event: Event, occurredAt: Time)

  datatype TokenRow = TokenRow(identifier: string, expires: Time)

  datatype Logged = Logged(email: string, event: Event, occurredAt: Time)

  /** The tables effects work on; `token` is unique. */
  datatype Tables = Tables(tokens: map<string, TokenRow>, events: seq<Logged>)

  datatype Applied = Applied(tables: Tables, result: CommandResult)

  /** `None`: the token to create exists, or the one to consume does not. */
  function Apply(t: Tables, e: Effect): Option<Applied> {
    match e
    case CreateToken(identifier, token, expires) =>
      if token in t.tokens then None
      else Some(Applied(t.(tokens := t.tokens[token := TokenRow(identifier, expires)]),
                        VerificationToken(identifier, expires, false)))
    case ConsumeToken(identifier, token) =>
      if token !in t.tokens || t.tokens[token].identifier != identifier then None
      else Some(Applied(t.(tokens := t.tokens - {token}), VerificationToken(identifier, t.tokens[token].expires, true)))
    case RecordEvent(email, event, occurredAt) =>
      Some(Applied(t.(events := t.events + [Logged(email, event, occurredAt)]), AuthEvent(event, occurredAt)))
  }

  /** When an effect can run: a token is created once, and consumed by the one it was
      created for. */
  predicate Doable(t: Tables, e: Effect) {
    match e
    case CreateToken(_, token, _) => token !in t.tokens
    case ConsumeToken(identifier, token) => token in t.tokens && t.tokens[token].identifier == identifier
    case RecordEvent(_, _, _) => true
  }

  /** What an effect leaves: a created token is there with its identifier and expiry, a
      consumed one is gone and its row answered, a recorded event is the last of the log;
      every other token and the rest of the log are as they were. */
  ghost predicate Effected(before: Tables, after: Tables, e: Effect, result: CommandResult) {
    && (forall other :: (e.RecordEvent? || other != e.token) ==>
          (other in after.tokens <==> other in before.tokens)
          && (other in before.tokens ==> after.tokens[other] == before.tokens[other]))
    && match e
       case CreateToken(identifier, token, expires) =>
         && token in after.tokens && after.tokens[token] == TokenRow(identifier, expires)
         && after.events == before.events && result == VerificationToken(identifier, expires, false)
       case ConsumeToken(identifier, token) =>
         && token in before.tokens && token !in after.tokens && after.events == before.events
         && result == VerificationToken(identifier, before.tokens[token].expires, true)
       case RecordEvent(email, event, occurredAt) =>
         && after.events == before.events + [Logged(email, event, occurredAt)] && result == AuthEvent(event, occurredAt)
  }

  lemma ApplyEffects(t: Tables, e: Effect)
    ensures Apply(t, e).Some? <==> Doable(t, e)
    ensures Doable(t, e) ==> Effected(t, Apply(t, e).value.tables, e, Apply(t, e).value.result)
  {
  }

  // ---------------------------------------------------------------- one command

  datatype Command = Command(identity: Identity, operation: string, recordedAt: nat, effect: Effect)

  datatype Answer =
    | Answered(receipt: Receipt)
    | IdentityConflict
    | DigestConflict
    | Unreconciled(command: CommandId)
    | EffectRefused
    | Unavailable

  type Receipts = map<CommandId, Row>

  function MapReceipt(command: CommandId, row: Row): Receipt {
    Receipt(Identity(command, row.key, row.digest), row.operation, row.state, ParseResult(row.result), row.recordedAt)
  }

  predicate KeyTaken(rs: Receipts, key: IdempotencyKey) { exists c :: c in rs && rs[c].key == key }

  function ReplayOrConflict(r: Receipt, cmd: Command): Answer {
    if r.identity.command != cmd.identity.command || r.identity.key != cmd.identity.key
        || r.operation != cmd.operation then IdentityConflict
    else if r.identity.digest != cmd.identity.digest then DigestConflict
    else if r.state != Committed || r.result.None? then Unreconciled(r.identity.command)
    else Answered(r)
  }

  /** The receipt the two reads of a transaction find, by command id first. */
  ghost function Found(rs: Receipts, id: Identity): Option<Receipt> {
    if id.command in rs then Some(MapReceipt(id.command, rs[id.command]))
    else if c :| c in rs && rs[c].key == id.key then Some(MapReceipt(c, rs[c]))
    else None
  }

  // ---------------------------------------------------------------- interleaved transactions

  type WorkerId = nat

  /** Where a caller stands. In `Inserted` and `Ran` its transaction holds an
      uncommitted receipt row, and in `Ran` an uncommitted effect besides. */
  datatype Worker =
    | Ready(cmd: Command, retry: bool)
    | Missed(cmd: Command, retry: bool)
    | Inserted(cmd: Command, retry: bool)
    | Ran(cmd: Command, retry: bool, result: CommandResult)
    | Done(answer: Answer)

  /** `applied` lists the committed effects in commit order; no step reads it. */
  datatype World = World(receipts: Receipts, tables: Tables, workers: map<WorkerId, Worker>, applied: seq<Command>)

  datatype Action =
    | Begin(w: WorkerId, cmd: Command)
    | Read(w: WorkerId)
    | Insert(w: WorkerId)
    | RunEffect(w: WorkerId)
    | Commit(w: WorkerId)
    | Abort(w: WorkerId)

  predicate InTransaction(x: Worker) { x.Inserted? || x.Ran? }

  /** Another open transaction holds a row under one of the command's unique keys. */
  ghost predicate ReceiptLocked(c: World, w: WorkerId, id: Identity) {
    exists v :: v in c.workers && v != w && InTransaction(c.workers[v])
                && (c.workers[v].cmd.identity.command == id.command || c.workers[v].cmd.identity.key == id.key)
  }

  predicate SameToken(e: Effect, f: Effect) { !e.RecordEvent? && !f.RecordEvent? && e.token == f.token }

  ghost predicate EffectLocked(c: World, w: WorkerId, e: Effect) {
    exists v :: v in c.workers && v != w && c.workers[v].Ran? && SameToken(c.workers[v].cmd.effect, e)
  }

  function Move(c: World, w: WorkerId, x: Worker): World { c.(workers := c.workers[w := x]) }

  ghost function Reading(c: World, w: WorkerId, x: Worker): World
    requires x.Ready?
  {
    var found := Found(c.receipts, x.cmd.identity);
    Move(c, w, if found.Some? then Done(ReplayOrConflict(found.value, x.cmd)) else Missed(x.cmd, x.retry))
  }

  /** An insert waits for a transaction that holds one of its keys; against a
      committed row it fails, and the whole command is retried once. */
  ghost function Inserting(c: World, w: WorkerId, x: Worker): World
    requires x.Missed?
  {
    if ReceiptLocked(c, w, x.cmd.identity) then c
    else if x.cmd.identity.command in c.receipts || KeyTaken(c.receipts, x.cmd.identity.key)
    then Move(c, w, if x.retry then Done(Unavailable) else Ready(x.cmd, true))
    else Move(c, w, Inserted(x.cmd, x.retry))
  }

  ghost function Running(c: World, w: WorkerId, x: Worker): World
    requires x.Inserted?
  {
    if EffectLocked(c, w, x.cmd.effect) then c
    else
      var applied := Apply(c.tables, x.cmd.effect);
      if applied.None? then Move(c, w, Done(if x.cmd.effect.ConsumeToken? then EffectRefused else Unavailable))
      else Move(c, w, Ran(x.cmd, x.retry, applied.value.result))
  }

  function CommittedRow(cmd: Command, result: CommandResult): Row {
    Row(cmd.identity.key, cmd.identity.digest, cmd.operation, Committed, Some(SerializeResult(result)), cmd.recordedAt)
  }

  function Committing(c: World, w: WorkerId, x: Worker): World
    requires x.Ran?
  {
    var applied := Apply(c.tables, x.cmd.effect);
    var row := CommittedRow(x.cmd, x.result);
    World(c.receipts[x.cmd.identity.command := row], if applied.None? then c.tables else applied.value.tables,
          c.workers[w := Done(Answered(MapReceipt(x.cmd.identity.command, row)))], c.applied + [x.cmd])
  }

  /** One statement of one worker. An action that is not enabled changes nothing. */
  ghost function Act(c: World, a: Action): World {
    if a.Begin? then (if a.w in c.workers then c else Move(c, a.w, Ready(a.cmd, false)))
    else if a.w !in c.workers then c
    else
      var x := c.workers[a.w];
      match a
      case Read(w) => if x.Ready? then Reading(c, w, x) else c
      case Insert(w) => if x.Missed? then Inserting(c, w, x) else c
      case RunEffect(w) => if x.Inserted? then Running(c, w, x) else c
      case Commit(w) => if x.Ran? then Committing(c, w, x) else c
      case Abort(w) => if x.Done? then c else Move(c, w, Done(Unavailable))
      case _ => c
  }

  ghost function Schedule(c: World, actions: seq<Action>): World
    decreases |actions|
  {
    if |actions| == 0 then c else Schedule(Act(c, actions[0]), actions[1..])
  }

  // ---------------------------------------------------------------- what every schedule keeps

  /** Running the committed effects one after another from empty tables. */
  function Replay(applied: seq<Command>): Option<Tables>
    decreases |applied|
  {
    if |applied| == 0 then Some(Tables(map[], []))
    else
      var before := Replay(applied[..|applied| - 1]);
      if before.None? then None
      else
        var last := Apply(before.value, applied[|applied| - 1].effect);
        if last.None? then None else Some(last.value.tables)
  }

  /** The result of the i-th committed effect when it ran in its turn. */
  function ResultAt(applied: seq<Command>, i: nat): Option<CommandResult>
    requires i < |applied|
  {
    var before := Replay(applied[..i]);
    if before.None? then None
    else var a := Apply(before.value, applied[i].effect); if a.None? then None else Some(a.value.result)
  }

  /** The row that the i-th committed effect left, with the result it had then. */
  ghost predicate Recorded(rs: Receipts, applied: seq<Command>, i: nat)
    requires i < |applied|
  {
    var cmd := applied[i];
    && cmd.identity.command in rs && ResultAt(applied, i).Some?
    && rs[cmd.identity.command] == CommittedRow(cmd, ResultAt(applied, i).value)
  }

  ghost predicate UniqueIdentities(applied: seq<Command>) {
    forall i, j :: 0 <= i < j < |applied| ==>
      applied[i].identity.command != applied[j].identity.command && applied[i].identity.key != applied[j].identity.key
  }

  ghost predicate ReceiptsOk(rs: Receipts, applied: seq<Command>) {
    && (forall i :: 0 <= i < |applied| ==> Recorded(rs, applied, i))
    && (forall c :: c in rs ==> exists i :: 0 <= i < |applied| && applied[i].identity.command == c)
    && UniqueIdentities(applied)
  }

  /** The row a retry or an open transaction must reckon with. */
  ghost predicate Clashes(rs: Receipts, id: Identity) { id.command in rs || KeyTaken(rs, id.key) }

  ghost predicate WorkerOk(c: World, x: Worker) {
    && ((x.Ready? && x.retry) ==> Clashes(c.receipts, x.cmd.identity))
    && (x.Missed? ==> !x.retry)
    && (InTransaction(x) ==> !Clashes(c.receipts, x.cmd.identity))
    && (x.Ran? ==> Apply(c.tables, x.cmd.effect).Some? && Apply(c.tables, x.cmd.effect).value.result == x.result)
  }

  ghost predicate LocksOk(c: World) {
    && (forall v, w ::
        v in c.workers && w in c.workers && v != w && InTransaction(c.workers[v]) && InTransaction(c.workers[w]) ==>
          c.workers[v].cmd.identity.command != c.workers[w].cmd.identity.command
          && c.workers[v].cmd.identity.key != c.workers[w].cmd.identity.key)
    && (forall v, w :: v in c.workers && w in c.workers && v != w && c.workers[v].Ran? && c.workers[w].Ran? ==>
          !SameToken(c.workers[v].cmd.effect, c.workers[w].cmd.effect))
  }

  ghost predicate WorldOk(c: World) {
    && Replay(c.applied) == Some(c.tables) && ReceiptsOk(c.receipts, c.applied)
    && (forall w :: w in c.workers ==> WorkerOk(c, c.workers[w])) && LocksOk(c)
  }

  lemma MoveKeeps(c: World, w: WorkerId, x: Worker)
    requires WorldOk(c) && WorkerOk(c, x)
    requires InTransaction(x) ==> !ReceiptLocked(c, w, x.cmd.identity)
    requires x.Ran? ==> !EffectLocked(c, w, x.cmd.effect)
    ensures WorldOk(Move(c, w, x))
  {
    hide Replay, ReceiptsOk, Clashes, Apply;
    var d := Move(c, w, x);
    forall v | v in d.workers ensures WorkerOk(d, d.workers[v]) { assert v != w ==> WorkerOk(c, c.workers[v]); }
    forall u, v | u in d.workers && v in d.workers && u != v && InTransaction(d.workers[u])
        && InTransaction(d.workers[v])
      ensures d.workers[u].cmd.identity.command != d.workers[v].cmd.identity.command
              && d.workers[u].cmd.identity.key != d.workers[v].cmd.identity.key
    {
      assert u != w ==> d.workers[u] == c.workers[u];
      assert v != w ==> d.workers[v] == c.workers[v];
    }
    forall u, v | u in d.workers && v in d.workers && u != v && d.workers[u].Ran? && d.workers[v].Ran?
      ensures !SameToken(d.workers[u].cmd.effect, d.workers[v].cmd.effect)
    {
      assert u != w ==> d.workers[u] == c.workers[u];
      assert v != w ==> d.workers[v] == c.workers[v];
    }
  }

  lemma StillUnlocked(c: World, w: WorkerId, id: Identity)
    requires LocksOk(c) && w in c.workers && InTransaction(c.workers[w]) && c.workers[w].cmd.identity == id
    ensures !ReceiptLocked(c, w, id)
  {
  }

  /** A receipt is found exactly when one of the two unique keys is taken, so a retry
      always finds one and never reaches a second conflict. */
  lemma FoundIffClashes(rs: Receipts, id: Identity)
    ensures Found(rs, id).Some? <==> Clashes(rs, id)
  {
  }

  /** Effects on different tokens do not disturb one another. */
  lemma ApplyCommutes(t: Tables, e: Effect, f: Effect)
    requires !SameToken(e, f) && Apply(t, e).Some? && Apply(t, f).Some?
    ensures Apply(Apply(t, e).value.tables, f).Some?
            && Apply(Apply(t, e).value.tables, f).value.result == Apply(t, f).value.result
  {
  }

  lemma {:induction false} RecordedLater(rs: Receipts, applied: seq<Command>, cmd: Command, row: Row, i: nat)
    requires i < |applied| && Recorded(rs, applied, i) && applied[i].identity.command != cmd.identity.command
    ensures Recorded(rs[cmd.identity.command := row], applied + [cmd], i)
  {
    assert (applied + [cmd])[..i] == applied[..i];
  }

  lemma CommittingKeeps(c: World, w: WorkerId)
    requires WorldOk(c) && w in c.workers && c.workers[w].Ran?
    ensures WorldOk(Committing(c, w, c.workers[w]))
  {
    hide Replay;
    var x := c.workers[w];
    var d := Committing(c, w, x);
    assert WorkerOk(c, x);
    CommittedLog(c, x);
    forall v | v in d.workers ensures WorkerOk(d, d.workers[v]) {
      if v != w {
        assert WorkerOk(c, c.workers[v]);
        OthersStand(c, w, v);
      }
    }
    assert LocksOk(d) by { CommittedLocks(c, d, w); }
  }

  lemma CommittedLocks(c: World, d: World, w: WorkerId)
    requires LocksOk(c) && w in c.workers && w in d.workers && d.workers == c.workers[w := d.workers[w]]
             && d.workers[w].Done?
    ensures LocksOk(d)
  {
  }

  /** A new row clashes with exactly those that share one of its keys. */
  lemma ClashesAfter(rs: Receipts, added: Identity, row: Row, id: Identity)
    requires added.command !in rs && row.key == added.key
    ensures Clashes(rs[added.command := row], id)
            <==> Clashes(rs, id) || added.command == id.command || added.key == id.key
  {
    var t := rs[added.command := row];
    if r :| r in rs && rs[r].key == id.key { assert t[r].key == id.key; }
    if added.key == id.key { assert t[added.command].key == id.key; }
    if r :| r in t && t[r].key == id.key {
      if r != added.command { assert rs[r].key == id.key; }
    }
  }

  lemma OthersStand(c: World, w: WorkerId, v: WorkerId)
    requires LocksOk(c) && w in c.workers && c.workers[w].Ran? && v in c.workers && v != w
    requires WorkerOk(c, c.workers[w]) && WorkerOk(c, c.workers[v])
    ensures WorkerOk(Committing(c, w, c.workers[w]), c.workers[v])
  {
    hide Clashes, Apply, MapReceipt;
    var x, y := c.workers[w], c.workers[v];
    assert x.cmd.identity.command !in c.receipts by { NoRow(c.receipts, x.cmd.identity); }
    if !y.Done? { ClashesAfter(c.receipts, x.cmd.identity, CommittedRow(x.cmd, x.result), y.cmd.identity); }
    if y.Ran? { ApplyCommutes(c.tables, x.cmd.effect, y.cmd.effect); }
  }

  lemma NoRow(rs: Receipts, id: Identity)
    requires !Clashes(rs, id)
    ensures id.command !in rs && forall r :: r in rs ==> rs[r].key != id.key
  {
  }

  /** A committing command shares no key with a committed one. */
  lemma NewIdentity(rs: Receipts, applied: seq<Command>, id: Identity)
    requires ReceiptsOk(rs, applied) && !Clashes(rs, id)
    ensures forall i ::
            0 <= i < |applied| ==> applied[i].identity.command != id.command && applied[i].identity.key != id.key
  {
    hide ResultAt;
    NoRow(rs, id);
    forall i | 0 <= i < |applied|
      ensures applied[i].identity.command != id.command && applied[i].identity.key != id.key
    {
      assert Recorded(rs, applied, i);
    }
  }

  lemma CommittedLog(c: World, x: Worker)
    requires Replay(c.applied) == Some(c.tables) && ReceiptsOk(c.receipts, c.applied)
    requires x.Ran? && WorkerOk(c, x)
    ensures var d := Committing(c, 0, x);
            Replay(d.applied) == Some(d.tables) && ReceiptsOk(d.receipts, d.applied)
  {
    hide CommittedRow, MapReceipt, Apply, Clashes, Recorded;
    var d := Committing(c, 0, x);
    var n := |c.applied|;
    assert d.applied[..n] == c.applied;
    NewIdentity(c.receipts, c.applied, x.cmd.identity);
    RecordedNow(c, x);
    forall i | 0 <= i < |d.applied| ensures Recorded(d.receipts, d.applied, i) {
      if i < n { RecordedLater(c.receipts, c.applied, x.cmd, d.receipts[x.cmd.identity.command], i); }
    }
    forall r | r in d.receipts ensures exists i :: 0 <= i < |d.applied| && d.applied[i].identity.command == r {
      if r == x.cmd.identity.command {
        assert d.applied[n].identity.command == r;
      } else {
        var i :| 0 <= i < n && c.applied[i].identity.command == r;
        assert d.applied[i].identity.command == r;
      }
    }
  }

  lemma RecordedNow(c: World, x: Worker)
    requires Replay(c.applied) == Some(c.tables) && x.Ran? && WorkerOk(c, x)
    ensures var d := Committing(c, 0, x);
            Recorded(d.receipts, d.applied, |c.applied|) && Replay(d.applied) == Some(d.tables)
  {
    hide MapReceipt, Apply, Clashes;
    var d := Committing(c, 0, x);
    assert d.applied[..|c.applied|] == c.applied;
  }

  lemma ActKeeps(c: World, a: Action)
    requires WorldOk(c)
    ensures WorldOk(Act(c, a))
  {
    hide Replay, ReceiptsOk, LocksOk, Apply, Found, Clashes, ReceiptLocked, EffectLocked, Committing;
    if a.Begin? {
      if a.w !in c.workers { MoveKeeps(c, a.w, Ready(a.cmd, false)); }
    } else if a.w in c.workers {
      var x := c.workers[a.w];
      assert WorkerOk(c, x);
      match a
      case Read(w) =>
        if x.Ready? {
          FoundIffClashes(c.receipts, x.cmd.identity);
          MoveKeeps(c, w, Reading(c, w, x).workers[w]);
        }
      case Insert(w) => if x.Missed? { InsertingKeeps(c, w); }
      case RunEffect(w) =>
        if x.Inserted? {
          StillUnlocked(c, w, x.cmd.identity);
          if !EffectLocked(c, w, x.cmd.effect) { MoveKeeps(c, w, Running(c, w, x).workers[w]); }
        }
      case Commit(w) => if x.Ran? { CommittingKeeps(c, w); }
      case Abort(w) => MoveKeeps(c, w, Done(Unavailable));
      case Begin(_, _) =>
    }
  }

  lemma InsertingKeeps(c: World, w: WorkerId)
    requires WorldOk(c) && w in c.workers && c.workers[w].Missed?
    ensures WorldOk(Inserting(c, w, c.workers[w]))
  {
    hide Replay, ReceiptsOk, LocksOk, Apply, ReceiptLocked, EffectLocked;
    var x := c.workers[w];
    if !ReceiptLocked(c, w, x.cmd.identity) { MoveKeeps(c, w, Inserting(c, w, x).workers[w]); }
  }

  const EMPTY: World := World(map[], Tables(map[], []), map[], [])

  lemma {:induction false} ScheduleKeeps(c: World, actions: seq<Action>)
    requires WorldOk(c)
    ensures WorldOk(Schedule(c, actions)) && c.applied <= Schedule(c, actions).applied
    decreases |actions|
  {
    hide WorldOk;
    if |actions| > 0 {
      ActKeeps(c, actions[0]);
      ScheduleKeeps(Act(c, actions[0]), actions[1..]);
    }
  }

  // ---------------------------------------------------------------- results

  /** After any interleaving of any commands, duplicates and aborts: each command id and
      each idempotency key committed at most one effect; there is a receipt exactly for
      each committed effect, none still accepted, its two keys in bijection; the
      tables are what the effects give when run one at a time in commit order; and
      every receipt reads back the result its effect had in that order. */
  lemma ReceiptSafety(actions: seq<Action>)
    ensures var c := Schedule(EMPTY, actions);
            && UniqueIdentities(c.applied)
            && (forall r :: r in c.receipts <==> exists i :: 0 <= i < |c.applied| && c.applied[i].identity.command == r)
            && (forall r, s :: r in c.receipts && s in c.receipts && c.receipts[r].key == c.receipts[s].key ==> r == s)
            && (forall r :: r in c.receipts ==> c.receipts[r].state == Committed)
            && Replay(c.applied) == Some(c.tables)
            && (forall i :: 0 <= i < |c.applied| ==> ReadsBack(c.receipts, c.applied, i))
  {
    hide Replay, Act, Schedule, ReceiptsOk, ReadsBack;
    ScheduleKeeps(EMPTY, actions) by { EmptyOk(); }
    var c := Schedule(EMPTY, actions);
    ReceiptFacts(c.receipts, c.applied);
    KeysInBijection(c.receipts, c.applied);
  }

  lemma ReceiptFacts(rs: Receipts, applied: seq<Command>)
    requires ReceiptsOk(rs, applied)
    ensures UniqueIdentities(applied)
    ensures forall r :: r in rs <==> exists i :: 0 <= i < |applied| && applied[i].identity.command == r
    ensures forall i :: 0 <= i < |applied| ==> RowFacts(rs, applied[i]) && ReadsBack(rs, applied, i)
  {
    hide Recorded, ReadsBack, UniqueIdentities;
    forall i | 0 <= i < |applied|
      ensures RowFacts(rs, applied[i]) && ReadsBack(rs, applied, i)
    {
      RecordedReadsBack(rs, applied, i);
    }
  }

  lemma KeysInBijection(rs: Receipts, applied: seq<Command>)
    requires UniqueIdentities(applied) && forall i :: 0 <= i < |applied| ==> RowFacts(rs, applied[i])
    requires forall r :: r in rs <==> exists i :: 0 <= i < |applied| && applied[i].identity.command == r
    ensures forall r, s :: r in rs && s in rs && rs[r].key == rs[s].key ==> r == s
    ensures forall r :: r in rs ==> rs[r].state == Committed
  {
    forall r, s | r in rs && s in rs && rs[r].key == rs[s].key ensures r == s {
      var i :| 0 <= i < |applied| && applied[i].identity.command == r;
      var j :| 0 <= j < |applied| && applied[j].identity.command == s;
      assert RowFacts(rs, applied[i]) && RowFacts(rs, applied[j]);
    }
    forall r | r in rs ensures rs[r].state == Committed {
      var i :| 0 <= i < |applied| && applied[i].identity.command == r;
      assert RowFacts(rs, applied[i]);
    }
  }

  predicate RowFacts(rs: Receipts, cmd: Command) {
    cmd.identity.command in rs && rs[cmd.identity.command].key == cmd.identity.key
    && rs[cmd.identity.command].state == Committed
  }

  /** The receipt of the i-th committed effect, read back, holds that effect's result. */
  ghost predicate ReadsBack(rs: Receipts, applied: seq<Command>, i: nat)
    requires i < |applied|
  {
    var cmd := applied[i];
    && cmd.identity.command in rs && ResultAt(applied, i).Some?
    && MapReceipt(cmd.identity.command, rs[cmd.identity.command])
       == Receipt(cmd.identity, cmd.operation, Committed, ResultAt(applied, i), cmd.recordedAt)
  }

  lemma RecordedReadsBack(rs: Receipts, applied: seq<Command>, i: nat)
    requires i < |applied| && Recorded(rs, applied, i)
    ensures RowFacts(rs, applied[i]) && ReadsBack(rs, applied, i)
  {
    hide ResultAt, SerializeResult, ParseResult;
    ResultRoundTrip(ResultAt(applied, i).value);
  }

  lemma EmptyOk()
    ensures WorldOk(EMPTY)
  {
  }

  lemma SameResult(applied: seq<Command>, later: seq<Command>, i: nat)
    requires i < |applied| && applied <= later
    ensures ResultAt(later, i) == ResultAt(applied, i)
  {
    assert later[..i] == applied[..i];
  }

  /** However the world went on since, a caller that repeats a committed command is
      answered with the receipt and result of the first time, a caller that changes
      only the payload gets a digest conflict, and neither touches any table. */
  lemma MatchingReplay(c: World, i: nat, later: seq<Action>, w: WorkerId, again: Command)
    requires WorldOk(c) && i < |c.applied|
    requires w !in Schedule(c, later).workers
    requires again.identity.command == c.applied[i].identity.command && again.identity.key == c.applied[i].identity.key
    requires again.operation == c.applied[i].operation
    ensures var d := Schedule(c, later);
            var cmd := c.applied[i];
            var e := Act(Act(d, Begin(w, again)), Read(w));
            && e == Move(d, w, e.workers[w]) && ResultAt(c.applied, i).Some?
            && e.workers[w] == Done(if again.identity.digest == cmd.identity.digest
                                    then Answered(Receipt(cmd.identity, cmd.operation, Committed,
                                                          ResultAt(c.applied, i), cmd.recordedAt))
                                    else DigestConflict)
  {
    hide Replay, Schedule, ResultAt, Recorded;
    ScheduleKeeps(c, later);
    var d := Schedule(c, later);
    assert d.applied[i] == c.applied[i];
    SameResult(c.applied, d.applied, i);
    RecordedReadsBack(d.receipts, d.applied, i);
    var b := Act(d, Begin(w, again));
    assert b.receipts == d.receipts && b.workers[w] == Ready(again, false);
    var e := Act(b, Read(w));
    assert e.workers == d.workers[w := e.workers[w]];
  }

  /** A retry never meets a second conflict: it finds a receipt and is answered from it. */
  lemma RetryIsAnswered(c: World, w: WorkerId)
    requires WorldOk(c) && w in c.workers && c.workers[w].Ready? && c.workers[w].retry
    ensures var x := Act(c, Read(w)).workers[w]; x.Done? && x.answer != Unavailable
  {
    assert WorkerOk(c, c.workers[w]);
    FoundIffClashes(c.receipts, c.workers[w].cmd.identity);
  }

  // ---------------------------------------------------------------- without concurrency

  class AdminAuthStore {
    var receipts: Receipts
    var tables: Tables

    constructor ()
      ensures receipts == map[] && tables == Tables(map[], [])
    {
      receipts := map[];
      tables := Tables(map[], []);
    }

    method FindByKey(key: IdempotencyKey) returns (found: Option<CommandId>)
      ensures found.Some? ==> found.value in receipts && receipts[found.value].key == key
      ensures found.None? <==> !KeyTaken(receipts, key)
    {
      var unseen := receipts.Keys;
      while unseen != {}
        invariant unseen <= receipts.Keys
        invariant forall c :: c in receipts && c !in unseen ==> receipts[c].key != key
        decreases |unseen|
      {
        var c :| c in unseen;
        if receipts[c].key == key { return Some(c); }
        unseen := unseen - {c};
      }
      found := None;
    }

    /** One uninterrupted call. The first time, if its effect can run, it commits the effect
        and its receipt; otherwise it answers with an error or from the receipt it finds,
        and nothing changes. */
    method ExecuteCommand(cmd: Command) returns (answer: Answer)
      modifies this
      ensures !Clashes(old(receipts), cmd.identity) && Doable(old(tables), cmd.effect) ==>
        (&& answer.Answered? && answer.receipt.result.Some?
         && (var result := answer.receipt.result.value;
             && Effected(old(tables), tables, cmd.effect, result)
             && receipts == old(receipts)[cmd.identity.command := CommittedRow(cmd, result)]
             && answer == Answered(Receipt(cmd.identity, cmd.operation, Committed, Some(result), cmd.recordedAt))))
      ensures Clashes(old(receipts), cmd.identity) || !Doable(old(tables), cmd.effect) ==>
        receipts == old(receipts) && tables == old(tables)
      ensures !Clashes(old(receipts), cmd.identity) && !Doable(old(tables), cmd.effect) ==>
        answer == if cmd.effect.ConsumeToken? then EffectRefused else Unavailable
      ensures cmd.identity.command in old(receipts) ==>
        answer == ReplayOrConflict(MapReceipt(cmd.identity.command, old(receipts)[cmd.identity.command]), cmd)
      ensures cmd.identity.command !in old(receipts) && KeyTaken(old(receipts), cmd.identity.key) ==>
              answer == IdentityConflict
    {
      if cmd.identity.command in receipts {
        return ReplayOrConflict(MapReceipt(cmd.identity.command, receipts[cmd.identity.command]), cmd);
      }
      var byKey := FindByKey(cmd.identity.key);
      if byKey.Some? { return ReplayOrConflict(MapReceipt(byKey.value, receipts[byKey.value]), cmd); }
      var applied := Apply(tables, cmd.effect);
      ApplyEffects(tables, cmd.effect);
      if applied.None? { return if cmd.effect.ConsumeToken? then EffectRefused else Unavailable; }
      ResultRoundTrip(applied.value.result);
      var row := CommittedRow(cmd, applied.value.result);
      tables := applied.value.tables;
      receipts := receipts[cmd.identity.command := row];
      answer := Answered(MapReceipt(cmd.identity.command, row));
    }
  }
}
