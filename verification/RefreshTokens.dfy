/** Refresh-token rotation: conditional consumption with a grace window, replay
    detection by namespace, and the rotation steps of concurrent workers. */
module RefreshTokens {
  import opened Options

  /** A row of `refresh_tokens`. Its id is its position; `tokenHash` is unique. */
  datatype Token = Token(namespace: string, site: string, hash: string, expiresAt: int,
                         consumedAt: Option<int>, revokedAt: Option<int>, replacedBy: Option<nat>)

  type Rows = seq<Token>

  const GRACE_MS: int := 60_000

  function Find(rows: Rows, hash: string): (found: Option<nat>)
    ensures found.Some? ==> found.value < |rows| && rows[found.value].hash == hash
    ensures found.None? ==> forall i :: 0 <= i < |rows| ==> rows[i].hash != hash
  {
    PositionOf(rows, (t: Token) => t.hash, hash)
  }

  predicate Consumable(t: Token, now: int) { t.consumedAt.None? && t.revokedAt.None? && now < t.expiresAt }

  function RevokeNamespace(rows: Rows, namespace: string, now: int): (r: Rows)
    ensures |r| == |rows|
  {
    seq(|rows|, i requires 0 <= i < |rows| =>
      if rows[i].namespace == namespace && rows[i].revokedAt.None? then rows[i].(revokedAt := Some(now)) else rows[i])
  }

  /** Presented again after the grace window: taken for a leaked token. */
  predicate Replayed(t: Token, now: int) { t.consumedAt.Some? && now - t.consumedAt.value > GRACE_MS }

  datatype Consumption = Consumption(rows: Rows, consumed: Option<nat>)

  function Consume(rows: Rows, hash: string, now: int): Consumption {
    var found := Find(rows, hash);
    if found.None? then Consumption(rows, None)
    else
      var t := rows[found.value];
      if Consumable(t, now) then Consumption(rows[found.value := t.(consumedAt := Some(now))], found)
      else if Replayed(t, now) then Consumption(RevokeNamespace(rows, t.namespace, now), None)
      else Consumption(rows, None)
  }

  /** `None` when the unique hash is already taken: the insert fails. */
  function Insert(rows: Rows, namespace: string, site: string, hash: string, expiresAt: int): Option<Rows> {
    if Find(rows, hash).Some? then None else Some(rows + [Token(namespace, site, hash, expiresAt, None, None, None)])
  }

  // ---------------------------------------------------------------- interleaved workers

  type WorkerId = nat

  /** Where one request stands. `now` is the clock it read when it began. */
  datatype Worker =
    | Holding(spent: nat, now: int)
    | Minted(spent: nat, successor: nat)
    | LoggingOut(namespace: string, now: int)
    | Done(rotated: Option<nat>)

  /** `parents` records, for each token, the token whose consumer minted it; the
      table itself only learns this when the consumer links the two. `consumptions`
      records which worker consumed which token. Neither is read by any step. */
  datatype World = World(rows: Rows, workers: map<WorkerId, Worker>, parents: seq<Option<nat>>,
                         consumptions: seq<(WorkerId, nat)>)

  /** One transaction of one worker. `ttl` is the configured lifetime in ms. */
  datatype Action =
    | Login(namespace: string, site: string, hash: string, expiresAt: int)
    | Present(w: WorkerId, hash: string, now: int)
    | Mint(w: WorkerId, hash: string, ttl: int)
    | Link(w: WorkerId)
    | Logout(w: WorkerId, hash: string, now: int)
    | RevokeAll(w: WorkerId)
    | Crash(w: WorkerId)

  function Create(c: World, namespace: string, site: string, hash: string, expiresAt: int,
                  parent: Option<nat>): Option<World> {
    var rows := Insert(c.rows, namespace, site, hash, expiresAt);
    if rows.None? then None else Some(c.(rows := rows.value, parents := c.parents + [parent]))
  }

  function Presenting(c: World, w: WorkerId, hash: string, now: int): World {
    var r := Consume(c.rows, hash, now);
    if r.consumed.None? then c.(rows := r.rows, workers := c.workers[w := Done(None)])
    else
      c.(rows := r.rows, workers := c.workers[w := Holding(r.consumed.value, now)],
         consumptions := c.consumptions + [(w, r.consumed.value)])
  }

  function Minting(c: World, w: WorkerId, hash: string, ttl: int): World
    requires w in c.workers && c.workers[w].Holding?
  {
    var Holding(spent, now) := c.workers[w];
    if |c.rows| <= spent then c
    else
      var d := Create(c, c.rows[spent].namespace, c.rows[spent].site, hash, now + ttl, Some(spent));
      if d.None? then c.(workers := c.workers[w := Done(None)])
      else d.value.(workers := c.workers[w := Minted(spent, |c.rows|)])
  }

  function Linking(c: World, w: WorkerId): World
    requires w in c.workers && c.workers[w].Minted?
  {
    var Minted(spent, successor) := c.workers[w];
    if |c.rows| <= spent then c
    else c.(rows := c.rows[spent := c.rows[spent].(replacedBy := Some(successor))],
            workers := c.workers[w := Done(Some(successor))])
  }

  /** An action that is not enabled changes nothing. */
  function Act(c: World, a: Action): World {
    match a
    case Login(namespace, site, hash, expiresAt) =>
      var d := Create(c, namespace, site, hash, expiresAt, None);
      if d.None? then c else d.value
    case Present(w, hash, now) => if w in c.workers then c else Presenting(c, w, hash, now)
    case Mint(w, hash, ttl) => if w in c.workers && c.workers[w].Holding? then Minting(c, w, hash, ttl) else c
    case Link(w) => if w in c.workers && c.workers[w].Minted? then Linking(c, w) else c
    case Logout(w, hash, now) =>
      if w in c.workers then c
      else
        var found := Find(c.rows, hash);
        c.(workers :=
           c.workers[w := if found.None? then Done(None) else LoggingOut(c.rows[found.value].namespace, now)])
    case RevokeAll(w) =>
      if w in c.workers && c.workers[w].LoggingOut?
      then c.(rows := RevokeNamespace(c.rows, c.workers[w].namespace, c.workers[w].now),
              workers := c.workers[w := Done(None)])
      else c
    case Crash(w) => if w in c.workers && !c.workers[w].Done? then c.(workers := c.workers[w := Done(None)]) else c
  }

  function Schedule(c: World, actions: seq<Action>): World
    decreases |actions|
  {
    if |actions| == 0 then c else Schedule(Act(c, actions[0]), actions[1..])
  }

  const EMPTY: World := World([], map[], [], [])

  // ---------------------------------------------------------------- what every schedule keeps

  ghost predicate UniqueHashes(rows: Rows) {
    forall i, j :: 0 <= i < |rows| && 0 <= j < |rows| && rows[i].hash == rows[j].hash ==> i == j
  }

  predicate ChildOf(parents: seq<Option<nat>>, child: nat, p: nat) { child < |parents| && parents[child] == Some(p) }

  ghost predicate Childless(parents: seq<Option<nat>>, p: nat) {
    forall k :: 0 <= k < |parents| ==> parents[k] != Some(p)
  }

  /** A child is younger than its parent, shares its namespace and site, is its only
      child, and exists only once the parent is consumed. */
  ghost predicate FamilyOk(rows: Rows, parents: seq<Option<nat>>) {
    && |parents| == |rows|
    && (forall k :: 0 <= k < |parents| && parents[k].Some? ==>
          var p := parents[k].value;
          p < k && rows[p].namespace == rows[k].namespace && rows[p].site == rows[k].site && rows[p].consumedAt.Some?)
    && (forall j, k ::
        0 <= j < |parents| && 0 <= k < |parents| && parents[j].Some? && parents[j] == parents[k] ==> j == k)
  }

  ghost predicate LinksOk(rows: Rows, parents: seq<Option<nat>>) {
    forall i :: 0 <= i < |rows| && rows[i].replacedBy.Some? ==> ChildOf(parents, rows[i].replacedBy.value, i)
  }

  /** Every token a worker holds is consumed, by that worker alone; it has no child
      until that worker mints one. */
  ghost predicate WorkerOk(c: World, w: WorkerId, x: Worker) {
    && (x.Holding? ==>
        x.spent < |c.rows| && c.rows[x.spent].consumedAt.Some? && (w, x.spent) in c.consumptions
        && Childless(c.parents, x.spent))
    && (x.Minted? ==> x.spent < |c.rows| && (w, x.spent) in c.consumptions && ChildOf(c.parents, x.successor, x.spent))
  }

  ghost predicate WorkersOk(c: World) { forall w :: w in c.workers ==> WorkerOk(c, w, c.workers[w]) }

  ghost predicate ConsumptionsOk(rows: Rows, log: seq<(WorkerId, nat)>) {
    && (forall i, j :: 0 <= i < |log| && 0 <= j < |log| && log[i].1 == log[j].1 ==> i == j)
    && (forall i :: 0 <= i < |log| ==> log[i].1 < |rows| && rows[log[i].1].consumedAt.Some?)
  }

  ghost predicate WorldOk(c: World) {
    UniqueHashes(c.rows) && FamilyOk(c.rows, c.parents) && LinksOk(c.rows, c.parents) && WorkersOk(c)
    && ConsumptionsOk(c.rows, c.consumptions)
  }

  /** What an action may do to a row that exists: consume it once, revoke it once,
      link it once; its identity and lifetime never change. */
  predicate RowGrows(t: Token, u: Token) {
    && u.namespace == t.namespace && u.site == t.site && u.hash == t.hash && u.expiresAt == t.expiresAt
    && (t.consumedAt.Some? ==> u.consumedAt == t.consumedAt)
    && (t.revokedAt.Some? ==> u.revokedAt == t.revokedAt)
    && (t.replacedBy.Some? ==> u.replacedBy == t.replacedBy)
  }

  ghost predicate RowsGrow(rows: Rows, later: Rows) {
    |rows| <= |later| && forall i :: 0 <= i < |rows| ==> RowGrows(rows[i], later[i])
  }

  /** A new row under a fresh hash. */
  lemma CreateKeeps(c: World, namespace: string, site: string, hash: string, expiresAt: int, parent: Option<nat>)
    requires WorldOk(c)
    requires parent.Some? ==>
      (parent.value < |c.rows| && c.rows[parent.value].namespace == namespace && c.rows[parent.value].site == site
       && c.rows[parent.value].consumedAt.Some? && Childless(c.parents, parent.value))
    ensures var d := Create(c, namespace, site, hash, expiresAt, parent);
            d.Some? ==>
              (var e := d.value;
               && UniqueHashes(e.rows) && FamilyOk(e.rows, e.parents) && LinksOk(e.rows, e.parents)
               && ConsumptionsOk(e.rows, e.consumptions) && RowsGrow(c.rows, e.rows))
  {
    hide WorkersOk, RowGrows, Consumable;
    var d := Create(c, namespace, site, hash, expiresAt, parent);
    if d.Some? {
      var e := d.value;
      assert forall i :: 0 <= i < |c.rows| ==> e.rows[i] == c.rows[i];
      SameRowsGrow(c.rows, e.rows);
    }
  }

  lemma SameRowsGrow(rows: Rows, later: Rows)
    requires |rows| <= |later| && forall i :: 0 <= i < |rows| ==> later[i] == rows[i]
    ensures RowsGrow(rows, later)
  {
  }

  /** Rows revoked in place: nobody else's view of them changes. */
  lemma RevokingKeeps(c: World, namespace: string, now: int)
    requires WorldOk(c)
    ensures WorldOk(c.(rows := RevokeNamespace(c.rows, namespace, now)))
    ensures RowsGrow(c.rows, RevokeNamespace(c.rows, namespace, now))
  {
    hide ChildOf, Childless;
    var d := c.(rows := RevokeNamespace(c.rows, namespace, now));
    forall w | w in d.workers ensures WorkerOk(d, w, d.workers[w]) { assert WorkerOk(c, w, c.workers[w]); }
  }

  /** A worker that stops holding anything. */
  lemma WorkerIdle(c: World, w: WorkerId, x: Worker)
    requires WorldOk(c) && (x.Done? || x.LoggingOut?)
    ensures WorldOk(c.(workers := c.workers[w := x]))
  {
    hide ChildOf, Childless, ConsumptionsOk, FamilyOk, UniqueHashes;
    var d := c.(workers := c.workers[w := x]);
    forall v | v in d.workers ensures WorkerOk(d, v, d.workers[v]) { assert v != w ==> WorkerOk(c, v, c.workers[v]); }
  }

  /** An unconsumed token has no child and no recorded consumption. */
  lemma ConsumingKeeps(c: World, w: WorkerId, i: nat, now: int)
    requires WorldOk(c) && w !in c.workers && i < |c.rows| && c.rows[i].consumedAt.None?
    ensures var rows := c.rows[i := c.rows[i].(consumedAt := Some(now))];
            && WorldOk(World(rows, c.workers[w := Holding(i, now)], c.parents, c.consumptions + [(w, i)]))
            && RowsGrow(c.rows, rows)
  {
    hide ChildOf;
    var d :=
        World(c.rows[i := c.rows[i].(consumedAt := Some(now))], c.workers[w := Holding(i, now)], c.parents,
              c.consumptions + [(w, i)]);
    assert (w, i) in d.consumptions by { assert d.consumptions[|c.consumptions|] == (w, i); }
    assert Childless(c.parents, i);
    forall v | v in d.workers ensures WorkerOk(d, v, d.workers[v]) {
      if v != w {
        assert WorkerOk(c, v, c.workers[v]);
        assert forall x :: x in c.consumptions ==> x in d.consumptions;
      }
    }
  }

  lemma PresentingKeeps(c: World, w: WorkerId, hash: string, now: int)
    requires WorldOk(c) && w !in c.workers
    ensures WorldOk(Presenting(c, w, hash, now)) && RowsGrow(c.rows, Presenting(c, w, hash, now).rows)
  {
    hide WorldOk, RevokeNamespace, Find;
    var r := Consume(c.rows, hash, now);
    if r.consumed.Some? {
      ConsumingKeeps(c, w, r.consumed.value, now);
    } else {
      var found := Find(c.rows, hash);
      if found.Some? && Replayed(c.rows[found.value], now) {
        RevokingKeeps(c, c.rows[found.value].namespace, now);
      }
      WorkerIdle(c.(rows := r.rows), w, Done(None));
    }
  }

  lemma ConsumedByOne(rows: Rows, log: seq<(WorkerId, nat)>, v: WorkerId, w: WorkerId, t: nat)
    requires ConsumptionsOk(rows, log) && (v, t) in log && (w, t) in log
    ensures v == w
  {
    var i :| 0 <= i < |log| && log[i] == (v, t);
    var j :| 0 <= j < |log| && log[j] == (w, t);
    assert i == j;
  }

  lemma MintingKeeps(c: World, w: WorkerId, hash: string, ttl: int)
    requires WorldOk(c) && w in c.workers && c.workers[w].Holding?
    ensures WorldOk(Minting(c, w, hash, ttl)) && RowsGrow(c.rows, Minting(c, w, hash, ttl).rows)
  {
    hide UniqueHashes, FamilyOk, LinksOk, ConsumptionsOk, Find;
    var Holding(spent, now) := c.workers[w];
    assert WorkerOk(c, w, c.workers[w]);
    CreateKeeps(c, c.rows[spent].namespace, c.rows[spent].site, hash, now + ttl, Some(spent));
    var e := Minting(c, w, hash, ttl);
    if |e.rows| == |c.rows| {
      WorkerIdle(c, w, Done(None));
    } else {
      MintedWorkers(c, e, w);
    }
  }

  lemma MintedWorkers(c: World, e: World, w: WorkerId)
    requires WorldOk(c) && w in c.workers && c.workers[w].Holding?
    requires e.parents == c.parents + [Some(c.workers[w].spent)] && e.consumptions == c.consumptions
    requires |e.rows| == |c.rows| + 1 && forall i :: 0 <= i < |c.rows| ==> e.rows[i] == c.rows[i]
    requires e.workers == c.workers[w := Minted(c.workers[w].spent, |c.rows|)]
    ensures WorkersOk(e)
  {
    hide UniqueHashes, LinksOk, ConsumptionsOk;
    var spent := c.workers[w].spent;
    assert WorkerOk(c, w, c.workers[w]);
    forall v | v in e.workers ensures WorkerOk(e, v, e.workers[v]) {
      if v != w {
        assert WorkerOk(c, v, c.workers[v]);
        if c.workers[v].Holding? && c.workers[v].spent == spent { ConsumedByOne(c.rows, c.consumptions, v, w, spent); }
      }
    }
  }

  lemma LinkingKeeps(c: World, w: WorkerId)
    requires WorldOk(c) && w in c.workers && c.workers[w].Minted?
    ensures WorldOk(Linking(c, w)) && RowsGrow(c.rows, Linking(c, w).rows)
  {
    hide Childless;
    var Minted(spent, successor) := c.workers[w];
    var d := Linking(c, w);
    assert WorkerOk(c, w, c.workers[w]);
    if c.rows[spent].replacedBy.Some? { assert ChildOf(c.parents, c.rows[spent].replacedBy.value, spent); }
    forall v | v in d.workers ensures WorkerOk(d, v, d.workers[v]) { assert v != w ==> WorkerOk(c, v, c.workers[v]); }
  }

  lemma ActKeeps(c: World, a: Action)
    requires WorldOk(c)
    ensures WorldOk(Act(c, a)) && RowsGrow(c.rows, Act(c, a).rows)
  {
    hide UniqueHashes, FamilyOk, LinksOk, WorkersOk, ConsumptionsOk, Consume, Find, RevokeNamespace;
    match a
    case Login(namespace, site, hash, expiresAt) => LoginKeeps(c, namespace, site, hash, expiresAt);
    case Present(w, hash, now) => if w !in c.workers { PresentingKeeps(c, w, hash, now); }
    case Mint(w, hash, ttl) => if w in c.workers && c.workers[w].Holding? { MintingKeeps(c, w, hash, ttl); }
    case Link(w) => if w in c.workers && c.workers[w].Minted? { LinkingKeeps(c, w); }
    case Logout(w, hash, now) => if w !in c.workers { WorkerIdle(c, w, Act(c, a).workers[w]); }
    case RevokeAll(w) =>
      if w in c.workers && c.workers[w].LoggingOut? {
        RevokingKeeps(c, c.workers[w].namespace, c.workers[w].now);
        WorkerIdle(c.(rows := Act(c, a).rows), w, Done(None));
      }
    case Crash(w) => if w in c.workers && !c.workers[w].Done? { WorkerIdle(c, w, Done(None)); }
  }

  lemma LoginKeeps(c: World, namespace: string, site: string, hash: string, expiresAt: int)
    requires WorldOk(c)
    ensures var d := Act(c, Login(namespace, site, hash, expiresAt)); WorldOk(d) && RowsGrow(c.rows, d.rows)
  {
    CreateKeeps(c, namespace, site, hash, expiresAt, None);
  }

  lemma {:induction false} ScheduleKeeps(c: World, actions: seq<Action>)
    requires WorldOk(c)
    ensures WorldOk(Schedule(c, actions)) && RowsGrow(c.rows, Schedule(c, actions).rows)
    decreases |actions|
  {
    hide WorldOk, Act;
    if |actions| > 0 {
      ActKeeps(c, actions[0]);
      ScheduleKeeps(Act(c, actions[0]), actions[1..]);
    }
  }

  // ---------------------------------------------------------------- results

  /** The first token of the login a token descends from. */
  ghost function Root(rows: Rows, parents: seq<Option<nat>>, i: nat): (r: nat)
    requires FamilyOk(rows, parents) && i < |rows|
    ensures r <= i
    decreases i
  {
    if parents[i].None? then i else Root(rows, parents, parents[i].value)
  }

  /** Of two tokens of one login the older has a child no younger than the other. */
  lemma {:induction false} ChainIsALine(rows: Rows, parents: seq<Option<nat>>, i: nat, j: nat) returns (child: nat)
    requires FamilyOk(rows, parents) && i < j < |rows| && Root(rows, parents, i) == Root(rows, parents, j)
    ensures child <= j && ChildOf(parents, child, i)
    decreases j
  {
    var p := parents[j].value;
    if i < p {
      child := ChainIsALine(rows, parents, i, p);
    } else {
      if p < i { var k := ChainIsALine(rows, parents, p, i); }
      child := j;
    }
  }

  ghost predicate LinkedForward(rows: Rows) {
    && (forall i :: 0 <= i < |rows| && rows[i].replacedBy.Some? ==>
          (var k := rows[i].replacedBy.value;
           i < k < |rows| && rows[k].namespace == rows[i].namespace && rows[k].site == rows[i].site
           && rows[i].consumedAt.Some?))
    && (forall i, j ::
        (0 <= i < |rows| && 0 <= j < |rows| && rows[i].replacedBy.Some? && rows[i].replacedBy == rows[j].replacedBy) ==>
            i == j)
  }

  ghost predicate OneLivePerLogin(rows: Rows, parents: seq<Option<nat>>)
    requires FamilyOk(rows, parents)
  {
    forall i, j :: (0 <= i < |rows| && 0 <= j < |rows| && Root(rows, parents, i) == Root(rows, parents, j)
                    && rows[i].consumedAt.None? && rows[j].consumedAt.None?) ==> i == j
  }

  lemma FamilyFacts(rows: Rows, parents: seq<Option<nat>>)
    requires FamilyOk(rows, parents) && LinksOk(rows, parents)
    ensures LinkedForward(rows) && OneLivePerLogin(rows, parents)
  {
    forall i, j | 0 <= i < j < |rows| && Root(rows, parents, i) == Root(rows, parents, j)
      ensures rows[i].consumedAt.Some?
    {
      var k := ChainIsALine(rows, parents, i, j);
    }
  }

  /** After any interleaving of rotations, logins, logouts and crashes: no token was
      consumed twice; links run forward between tokens of one namespace and site and
      no token has two predecessors; each login has at most one unconsumed token. */
  lemma RotationSafety(actions: seq<Action>)
    ensures var c := Schedule(EMPTY, actions);
            && (forall i, j :: 0 <= i < j < |c.consumptions| ==> c.consumptions[i].1 != c.consumptions[j].1)
            && LinkedForward(c.rows)
            && FamilyOk(c.rows, c.parents) && OneLivePerLogin(c.rows, c.parents)
  {
    hide Act, LinkedForward, OneLivePerLogin, Schedule;
    ScheduleKeeps(EMPTY, actions);
    var c := Schedule(EMPTY, actions);
    FamilyFacts(c.rows, c.parents);
  }

  /** Presenting a token consumes it exactly when it is unconsumed, unrevoked and
      unexpired; it ends the namespace exactly when it was consumed longer ago than the
      grace window; in every other case it changes no row. */
  lemma PresentingIsExact(rows: Rows, i: nat, now: int)
    requires UniqueHashes(rows) && i < |rows|
    ensures var t, r := rows[i], Consume(rows, rows[i].hash, now);
            && (r.consumed == Some(i) <==> Consumable(t, now)) && (r.consumed.Some? ==> r.consumed == Some(i))
            && (forall j :: 0 <= j < |rows| ==>
                  r.rows[j] == if Consumable(t, now) && j == i then t.(consumedAt := Some(now))
                               else if Replayed(t, now) && rows[j].namespace == t.namespace && rows[j].revokedAt.None?
                               then rows[j].(revokedAt := Some(now))
                               else rows[j])
  {
    var found := Find(rows, rows[i].hash);
    assert found == Some(i);
  }

  /** Once a consumed token is presented beyond the grace window, no token its
      namespace then has is ever consumed again, whatever happens later. */
  lemma ReplayEndsTheSession(c: World, w: WorkerId, i: nat, now: int, later: seq<Action>, j: nat, at: int)
    requires WorldOk(c) && w !in c.workers && i < |c.rows| && j < |c.rows|
    requires Replayed(c.rows[i], now) && c.rows[j].namespace == c.rows[i].namespace
    ensures var d := Schedule(Act(c, Present(w, c.rows[i].hash, now)), later);
            j < |d.rows| && d.rows[j].hash == c.rows[j].hash && Consume(d.rows, c.rows[j].hash, at).consumed.None?
  {
    PresentingIsExact(c.rows, i, now);
    var b := Act(c, Present(w, c.rows[i].hash, now));
    ActKeeps(c, Present(w, c.rows[i].hash, now));
    assert b.rows[j].revokedAt.Some?;
    ScheduleKeeps(b, later);
    var d := Schedule(b, later);
    assert RowGrows(b.rows[j], d.rows[j]);
    PresentingIsExact(d.rows, j, at);
  }

  /** The statement stops at the tokens that exist: a rotation that consumed its token
      before the replay still mints a live one after it. */
  lemma LateMintSurvives(c: World, v: WorkerId, w: WorkerId, i: nat, now: int, hash: string, ttl: int)
    requires WorldOk(c) && w !in c.workers && i < |c.rows| && Replayed(c.rows[i], now)
    requires Holds(c, v, c.rows[i].namespace)
    requires Find(c.rows, hash).None? && now < c.workers[v].now + ttl
    ensures var d := Act(Act(c, Present(w, c.rows[i].hash, now)), Mint(v, hash, ttl));
            |d.rows| == |c.rows| + 1 && LiveAt(d.rows, |c.rows|, c.rows[i].namespace, now)
  {
    PresentingIsExact(c.rows, i, now);
    var b := Act(c, Present(w, c.rows[i].hash, now));
    assert b.workers[v] == c.workers[v];
    assert forall k :: 0 <= k < |b.rows| ==> b.rows[k].hash == c.rows[k].hash;
    assert Find(b.rows, hash).None?;
  }

  // ---------------------------------------------------------------- when a replay ends the namespace

  predicate LiveAt(rows: Rows, j: nat, namespace: string, at: int) {
    j < |rows| && rows[j].namespace == namespace && Consumable(rows[j], at)
  }

  /** A worker between consuming a token of the namespace and minting its successor. */
  predicate Holds(c: World, v: WorkerId, namespace: string) {
    && v in c.workers && c.workers[v].Holding?
    && c.workers[v].spent < |c.rows| && c.rows[c.workers[v].spent].namespace == namespace
  }

  /** What is known of the clocks and lifetimes after a moment: nothing, or that every
      token is minted with the configured lifetime and every request that begins then
      reads a clock not before that moment. */
  datatype Timing = AnyTiming | Configured(ttl: int, since: int)

  /** An action that is no login into the namespace and keeps to the timing. */
  predicate Follows(a: Action, namespace: string, timing: Timing) {
    && !(a.Login? && a.namespace == namespace)
    && (timing.Configured? ==> (a.Mint? ==> a.ttl == timing.ttl) && (a.Present? ==> timing.since <= a.now))
  }

  ghost predicate AllFollow(actions: seq<Action>, namespace: string, timing: Timing) {
    forall k :: 0 <= k < |actions| ==> Follows(actions[k], namespace, timing)
  }

  /** Steps without a new login that lead to a token of the namespace live at `at`. */
  ghost predicate ComesAlive(c: World, later: seq<Action>, namespace: string, j: nat, at: int, timing: Timing) {
    && AllFollow(later, namespace, timing) && (timing.Configured? ==> timing.since <= at)
    && LiveAt(Schedule(c, later).rows, j, namespace, at)
  }

  /** A worker about to mint a token of the namespace that will not be expired already. */
  predicate MayMint(c: World, v: WorkerId, namespace: string, timing: Timing) {
    Holds(c, v, namespace) && (timing.Configured? ==> timing.since < c.workers[v].now + timing.ttl)
  }

  predicate Dead(t: Token, namespace: string, timing: Timing) {
    t.namespace == namespace ==>
      t.consumedAt.Some? || t.revokedAt.Some? || (timing.Configured? && t.expiresAt <= timing.since)
  }

  /** No token of the namespace can be consumed and no worker is about to mint one. */
  ghost predicate NoneAlive(c: World, namespace: string, timing: Timing) {
    && (forall i :: 0 <= i < |c.rows| ==> Dead(c.rows[i], namespace, timing))
    && (forall v :: !MayMint(c, v, namespace, timing))
  }

  lemma MintKeepsNoneAlive(c: World, w: WorkerId, hash: string, ttl: int, namespace: string, timing: Timing)
    requires WorldOk(c) && NoneAlive(c, namespace, timing) && w in c.workers && c.workers[w].Holding?
    requires timing.Configured? ==> ttl == timing.ttl
    ensures NoneAlive(Minting(c, w, hash, ttl), namespace, timing)
  {
    hide UniqueHashes, FamilyOk, LinksOk, ConsumptionsOk, Find;
    var d := Minting(c, w, hash, ttl);
    assert !MayMint(c, w, namespace, timing) && WorkerOk(c, w, c.workers[w]);
    forall v ensures !MayMint(d, v, namespace, timing) {
      assert !MayMint(c, v, namespace, timing);
      if v in c.workers { assert WorkerOk(c, v, c.workers[v]); }
    }
  }

  /** Only a login brings a namespace back to life. */
  lemma ActKeepsNoneAlive(c: World, a: Action, namespace: string, timing: Timing)
    requires WorldOk(c) && NoneAlive(c, namespace, timing) && Follows(a, namespace, timing)
    ensures NoneAlive(Act(c, a), namespace, timing)
  {
    hide UniqueHashes, FamilyOk, LinksOk, ConsumptionsOk, Replayed, Minting;
    var d := Act(c, a);
    if a.Mint? && a.w in c.workers && c.workers[a.w].Holding? {
      MintKeepsNoneAlive(c, a.w, a.hash, a.ttl, namespace, timing);
    } else {
      forall v ensures !MayMint(d, v, namespace, timing) {
        assert !MayMint(c, v, namespace, timing);
        if v in c.workers { assert WorkerOk(c, v, c.workers[v]); }
      }
    }
  }

  lemma {:induction false} ScheduleKeepsNoneAlive(c: World, actions: seq<Action>, namespace: string, timing: Timing)
    requires WorldOk(c) && NoneAlive(c, namespace, timing) && AllFollow(actions, namespace, timing)
    ensures NoneAlive(Schedule(c, actions), namespace, timing)
    decreases |actions|
  {
    hide WorldOk, Act, NoneAlive, Follows;
    if |actions| > 0 {
      assert Follows(actions[0], namespace, timing);
      ActKeeps(c, actions[0]);
      ActKeepsNoneAlive(c, actions[0], namespace, timing);
      ScheduleKeepsNoneAlive(Act(c, actions[0]), actions[1..], namespace, timing);
    }
  }

  /** A hash longer than every hash in use. */
  function FreshHash(rows: Rows): (hash: string)
    ensures forall i :: 0 <= i < |rows| ==> |rows[i].hash| < |hash|
    decreases |rows|
  {
    if |rows| == 0 then "a"
    else
      var rest, last := FreshHash(rows[..|rows| - 1]), rows[|rows| - 1].hash;
      if |last| < |rest| then rest else last + "a"
  }

  lemma FreshHashIsFree(rows: Rows)
    ensures Find(rows, FreshHash(rows)).None?
  {
  }

  /** A replay ends the namespace exactly when nobody is in the middle of a rotation in
      it: without a new login, a token of it can live again if and only if some worker
      had consumed one before the replay and not yet minted its successor. With the one
      configured lifetime, and from the replay on, that worker must also have begun less
      than a lifetime ago: what a longer delayed one mints has expired. */
  lemma ReplayEndsTheNamespace(c: World, w: WorkerId, i: nat, now: int, timing: Timing)
    requires WorldOk(c) && w !in c.workers && i < |c.rows| && Replayed(c.rows[i], now)
    requires timing.Configured? ==> timing.since == now
    ensures var namespace, d := c.rows[i].namespace, Act(c, Present(w, c.rows[i].hash, now));
            (exists later, j, at :: ComesAlive(d, later, namespace, j, at, timing))
            <==> (exists v :: MayMint(c, v, namespace, timing))
  {
    hide Act, Consume, Find, WorldOk;
    var namespace, d := c.rows[i].namespace, Act(c, Present(w, c.rows[i].hash, now));
    ActKeeps(c, Present(w, c.rows[i].hash, now));
    if v :| MayMint(c, v, namespace, timing) {
      var hash, ttl := FreshHash(c.rows), if timing.Configured? then timing.ttl else now - c.workers[v].now + 1;
      FreshHashIsFree(c.rows);
      LateMintSurvives(c, v, w, i, now, hash, ttl);
      OneStep(d, Mint(v, hash, ttl));
      assert ComesAlive(d, [Mint(v, hash, ttl)], namespace, |c.rows|, now, timing);
    } else {
      ReplayLeavesNone(c, w, i, now, timing);
      forall later, j: nat, at ensures !ComesAlive(d, later, namespace, j, at, timing) {
        if AllFollow(later, namespace, timing) && j < |Schedule(d, later).rows| {
          ScheduleKeepsNoneAlive(d, later, namespace, timing);
          assert Dead(Schedule(d, later).rows[j], namespace, timing);
        }
      }
    }
  }

  lemma ReplayLeavesNone(c: World, w: WorkerId, i: nat, now: int, timing: Timing)
    requires WorldOk(c) && w !in c.workers && i < |c.rows| && Replayed(c.rows[i], now)
    requires forall v :: !MayMint(c, v, c.rows[i].namespace, timing)
    ensures NoneAlive(Act(c, Present(w, c.rows[i].hash, now)), c.rows[i].namespace, timing)
  {
    PresentingIsExact(c.rows, i, now);
    var d := Act(c, Present(w, c.rows[i].hash, now));
    forall v ensures !MayMint(d, v, c.rows[i].namespace, timing) { assert !MayMint(c, v, c.rows[i].namespace, timing); }
  }

  lemma OneStep(c: World, x: Action)
    ensures Schedule(c, [x]) == Act(c, x)
  {
    hide Act;
    assert [x][1..] == [];
  }

  /** The run in which it does not: worker 1 consumes a token and is delayed, worker 2
      presents the same token after the grace window, and worker 1 then mints. */
  lemma DelayedMintOutlivesTheReplay(namespace: string, site: string, first: string, second: string, expiresAt: int,
                                     ttl: int)
    requires first != second && 0 < expiresAt && GRACE_MS + 1 < ttl
    ensures var c := Schedule(EMPTY, [Login(namespace, site, first, expiresAt), Present(1, first, 0),
                                      Present(2, first, GRACE_MS + 1), Mint(1, second, ttl)]);
            LiveAt(c.rows, 1, namespace, GRACE_MS + 1) && c.rows[0].revokedAt == Some(GRACE_MS + 1)
  {
    var a, p, q, m :=
        Login(namespace, site, first, expiresAt), Present(1, first, 0), Present(2, first, GRACE_MS + 1),
            Mint(1, second, ttl);
    assert [a, p, q, m][1..] == [p, q, m];
    var c1 := Act(EMPTY, a);
    assert c1.rows == [Token(namespace, site, first, expiresAt, None, None, None)];
    ThreeSteps(c1, p, q, m);
    PresentingIsExact(c1.rows, 0, 0);
    var c2 := Act(c1, p);
    assert c2.rows == [c1.rows[0].(consumedAt := Some(0))];
    PresentingIsExact(c2.rows, 0, GRACE_MS + 1);
    var c3 := Act(c2, q);
    assert c3.rows == [c2.rows[0].(revokedAt := Some(GRACE_MS + 1))];
    assert Find(c3.rows, second).None?;
  }

  // ---------------------------------------------------------------- the repository and the service

  class RefreshTokenRepository {
    var rows: Rows

    constructor ()
      ensures rows == []
    {
      rows := [];
    }

    method Issue(namespace: string, site: string, hash: string, expiresAt: int) returns (id: Option<nat>)
      modifies this
      ensures Insert(old(rows), namespace, site, hash, expiresAt)
              == if id.Some? then Some(rows) else None
      ensures id == if Find(old(rows), hash).Some? then None else Some(|old(rows)|)
      ensures id.None? ==> rows == old(rows)
    {
      if Find(rows, hash).Some? { return None; }
      rows := rows + [Token(namespace, site, hash, expiresAt, None, None, None)];
      id := Some(|rows| - 1);
    }

    /** The conditional update first; only when it matches no row, the replay check. */
    method ConsumeToken(hash: string, now: int) returns (consumed: Option<nat>)
      modifies this
      ensures Consumption(rows, consumed) == Consume(old(rows), hash, now)
    {
      var found := Find(rows, hash);
      if found.Some? && Consumable(rows[found.value], now) {
        rows := rows[found.value := rows[found.value].(consumedAt := Some(now))];
        return found;
      }
      if found.Some? {
        var existing := rows[found.value];
        if existing.consumedAt.Some? {
          var consumedTooLongAgo := now - existing.consumedAt.value > GRACE_MS;
          if consumedTooLongAgo { RevokeAllForNamespace(existing.namespace, now); }
        }
      }
      consumed := None;
    }

    method MarkReplaced(spent: nat, successor: nat) returns (ok: bool)
      modifies this
      ensures ok == (spent < |old(rows)|)
      ensures rows == if ok then old(rows)[spent := old(rows)[spent].(replacedBy := Some(successor))] else old(rows)
    {
      ok := spent < |rows|;
      if ok { rows := rows[spent := rows[spent].(replacedBy := Some(successor))]; }
    }

    method RevokeAllForNamespace(namespace: string, now: int)
      modifies this
      ensures rows == RevokeNamespace(old(rows), namespace, now)
    {
      rows := RevokeNamespace(rows, namespace, now);
    }
  }

  /** A request served without interruption is one worker's steps in a row. */
  class RefreshService {
    const repository: RefreshTokenRepository
    const ttl: int

    constructor (repository: RefreshTokenRepository, ttl: int)
      ensures this.repository == repository && this.ttl == ttl
    {
      this.repository := repository;
      this.ttl := ttl;
    }

    method Rotate(hash: string, freshHash: string, now: int, ghost c: World,
                  ghost w: WorkerId) returns (rotated: Option<nat>)
      requires WorldOk(c) && c.rows == repository.rows && w !in c.workers
      modifies repository
      ensures var d := Schedule(c, [Present(w, hash, now), Mint(w, freshHash, ttl), Link(w)]);
              d.rows == repository.rows && w in d.workers && d.workers[w] == Done(rotated)
    {
      ghost var c1 := Act(c, Present(w, hash, now));
      ghost var c2 := Act(c1, Mint(w, freshHash, ttl));
      ghost var c3 := Act(c2, Link(w));
      ThreeSteps(c, Present(w, hash, now), Mint(w, freshHash, ttl), Link(w));
      var consumed := repository.ConsumeToken(hash, now);
      if consumed.None? { return None; }
      var row := repository.rows[consumed.value];
      var minted := repository.Issue(row.namespace, row.site, freshHash, now + ttl);
      if minted.None? { return None; }
      var linked := repository.MarkReplaced(consumed.value, minted.value);
      rotated := minted;
    }

    /** Signing a session out revokes every live token of its namespace; an unknown
        token changes nothing. */
    method Revoke(hash: string, now: int)
      modifies repository
      ensures repository.rows == (var found := Find(old(repository.rows), hash);
              if found.None? then old(repository.rows)
              else RevokeNamespace(old(repository.rows), old(repository.rows)[found.value].namespace, now))
    {
      var found := Find(repository.rows, hash);
      if found.None? { return; }
      repository.RevokeAllForNamespace(repository.rows[found.value].namespace, now);
    }
  }

  lemma ThreeSteps(c: World, x: Action, y: Action, z: Action)
    ensures Schedule(c, [x, y, z]) == Act(Act(Act(c, x), y), z)
  {
    hide Act;
    assert [x, y, z][1..] == [y, z] && [y, z][1..] == [z] && [z][1..] == [];
    assert Schedule(Act(Act(c, x), y), [z]) == Schedule(Act(Act(Act(c, x), y), z), []);
    assert Schedule(Act(c, x), [y, z]) == Schedule(Act(Act(c, x), y), [z]);
  }
}
