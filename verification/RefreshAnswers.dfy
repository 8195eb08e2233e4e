/** What one request on the refresh tokens answers and writes, for every world, said
    from the rows before it; and what a finished rotation stands for in every schedule. */
module RefreshAnswers {
  import opened Options
  import opened RefreshTokens

  /** The row a hash names: the hash is unique. */
  ghost predicate Names(rows: Rows, hash: string, i: nat) { i < |rows| && rows[i].hash == hash }

  ghost predicate Free(rows: Rows, hash: string) { forall i :: 0 <= i < |rows| ==> rows[i].hash != hash }

  /** Unused, not revoked and not yet expired. */
  predicate Fresh(t: Token, now: int) { t.consumedAt == None && t.revokedAt == None && now < t.expiresAt }

  /** Used before, and that more than sixty seconds ago. */
  predicate Stolen(t: Token, now: int) { t.consumedAt.Some? && t.consumedAt.value + 60_000 < now }

  /** Every row as it was, but those of the namespace that were not revoked yet are. */
  ghost predicate NamespaceEnded(rows: Rows, later: Rows, namespace: string, now: int) {
    && |later| == |rows|
    && forall j :: 0 <= j < |rows| ==>
         later[j] == if rows[j].namespace == namespace && rows[j].revokedAt == None
                     then rows[j].(revokedAt := Some(now)) else rows[j]
  }

  lemma Named(rows: Rows, hash: string, i: nat)
    requires UniqueHashes(rows) && Names(rows, hash, i)
    ensures Find(rows, hash) == Some(i) && !Free(rows, hash)
  {
  }

  lemma NotNamed(rows: Rows, hash: string)
    requires Free(rows, hash)
    ensures Find(rows, hash) == None
  {
  }

  // ---------------------------------------------------------------- the statements

  /** Presenting a token, among any other workers: a fresh one becomes the worker's to
      rotate, a stolen one ends its namespace, and any other one writes no row. */
  lemma PresentAnswers(c: World, w: WorkerId, i: nat, now: int)
    requires UniqueHashes(c.rows) && w !in c.workers && i < |c.rows|
    ensures var d, t := Act(c, Present(w, c.rows[i].hash, now)), c.rows[i];
            if Fresh(t, now) then
              d == World(c.rows[i := t.(consumedAt := Some(now))], c.workers[w := Holding(i, now)], c.parents,
                         c.consumptions + [(w, i)])
            else
              && (if Stolen(t, now) then NamespaceEnded(c.rows, d.rows, t.namespace, now) else d.rows == c.rows)
              && d.workers == c.workers[w := Done(None)] && d.parents == c.parents && d.consumptions == c.consumptions
  {
    Named(c.rows, c.rows[i].hash, i);
  }

  /** Minting adds one row for the namespace and site of the used token, living from the
      moment the request began; a taken hash ends the request. */
  lemma MintAnswers(c: World, w: WorkerId, hash: string, ttl: int)
    requires w in c.workers && c.workers[w].Holding? && c.workers[w].spent < |c.rows|
    ensures var d, x := Act(c, Mint(w, hash, ttl)), c.workers[w];
            var t := c.rows[x.spent];
            if Free(c.rows, hash) then
              d == World(c.rows + [Token(t.namespace, t.site, hash, x.now + ttl, None, None, None)],
                         c.workers[w := Minted(x.spent, |c.rows|)], c.parents + [Some(x.spent)], c.consumptions)
            else d == c.(workers := c.workers[w := Done(None)])
  {
    if Free(c.rows, hash) { NotNamed(c.rows, hash); }
  }

  /** Linking points the used token at the minted one and reports it. */
  lemma LinkAnswers(c: World, w: WorkerId)
    requires w in c.workers && c.workers[w].Minted? && c.workers[w].spent < |c.rows|
    ensures var x := c.workers[w];
            Act(c, Link(w))
            == World(c.rows[x.spent := c.rows[x.spent].(replacedBy := Some(x.successor))],
                     c.workers[w := Done(Some(x.successor))], c.parents, c.consumptions)
  {
  }

  // ---------------------------------------------------------------- undisturbed requests

  /** A rotation of one request, undisturbed. */
  function Rotation(c: World, w: WorkerId, hash: string, now: int, successor: string, ttl: int): World {
    Schedule(c, [Present(w, hash, now), Mint(w, successor, ttl), Link(w)])
  }

  lemma RotationIs(c: World, w: WorkerId, hash: string, now: int, successor: string, ttl: int)
    ensures Rotation(c, w, hash, now, successor, ttl)
            == Act(Act(Act(c, Present(w, hash, now)), Mint(w, successor, ttl)), Link(w))
  {
    ThreeSteps(c, Present(w, hash, now), Mint(w, successor, ttl), Link(w));
  }

  /** A rotation succeeds exactly for a fresh token when the new hash is free: the token
      is then used and linked to its successor, which belongs to the same namespace and
      site and lives from now for the configured time. */
  lemma RotationSucceeds(c: World, w: WorkerId, i: nat, now: int, successor: string, ttl: int)
    requires UniqueHashes(c.rows) && w !in c.workers && i < |c.rows|
    ensures var d, t, k := Rotation(c, w, c.rows[i].hash, now, successor, ttl), c.rows[i], |c.rows|;
            if Fresh(t, now) && Free(c.rows, successor) then
              && d.rows == c.rows[i := t.(consumedAt := Some(now), replacedBy := Some(k))]
                           + [Token(t.namespace, t.site, successor, now + ttl, None, None, None)]
              && d.workers == c.workers[w := Done(Some(k))]
              && d.parents == c.parents + [Some(i)] && d.consumptions == c.consumptions + [(w, i)]
            else d.workers == c.workers[w := Done(None)] && d.parents == c.parents
  {
    hide Act, UniqueHashes;
    var t := c.rows[i];
    RotationIs(c, w, t.hash, now, successor, ttl);
    PresentAnswers(c, w, i, now);
    var c1 := Act(c, Present(w, t.hash, now));
    if Fresh(t, now) {
      assert forall j :: 0 <= j < |c.rows| ==> c1.rows[j].hash == c.rows[j].hash;
      MintAnswers(c1, w, successor, ttl);
      if Free(c.rows, successor) {
        LinkAnswers(Act(c1, Mint(w, successor, ttl)), w);
        LinkedInPlace(c.rows, i, now, successor, ttl);
      } else {
        Idle(Act(c1, Mint(w, successor, ttl)), w, successor, ttl);
      }
    } else {
      Idle(c1, w, successor, ttl);
    }
  }

  lemma LinkedInPlace(rows: Rows, i: nat, now: int, successor: string, ttl: int)
    requires i < |rows|
    ensures var t, k := rows[i], |rows|;
            var u := t.(consumedAt := Some(now));
            var minted := rows[i := u] + [Token(t.namespace, t.site, successor, now + ttl, None, None, None)];
            minted[i := u.(replacedBy := Some(k))]
            == rows[i := t.(consumedAt := Some(now), replacedBy := Some(k))]
               + [Token(t.namespace, t.site, successor, now + ttl, None, None, None)]
  {
  }

  /** A request that has ended takes no further step. */
  lemma Idle(c: World, w: WorkerId, hash: string, ttl: int)
    requires w in c.workers && c.workers[w].Done?
    ensures Act(c, Mint(w, hash, ttl)) == c && Act(c, Link(w)) == c
  {
  }

  /** A rotation that fails leaves a fresh token used up, when it was the new hash that
      was taken; ends the namespace of a token used more than a minute ago; and writes
      nothing in every other case. */
  lemma RotationFails(c: World, w: WorkerId, i: nat, now: int, successor: string, ttl: int)
    requires UniqueHashes(c.rows) && w !in c.workers && i < |c.rows|
    requires !(Fresh(c.rows[i], now) && Free(c.rows, successor))
    ensures var d, t := Rotation(c, w, c.rows[i].hash, now, successor, ttl), c.rows[i];
            if Fresh(t, now) then
              d.rows == c.rows[i := t.(consumedAt := Some(now))] && d.consumptions == c.consumptions + [(w, i)]
            else
              && (if Stolen(t, now) then NamespaceEnded(c.rows, d.rows, t.namespace, now) else d.rows == c.rows)
              && d.consumptions == c.consumptions
  {
    hide Act, UniqueHashes;
    var t := c.rows[i];
    RotationIs(c, w, t.hash, now, successor, ttl);
    PresentAnswers(c, w, i, now);
    var c1 := Act(c, Present(w, t.hash, now));
    if Fresh(t, now) {
      assert forall j :: 0 <= j < |c.rows| ==> c1.rows[j].hash == c.rows[j].hash;
      MintAnswers(c1, w, successor, ttl);
      Idle(Act(c1, Mint(w, successor, ttl)), w, successor, ttl);
    } else {
      Idle(c1, w, successor, ttl);
    }
  }

  lemma UnknownHashFails(c: World, w: WorkerId, hash: string, now: int, successor: string, ttl: int)
    requires w !in c.workers && Free(c.rows, hash)
    ensures Rotation(c, w, hash, now, successor, ttl) == c.(workers := c.workers[w := Done(None)])
  {
    NotNamed(c.rows, hash);
    RotationIs(c, w, hash, now, successor, ttl);
  }

  /** Signing out reads the token's namespace, then ends it as it is by then. */
  lemma RevokeAllAnswers(c: World, w: WorkerId)
    requires w in c.workers && c.workers[w].LoggingOut?
    ensures var d, x := Act(c, RevokeAll(w)), c.workers[w];
            && NamespaceEnded(c.rows, d.rows, x.namespace, x.now)
            && d.workers == c.workers[w := Done(None)] && d.parents == c.parents && d.consumptions == c.consumptions
  {
  }

  /** Undisturbed, it ends the namespace of the token that is shown, used or not, and
      nothing else; an unknown token writes nothing. */
  lemma LogoutAnswers(c: World, w: WorkerId, hash: string, now: int)
    requires UniqueHashes(c.rows) && w !in c.workers
    ensures var d := Schedule(c, [Logout(w, hash, now), RevokeAll(w)]);
            && (forall i: nat :: Names(c.rows, hash, i) ==> NamespaceEnded(c.rows, d.rows, c.rows[i].namespace, now))
            && (Free(c.rows, hash) ==> d.rows == c.rows)
            && d.workers == c.workers[w := Done(None)]
            && d.parents == c.parents && d.consumptions == c.consumptions
  {
    var a, b := Logout(w, hash, now), RevokeAll(w);
    var c1 := Act(c, a);
    TwoSteps(c, a, b);
    if Free(c.rows, hash) {
      NotNamed(c.rows, hash);
    } else {
      var i: int :| 0 <= i < |c.rows| && c.rows[i].hash == hash;
      Named(c.rows, hash, i);
      hide Act;
      RevokeAllAnswers(c1, w);
      forall j: nat | Names(c.rows, hash, j) ensures j == i { Named(c.rows, hash, j); }
    }
  }

  lemma TwoSteps(c: World, x: Action, y: Action)
    ensures Schedule(c, [x, y]) == Act(Act(c, x), y)
  {
    hide Act;
    assert [x, y][1..] == [y] && [y][1..] == [];
    assert Schedule(Act(c, x), [y]) == Schedule(Act(Act(c, x), y), []);
  }

  /** A login adds one row with what it was given, exactly when the hash is free. */
  lemma LoginAnswers(c: World, namespace: string, site: string, hash: string, expiresAt: int)
    ensures var d := Act(c, Login(namespace, site, hash, expiresAt));
            if Free(c.rows, hash) then
              d == World(c.rows + [Token(namespace, site, hash, expiresAt, None, None, None)], c.workers,
                         c.parents + [None], c.consumptions)
            else d == c
  {
    if Free(c.rows, hash) { NotNamed(c.rows, hash); }
  }

  /** A request that stops leaves its rows as they are and takes no further step, and no
      request is begun under the name of another. */
  lemma CrashAnswers(c: World, w: WorkerId, hash: string, now: int)
    requires w in c.workers
    ensures Act(c, Crash(w)) == c.(workers := c.workers[w := if c.workers[w].Done? then c.workers[w] else Done(None)])
    ensures Act(c, Present(w, hash, now)) == c && Act(c, Logout(w, hash, now)) == c
    ensures c.workers[w].Done? ==> Act(c, RevokeAll(w)) == c
  {
    assert c.workers[w := c.workers[w]] == c.workers;
  }

  // ---------------------------------------------------------------- every schedule

  /** A worker that reported a successor has recorded it: the token it used is linked to
      the one it minted, and it is the worker that used it. */
  ghost predicate Recorded(c: World, w: WorkerId, k: nat) {
    exists i :: 0 <= i < |c.rows| && c.rows[i].replacedBy == Some(k) && (w, i) in c.consumptions
  }

  ghost predicate DoneIsRecorded(c: World) {
    forall w :: w in c.workers && c.workers[w].Done? && c.workers[w].rotated.Some? ==>
        Recorded(c, w, c.workers[w].rotated.value)
  }

  lemma RecordedLater(c: World, a: Action, w: WorkerId, k: nat)
    requires WorldOk(c) && Recorded(c, w, k)
    ensures Recorded(Act(c, a), w, k)
  {
    hide Act, WorldOk;
    ActKeeps(c, a);
    LogGrows(c, a);
    var d := Act(c, a);
    var i :| 0 <= i < |c.rows| && c.rows[i].replacedBy == Some(k) && (w, i) in c.consumptions;
    assert RowGrows(c.rows[i], d.rows[i]);
    assert (w, i) in d.consumptions;
  }

  lemma LogGrows(c: World, a: Action)
    ensures forall x :: x in c.consumptions ==> x in Act(c, a).consumptions
  {
  }

  /** A request's end is final, and a successor is reported by linking alone. */
  lemma NewlyDone(c: World, a: Action, w: WorkerId)
    requires WorldOk(c)
    requires var d := Act(c, a); w in d.workers && d.workers[w].Done? && d.workers[w].rotated.Some?
    ensures var d := Act(c, a);
            || (w in c.workers && c.workers[w] == d.workers[w])
            || (a == Link(w) && w in c.workers && c.workers[w].Minted?
                && d.workers[w].rotated.value == c.workers[w].successor && Recorded(d, w, c.workers[w].successor))
  {
    hide UniqueHashes, FamilyOk, LinksOk, ConsumptionsOk, Consume, Find, RevokeNamespace;
    if a == Link(w) && w in c.workers && c.workers[w].Minted? {
      assert WorkerOk(c, w, c.workers[w]);
      var d := Act(c, a);
      assert d.rows[c.workers[w].spent].replacedBy == Some(c.workers[w].successor);
    }
  }

  lemma ActKeepsRecorded(c: World, a: Action)
    requires WorldOk(c) && DoneIsRecorded(c)
    ensures DoneIsRecorded(Act(c, a))
  {
    hide Act, WorldOk, Recorded;
    var d := Act(c, a);
    forall w | w in d.workers && d.workers[w].Done? && d.workers[w].rotated.Some?
      ensures Recorded(d, w, d.workers[w].rotated.value)
    {
      NewlyDone(c, a, w);
      if w in c.workers && c.workers[w] == d.workers[w] { RecordedLater(c, a, w, d.workers[w].rotated.value); }
    }
  }

  lemma {:induction false} ScheduleKeepsRecorded(c: World, actions: seq<Action>)
    requires WorldOk(c) && DoneIsRecorded(c)
    ensures DoneIsRecorded(Schedule(c, actions))
    decreases |actions|
  {
    hide WorldOk, Act, DoneIsRecorded;
    if |actions| > 0 {
      ActKeeps(c, actions[0]);
      ActKeepsRecorded(c, actions[0]);
      ScheduleKeepsRecorded(Act(c, actions[0]), actions[1..]);
    }
  }

  /** Under every interleaving, whoever was handed a new token was the one to use the old
      one, and the old one is linked to it for good. */
  lemma SuccessIsLinked(actions: seq<Action>, w: WorkerId)
    ensures var c := Schedule(EMPTY, actions);
            w in c.workers && c.workers[w].Done? && c.workers[w].rotated.Some? ==>
              Recorded(c, w, c.workers[w].rotated.value)
  {
    hide Act, Schedule, Recorded;
    ScheduleKeepsRecorded(EMPTY, actions);
  }
}
