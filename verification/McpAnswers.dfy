/** What each call on the MCP servers answers and which documents and snapshot rows
    it writes, for every hub, said from the tables before the call. */
module McpAnswers {
  import opened Options
  import opened JsonText
  import opened Canonical
  import opened McpRevisions

  predicate Is(d: Doc, scope: Text, name: Text) { d.scope == scope && d.name == name }

  lemma Sole(docs: seq<Doc>, i: nat)
    requires UniqueDocs(docs) && i < |docs|
    ensures FindDoc(docs, docs[i].scope, docs[i].name) == Some(i)
  {
  }

  /** A toggle finds exactly the servers that are not deleted, and writes the flag of
      that one document alone. */
  lemma EnableAnswers(s: Hub, scope: Text, name: Text, enabled: bool)
    requires UniqueDocs(s.docs)
    ensures var r := SetEnabled(s, scope, name, enabled);
            && (r.Some? <==> exists d :: d in s.docs && Is(d, scope, name) && !d.deleted)
            && (r.Some? ==>
                  && r.value.rows == s.rows && |r.value.docs| == |s.docs|
                  && forall i :: 0 <= i < |s.docs| ==>
                       r.value.docs[i]
                       == if Is(s.docs[i], scope, name)
                          then Doc(scope, name, s.docs[i].revision, s.docs[i].config, enabled, false)
                          else s.docs[i])
  {
    var live := FindDoc(s.docs, scope, name);
    if live.Some? { assert s.docs[live.value] in s.docs; }
  }

  /** A deletion marks that server, whatever its state, and writes nothing else: its
      flag, its content and its snapshots stay. */
  lemma DeleteAnswers(s: Hub, scope: Text, name: Text)
    requires UniqueDocs(s.docs)
    ensures var t := MarkDeleted(s, scope, name);
            && t.rows == s.rows && |t.docs| == |s.docs|
            && forall i :: 0 <= i < |s.docs| ==>
                 t.docs[i]
                 == if Is(s.docs[i], scope, name)
                    then Doc(scope, name, s.docs[i].revision, s.docs[i].config, s.docs[i].enabled, true)
                    else s.docs[i]
  {
  }

  /** A new server starts enabled, at revision 1, with its content as first snapshot. */
  lemma NewServerAnswers(s: Hub, scope: Text, name: Text, config: Config)
    requires HubOk(s) && forall i :: 0 <= i < |s.docs| ==> !Is(s.docs[i], scope, name)
    ensures var key := RowKey(scope, name, 1);
            && key !in s.rows
            && UpsertServer(s, scope, name, config)
               == Hub(s.docs + [Doc(scope, name, Some(1), config, true, false)],
                      s.rows[key := Row(config, CanonicalConfig(config))])
  {
    hide CanonicalConfig, Numbered;
    NoRowsYet(s, scope, name);
  }

  /** A known server, deleted or not, gets the content, is no longer deleted and keeps its
      flag; no other document changes. Changed content is the next revision, with its
      snapshot; a legacy server's old content becomes snapshot 1 first. */
  lemma KnownServerAnswers(s: Hub, i: nat, config: Config)
    requires HubOk(s) && i < |s.docs|
    ensures var d := s.docs[i];
            var t := UpsertServer(s, d.scope, d.name, config);
            var changed := HashOf(d) != CanonicalConfig(config);
            var n := Revision(d) + if changed then 1 else 0;
            var first, next := RowKey(d.scope, d.name, 1), RowKey(d.scope, d.name, n);
            && t.docs == s.docs[i := Doc(d.scope, d.name, Some(n), config, d.enabled, false)]
            && (forall k :: k in s.rows ==> k in t.rows && t.rows[k] == s.rows[k])
            && (forall k :: k in t.rows <==>
                  k in s.rows || (k == first && d.revision.None?) || (k == next && changed))
            && (d.revision.None? ==> first in t.rows && t.rows[first] == Row(d.config, HashOf(d)))
            && (changed ==> next !in s.rows && next in t.rows && t.rows[next] == Row(config, CanonicalConfig(config)))
  {
    hide CanonicalConfig, FindDoc;
    Sole(s.docs, i);
    assert Numbered(s.docs[i], s.rows);
  }

  /** A session's question is answered exactly for the revisions a server has reached,
      with the snapshot of that revision and the flags as they are now: a toggle or a
      deletion shows at once on every revision ever granted. */
  lemma SnapshotAnswers(s: Hub, scope: Text, name: Text, revision: int)
    requires HubOk(s)
    ensures var r := RevisionSnapshot(s, scope, name, revision);
            && (r.Some? <==> exists d :: d in s.docs && Is(d, scope, name) && 1 <= revision <= Revision(d))
            && (r.Some? ==>
                  && (r.value.liveEnabled <==> exists d :: d in s.docs && Is(d, scope, name) && d.enabled)
                  && (r.value.liveDeleted <==> forall d :: d in s.docs && Is(d, scope, name) ==> d.deleted)
                  && (RowKey(scope, name, revision) in s.rows ==>
                        r.value.row == s.rows[RowKey(scope, name, revision)])
                  && (RowKey(scope, name, revision) !in s.rows ==>
                        exists d :: d in s.docs && Is(d, scope, name) && r.value.row == Row(d.config, HashOf(d))))
  {
    hide CanonicalConfig;
    var live := FindDoc(s.docs, scope, name);
    if live.Some? {
      var d := s.docs[live.value];
      assert d in s.docs && Numbered(d, s.rows);
      forall e | e in s.docs && Is(e, scope, name) ensures e == d { }
    }
  }

  /** Asking for a snapshot writes only when the server is a legacy one: its document
      gets revision 1 and its content becomes the first row. */
  lemma SnapshotWrites(s: Hub, scope: Text, name: Text)
    requires HubOk(s)
    ensures var t := Touched(s, scope, name);
            && |t.docs| == |s.docs|
            && (forall i :: 0 <= i < |s.docs| ==>
                  t.docs[i] == if Is(s.docs[i], scope, name) then s.docs[i].(revision := Some(Revision(s.docs[i])))
                               else s.docs[i])
            && (forall k :: k in s.rows ==> k in t.rows && t.rows[k] == s.rows[k])
            && (forall k :: k in t.rows && k !in s.rows ==>
                  k == RowKey(scope, name, 1)
                  && exists d :: d in s.docs && Is(d, scope, name) && t.rows[k] == Row(d.config, HashOf(d)))
  {
    hide CanonicalConfig;
    var live := FindDoc(s.docs, scope, name);
    if live.Some? {
      var d := s.docs[live.value];
      assert d in s.docs && Numbered(d, s.rows);
    }
  }

  // ---------------------------------------------------------------- the pool

  /** Own servers before official ones, within a scope by name in code-point order, and
      no name twice. */
  ghost predicate InOrder(gs: seq<Grant>, namespace: Text) {
    forall i, j :: 0 <= i < j < |gs| ==>
        && gs[i].name != gs[j].name
        && (gs[i].scope == gs[j].scope ==> Le(ByCodePoint, gs[i].name, gs[j].name))
        && (gs[i].scope != gs[j].scope ==> gs[i].scope == namespace && gs[j].scope == Official())
  }

  predicate Before(d: Doc, e: Doc, namespace: Text) {
    if d.scope == e.scope then Le(ByCodePoint, d.name, e.name) else d.scope == namespace && e.scope == Official()
  }

  predicate Hidden(c: seq<Doc>, j: nat, seen: set<Text>)
    requires j < |c|
  {
    c[j].name in seen || exists h :: 0 <= h < j && c[h].name == c[j].name
  }

  /** Candidates that no earlier one hides come in order. */
  ghost predicate Listed(c: seq<Doc>, seen: set<Text>, namespace: Text) {
    forall i, j :: 0 <= i < j < |c| ==> Hidden(c, j, seen) || Before(c[i], c[j], namespace)
  }

  lemma ListedTail(c: seq<Doc>, seen: set<Text>, namespace: Text)
    requires |c| > 0 && Listed(c, seen, namespace)
    ensures Listed(c[1..], seen + {c[0].name}, namespace)
    ensures forall k :: 0 <= k < |c[1..]| ==>
              Hidden(c[1..], k, seen + {c[0].name}) || Before(c[0], c[1..][k], namespace)
  {
    var later := seen + {c[0].name};
    forall k | 0 <= k < |c[1..]| && Hidden(c, k + 1, seen)
      ensures Hidden(c[1..], k, later)
    {
      if c[k + 1].name !in later {
        var h :| 0 <= h < k + 1 && c[h].name == c[k + 1].name;
        assert c[1..][h - 1] == c[h];
      }
    }
    forall i, j | 0 <= i < j < |c[1..]|
      ensures Hidden(c[1..], j, later) || Before(c[1..][i], c[1..][j], namespace)
    {
      assert Hidden(c, j + 1, seen) || Before(c[i + 1], c[j + 1], namespace);
    }
  }

  predicate Shown(g: Grant, c: seq<Doc>, seen: set<Text>) {
    exists k :: 0 <= k < |c| && Is(c[k], g.scope, g.name) && !Hidden(c, k, seen)
  }

  /** Each grant of a pass is of a candidate that nothing earlier hid. */
  ghost predicate FromCandidates(gs: seq<Grant>, c: seq<Doc>, seen: set<Text>) {
    forall i :: 0 <= i < |gs| ==> Shown(gs[i], c, seen)
  }

  lemma ShownLater(g: Grant, c: seq<Doc>, seen: set<Text>)
    requires |c| > 0 && Shown(g, c[1..], seen + {c[0].name})
    ensures Shown(g, c, seen) && g.name != c[0].name
  {
    var k :| 0 <= k < |c[1..]| && Is(c[1..][k], g.scope, g.name) && !Hidden(c[1..], k, seen + {c[0].name});
    forall h | 0 <= h < k + 1
      ensures c[h].name != c[k + 1].name
    {
      if h > 0 { assert c[1..][h - 1] == c[h]; }
    }
    assert Is(c[k + 1], g.scope, g.name);
  }

  lemma FromTail(gs: seq<Grant>, c: seq<Doc>, seen: set<Text>)
    requires |c| > 0 && FromCandidates(gs, c[1..], seen + {c[0].name})
    ensures FromCandidates(gs, c, seen)
    ensures forall i :: 0 <= i < |gs| ==> gs[i].name != c[0].name
  {
    forall i | 0 <= i < |gs| ensures Shown(gs[i], c, seen) && gs[i].name != c[0].name { ShownLater(gs[i], c, seen); }
  }

  lemma GrantsOfCons(d: Doc, rest: seq<Doc>)
    ensures GrantsOf([d] + rest) == [GrantOf(d)] + GrantsOf(rest)
  {
  }

  lemma {:induction false} PassInOrder(s: Hub, c: seq<Doc>, seen: set<Text>, namespace: Text)
    requires Listed(c, seen, namespace)
    ensures var gs := GrantsOf(Merge(s, c, seen).active);
            InOrder(gs, namespace) && FromCandidates(gs, c, seen)
    decreases |c|
  {
    hide CanonicalConfig, FindDoc, AppendRevision, Le, Listed, Hidden;
    if |c| > 0 {
      var d := c[0];
      ListedTail(c, seen, namespace);
      if d.name in seen || !d.enabled {
        assert d.name in seen ==> seen == seen + {d.name};
        PassInOrder(s, c[1..], seen + {d.name}, namespace);
        FromTail(GrantsOf(Merge(s, c[1..], seen + {d.name}).active), c, seen);
      } else {
        var m := EnsureMigrated(s, d);
        PassInOrder(m.hub, c[1..], seen + {d.name}, namespace);
        var rest := Merge(m.hub, c[1..], seen + {d.name}).active;
        FromTail(GrantsOf(rest), c, seen);
        GrantsOfCons(m.doc, rest);
        FirstInOrder(m.doc, GrantsOf(rest), c, seen, namespace);
      }
    }
  }

  lemma FirstInOrder(d: Doc, gs: seq<Grant>, c: seq<Doc>, seen: set<Text>, namespace: Text)
    requires |c| > 0 && Is(d, c[0].scope, c[0].name) && d.name !in seen
    requires InOrder(gs, namespace) && FromCandidates(gs, c, seen) && FromCandidates(gs, c[1..], seen + {c[0].name})
    requires forall k :: 0 <= k < |c[1..]| ==>
               Hidden(c[1..], k, seen + {c[0].name}) || Before(c[0], c[1..][k], namespace)
    requires forall i :: 0 <= i < |gs| ==> gs[i].name != d.name
    ensures InOrder([GrantOf(d)] + gs, namespace) && FromCandidates([GrantOf(d)] + gs, c, seen)
  {
    hide CanonicalConfig, Le;
    var all := [GrantOf(d)] + gs;
    forall j | 0 < j < |all|
      ensures all[j].scope == d.scope ==> Le(ByCodePoint, d.name, all[j].name)
      ensures all[j].scope != d.scope ==> d.scope == namespace && all[j].scope == Official()
    {
      assert Shown(gs[j - 1], c[1..], seen + {c[0].name});
      var k :| 0 <= k < |c[1..]| && Is(c[1..][k], gs[j - 1].scope, gs[j - 1].name)
               && !Hidden(c[1..], k, seen + {c[0].name});
      assert Before(c[0], c[1..][k], namespace);
    }
    assert !Hidden(c, 0, seen) && Is(c[0], d.scope, d.name);
    assert Shown(GrantOf(d), c, seen);
  }

  lemma CandidatesListed(docs: seq<Doc>, namespace: Text)
    ensures Listed(Candidates(docs, namespace), {}, namespace)
  {
    hide Le, Official, Sort, InScope;
    var x, y := InScope(docs, namespace), InScope(docs, Official());
    var own, official := Sort(ByCodePoint, x, NameOf), Sort(ByCodePoint, y, NameOf);
    SortSorts(ByCodePoint, x, NameOf);
    SortSorts(ByCodePoint, y, NameOf);
    forall d | d in own ensures d.scope == namespace { assert d in multiset(own); }
    forall d | d in official ensures d.scope == Official() { assert d in multiset(official); }
    var c := own + official;
    forall i, j | 0 <= i < j < |c|
      ensures Hidden(c, j, {}) || Before(c[i], c[j], namespace)
    {
      if i < |own| <= j {
        assert c[i] in own && c[j] in official;
        if namespace == Official() { assert c[j - |own|] == official[j - |own|]; }
      } else if j < |own| {
        assert c[i] in own && c[j] in own && Le(ByCodePoint, NameOf(own[i]), NameOf(own[j]));
      } else {
        assert c[i] in official && c[j] in official;
        assert Le(ByCodePoint, NameOf(official[i - |own|]), NameOf(official[j - |own|]));
      }
    }
  }

  /** The grants of a session: the namespace's own servers first, then the official
      ones, each group by name in code-point order, and no name twice. */
  lemma GrantsInOrder(s: Hub, namespace: Text)
    ensures InOrder(ResolveGrants(s, namespace), namespace)
  {
    hide Le, Merge, Candidates, Listed, InOrder;
    CandidatesListed(s.docs, namespace);
    PassInOrder(s, Candidates(s.docs, namespace), {}, namespace);
  }

  // ---------------------------------------------------------------- what a pass writes

  /** The hub after a pass that handed out `gs`: the legacy documents among the granted
      ones got revision 1 and their first row; nothing else was written. */
  ghost predicate MigratedFor(s: Hub, t: Hub, gs: seq<Grant>) {
    && |t.docs| == |s.docs|
    && (forall i :: 0 <= i < |s.docs| ==>
          t.docs[i] == if GrantOf(s.docs[i]) in gs then s.docs[i].(revision := Some(Revision(s.docs[i])))
                       else s.docs[i])
    && (forall k :: k in s.rows ==> k in t.rows && t.rows[k] == s.rows[k])
    && (forall k :: k in t.rows && k !in s.rows ==>
          exists d :: d in s.docs && GrantOf(d) in gs && k == RowKey(d.scope, d.name, 1)
                      && t.rows[k] == Row(d.config, HashOf(d)))
  }

  lemma MigrateListedWrites(s: Hub, d: Doc)
    requires HubOk(s) && Standing(s.docs, d)
    ensures var t := EnsureMigrated(s, d).hub;
            var i := FindDoc(s.docs, d.scope, d.name).value;
            && t.docs == s.docs[i := s.docs[i].(revision := Some(Revision(d)))]
            && Revision(s.docs[i]) == Revision(d) && GrantOf(s.docs[i]) == GrantOf(d)
            && (forall k :: k in s.rows ==> k in t.rows && t.rows[k] == s.rows[k])
            && (forall k :: k in t.rows && k !in s.rows ==>
                  k == RowKey(d.scope, d.name, 1) && t.rows[k] == Row(d.config, HashOf(d)))
  {
    hide CanonicalConfig;
    var i := FindDoc(s.docs, d.scope, d.name).value;
    assert Numbered(s.docs[i], s.rows);
  }

  lemma {:induction false} PassMigrates(s: Hub, c: seq<Doc>, seen: set<Text>)
    requires HubOk(s) && forall d :: d in c ==> Standing(s.docs, d)
    ensures var r := Merge(s, c, seen);
            MigratedFor(s, r.hub, GrantsOf(r.active))
    decreases |c|
  {
    hide CanonicalConfig, HubOk, EnsureMigrated, Standing, MigratedFor, GrantOf;
    if |c| == 0 {
      NothingMigrated(s);
    } else {
      var d := c[0];
      if d.name in seen {
        PassMigrates(s, c[1..], seen);
      } else if !d.enabled {
        PassMigrates(s, c[1..], seen + {d.name});
      } else {
        MigrateListed(s, d);
        var m := EnsureMigrated(s, d);
        PassMigrates(m.hub, c[1..], seen + {d.name});
        var rest := Merge(m.hub, c[1..], seen + {d.name});
        GrantsOfCons(m.doc, rest.active);
        OneMoreMigrated(s, d, rest.hub, GrantsOf(rest.active));
        assert GrantOf(m.doc) == GrantOf(d) by { GrantStays(d); }
      }
    }
  }

  lemma GrantStays(d: Doc)
    ensures GrantOf(d.(revision := Some(Revision(d)))) == GrantOf(d)
  {
    hide CanonicalConfig;
  }

  lemma NothingMigrated(s: Hub)
    ensures MigratedFor(s, s, GrantsOf([]))
  {
  }

  lemma OneMoreMigrated(s: Hub, d: Doc, t: Hub, gs: seq<Grant>)
    requires HubOk(s) && Standing(s.docs, d) && MigratedFor(EnsureMigrated(s, d).hub, t, gs)
    ensures MigratedFor(s, t, [GrantOf(d)] + gs)
  {
    hide CanonicalConfig, EnsureMigrated, Numbered;
    var u, all := EnsureMigrated(s, d).hub, [GrantOf(d)] + gs;
    MigrateListedWrites(s, d);
    var i := FindDoc(s.docs, d.scope, d.name).value;
    forall j | 0 <= j < |s.docs|
      ensures t.docs[j] == if GrantOf(s.docs[j]) in all then s.docs[j].(revision := Some(Revision(s.docs[j])))
                           else s.docs[j]
    {
      if j != i { assert GrantOf(s.docs[j]) != GrantOf(d); }
    }
    forall k | k in t.rows && k !in s.rows
      ensures exists e :: e in s.docs && GrantOf(e) in all && k == RowKey(e.scope, e.name, 1)
                          && t.rows[k] == Row(e.config, HashOf(e))
    {
      NewRowOf(s, d, t, gs, k);
    }
  }

  lemma NewRowOf(s: Hub, d: Doc, t: Hub, gs: seq<Grant>, k: RowKey)
    requires HubOk(s) && Standing(s.docs, d) && MigratedFor(EnsureMigrated(s, d).hub, t, gs)
    requires k in t.rows && k !in s.rows
    ensures exists e :: e in s.docs && GrantOf(e) in [GrantOf(d)] + gs && k == RowKey(e.scope, e.name, 1)
                        && t.rows[k] == Row(e.config, HashOf(e))
  {
    hide CanonicalConfig, EnsureMigrated, HubOk;
    var u := EnsureMigrated(s, d).hub;
    MigrateListedWrites(s, d);
    var i := FindDoc(s.docs, d.scope, d.name).value;
    if k in u.rows {
      assert s.docs[i] in s.docs;
    } else {
      var e :| e in u.docs && GrantOf(e) in gs && k == RowKey(e.scope, e.name, 1)
               && t.rows[k] == Row(e.config, HashOf(e));
      var j :| 0 <= j < |u.docs| && u.docs[j] == e;
      assert s.docs[j] in s.docs && GrantOf(s.docs[j]) == GrantOf(e);
    }
  }

  /** Resolving the servers of a session writes nothing but the first revision of the
      legacy servers it grants. */
  lemma ResolveWrites(s: Hub, namespace: Text)
    requires HubOk(s)
    ensures MigratedFor(s, Step(s, Resolve(namespace)), ResolveGrants(s, namespace))
  {
    hide CanonicalConfig, HubOk, Merge, Candidates, Standing, MigratedFor;
    CandidatesStand(s, namespace);
    PassMigrates(s, Candidates(s.docs, namespace), {});
  }
}
