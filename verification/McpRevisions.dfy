/** MCP servers of the hub: a live document per server, an append-only table of
    revision snapshots, and the grants by which a session locks their content. A
    fingerprint is the canonical text of a config: SHA-256 is taken as injective. */
module McpRevisions {
  import opened Options
  import opened JsonText
  import opened Canonical

  /** A live document; documents stored before revisions existed have none. */
  datatype Doc = Doc(scope: Text, name: Text, revision: Option<int>, config: Config, enabled: bool, deleted: bool)

  /** The unique index of `mcp_server_revisions`. */
  datatype RowKey = RowKey(scope: Text, name: Text, revision: int)

  datatype Row = Row(config: Config, hash: Text)

  type Rows = map<RowKey, Row>

  datatype Hub = Hub(docs: seq<Doc>, rows: Rows)

  datatype Grant = Grant(scope: Text, name: Text, revision: int, hash: Text)

  datatype Resolution = Resolution(row: Row, liveEnabled: bool, liveDeleted: bool)

  const LEGACY_REVISION: int := 1

  function Official(): Text { Ascii("official") }

  function HashOf(d: Doc): Text { CanonicalConfig(d.config) }

  function Revision(d: Doc): int { if d.revision.Some? then d.revision.value else LEGACY_REVISION }

  function FindDoc(docs: seq<Doc>, scope: Text, name: Text): (found: Option<nat>)
    ensures found.Some? ==> found.value < |docs| && docs[found.value].scope == scope && docs[found.value].name == name
    ensures found.None? ==> forall i :: 0 <= i < |docs| ==> docs[i].scope != scope || docs[i].name != name
  {
    PositionOf(docs, (d: Doc) => (d.scope, d.name), (scope, name))
  }

  /** Insert the snapshot unless its key exists; rows are never rewritten. */
  function AppendRevision(rows: Rows, d: Doc, revision: int): Rows {
    var key := RowKey(d.scope, d.name, revision);
    if key in rows then rows else rows[key := Row(d.config, HashOf(d))]
  }

  datatype Migrated = Migrated(hub: Hub, doc: Doc)

  /** Give a document without revision its first one, snapshot included. */
  function EnsureMigrated(s: Hub, d: Doc): Migrated {
    if d.revision.Some? then Migrated(s, d)
    else
      var m := d.(revision := Some(LEGACY_REVISION));
      var live := FindDoc(s.docs, d.scope, d.name);
      var docs := if live.None? then s.docs
          else s.docs[live.value := s.docs[live.value].(revision := Some(LEGACY_REVISION))];
      Migrated(Hub(docs, AppendRevision(s.rows, m, LEGACY_REVISION)), m)
  }

  function UpsertServer(s: Hub, scope: Text, name: Text, config: Config): Hub {
    var existing := FindDoc(s.docs, scope, name);
    if existing.None? then
      var d := Doc(scope, name, Some(1), config, true, false);
      Hub(s.docs + [d], AppendRevision(s.rows, d, 1))
    else
      var m := EnsureMigrated(s, s.docs[existing.value]);
      var revision := if HashOf(m.doc) == CanonicalConfig(config) then Revision(m.doc) else Revision(m.doc) + 1;
      var written := m.doc.(revision := Some(revision), config := config, deleted := false);
      Hub(Replace(m.hub.docs, existing.value, written), AppendRevision(m.hub.rows, written, revision))
  }

  function Replace(docs: seq<Doc>, i: nat, d: Doc): seq<Doc> { if i < |docs| then docs[i := d] else docs }

  /** `None`: no live server of that name. */
  function SetEnabled(s: Hub, scope: Text, name: Text, enabled: bool): Option<Hub> {
    var live := FindDoc(s.docs, scope, name);
    if live.None? || s.docs[live.value].deleted then None
    else Some(s.(docs := s.docs[live.value := s.docs[live.value].(enabled := enabled)]))
  }

  function MarkDeleted(s: Hub, scope: Text, name: Text): Hub {
    var live := FindDoc(s.docs, scope, name);
    if live.None? then s else s.(docs := s.docs[live.value := s.docs[live.value].(deleted := true)])
  }

  // ---------------------------------------------------------------- the pool of a namespace

  function NameOf(d: Doc): Text { d.name }

  function InScope(docs: seq<Doc>, scope: Text): (r: seq<Doc>)
    ensures forall d :: d in r <==> d in docs && d.scope == scope && !d.deleted
    decreases |docs|
  {
    if |docs| == 0 then []
    else (if docs[0].scope == scope && !docs[0].deleted then [docs[0]] else []) + InScope(docs[1..], scope)
  }

  /** Own servers by name, then the official ones by name. */
  function Candidates(docs: seq<Doc>, namespace: Text): seq<Doc> {
    Sort(ByCodePoint, InScope(docs, namespace), NameOf) + Sort(ByCodePoint, InScope(docs, Official()), NameOf)
  }

  datatype Merged = Merged(hub: Hub, active: seq<Doc>)

  /** A name once seen hides later ones, enabled or not. */
  function Merge(s: Hub, candidates: seq<Doc>, seen: set<Text>): Merged
    decreases |candidates|
  {
    if |candidates| == 0 then Merged(s, [])
    else
      var d := candidates[0];
      if d.name in seen then Merge(s, candidates[1..], seen)
      else if !d.enabled then Merge(s, candidates[1..], seen + {d.name})
      else
        var m := EnsureMigrated(s, d);
        var rest := Merge(m.hub, candidates[1..], seen + {d.name});
        Merged(rest.hub, [m.doc] + rest.active)
  }

  function MergedActive(s: Hub, namespace: Text): Merged { Merge(s, Candidates(s.docs, namespace), {}) }

  function GrantOf(d: Doc): Grant { Grant(d.scope, d.name, Revision(d), HashOf(d)) }

  function GrantsOf(active: seq<Doc>): (gs: seq<Grant>)
    ensures |gs| == |active| && forall i :: 0 <= i < |gs| ==> gs[i] == GrantOf(active[i])
  {
    seq(|active|, i requires 0 <= i < |active| => GrantOf(active[i]))
  }

  function ResolveGrants(s: Hub, namespace: Text): seq<Grant> { GrantsOf(MergedActive(s, namespace).active) }

  /** The hub after a snapshot was asked for: a legacy live document is migrated first. */
  function Touched(s: Hub, scope: Text, name: Text): Hub {
    var live := FindDoc(s.docs, scope, name);
    if live.None? then s else EnsureMigrated(s, s.docs[live.value]).hub
  }

  function RevisionSnapshot(s: Hub, scope: Text, name: Text, revision: int): Option<Resolution> {
    var live := FindDoc(s.docs, scope, name);
    var key := RowKey(scope, name, revision);
    var t := Touched(s, scope, name);
    if key !in t.rows then None
    else Some(Resolution(t.rows[key], live.Some? && s.docs[live.value].enabled,
                         live.None? || s.docs[live.value].deleted))
  }

  // ---------------------------------------------------------------- runs

  datatype Op =
    | Upsert(scope: Text, name: Text, config: Config)
    | Enable(scope: Text, name: Text, enabled: bool)
    | Delete(scope: Text, name: Text)
    | Resolve(namespace: Text)
    | Snapshot(scope: Text, name: Text, revision: int)

  function Step(s: Hub, op: Op): Hub {
    match op
    case Upsert(scope, name, config) => UpsertServer(s, scope, name, config)
    case Enable(scope, name, enabled) => var t := SetEnabled(s, scope, name, enabled); if t.None? then s else t.value
    case Delete(scope, name) => MarkDeleted(s, scope, name)
    case Resolve(namespace) => MergedActive(s, namespace).hub
    case Snapshot(scope, name, _) => Touched(s, scope, name)
  }

  function Run(s: Hub, ops: seq<Op>): Hub
    decreases |ops|
  {
    if |ops| == 0 then s else Run(Step(s, ops[0]), ops[1..])
  }

  // ---------------------------------------------------------------- what every run keeps

  /** One server: no rows before its first revision; afterwards rows 1 to n without a
      gap, neighbours with different fingerprints, the last one that of the document. */
  ghost predicate Numbered(d: Doc, rows: Rows) {
    match d.revision
    case None => forall k: int :: RowKey(d.scope, d.name, k) !in rows
    case Some(n) =>
      && 1 <= n
      && (forall k: int :: RowKey(d.scope, d.name, k) in rows <==> 1 <= k <= n)
      && rows[RowKey(d.scope, d.name, n)].hash == HashOf(d)
      && (forall k: int ::
          1 < k <= n ==> rows[RowKey(d.scope, d.name, k)].hash != rows[RowKey(d.scope, d.name, k - 1)].hash)
  }

  ghost predicate UniqueDocs(docs: seq<Doc>) {
    forall i, j ::
        (0 <= i < |docs| && 0 <= j < |docs| && docs[i].scope == docs[j].scope && docs[i].name == docs[j].name) ==>
            i == j
  }

  ghost predicate HubOk(s: Hub) {
    && UniqueDocs(s.docs)
    && (forall i :: 0 <= i < |s.docs| ==> Numbered(s.docs[i], s.rows))
    && (forall k ::
        k in s.rows ==> s.rows[k].hash == CanonicalConfig(s.rows[k].config) && FindDoc(s.docs, k.scope, k.name).Some?)
  }

  ghost predicate RowsKept(rows: Rows, later: Rows) { forall k :: k in rows ==> k in later && later[k] == rows[k] }

  /** A document rewritten together with rows of its own server only. */
  lemma OneServerMoves(s: Hub, i: nat, d: Doc, rows: Rows)
    requires HubOk(s) && i < |s.docs| && d.scope == s.docs[i].scope && d.name == s.docs[i].name
    requires Numbered(d, rows) && RowsKept(s.rows, rows)
    requires forall k ::
             k in rows && k !in s.rows ==>
                 k.scope == d.scope && k.name == d.name && rows[k].hash == CanonicalConfig(rows[k].config)
    ensures HubOk(Hub(s.docs[i := d], rows))
  {
    hide CanonicalConfig;
    var t := Hub(s.docs[i := d], rows);
    forall j | 0 <= j < |t.docs| ensures Numbered(t.docs[j], t.rows) {
      if j != i { SameRows(s.docs[j], s.rows, rows, d); }
    }
    forall k | k in t.rows ensures FindDoc(t.docs, k.scope, k.name).Some? {
      var j := if k in s.rows then FindDoc(s.docs, k.scope, k.name).value else i;
      assert t.docs[j].scope == k.scope && t.docs[j].name == k.name;
    }
  }

  lemma SameRows(e: Doc, rows: Rows, later: Rows, d: Doc)
    requires Numbered(e, rows) && RowsKept(rows, later) && (e.scope != d.scope || e.name != d.name)
    requires forall k :: k in later && k !in rows ==> k.scope == d.scope && k.name == d.name
    ensures Numbered(e, later)
  {
    hide CanonicalConfig;
    forall k: int ensures RowKey(e.scope, e.name, k) in later <==> RowKey(e.scope, e.name, k) in rows { }
  }

  lemma EnsureMigratedKeeps(s: Hub, i: nat)
    requires HubOk(s) && i < |s.docs|
    ensures var m := EnsureMigrated(s, s.docs[i]);
            && HubOk(m.hub) && RowsKept(s.rows, m.hub.rows) && m.hub.docs == s.docs[i := m.doc]
            && m.doc == s.docs[i].(revision := Some(Revision(s.docs[i])))
            && RowKey(m.doc.scope, m.doc.name, Revision(m.doc)) in m.hub.rows
            && m.hub.rows[RowKey(m.doc.scope, m.doc.name, Revision(m.doc))].hash == HashOf(m.doc)
  {
    hide CanonicalConfig;
    var d := s.docs[i];
    assert FindDoc(s.docs, d.scope, d.name) == Some(i);
    var m := EnsureMigrated(s, d);
    assert Numbered(d, s.rows);
    if d.revision.None? {
      assert RowKey(d.scope, d.name, 1) !in s.rows;
      OneServerMoves(s, i, m.doc, m.hub.rows);
    }
  }

  /** Writing new content over a numbered document. */
  lemma RewriteNumbered(d: Doc, rows: Rows, config: Config)
    requires d.revision.Some? && Numbered(d, rows)
    ensures var n := if HashOf(d) == CanonicalConfig(config) then Revision(d) else Revision(d) + 1;
            var e := d.(revision := Some(n), config := config, deleted := false);
            && Numbered(e, AppendRevision(rows, e, n)) && RowsKept(rows, AppendRevision(rows, e, n))
            && forall k :: k in AppendRevision(rows, e, n) && k !in rows ==>
                 k == RowKey(d.scope, d.name, n)
                 && AppendRevision(rows, e, n)[k] == Row(config, CanonicalConfig(config))
  {
    hide CanonicalConfig;
  }

  lemma UpsertKeeps(s: Hub, scope: Text, name: Text, config: Config)
    requires HubOk(s)
    ensures HubOk(UpsertServer(s, scope, name, config)) && RowsKept(s.rows, UpsertServer(s, scope, name, config).rows)
  {
    hide CanonicalConfig, Numbered, AppendRevision;
    var existing := FindDoc(s.docs, scope, name);
    if existing.None? {
      NewServer(s, scope, name, config);
    } else {
      var i := existing.value;
      EnsureMigratedKeeps(s, i);
      var m := EnsureMigrated(s, s.docs[i]);
      assert Numbered(m.hub.docs[i], m.hub.rows);
      RewriteNumbered(m.doc, m.hub.rows, config);
      var t := UpsertServer(s, scope, name, config);
      OneServerMoves(m.hub, i, t.docs[i], t.rows);
    }
  }

  lemma NoRowsYet(s: Hub, scope: Text, name: Text)
    requires HubOk(s) && FindDoc(s.docs, scope, name).None?
    ensures forall k :: k in s.rows ==> k.scope != scope || k.name != name
  {
    hide CanonicalConfig, Numbered;
  }

  lemma FirstRow(d: Doc, rows: Rows)
    requires d.revision == Some(1) && forall k :: k in rows ==> k.scope != d.scope || k.name != d.name
    ensures Numbered(d, AppendRevision(rows, d, 1))
  {
    hide CanonicalConfig;
  }

  lemma FoundAtEnd(docs: seq<Doc>, d: Doc, scope: Text, name: Text)
    requires FindDoc(docs, scope, name).Some? || (d.scope == scope && d.name == name)
    ensures FindDoc(docs + [d], scope, name).Some?
  {
    assert (docs + [d])[..|docs|] == docs;
  }

  lemma NewServer(s: Hub, scope: Text, name: Text, config: Config)
    requires HubOk(s) && FindDoc(s.docs, scope, name).None?
    ensures HubOk(UpsertServer(s, scope, name, config)) && RowsKept(s.rows, UpsertServer(s, scope, name, config).rows)
  {
    hide CanonicalConfig, FindDoc, Numbered;
    var t := UpsertServer(s, scope, name, config);
    var d := t.docs[|s.docs|];
    NoRowsYet(s, scope, name);
    FirstRow(d, s.rows);
    forall j | 0 <= j < |s.docs| ensures Numbered(t.docs[j], t.rows) { SameRows(s.docs[j], s.rows, t.rows, d); }
    forall k | k in t.rows ensures FindDoc(t.docs, k.scope, k.name).Some? { FoundAtEnd(s.docs, d, k.scope, k.name); }
  }

  /** Flags of a document do not touch its numbering. */
  lemma FlagsMove(s: Hub, i: nat, enabled: bool, deleted: bool)
    requires HubOk(s) && i < |s.docs|
    ensures HubOk(s.(docs := s.docs[i := s.docs[i].(enabled := enabled, deleted := deleted)]))
  {
    hide CanonicalConfig;
    assert Numbered(s.docs[i], s.rows);
    OneServerMoves(s, i, s.docs[i].(enabled := enabled, deleted := deleted), s.rows);
  }

  /** A candidate still stands in the table, possibly migrated since it was listed. */
  predicate Standing(docs: seq<Doc>, d: Doc) {
    var i := FindDoc(docs, d.scope, d.name);
    i.Some? && (docs[i.value] == d || docs[i.value] == d.(revision := Some(Revision(d))))
  }

  lemma StandingAfter(s: Hub, i: nat, e: Doc)
    requires HubOk(s) && i < |s.docs| && Standing(s.docs, e)
    ensures Standing(EnsureMigrated(s, s.docs[i]).hub.docs, e)
  {
    hide CanonicalConfig, Numbered;
    EnsureMigratedKeeps(s, i);
    var t := EnsureMigrated(s, s.docs[i]).hub;
    var j := FindDoc(s.docs, e.scope, e.name).value;
    assert t.docs[j].scope == e.scope && t.docs[j].name == e.name;
    assert FindDoc(t.docs, e.scope, e.name) == Some(j);
  }

  /** Migrating what was listed is migrating what stands. */
  lemma MigrateListed(s: Hub, d: Doc)
    requires HubOk(s) && Standing(s.docs, d)
    ensures var m := EnsureMigrated(s, d);
            && HubOk(m.hub) && RowsKept(s.rows, m.hub.rows)
            && m.doc == d.(revision := Some(Revision(d)))
            && RowKey(d.scope, d.name, Revision(d)) in m.hub.rows
            && m.hub.rows[RowKey(d.scope, d.name, Revision(d))].hash == HashOf(d)
            && forall e :: Standing(s.docs, e) ==> Standing(m.hub.docs, e)
  {
    hide CanonicalConfig, Numbered;
    var i := FindDoc(s.docs, d.scope, d.name).value;
    EnsureMigratedKeeps(s, i);
    var m, n := EnsureMigrated(s, d), EnsureMigrated(s, s.docs[i]);
    if d.revision.None? && s.docs[i].revision.Some? {
      assert Numbered(s.docs[i], s.rows);
      AlreadyMigrated(s, i, d);
    }
    assert m.hub == n.hub;
    forall e | Standing(s.docs, e) ensures Standing(m.hub.docs, e) { StandingAfter(s, i, e); }
  }

  lemma AlreadyMigrated(s: Hub, i: nat, d: Doc)
    requires HubOk(s) && i < |s.docs| && d.revision.None? && s.docs[i] == d.(revision := Some(LEGACY_REVISION))
    ensures EnsureMigrated(s, d).hub == s
  {
    hide CanonicalConfig;
    assert FindDoc(s.docs, d.scope, d.name) == Some(i);
    assert Numbered(s.docs[i], s.rows);
    assert s.docs[i := s.docs[i]] == s.docs;
  }

  lemma {:induction false} MergeKeeps(s: Hub, candidates: seq<Doc>, seen: set<Text>)
    requires HubOk(s) && forall d :: d in candidates ==> Standing(s.docs, d)
    ensures var r := Merge(s, candidates, seen);
            && HubOk(r.hub) && RowsKept(s.rows, r.hub.rows)
            && forall i :: 0 <= i < |r.active| ==>
                 var d := r.active[i];
                 var key := RowKey(d.scope, d.name, Revision(d));
                 key in r.hub.rows && r.hub.rows[key].hash == HashOf(d)
    decreases |candidates|
  {
    hide CanonicalConfig, Numbered, HubOk, EnsureMigrated, Standing;
    if |candidates| > 0 {
      var d := candidates[0];
      if d.name in seen {
        MergeKeeps(s, candidates[1..], seen);
      } else if !d.enabled {
        MergeKeeps(s, candidates[1..], seen + {d.name});
      } else {
        MigrateListed(s, d);
        var m := EnsureMigrated(s, d);
        MergeKeeps(m.hub, candidates[1..], seen + {d.name});
      }
    }
  }

  lemma CandidatesIn(docs: seq<Doc>, namespace: Text, d: Doc)
    ensures d in Candidates(docs, namespace)
            <==> d in docs && !d.deleted && (d.scope == namespace || d.scope == Official())
  {
    var x, y := InScope(docs, namespace), InScope(docs, Official());
    SortSorts(ByCodePoint, x, NameOf);
    SortSorts(ByCodePoint, y, NameOf);
    assert d in Sort(ByCodePoint, x, NameOf) <==> d in multiset(x);
    assert d in Sort(ByCodePoint, y, NameOf) <==> d in multiset(y);
  }

  lemma CandidatesStand(s: Hub, namespace: Text)
    requires HubOk(s)
    ensures forall d :: d in Candidates(s.docs, namespace) ==> Standing(s.docs, d)
  {
    hide CanonicalConfig, Numbered;
    forall d | d in Candidates(s.docs, namespace) ensures Standing(s.docs, d) {
      CandidatesIn(s.docs, namespace, d);
      var i :| 0 <= i < |s.docs| && s.docs[i] == d;
      assert FindDoc(s.docs, d.scope, d.name) == Some(i);
    }
  }

  lemma StepKeeps(s: Hub, op: Op)
    requires HubOk(s)
    ensures HubOk(Step(s, op)) && RowsKept(s.rows, Step(s, op).rows)
  {
    hide HubOk, EnsureMigrated, UpsertServer, Merge, Candidates;
    match op
    case Upsert(scope, name, config) => UpsertKeeps(s, scope, name, config);
    case Enable(scope, name, enabled) =>
      var live := FindDoc(s.docs, scope, name);
      if live.Some? { FlagsMove(s, live.value, enabled, s.docs[live.value].deleted); }
    case Delete(scope, name) =>
      var live := FindDoc(s.docs, scope, name);
      if live.Some? { FlagsMove(s, live.value, s.docs[live.value].enabled, true); }
    case Resolve(namespace) =>
      CandidatesStand(s, namespace);
      MergeKeeps(s, Candidates(s.docs, namespace), {});
    case Snapshot(scope, name, _) =>
      var live := FindDoc(s.docs, scope, name);
      if live.Some? { EnsureMigratedKeeps(s, live.value); }
  }

  lemma {:induction false} RunKeeps(s: Hub, ops: seq<Op>)
    requires HubOk(s)
    ensures HubOk(Run(s, ops)) && RowsKept(s.rows, Run(s, ops).rows)
    decreases |ops|
  {
    hide HubOk, Step;
    if |ops| > 0 {
      StepKeeps(s, ops[0]);
      RunKeeps(Step(s, ops[0]), ops[1..]);
    }
  }

  // ---------------------------------------------------------------- results

  /** A hub before revisions were introduced. */
  ghost predicate Legacy(s: Hub) {
    s.rows == map[] && UniqueDocs(s.docs) && forall i :: 0 <= i < |s.docs| ==> s.docs[i].revision.None?
  }

  lemma LegacyOk(s: Hub)
    requires Legacy(s)
    ensures HubOk(s)
  {
  }

  /** `later` answers a grant of `d` with a snapshot of its fingerprint: same
      transport, url and secret reference, same tools. */
  ghost predicate Locked(later: Hub, g: Grant, d: Doc) {
    var r := RevisionSnapshot(later, g.scope, g.name, g.revision);
    && g == Grant(d.scope, d.name, Revision(d), HashOf(d))
    && r.Some? && r.value.row.hash == g.hash
    && r.value.row.config.transport == d.config.transport && r.value.row.config.url == d.config.url
    && r.value.row.config.secretRef == d.config.secretRef
    && multiset(r.value.row.config.allowedTools) == multiset(d.config.allowedTools)
  }

  /** Any grant ever handed out is answered, however the hub goes on, by a snapshot
      with its fingerprint and so with the content that was granted. */
  lemma ContentLock(s: Hub, before: seq<Op>, namespace: Text, after: seq<Op>)
    requires Legacy(s)
    ensures var t := Run(s, before);
            var active := MergedActive(t, namespace).active;
            forall i ::
                0 <= i < |active| ==>
                    Locked(Run(Step(t, Resolve(namespace)), after), ResolveGrants(t, namespace)[i], active[i])
  {
    hide HubOk, Merge, Candidates, CanonicalConfig, Numbered, UpsertServer, EnsureMigrated, FindDoc, Locked;
    LegacyOk(s);
    RunKeeps(s, before);
    var t := Run(s, before);
    CandidatesStand(t, namespace);
    MergeKeeps(t, Candidates(t.docs, namespace), {});
    var u := Step(t, Resolve(namespace));
    RunKeeps(u, after);
    var active := MergedActive(t, namespace).active;
    forall i | 0 <= i < |active| ensures Locked(Run(u, after), ResolveGrants(t, namespace)[i], active[i]) {
      LockedRow(Run(u, after), active[i]);
    }
  }

  lemma LockedRow(s: Hub, d: Doc)
    requires var key := RowKey(d.scope, d.name, Revision(d)); HubOk(s) && key in s.rows && s.rows[key].hash == HashOf(d)
    ensures Locked(s, GrantOf(d), d)
  {
    hide CanonicalConfig, Numbered;
    var key := RowKey(d.scope, d.name, Revision(d));
    var live := FindDoc(s.docs, d.scope, d.name);
    EnsureMigratedKeeps(s, live.value);
    CanonicalConfigExact(s.rows[key].config, d.config);
  }

  /** The snapshot rows of a server run from 1 to its revision without a gap,
      neighbours differ in fingerprint, and the last one is the live content's. */
  lemma RevisionsAreNumbered(s: Hub, ops: seq<Op>, i: nat)
    requires Legacy(s) && i < |Run(s, ops).docs|
    ensures var t := Run(s, ops);
            var d := t.docs[i];
            && (d.revision.None? ==> forall k: int :: RowKey(d.scope, d.name, k) !in t.rows)
            && (d.revision.Some? ==>
                  && (forall k: int :: RowKey(d.scope, d.name, k) in t.rows <==> 1 <= k <= d.revision.value)
                  && (forall k: int :: 1 < k <= d.revision.value ==>
                        t.rows[RowKey(d.scope, d.name, k)].hash != t.rows[RowKey(d.scope, d.name, k - 1)].hash)
                  && 1 <= d.revision.value && t.rows[RowKey(d.scope, d.name, d.revision.value)].hash == HashOf(d))
  {
    hide CanonicalConfig, Run;
    LegacyOk(s);
    RunKeeps(s, ops);
    assert Numbered(Run(s, ops).docs[i], Run(s, ops).rows);
  }

  /** The first candidate of a name decides. */
  predicate Leads(c: seq<Doc>, d: Doc)
    decreases |c|
  {
    |c| > 0 && (c[0] == d || (c[0].name != d.name && Leads(c[1..], d)))
  }

  lemma {:induction false} LeadsIn(c: seq<Doc>, d: Doc)
    requires forall e :: e in c && e.name == d.name ==> e == d
    ensures Leads(c, d) <==> d in c
    decreases |c|
  {
    if |c| > 0 { LeadsIn(c[1..], d); }
  }

  lemma {:induction false} LeadsConcat(x: seq<Doc>, y: seq<Doc>, d: Doc)
    ensures Leads(x + y, d) <==> Leads(x, d) || ((forall e :: e in x ==> e.name != d.name) && Leads(y, d))
    decreases |x|
  {
    if |x| > 0 {
      assert (x + y)[1..] == x[1..] + y;
      LeadsConcat(x[1..], y, d);
      assert forall e :: e in x <==> e == x[0] || e in x[1..];
    } else {
      assert x + y == y;
    }
  }

  /** What a pass over the candidates grants. */
  lemma {:induction false} GrantedAre(s: Hub, c: seq<Doc>, seen: set<Text>, d: Doc)
    requires forall e :: e in c && e.scope == d.scope && e.name == d.name ==> e == d
    ensures GrantOf(d) in GrantsOf(Merge(s, c, seen).active) <==> d.enabled && d.name !in seen && Leads(c, d)
    decreases |c|
  {
    hide CanonicalConfig, FindDoc, AppendRevision;
    if |c| > 0 {
      var e := c[0];
      assert e in c && forall f :: f in c[1..] ==> f in c;
      if e.name in seen {
        GrantedAre(s, c[1..], seen, d);
      } else if !e.enabled {
        GrantedAre(s, c[1..], seen + {e.name}, d);
      } else {
        var m := EnsureMigrated(s, e);
        GrantedAre(m.hub, c[1..], seen + {e.name}, d);
        var rest := Merge(m.hub, c[1..], seen + {e.name}).active;
        assert GrantsOf([m.doc] + rest) == [GrantOf(e)] + GrantsOf(rest);
        assert GrantOf(e) == GrantOf(d) ==> e == d;
      }
    }
  }

  lemma SortedIn(docs: seq<Doc>, scope: Text, d: Doc)
    ensures d in Sort(ByCodePoint, InScope(docs, scope), NameOf) <==> d in docs && d.scope == scope && !d.deleted
  {
    var x := InScope(docs, scope);
    SortSorts(ByCodePoint, x, NameOf);
    assert d in Sort(ByCodePoint, x, NameOf) <==> d in multiset(Sort(ByCodePoint, x, NameOf));
    assert d in x <==> d in multiset(x);
  }

  lemma ScopeLeads(docs: seq<Doc>, scope: Text, d: Doc)
    requires UniqueDocs(docs) && d in docs
    ensures var x := Sort(ByCodePoint, InScope(docs, scope), NameOf);
            && (Leads(x, d) ==> d.scope == scope && !d.deleted)
            && (d.scope == scope && !d.deleted ==> Leads(x, d))
            && ((forall e :: e in x ==> e.name != d.name)
                <==> forall e :: e in docs && !e.deleted && e.scope == scope ==> e.name != d.name)
  {
    hide Sort, InScope, Leads;
    var x := Sort(ByCodePoint, InScope(docs, scope), NameOf);
    forall e ensures e in x <==> e in docs && e.scope == scope && !e.deleted { SortedIn(docs, scope, e); }
    if d.scope == scope {
      forall e | e in x && e.name == d.name ensures e == d { }
      LeadsIn(x, d);
    } else if Leads(x, d) {
      LeadsOnlyIn(x, d);
    }
  }

  lemma {:induction false} LeadsOnlyIn(c: seq<Doc>, d: Doc)
    requires Leads(c, d)
    ensures d in c
    decreases |c|
  {
    if c[0] != d { LeadsOnlyIn(c[1..], d); }
  }

  /** A server is granted exactly when it is live and enabled and, if official, no live
      server of the namespace has its name, enabled or not. */
  lemma GrantedExactly(s: Hub, namespace: Text, d: Doc)
    requires UniqueDocs(s.docs) && d in s.docs
    ensures GrantOf(d) in ResolveGrants(s, namespace)
            <==> && !d.deleted && d.enabled
                 && (d.scope == namespace
                     || (d.scope == Official()
                         && forall e :: e in s.docs && !e.deleted && e.scope == namespace ==> e.name != d.name))
  {
    hide CanonicalConfig, Sort, InScope, Leads, Merge, Official;
    var x, y :=
        Sort(ByCodePoint, InScope(s.docs, namespace), NameOf), Sort(ByCodePoint, InScope(s.docs, Official()), NameOf);
    forall e: Doc | e in x + y && e.scope == d.scope && e.name == d.name ensures e == d {
      SortedIn(s.docs, namespace, e);
      SortedIn(s.docs, Official(), e);
    }
    GrantedAre(s, x + y, {}, d);
    LeadsConcat(x, y, d);
    ScopeLeads(s.docs, namespace, d);
    ScopeLeads(s.docs, Official(), d);
  }

  /** Registering the same content again adds no revision and no row. */
  lemma RepeatedUpsert(s: Hub, scope: Text, name: Text, config: Config, again: Config)
    requires HubOk(s) && CanonicalConfig(config) == CanonicalConfig(again)
    ensures var t := UpsertServer(s, scope, name, config);
            var u := UpsertServer(t, scope, name, again);
            && u.rows == t.rows && |u.docs| == |t.docs|
            && forall i ::
                0 <= i < |t.docs| ==> u.docs[i].revision == t.docs[i].revision && u.docs[i].enabled == t.docs[i].enabled
  {
    hide CanonicalConfig, Numbered, FindDoc;
    UpsertKeeps(s, scope, name, config);
    var t := UpsertServer(s, scope, name, config);
    UpsertWrites(s, scope, name, config);
    UpsertAgain(t, scope, name, again);
  }

  lemma UpsertAgain(t: Hub, scope: Text, name: Text, config: Config)
    requires HubOk(t)
    requires var i := FindDoc(t.docs, scope, name); i.Some? && HashOf(t.docs[i.value]) == CanonicalConfig(config)
    requires t.docs[FindDoc(t.docs, scope, name).value].revision.Some?
    ensures var u := UpsertServer(t, scope, name, config);
            && u.rows == t.rows && |u.docs| == |t.docs|
            && forall i ::
                0 <= i < |t.docs| ==> u.docs[i].revision == t.docs[i].revision && u.docs[i].enabled == t.docs[i].enabled
  {
    hide CanonicalConfig, Numbered, FindDoc;
    var i := FindDoc(t.docs, scope, name).value;
    assert Numbered(t.docs[i], t.rows);
    EnsureMigratedKeeps(t, i);
  }

  /** The document an upsert leaves behind. */
  lemma UpsertWrites(s: Hub, scope: Text, name: Text, config: Config)
    requires HubOk(s)
    ensures var t := UpsertServer(s, scope, name, config);
            var i, j := FindDoc(s.docs, scope, name), FindDoc(t.docs, scope, name);
            && j.Some? && t.docs[j.value].config == config && !t.docs[j.value].deleted
            && (i.None? ==> t.docs[j.value].revision == Some(1) && t.docs[j.value].enabled)
            && (i.Some? ==> j == i && t.docs[j.value].enabled == s.docs[i.value].enabled
                            && t.docs[j.value].revision
                               == Some(Revision(s.docs[i.value]) + if HashOf(s.docs[i.value]) == CanonicalConfig(config)
                                       then 0 else 1))
  {
    hide CanonicalConfig, Numbered;
    var t := UpsertServer(s, scope, name, config);
    UpsertKeeps(s, scope, name, config);
    var i := FindDoc(s.docs, scope, name);
    if i.None? {
      FoundAtEnd(s.docs, t.docs[|s.docs|], scope, name);
    } else {
      EnsureMigratedKeeps(s, i.value);
      assert t.docs[i.value].scope == scope && t.docs[i.value].name == name;
    }
  }

  // ---------------------------------------------------------------- the repository

  class McpServerRepository {
    var docs: seq<Doc>
    var rows: Rows

    constructor (docs: seq<Doc>)
      ensures this.docs == docs && rows == map[]
    {
      this.docs := docs;
      rows := map[];
    }

    function View(): Hub
      reads this
    {
      Hub(docs, rows)
    }

    method Append(d: Doc, revision: int)
      modifies this`rows
      ensures rows == AppendRevision(old(rows), d, revision)
    {
      var key := RowKey(d.scope, d.name, revision);
      if key !in rows { rows := rows[key := Row(d.config, HashOf(d))]; }
    }

    method Migrate(d: Doc) returns (m: Doc)
      modifies this
      ensures Migrated(View(), m) == EnsureMigrated(old(View()), d)
    {
      if d.revision.Some? { return d; }
      m := d.(revision := Some(LEGACY_REVISION));
      Append(m, LEGACY_REVISION);
      var live := FindDoc(docs, d.scope, d.name);
      if live.Some? { docs := docs[live.value := docs[live.value].(revision := Some(LEGACY_REVISION))]; }
    }

    method Register(scope: Text, name: Text, config: Config) returns (d: Doc)
      modifies this
      ensures View() == UpsertServer(old(View()), scope, name, config)
      ensures d in docs && d.scope == scope && d.name == name && d.config == config && !d.deleted
    {
      var existing := FindDoc(docs, scope, name);
      if existing.None? {
        d := Doc(scope, name, Some(1), config, true, false);
        docs := docs + [d];
        Append(d, 1);
      } else {
        assert FindDoc(docs, docs[existing.value].scope, docs[existing.value].name) == existing;
        var m := Migrate(docs[existing.value]);
        var revision := if HashOf(m) == CanonicalConfig(config) then Revision(m) else Revision(m) + 1;
        d := m.(revision := Some(revision), config := config, deleted := false);
        docs := docs[existing.value := d];
        assert d == docs[existing.value];
        Append(d, revision);
      }
    }

    method SetServerEnabled(scope: Text, name: Text, enabled: bool) returns (found: bool)
      modifies this
      ensures found == SetEnabled(old(View()), scope, name, enabled).Some?
      ensures View() == Step(old(View()), Enable(scope, name, enabled))
    {
      var live := FindDoc(docs, scope, name);
      found := live.Some? && !docs[live.value].deleted;
      if found { docs := docs[live.value := docs[live.value].(enabled := enabled)]; }
    }

    method MarkServerDeleted(scope: Text, name: Text)
      modifies this
      ensures View() == MarkDeleted(old(View()), scope, name)
    {
      var live := FindDoc(docs, scope, name);
      if live.Some? { docs := docs[live.value := docs[live.value].(deleted := true)]; }
    }

    /** Own servers first, then official ones; a name seen once hides the rest. */
    method ActivePool(namespace: Text) returns (active: seq<Doc>)
      modifies this
      ensures Merged(View(), active) == MergedActive(old(View()), namespace)
    {
      hide EnsureMigrated, Candidates, CanonicalConfig;
      var candidates := Candidates(docs, namespace);
      ghost var start := View();
      var seen := {};
      active := [];
      var i := 0;
      while i < |candidates|
        invariant i <= |candidates|
        invariant (var rest := Merge(View(), candidates[i..], seen);
                   Merged(rest.hub, active + rest.active) == Merge(start, candidates, {}))
      {
        var d := candidates[i];
        assert candidates[i..][1..] == candidates[i + 1..];
        if d.name !in seen {
          seen := seen + {d.name};
          if d.enabled {
            var m := Migrate(d);
            ghost var rest := Merge(View(), candidates[i + 1..], seen);
            assert active + ([m] + rest.active) == (active + [m]) + rest.active;
            active := active + [m];
          }
        }
        i := i + 1;
      }
    }

    method GetRevisionSnapshot(scope: Text, name: Text, revision: int) returns (r: Option<Resolution>)
      modifies this
      ensures View() == Touched(old(View()), scope, name)
      ensures r == RevisionSnapshot(old(View()), scope, name, revision)
    {
      var live := FindDoc(docs, scope, name);
      var enabled := live.Some? && docs[live.value].enabled;
      var deleted := live.None? || docs[live.value].deleted;
      if live.Some? { var m := Migrate(docs[live.value]); }
      var key := RowKey(scope, name, revision);
      r := if key in rows then Some(Resolution(rows[key], enabled, deleted)) else None;
    }
  }
}
