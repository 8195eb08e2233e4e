/** Publishing an uploaded zip of skills: the publish loop, whose local counters must
    follow the namespace's real usage through rejected, failing and interrupted items,
    and the package store it writes to. */
module SkillUploads {
  import opened Options
  import opened JsonText
  import opened Canonical

  // ---------------------------------------------------------------- documents and packages

  /** A package reference by its three parts, which its text determines. */
  datatype Ref = Ref(scope: Text, name: Text, digest: Text)

  /** A skill document. Documents from elsewhere need not have a revision or package. */
  datatype Skill = Skill(scope: Text, name: Text, revision: Option<int>, size: nat, hash: Text, ref: Option<Ref>,
                         uploaded: bool, deleted: bool)

  datatype HistoryRow = HistoryRow(scope: Text, name: Text, revision: int, hash: Text)

  /** What lies under a reference: a whole zip, or what a stopped write left of one. */
  datatype Package = Whole(files: seq<File>) | Torn

  type Store = map<Ref, Package>

  datatype World = World(docs: seq<Skill>, store: Store, history: seq<HistoryRow>)

  datatype Usage = Usage(count: nat, bytes: nat)

  datatype Limits = Limits(maxPackages: int, maxBytes: int)

  predicate Live(d: Skill, namespace: Text) { d.scope == namespace && !d.deleted }

  function QuotaUsage(docs: seq<Skill>, namespace: Text): Usage
    decreases |docs|
  {
    if |docs| == 0 then Usage(0, 0)
    else
      var u := QuotaUsage(docs[..|docs| - 1], namespace);
      var d := docs[|docs| - 1];
      if Live(d, namespace) then Usage(u.count + 1, u.bytes + d.size) else u
  }

  function FindSkill(docs: seq<Skill>, scope: Text, name: Text): (found: Option<nat>)
    ensures found.Some? ==> found.value < |docs| && docs[found.value].scope == scope && docs[found.value].name == name
    ensures found.None? ==> forall i :: 0 <= i < |docs| ==> docs[i].scope != scope || docs[i].name != name
  {
    PositionOf(docs, (d: Skill) => (d.scope, d.name), (scope, name))
  }

  function FindActive(docs: seq<Skill>, scope: Text, name: Text): Option<Skill> {
    var found := FindSkill(docs, scope, name);
    if found.Some? && !docs[found.value].deleted then Some(docs[found.value]) else None
  }

  /** Packages are content-addressed: a reference that exists is left alone. */
  function Put(store: Store, ref: Ref, content: Package): Store {
    if ref in store then store else store[ref := content]
  }

  datatype Upserted = Upserted(docs: seq<Skill>, revision: int) | ConcurrentWrite

  /** The conditional write of new content. A document without a revision is read as
      revision 0, which its stored value then never matches. */
  function WriteSkill(docs: seq<Skill>, d: Skill): Upserted {
    var current := FindSkill(docs, d.scope, d.name);
    if current.None? then Upserted(docs + [d.(revision := Some(1))], 1)
    else if docs[current.value].revision.None? then ConcurrentWrite
    else
      var revision := docs[current.value].revision.value + 1;
      Upserted(docs[current.value := d.(revision := Some(revision))], revision)
  }

  // ---------------------------------------------------------------- the publish loop

  datatype Row =
    | Published(name: Text, revision: int, digest: Text)
    | Unchanged(name: Text, current: Option<int>, digest: Text)
    | Failed(name: Text)

  /** What goes wrong during one item: the store refuses the reference; or the run ends,
      by a crash or an error it does not handle, before the package, in the middle of a
      write in place, after the package, or after the document but before the history
      row. */
  datatype Fault = Fine | StoreRefuses | StopBeforePackage | StopInPackage | StopAfterPackage | StopBeforeHistory

  datatype Loop = Loop(world: World, used: Usage, rows: seq<Row>, stopped: bool)

  /** Validation of one candidate: its size when it is accepted. */
  type Check = (Text, seq<File>) -> Option<nat>

  function Next(docs: seq<Skill>, namespace: Text, name: Text, used: Usage, size: nat): (int, int) {
    var existing := FindActive(docs, namespace, name);
    (if existing.None? then used.count + 1 else used.count,
     used.bytes - (if existing.None? then 0 else existing.value.size) + size)
  }

  function PublishOne(x: Loop, namespace: Text, name: Text, raw: Option<seq<File>>, check: Check, limits: Limits,
                      fault: Fault): Loop {
    if raw.None? || check(name, raw.value).None? then x.(rows := x.rows + [Failed(name)])
    else
      var size, digest := check(name, raw.value).value, CanonicalJson(raw.value);
      var existing := FindActive(x.world.docs, namespace, name);
      if existing.Some? && existing.value.hash == digest then
        x.(rows := x.rows + [Unchanged(name, existing.value.revision, digest)])
      else
        var next := Next(x.world.docs, namespace, name, x.used, size);
        if next.0 > limits.maxPackages || next.1 > limits.maxBytes then x.(rows := x.rows + [Failed(name)])
        else WriteItem(x, namespace, name, raw.value, size, next, fault)
  }

  /** The writing half: package first, then document, then history. */
  function WriteItem(x: Loop, namespace: Text, name: Text, files: seq<File>, size: nat, next: (int, int),
                     fault: Fault): Loop {
    var digest := CanonicalJson(files);
    var ref := Ref(namespace, name, digest);
    var packed := x.world.(store := Put(x.world.store, ref, Whole(files)));
    if fault.StoreRefuses? then x.(rows := x.rows + [Failed(name)])
    else if fault.StopBeforePackage? then x.(stopped := true)
    else if fault.StopInPackage? then x.(world := x.world.(store := Put(x.world.store, ref, Torn)), stopped := true)
    else if fault.StopAfterPackage? then x.(world := packed, stopped := true)
    else
      var w := WriteSkill(packed.docs, Skill(namespace, name, None, size, digest, Some(ref), true, false));
      if w.ConcurrentWrite? then x.(world := packed, rows := x.rows + [Failed(name)])
      else if fault.StopBeforeHistory? then x.(world := packed.(docs := w.docs), stopped := true)
      else
        Loop(World(w.docs, packed.store, packed.history + [HistoryRow(namespace, name, w.revision, digest)]),
             if next.0 >= 0 && next.1 >= 0 then Usage(next.0, next.1) else x.used,
             x.rows + [Published(name, w.revision, digest)], false)
  }

  /** One selected name with what the zip holds under it and what goes wrong. */
  datatype Item = Item(name: Text, raw: Option<seq<File>>, fault: Fault)

  function Publish(x: Loop, namespace: Text, items: seq<Item>, check: Check, limits: Limits): Loop
    decreases |items|
  {
    if |items| == 0 || x.stopped then x
    else Publish(PublishOne(x, namespace, items[0].name, items[0].raw, check, limits, items[0].fault), namespace,
                 items[1..], check, limits)
  }

  function Start(w: World, namespace: Text): Loop { Loop(w, QuotaUsage(w.docs, namespace), [], false) }

  // ---------------------------------------------------------------- usage accounting

  ghost predicate UniqueSkills(docs: seq<Skill>) {
    forall i, j ::
        (0 <= i < |docs| && 0 <= j < |docs| && docs[i].scope == docs[j].scope && docs[i].name == docs[j].name) ==>
            i == j
  }

  function Weight(d: Skill, namespace: Text): Usage { if Live(d, namespace) then Usage(1, d.size) else Usage(0, 0) }

  lemma {:induction false} UsageAfterUpdate(docs: seq<Skill>, namespace: Text, i: nat, d: Skill)
    requires i < |docs|
    ensures var u, v, a, b :=
            QuotaUsage(docs, namespace), QuotaUsage(docs[i := d], namespace), Weight(docs[i], namespace),
                Weight(d, namespace);
            v.count == u.count - a.count + b.count && v.bytes == u.bytes - a.bytes + b.bytes
    decreases |docs|
  {
    if i == |docs| - 1 {
      assert docs[i := d][..|docs| - 1] == docs[..|docs| - 1];
    } else {
      UsageAfterUpdate(docs[..|docs| - 1], namespace, i, d);
      assert docs[i := d][..|docs| - 1] == docs[..|docs| - 1][i := d];
    }
  }

  /** The write touches one document, the one found under its scope and name. */
  lemma WriteOne(docs: seq<Skill>, d: Skill)
    requires UniqueSkills(docs) && !d.deleted
    ensures var w := WriteSkill(docs, d);
            w.Upserted? ==>
              (&& UniqueSkills(w.docs) && FindActive(w.docs, d.scope, d.name) == Some(d.(revision := Some(w.revision)))
               && forall e :: e in w.docs ==> e in docs || e == d.(revision := Some(w.revision)))
  {
    hide PositionOf;
    var w := WriteSkill(docs, d);
    var current := FindSkill(docs, d.scope, d.name);
    if w.Upserted? {
      var i := if current.None? then |docs| else current.value;
      assert w.docs[i] == d.(revision := Some(w.revision));
      var found := FindSkill(w.docs, d.scope, d.name);
      assert found == Some(i);
    }
  }

  /** The counters the loop adopts are the usage after the write. */
  lemma WriteMovesUsage(docs: seq<Skill>, namespace: Text, name: Text, size: nat, hash: Text, ref: Option<Ref>)
    ensures var d := Skill(namespace, name, None, size, hash, ref, true, false);
            var w := WriteSkill(docs, d);
            w.Upserted? ==>
              (var v := QuotaUsage(w.docs, namespace);
               Next(docs, namespace, name, QuotaUsage(docs, namespace), size) == (v.count, v.bytes))
  {
    hide FindSkill;
    var d := Skill(namespace, name, None, size, hash, ref, true, false);
    var w := WriteSkill(docs, d);
    var current := FindSkill(docs, namespace, name);
    if current.None? {
      assert (docs + [d.(revision := Some(1))])[..|docs|] == docs;
    } else if w.Upserted? {
      UsageAfterUpdate(docs, namespace, current.value, d.(revision := Some(w.revision)));
    }
  }

  // ---------------------------------------------------------------- what every item keeps

  predicate Within(u: Usage, limits: Limits) { u.count <= limits.maxPackages && u.bytes <= limits.maxBytes }

  /** Every uploaded document's package is in the store, and every whole package is filed
      under the digest of its files. */
  ghost predicate PackagesOk(w: World) {
    && (forall d :: d in w.docs && d.uploaded ==> d.ref.Some? && d.ref.value in w.store && d.hash == d.ref.value.digest)
    && (forall r :: r in w.store && w.store[r].Whole? ==> CanonicalJson(w.store[r].files) == r.digest)
  }

  ghost predicate StoreKept(before: Store, after: Store) {
    forall r :: r in before ==> r in after && after[r] == before[r]
  }

  /** Between two items the counters are the usage; and either no item was published
      so far, or the namespace is within its limits. */
  ghost predicate LoopOk(x: Loop, namespace: Text, limits: Limits, start: World) {
    && UniqueSkills(x.world.docs) && PackagesOk(x.world) && StoreKept(start.store, x.world.store)
    && (!x.stopped ==> x.used == QuotaUsage(x.world.docs, namespace))
    && (x.world.docs == start.docs || Within(QuotaUsage(x.world.docs, namespace), limits))
  }

  lemma PackageAdded(w: World, ref: Ref, content: Package)
    requires PackagesOk(w) && (content.Whole? ==> ref.digest == CanonicalJson(content.files))
    ensures var store := Put(w.store, ref, content);
            PackagesOk(w.(store := store)) && StoreKept(w.store, store) && ref in store
  {
    hide CanonicalJson;
  }

  lemma StoreKeeps(x: Loop, namespace: Text, name: Text, files: seq<File>, size: nat, limits: Limits, start: World,
                   fault: Fault)
    requires LoopOk(x, namespace, limits, start) && !x.stopped
    requires var next := Next(x.world.docs, namespace, name, x.used, size);
             next.0 <= limits.maxPackages && next.1 <= limits.maxBytes
    ensures LoopOk(WriteItem(x, namespace, name, files, size, Next(x.world.docs, namespace, name, x.used, size), fault),
                   namespace, limits, start)
  {
    hide CanonicalJson, WriteSkill, QuotaUsage, UniqueSkills;
    var ref := Ref(namespace, name, CanonicalJson(files));
    PackageAdded(x.world, ref, Whole(files));
    PackageAdded(x.world, ref, Torn);
    WriteMovesUsage(x.world.docs, namespace, name, size, CanonicalJson(files), Some(ref));
    WriteOne(x.world.docs, Skill(namespace, name, None, size, CanonicalJson(files), Some(ref), true, false));
  }

  lemma PublishOneKeeps(x: Loop, namespace: Text, name: Text, raw: Option<seq<File>>, check: Check, limits: Limits,
                        start: World, fault: Fault)
    requires LoopOk(x, namespace, limits, start) && !x.stopped
    ensures LoopOk(PublishOne(x, namespace, name, raw, check, limits, fault), namespace, limits, start)
  {
    hide CanonicalJson, WriteItem, QuotaUsage, UniqueSkills, PackagesOk, StoreKept;
    if raw.Some? && check(name, raw.value).Some? {
      var size := check(name, raw.value).value;
      var next := Next(x.world.docs, namespace, name, x.used, size);
      if next.0 <= limits.maxPackages && next.1 <= limits.maxBytes {
        StoreKeeps(x, namespace, name, raw.value, size, limits, start, fault);
      }
    }
  }

  lemma {:induction false} PublishKeeps(x: Loop, namespace: Text, items: seq<Item>, check: Check, limits: Limits,
                                        start: World)
    requires LoopOk(x, namespace, limits, start)
    ensures LoopOk(Publish(x, namespace, items, check, limits), namespace, limits, start)
    decreases |items|
  {
    hide LoopOk, PublishOne;
    if |items| > 0 && !x.stopped {
      PublishOneKeeps(x, namespace, items[0].name, items[0].raw, check, limits, start, items[0].fault);
      PublishKeeps(PublishOne(x, namespace, items[0].name, items[0].raw, check, limits, items[0].fault), namespace,
                   items[1..], check, limits, start);
    }
  }

  /** Whatever items fail and wherever the run stops: the counters were right at every
      item, a namespace within its limits stays within them, no stored package is
      overwritten, and every uploaded document's package is in the store. */
  lemma UploadSafety(w: World, namespace: Text, items: seq<Item>, check: Check, limits: Limits)
    requires UniqueSkills(w.docs) && PackagesOk(w)
    ensures var x := Publish(Start(w, namespace), namespace, items, check, limits);
            && (!x.stopped ==> x.used == QuotaUsage(x.world.docs, namespace))
            && (Within(QuotaUsage(w.docs, namespace), limits) ==> Within(QuotaUsage(x.world.docs, namespace), limits))
            && (x.world.docs != w.docs ==> Within(QuotaUsage(x.world.docs, namespace), limits))
            && PackagesOk(x.world) && StoreKept(w.store, x.world.store)
  {
    hide Publish, QuotaUsage, PackagesOk, UniqueSkills;
    PublishKeeps(Start(w, namespace), namespace, items, check, limits, w);
  }

  /** What a row of the answer says about the namespace: `published` and `unchanged`
      mean exactly that the live document now holds the candidate's content. */
  lemma RowsTellTheTruth(x: Loop, namespace: Text, name: Text, raw: Option<seq<File>>, check: Check, limits: Limits,
                         start: World, fault: Fault)
    requires LoopOk(x, namespace, limits, start) && !x.stopped
    ensures var y := PublishOne(x, namespace, name, raw, check, limits, fault);
            !y.stopped ==>
              && |y.rows| == |x.rows| + 1
              && (var row := y.rows[|x.rows|];
                  var live := FindActive(y.world.docs, namespace, name);
                  && (row.Failed? ==> y.world.docs == x.world.docs && y.world.history == x.world.history)
                  && (row.Unchanged? ==> y == x.(rows := y.rows))
                  && (!row.Failed? ==>
                      raw.Some? && row.digest == CanonicalJson(raw.value) && live.Some?
                      && live.value.hash == row.digest)
                  && (row.Published? ==>
                      live.value.revision == Some(row.revision) && Some(live.value.size) == check(name, raw.value)
                      && y.world.history == x.world.history + [HistoryRow(namespace, name, row.revision, row.digest)]))
  {
    hide CanonicalJson, WriteSkill, QuotaUsage, UniqueSkills;
    if raw.Some? && check(name, raw.value).Some? {
      var ref := Ref(namespace, name, CanonicalJson(raw.value));
      WriteOne(x.world.docs,
               Skill(namespace, name, None, check(name, raw.value).value, CanonicalJson(raw.value), Some(ref), true,
                     false));
    }
  }

  /** Uploading the same files again, added in any order, after they were published
      changes nothing. */
  lemma RepeatedUploadIsUnchanged(x: Loop, namespace: Text, name: Text, files: seq<File>, again: seq<File>,
                                  check: Check, limits: Limits, start: World, fault: Fault)
    requires LoopOk(x, namespace, limits, start) && !x.stopped && DistinctPaths(files) && DistinctPaths(again)
    requires forall f :: f in files <==> f in again
    ensures var y := PublishOne(x, namespace, name, Some(files), check, limits, Fine);
            var z := PublishOne(y, namespace, name, Some(again), check, limits, fault);
            |y.rows| > 0 && y.rows[|y.rows| - 1].Published? && check(name, again).Some? ==>
              z == y.(rows := y.rows + [Unchanged(name, Some(y.rows[|y.rows| - 1].revision), CanonicalJson(files))])
  {
    hide CanonicalJson, WriteItem, QuotaUsage, UniqueSkills, PackagesOk;
    CanonicalJsonExact(files, again);
    RowsTellTheTruth(x, namespace, name, Some(files), check, limits, start, Fine);
    NeverStopsWhenFine(x, namespace, name, files, check, limits);
  }

  lemma NeverStopsWhenFine(x: Loop, namespace: Text, name: Text, files: seq<File>, check: Check, limits: Limits)
    requires !x.stopped
    ensures !PublishOne(x, namespace, name, Some(files), check, limits, Fine).stopped
  {
    hide CanonicalJson, WriteSkill;
  }

  // ---------------------------------------------------------------- which items are published

  /** An accepted item with changed content that fits the quota: one that reaches the
      writing half. */
  predicate Reaches(x: Loop, namespace: Text, name: Text, raw: Option<seq<File>>, check: Check,
                    limits: Limits): (r: bool)
    ensures r ==> raw.Some? && check(name, raw.value).Some?
  {
    && raw.Some? && check(name, raw.value).Some?
    && (var existing := FindActive(x.world.docs, namespace, name);
        existing.Some? ==> existing.value.hash != CanonicalJson(raw.value))
    && (var next := Next(x.world.docs, namespace, name, x.used, check(name, raw.value).value);
        next.0 <= limits.maxPackages && next.1 <= limits.maxBytes)
  }

  /** No document of that name, deleted or not, lacks a revision. */
  predicate Writable(docs: seq<Skill>, namespace: Text, name: Text) {
    var current := FindSkill(docs, namespace, name);
    current.Some? ==> docs[current.value].revision.Some?
  }

  lemma ReachesWrites(x: Loop, namespace: Text, name: Text, raw: Option<seq<File>>, check: Check, limits: Limits,
                      fault: Fault)
    ensures var y := PublishOne(x, namespace, name, raw, check, limits, fault);
            if Reaches(x, namespace, name, raw, check, limits)
            then y == (var size := check(name, raw.value).value;
                       WriteItem(x, namespace, name, raw.value, size, Next(x.world.docs, namespace, name, x.used, size),
                                 fault))
            else
              && y.world == x.world && y.stopped == x.stopped
              && |y.rows| == |x.rows| + 1 && !y.rows[|x.rows|].Published?
  {
    hide CanonicalJson, WriteItem;
  }

  /** With nothing going wrong, an item is published exactly when it is accepted, changed
      and within the quota and its document is absent or has a revision; otherwise no
      document changes. */
  lemma PublishedExactly(x: Loop, namespace: Text, name: Text, raw: Option<seq<File>>, check: Check, limits: Limits)
    requires !x.stopped
    ensures var y := PublishOne(x, namespace, name, raw, check, limits, Fine);
            && !y.stopped && |y.rows| == |x.rows| + 1
            && (y.rows[|x.rows|].Published?
                <==> Reaches(x, namespace, name, raw, check, limits) && Writable(x.world.docs, namespace, name))
            && (!y.rows[|x.rows|].Published? ==> y.world.docs == x.world.docs && y.world.history == x.world.history)
  {
    hide Reaches, CanonicalJson, Next;
    ReachesWrites(x, namespace, name, raw, check, limits, Fine);
  }

  lemma WriteSparesUnversioned(docs: seq<Skill>, d: Skill, i: nat)
    requires UniqueSkills(docs) && i < |docs| && docs[i].revision.None?
    ensures var w := WriteSkill(docs, d); w.Upserted? ==> i < |w.docs| && w.docs[i] == docs[i] && UniqueSkills(w.docs)
  {
  }

  lemma ItemSparesUnversioned(x: Loop, namespace: Text, item: Item, check: Check, limits: Limits, i: nat)
    requires UniqueSkills(x.world.docs) && i < |x.world.docs| && x.world.docs[i].revision.None?
    ensures var docs := PublishOne(x, namespace, item.name, item.raw, check, limits, item.fault).world.docs;
            UniqueSkills(docs) && i < |docs| && docs[i] == x.world.docs[i]
  {
    hide Reaches, CanonicalJson, Next, WriteSkill, UniqueSkills;
    ReachesWrites(x, namespace, item.name, item.raw, check, limits, item.fault);
    if Reaches(x, namespace, item.name, item.raw, check, limits) {
      var size, digest := check(item.name, item.raw.value).value, CanonicalJson(item.raw.value);
      WriteSparesUnversioned(x.world.docs,
                             Skill(namespace, item.name, None, size, digest, Some(Ref(namespace, item.name, digest)),
                                   true, false), i);
    }
  }

  /** A document stored without a revision is never rewritten, by any upload. */
  lemma {:induction false} UnversionedStays(x: Loop, namespace: Text, items: seq<Item>, check: Check, limits: Limits,
                                            i: nat)
    requires UniqueSkills(x.world.docs) && i < |x.world.docs| && x.world.docs[i].revision.None?
    ensures var docs := Publish(x, namespace, items, check, limits).world.docs; i < |docs| && docs[i] == x.world.docs[i]
    decreases |items|
  {
    hide PublishOne, UniqueSkills;
    if |items| > 0 && !x.stopped {
      ItemSparesUnversioned(x, namespace, items[0], check, limits, i);
      UnversionedStays(PublishOne(x, namespace, items[0].name, items[0].raw, check, limits, items[0].fault), namespace,
                       items[1..], check, limits, i);
    }
  }

  // ---------------------------------------------------------------- torn packages

  ghost predicate AllWhole(store: Store) { forall r :: r in store ==> store[r].Whole? }

  /** The item is stopped in the middle of writing a package that is not there yet. */
  predicate Tears(x: Loop, namespace: Text, item: Item, check: Check, limits: Limits) {
    && !x.stopped && item.fault.StopInPackage? && Reaches(x, namespace, item.name, item.raw, check, limits)
    && Ref(namespace, item.name, CanonicalJson(item.raw.value)) !in x.world.store
  }

  lemma ItemTears(x: Loop, namespace: Text, item: Item, check: Check, limits: Limits)
    requires !x.stopped
    ensures var y := PublishOne(x, namespace, item.name, item.raw, check, limits, item.fault);
            && (AllWhole(y.world.store) <==> AllWhole(x.world.store) && !Tears(x, namespace, item, check, limits))
            && (Tears(x, namespace, item, check, limits) ==> y.stopped)
  {
    hide Reaches, CanonicalJson, Next, WriteSkill;
    ReachesWrites(x, namespace, item.name, item.raw, check, limits, item.fault);
    if Reaches(x, namespace, item.name, item.raw, check, limits) {
      var ref := Ref(namespace, item.name, CanonicalJson(item.raw.value));
      WholeAfter(x.world.store, ref, Whole(item.raw.value));
      WholeAfter(x.world.store, ref, Torn);
    }
  }

  lemma WholeAfter(store: Store, ref: Ref, content: Package)
    ensures AllWhole(Put(store, ref, content)) <==> AllWhole(store) && (ref in store || content.Whole?)
  {
    if AllWhole(Put(store, ref, content)) && ref !in store {
      assert forall r :: r in store ==> r in Put(store, ref, content) && Put(store, ref, content)[r] == store[r];
      assert ref in Put(store, ref, content);
    }
  }

  /** The k-th item of the run tears a package. */
  predicate TearsAt(x: Loop, namespace: Text, items: seq<Item>, check: Check, limits: Limits, k: nat) {
    k < |items| && Tears(Publish(x, namespace, items[..k], check, limits), namespace, items[k], check, limits)
  }

  /** Exactly when every stored package is still whole, and so filed under the digest of
      what is stored there: it was before the run and no item tore one. */
  lemma {:induction false} WholeExactly(x: Loop, namespace: Text, items: seq<Item>, check: Check, limits: Limits)
    ensures AllWhole(Publish(x, namespace, items, check, limits).world.store)
            <==> AllWhole(x.world.store) && forall k: nat :: !TearsAt(x, namespace, items, check, limits, k)
    decreases |items|
  {
    hide PublishOne, AllWhole, Tears;
    if x.stopped {
      forall k: nat
        ensures !TearsAt(x, namespace, items, check, limits, k)
      {
        StoppedNeverTears(x, namespace, items, check, limits, k);
      }
    } else if |items| > 0 {
      var y := PublishOne(x, namespace, items[0].name, items[0].raw, check, limits, items[0].fault);
      ItemTears(x, namespace, items[0], check, limits);
      WholeExactly(y, namespace, items[1..], check, limits);
      TearsNow(x, namespace, items, check, limits);
      forall k: nat
        ensures TearsAt(x, namespace, items, check, limits, k + 1)
                == TearsAt(y, namespace, items[1..], check, limits, k)
      {
        TearsLater(x, namespace, items, check, limits, k);
      }
      TearsSplit(x, y, namespace, items, check, limits);
    }
  }

  lemma StoppedNeverTears(x: Loop, namespace: Text, items: seq<Item>, check: Check, limits: Limits, k: nat)
    requires x.stopped
    ensures !TearsAt(x, namespace, items, check, limits, k)
  {
  }

  lemma TearsNow(x: Loop, namespace: Text, items: seq<Item>, check: Check, limits: Limits)
    requires |items| > 0
    ensures TearsAt(x, namespace, items, check, limits, 0) == Tears(x, namespace, items[0], check, limits)
  {
    hide Tears;
    assert items[..0] == [];
  }

  lemma TearsLater(x: Loop, namespace: Text, items: seq<Item>, check: Check, limits: Limits, k: nat)
    requires |items| > 0 && !x.stopped
    ensures var y := PublishOne(x, namespace, items[0].name, items[0].raw, check, limits, items[0].fault);
            TearsAt(x, namespace, items, check, limits, k + 1) == TearsAt(y, namespace, items[1..], check, limits, k)
  {
    hide Tears, PublishOne;
    if k + 1 < |items| { assert items[..k + 1][1..] == items[1..][..k]; }
  }

  lemma TearsSplit(x: Loop, y: Loop, namespace: Text, items: seq<Item>, check: Check, limits: Limits)
    requires |items| > 0
    requires forall k: nat ::
             TearsAt(x, namespace, items, check, limits, k + 1) == TearsAt(y, namespace, items[1..], check, limits, k)
    ensures (forall k: nat :: !TearsAt(x, namespace, items, check, limits, k))
            <==> && !TearsAt(x, namespace, items, check, limits, 0)
                 && forall k: nat :: !TearsAt(y, namespace, items[1..], check, limits, k)
  {
    hide TearsAt;
    if !TearsAt(x, namespace, items, check, limits, 0)
        && forall k: nat :: !TearsAt(y, namespace, items[1..], check, limits, k) {
      forall k: nat ensures !TearsAt(x, namespace, items, check, limits, k) {
        if k > 0 {
          assert TearsAt(x, namespace, items, check, limits, (k - 1) + 1)
              == TearsAt(y, namespace, items[1..], check, limits, k - 1);
        }
      }
    }
    if forall k: nat :: !TearsAt(x, namespace, items, check, limits, k) {
      forall k: nat
        ensures !TearsAt(y, namespace, items[1..], check, limits, k)
      {
        assert !TearsAt(x, namespace, items, check, limits, k + 1);
      }
    }
  }

  /** A published document's package holds the published files unless a torn one lay
      under its reference before: that one is taken for it. */
  lemma PublishedPackage(x: Loop, namespace: Text, name: Text, files: seq<File>, check: Check, limits: Limits,
                         start: World, fault: Fault)
    requires LoopOk(x, namespace, limits, start) && !x.stopped
    ensures var y := PublishOne(x, namespace, name, Some(files), check, limits, fault);
            var ref := Ref(namespace, name, CanonicalJson(files));
            |y.rows| == |x.rows| + 1 && y.rows[|x.rows|].Published? ==>
              && (var live := FindActive(y.world.docs, namespace, name); live.Some? && live.value.ref == Some(ref))
              && ref in y.world.store
              && (if ref in x.world.store && x.world.store[ref].Torn? then y.world.store[ref].Torn?
                  else y.world.store[ref].Whole? && CanonicalJson(y.world.store[ref].files) == ref.digest)
  {
    hide Reaches, CanonicalJson, Next, WriteSkill, FindActive, QuotaUsage, UniqueSkills;
    ReachesWrites(x, namespace, name, Some(files), check, limits, fault);
    if Reaches(x, namespace, name, Some(files), check, limits) {
      var ref := Ref(namespace, name, CanonicalJson(files));
      WriteOne(x.world.docs,
               Skill(namespace, name, None, check(name, files).value, CanonicalJson(files), Some(ref), true, false));
    }
  }

  /** The failing input: an upload stopped in the middle of its first package, and the
      same upload again, which is answered `published` over the torn package. */
  lemma TornUploadIsPublished(namespace: Text, name: Text, files: seq<File>, check: Check, limits: Limits)
    requires check(name, files).Some? && 1 <= limits.maxPackages && check(name, files).value <= limits.maxBytes
    ensures var first :=
            Publish(Start(World([], map[], []), namespace), namespace, [Item(name, Some(files), StopInPackage)], check,
                    limits);
            var again :=
                Publish(Start(first.world, namespace), namespace, [Item(name, Some(files), Fine)], check, limits);
            var ref := Ref(namespace, name, CanonicalJson(files));
            && first.stopped && !again.stopped && again.rows == [Published(name, 1, ref.digest)]
            && ref in again.world.store && again.world.store[ref].Torn?
  {
    hide CanonicalJson;
    var w := World([], map[], []);
    var size, ref := check(name, files).value, Ref(namespace, name, CanonicalJson(files));
    OneItem(Start(w, namespace), namespace, Item(name, Some(files), StopInPackage), check, limits);
    assert FindActive([], namespace, name).None?;
    var torn := World([], map[ref := Torn], []);
    assert PublishOne(Start(w, namespace), namespace, name, Some(files), check, limits, StopInPackage).world == torn;
    OneItem(Start(torn, namespace), namespace, Item(name, Some(files), Fine), check, limits);
  }

  lemma OneItem(x: Loop, namespace: Text, item: Item, check: Check, limits: Limits)
    requires !x.stopped
    ensures Publish(x, namespace, [item], check, limits)
            == PublishOne(x, namespace, item.name, item.raw, check, limits, item.fault)
  {
    hide PublishOne;
    assert [item][1..] == [];
  }

  // ---------------------------------------------------------------- the service

  /** The service over its two stores. `faults` are those of the run at hand. */
  class SkillUploadService {
    var docs: seq<Skill>
    var store: Store
    var history: seq<HistoryRow>

    function View(): World
      reads this
    {
      World(docs, store, history)
    }

    /** The writing half of one item; `row` is `None` when the process stops. */
    method PublishItem(namespace: Text, name: Text, files: seq<File>, size: nat,
                       fault: Fault) returns (row: Option<Row>)
      modifies this
      ensures var x :=
              WriteItem(Loop(old(View()), Usage(0, 0), [], false), namespace, name, files, size, (0, 0), fault);
              && View() == x.world && (row.None? <==> x.stopped) && (row.Some? ==> x.rows == [row.value])
    {
      var digest := CanonicalJson(files);
      var ref := Ref(namespace, name, digest);
      if fault.StoreRefuses? { return Some(Failed(name)); }
      if fault.StopBeforePackage? { return None; }
      if ref !in store {
        if fault.StopInPackage? {
          store := store[ref := Torn];
          return None;
        }
        store := store[ref := Whole(files)];
      }
      if fault.StopInPackage? { return None; }
      if fault.StopAfterPackage? { return None; }
      var w := WriteSkill(docs, Skill(namespace, name, None, size, digest, Some(ref), true, false));
      if w.ConcurrentWrite? { return Some(Failed(name)); }
      docs := w.docs;
      if fault.StopBeforeHistory? { return None; }
      history := history + [HistoryRow(namespace, name, w.revision, digest)];
      row := Some(Published(name, w.revision, digest));
    }

    /** Item by item, one failing item not stopping the rest; two local counters stand
        for the usage, which is read once. */
    method Confirm(namespace: Text, items: seq<Item>, check: Check, limits: Limits)
        returns (rows: seq<Row>, stopped: bool)
      requires UniqueSkills(docs) && PackagesOk(View())
      modifies this
      ensures var x := Publish(Start(old(View()), namespace), namespace, items, check, limits);
              View() == x.world && rows == x.rows && stopped == x.stopped
    {
      hide WriteItem, CanonicalJson, UniqueSkills, PackagesOk, QuotaUsage;
      ghost var start := View();
      var usage := QuotaUsage(docs, namespace);
      var usedCount, usedBytes := usage.count, usage.bytes;
      rows := [];
      stopped := false;
      var i := 0;
      while i < |items|
        invariant i <= |items| && 0 <= usedCount && 0 <= usedBytes
        invariant LoopOk(Loop(View(), Usage(usedCount, usedBytes), rows, false), namespace, limits, start)
        invariant Publish(Loop(View(), Usage(usedCount, usedBytes), rows, false), namespace, items[i..], check, limits)
                  == Publish(Start(start, namespace), namespace, items, check, limits)
      {
        var item := items[i];
        ghost var x := Loop(View(), Usage(usedCount, usedBytes), rows, false);
        ghost var y := PublishOne(x, namespace, item.name, item.raw, check, limits, item.fault);
        assert items[i..][1..] == items[i + 1..];
        PublishOneKeeps(x, namespace, item.name, item.raw, check, limits, start, item.fault);
        i := i + 1;
        if item.raw.None? || check(item.name, item.raw.value).None? {
          rows := rows + [Failed(item.name)];
          continue;
        }
        var size, digest := check(item.name, item.raw.value).value, CanonicalJson(item.raw.value);
        var existing := FindActive(docs, namespace, item.name);
        if existing.Some? && existing.value.hash == digest {
          rows := rows + [Unchanged(item.name, existing.value.revision, digest)];
          continue;
        }
        var nextCount := if existing.None? then usedCount + 1 else usedCount;
        var nextBytes := usedBytes - (if existing.None? then 0 else existing.value.size) + size;
        if nextCount > limits.maxPackages || nextBytes > limits.maxBytes {
          rows := rows + [Failed(item.name)];
          continue;
        }
        StoreFrame(x, namespace, item.name, item.raw.value, size, (nextCount, nextBytes), item.fault);
        var row := PublishItem(namespace, item.name, item.raw.value, size, item.fault);
        if row.None? {
          stopped := true;
          return;
        }
        if row.value.Published? {
          usedCount, usedBytes := nextCount, nextBytes;
        }
        rows := rows + [row.value];
      }
    }
  }

  /** The writing half neither reads the counters nor the rows so far. */
  lemma StoreFrame(x: Loop, namespace: Text, name: Text, files: seq<File>, size: nat, next: (int, int), fault: Fault)
    requires UniqueSkills(x.world.docs) && x.used == QuotaUsage(x.world.docs, namespace) && !x.stopped
    requires next == Next(x.world.docs, namespace, name, x.used, size)
    ensures var y := WriteItem(x, namespace, name, files, size, next, fault);
            var z := WriteItem(Loop(x.world, Usage(0, 0), [], false), namespace, name, files, size, (0, 0), fault);
            && y.world == z.world && y.stopped == z.stopped && y.rows == x.rows + z.rows
            && (y.stopped ==> y.rows == x.rows)
            && (|z.rows| == 1 && z.rows[0].Published? ==> 0 <= next.0 && 0 <= next.1 && y.used == Usage(next.0, next.1))
            && (!(|z.rows| == 1 && z.rows[0].Published?) ==> y.used == x.used)
  {
    hide CanonicalJson, WriteSkill;
    WriteMovesUsage(x.world.docs, namespace, name, size, CanonicalJson(files),
                    Some(Ref(namespace, name, CanonicalJson(files))));
  }
}
