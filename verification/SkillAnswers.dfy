/** What one item of an upload answers and writes, for every world and every fault, said
    from the documents, the packages and the usage before it. */
module SkillAnswers {
  import opened Options
  import opened JsonText
  import opened Canonical
  import opened SkillUploads

  ghost predicate Stored(docs: seq<Skill>, i: nat, namespace: Text, name: Text) {
    i < |docs| && docs[i].scope == namespace && docs[i].name == name
  }

  /** No document of that name, deleted or not. */
  ghost predicate Unknown(docs: seq<Skill>, namespace: Text, name: Text) {
    forall i :: 0 <= i < |docs| ==> docs[i].scope != namespace || docs[i].name != name
  }

  lemma StoredIsFound(docs: seq<Skill>, i: nat, namespace: Text, name: Text)
    requires UniqueSkills(docs) && Stored(docs, i, namespace, name)
    ensures FindSkill(docs, namespace, name) == Some(i) && !Unknown(docs, namespace, name)
  {
  }

  lemma UnknownIsNotFound(docs: seq<Skill>, namespace: Text, name: Text)
    requires Unknown(docs, namespace, name)
    ensures FindSkill(docs, namespace, name) == None
  {
  }

  /** The document an upload leaves behind. */
  function Document(namespace: Text, name: Text, revision: int, size: nat, digest: Text): Skill {
    Skill(namespace, name, Some(revision), size, digest, Some(Ref(namespace, name, digest)), true, false)
  }

  /** The package is there from now on; one that was there is left as it is. */
  ghost predicate Holds(before: Store, after: Store, ref: Ref, content: Package) {
    && after.Keys == before.Keys + {ref}
    && (forall r :: r in before ==> after[r] == before[r])
    && (ref !in before ==> after[ref] == content)
  }

  /** A new name: it counts as one more package of its size. */
  ghost predicate NewFits(x: Loop, size: nat, limits: Limits) {
    x.used.count + 1 <= limits.maxPackages && x.used.bytes + size <= limits.maxBytes
  }

  /** A live name: its size is exchanged. A deleted one counts as new. */
  ghost predicate ChangeFits(x: Loop, d: Skill, size: nat, limits: Limits) {
    if d.deleted then NewFits(x, size, limits)
    else x.used.count <= limits.maxPackages && x.used.bytes - d.size + size <= limits.maxBytes
  }

  /** Nothing but one row saying the item failed. */
  ghost predicate JustFails(x: Loop, y: Loop, name: Text) { y == x.(rows := x.rows + [Failed(name)]) }

  /** Whatever a zip holds under the name: an item that is missing, or does not pass the
      checks, fails and writes nothing. */
  lemma RejectedAnswers(x: Loop, namespace: Text, name: Text, raw: Option<seq<File>>, check: Check, limits: Limits,
                        fault: Fault)
    requires raw.None? || check(name, raw.value).None?
    ensures JustFails(x, PublishOne(x, namespace, name, raw, check, limits, fault), name)
  {
  }

  /** A name that is new to the namespace is published as revision 1 exactly when one
      more package of its size fits, and fails without a trace otherwise. */
  lemma NewNameAnswers(x: Loop, namespace: Text, name: Text, files: seq<File>, check: Check, limits: Limits)
    requires Unknown(x.world.docs, namespace, name) && check(name, files).Some? && !x.stopped
    ensures var y, size, digest :=
            PublishOne(x, namespace, name, Some(files), check, limits, Fine), check(name, files).value,
                CanonicalJson(files);
            if NewFits(x, size, limits) then
              && y.world.docs == x.world.docs + [Document(namespace, name, 1, size, digest)]
              && Holds(x.world.store, y.world.store, Ref(namespace, name, digest), Whole(files))
              && y.world.history == x.world.history + [HistoryRow(namespace, name, 1, digest)]
              && y.rows == x.rows + [Published(name, 1, digest)] && !y.stopped
              && y.used == Usage(x.used.count + 1, x.used.bytes + size)
            else JustFails(x, y, name)
  {
    hide CanonicalJson;
    UnknownIsNotFound(x.world.docs, namespace, name);
  }

  /** A known name with the same content, not deleted, is answered as unchanged. Changed
      content, or a deleted name, is published as the next revision exactly when it fits
      and the document has a revision; that document alone is rewritten. Content that
      does not fit fails without a trace; a document without a revision makes the item
      fail after its package was stored. */
  lemma KnownNameAnswers(x: Loop, namespace: Text, name: Text, files: seq<File>, check: Check, limits: Limits, i: nat)
    requires UniqueSkills(x.world.docs) && Stored(x.world.docs, i, namespace, name) && check(name, files).Some?
    requires !x.stopped && (!x.world.docs[i].deleted ==> x.world.docs[i].size <= x.used.bytes)
    ensures var y, d, size, digest :=
            PublishOne(x, namespace, name, Some(files), check, limits, Fine), x.world.docs[i],
                check(name, files).value, CanonicalJson(files);
            if !d.deleted && d.hash == digest then
              y == x.(rows := x.rows + [Unchanged(name, d.revision, digest)])
            else if !ChangeFits(x, d, size, limits) then JustFails(x, y, name)
            else
              && Holds(x.world.store, y.world.store, Ref(namespace, name, digest), Whole(files))
              && (if d.revision.None? then JustFails(x.(world := x.world.(store := y.world.store)), y, name)
                  else
                    var revision := d.revision.value + 1;
                    && y.world.docs == x.world.docs[i := Document(namespace, name, revision, size, digest)]
                    && y.world.history == x.world.history + [HistoryRow(namespace, name, revision, digest)]
                    && y.rows == x.rows + [Published(name, revision, digest)] && !y.stopped
                    && y.used == Usage(x.used.count + (if d.deleted then 1 else 0),
                                       x.used.bytes - (if d.deleted then 0 else d.size) + size))
  {
    hide CanonicalJson, UniqueSkills;
    StoredIsFound(x.world.docs, i, namespace, name);
  }

  // ---------------------------------------------------------------- faults

  /** An item that reaches the writing half and is disturbed there. A store that refuses
      fails the item alone. A run that ends leaves behind exactly what it had written:
      nothing; a torn package where none was; the package; or the package and the
      document, but never the history row or an answer. */
  lemma DisturbedAnswers(x: Loop, namespace: Text, name: Text, files: seq<File>, check: Check, limits: Limits,
                         fault: Fault)
    requires Reaches(x, namespace, name, Some(files), check, limits) && Writable(x.world.docs, namespace, name)
    requires !x.stopped && !fault.Fine?
    ensures var y, fine, ref :=
            PublishOne(x, namespace, name, Some(files), check, limits, fault),
                PublishOne(x, namespace, name, Some(files), check, limits, Fine),
                Ref(namespace, name, CanonicalJson(files));
            && (fault.StoreRefuses? ==> JustFails(x, y, name))
            && (!fault.StoreRefuses? ==> y.stopped && y.rows == x.rows && y.used == x.used)
            && (fault.StoreRefuses? || fault.StopBeforePackage? ==> y.world == x.world)
            && (fault.StopInPackage? ==> Holds(x.world.store, y.world.store, ref, Torn))
            && (fault.StopAfterPackage? || fault.StopBeforeHistory? ==>
                  Holds(x.world.store, y.world.store, ref, Whole(files)) && y.world.store == fine.world.store)
            && y.world.docs == (if fault.StopBeforeHistory? then fine.world.docs else x.world.docs)
            && y.world.history == x.world.history
  {
    hide CanonicalJson, WriteSkill, Reaches, FindSkill, UniqueSkills;
    ReachesWrites(x, namespace, name, Some(files), check, limits, fault);
    ReachesWrites(x, namespace, name, Some(files), check, limits, Fine);
    WritableWrites(x.world.docs, namespace, name, check(name, files).value, CanonicalJson(files));
  }

  lemma WritableWrites(docs: seq<Skill>, namespace: Text, name: Text, size: nat, digest: Text)
    requires Writable(docs, namespace, name)
    ensures WriteSkill(docs, Skill(namespace, name, None, size, digest, Some(Ref(namespace, name, digest)), true,
                                   false)).Upserted?
  {
  }
}
