/** The text by which the payment service compares the payloads of a repeated event:
    members sorted at every depth, then printed. */
module StableJson {
  import opened Options
  import opened JsonText
  import opened Canonical

  function KeyOf(m: Member): Text { m.key }

  function Decimal(key: Text): int {
    if |key| == 0 then 0 else Decimal(key[..|key| - 1]) * 10 + key[|key| - 1] - 0x30
  }

  /** Array-index keys, which a JavaScript object keeps first and in numeric order. */
  predicate IsIndex(key: Text) {
    && |key| > 0 && (forall i :: 0 <= i < |key| ==> 0x30 <= key[i] <= 0x39)
    && (|key| == 1 || key[0] != 0x30) && Decimal(key) < 0xFFFF_FFFF
  }

  function PutIndex(ms: seq<Member>, m: Member): seq<Member>
    decreases |ms|
  {
    if |ms| == 0 || !IsIndex(ms[0].key) || Decimal(m.key) < Decimal(ms[0].key) then [m] + ms
    else [ms[0]] + PutIndex(ms[1..], m)
  }

  /** `result[key] = value` for a key the object does not have yet. */
  function Put(ms: seq<Member>, m: Member): seq<Member> {
    if m.key == Proto() then ms else if IsIndex(m.key) then PutIndex(ms, m) else ms + [m]
  }

  function PutAll(ms: seq<Member>, result: seq<Member>): seq<Member>
    decreases |ms|
  {
    if |ms| == 0 then result else PutAll(ms[1..], Put(result, ms[0]))
  }

  function Canonicalize(a: Json): Json
    decreases a
  {
    match a
    case Array(items) => Array(seq(|items|, i requires 0 <= i < |items| => Canonicalize(items[i])))
    case Object(ms) => Object(PutAll(Sort(ByUnit, CanonicalMembers(ms), KeyOf), []))
    case _ => a
  }

  function CanonicalMembers(ms: seq<Member>): (cs: seq<Member>)
    ensures |cs| == |ms| && forall i :: 0 <= i < |ms| ==> cs[i] == Member(ms[i].key, Canonicalize(ms[i].value))
    decreases ms
  {
    seq(|ms|, i requires 0 <= i < |ms| => Member(ms[i].key, Canonicalize(ms[i].value)))
  }

  /** A missing or null payload reads as the empty object. */
  function Payload(v: Option<Json>): Json { if v.None? || v.value.Null? then Object([]) else v.value }

  function Stable(v: Option<Json>): Text { Print(Canonicalize(Payload(v))) }

  /** The same value up to the order of members at every depth. With `strict` every
      member counts and every number is itself; otherwise members named `__proto__` do
      not count and an infinite number is as good as null. */
  predicate Same(a: Json, b: Json, strict: bool)
    decreases a
  {
    match a
    case Null => b.Null? || (!strict && b.Infinite?)
    case Infinite(_) => if strict then a == b else b.Null? || b.Infinite?
    case Array(i) => b.Array? && |i| == |b.items| && forall k :: 0 <= k < |i| ==> Same(i[k], b.items[k], strict)
    case Object(i) =>
      && b.Object?
      && (forall k :: 0 <= k < |i| && (strict || i[k].key != Proto()) ==> Matches(i[k], b.members, strict))
      && (forall l ::
          0 <= l < |b.members| && (strict || b.members[l].key != Proto()) ==> MatchedBy(i, b.members[l], strict))
    case _ => a == b
  }

  predicate Matches(m: Member, ns: seq<Member>, strict: bool)
    decreases m
  {
    exists l :: 0 <= l < |ns| && ns[l].key == m.key && Same(m.value, ns[l].value, strict)
  }

  predicate MatchedBy(ms: seq<Member>, n: Member, strict: bool)
    decreases ms
  {
    exists k :: 0 <= k < |ms| && ms[k].key == n.key && Same(ms[k].value, n.value, strict)
  }

  /** What JSON.parse returns: a number may have overflowed. */
  predicate Parsed(a: Json) {
    match a
    case Number(t) => ValidNumber(t)
    case Array(items) => forall i :: 0 <= i < |items| ==> Parsed(items[i])
    case Object(ms) => DistinctKeys(ms) && forall i :: 0 <= i < |ms| ==> Parsed(ms[i].value)
    case _ => true
  }

  /** No object at any depth has a member named `__proto__`, and no number overflowed. */
  predicate Plain(a: Json) {
    match a
    case Infinite(_) => false
    case Array(items) => forall i :: 0 <= i < |items| ==> Plain(items[i])
    case Object(ms) => forall i :: 0 <= i < |ms| ==> ms[i].key != Proto() && Plain(ms[i].value)
    case _ => true
  }

  // ---------------------------------------------------------------- rebuilding an object

  function Visible(ms: seq<Member>): (vs: seq<Member>)
    ensures forall m :: m in vs <==> m in ms && m.key != Proto()
    decreases |ms|
  {
    if |ms| == 0 then []
    else if ms[0].key == Proto() then Visible(ms[1..])
    else [ms[0]] + Visible(ms[1..])
  }

  ghost predicate SameVisible(xs: seq<Member>, ys: seq<Member>) { forall m :: m in Visible(xs) <==> m in Visible(ys) }

  lemma {:induction false} PutIndexAdds(ms: seq<Member>, m: Member)
    ensures multiset(PutIndex(ms, m)) == multiset(ms) + multiset{m}
    decreases |ms|
  {
    hide IsIndex, Decimal;
    if |ms| > 0 {
      PutIndexAdds(ms[1..], m);
      assert ms == [ms[0]] + ms[1..];
    }
  }

  lemma {:induction false} PutAllAdds(ms: seq<Member>, result: seq<Member>)
    ensures multiset(PutAll(ms, result)) == multiset(result) + multiset(Visible(ms))
    ensures PutAll(ms, result) == PutAll(Visible(ms), result)
    decreases |ms|
  {
    hide IsIndex, PutIndex, Proto;
    if |ms| > 0 {
      PutAllAdds(ms[1..], Put(result, ms[0]));
      if ms[0].key != Proto() {
        PutIndexAdds(result, ms[0]);
        assert Visible(ms)[1..] == Visible(ms[1..]);
      }
    }
  }

  lemma {:induction false} VisibleSorted(ms: seq<Member>)
    requires Sorted(ByUnit, ms, KeyOf)
    ensures Sorted(ByUnit, Visible(ms), KeyOf)
    decreases |ms|
  {
    hide Le, Proto, Sorted;
    if |ms| > 0 {
      SortedTail(ByUnit, ms, KeyOf);
      VisibleSorted(ms[1..]);
      if ms[0].key != Proto() {
        forall j | 0 <= j < |Visible(ms[1..])| ensures Le(ByUnit, ms[0].key, KeyOf(Visible(ms[1..])[j])) {
          assert Visible(ms[1..])[j] in ms[1..];
        }
        SortedCons(ByUnit, ms[0], Visible(ms[1..]), KeyOf);
      }
    } else {
      NothingSorted();
    }
  }

  lemma NothingSorted()
    ensures Sorted(ByUnit, [], KeyOf)
  {
  }

  lemma {:induction false} VisibleDistinct(ms: seq<Member>)
    requires DistinctKeys(ms)
    ensures DistinctKeys(Visible(ms))
    decreases |ms|
  {
    hide Proto;
    if |ms| > 0 {
      VisibleDistinct(ms[1..]);
      forall m | m in Visible(ms[1..]) ensures m.key != ms[0].key {
        var j :| 0 <= j < |ms[1..]| && ms[1..][j] == m;
      }
    }
  }

  lemma MultisetHead(ms: seq<Member>, m: Member)
    requires |ms| > 0
    ensures multiset(ms)[m] == multiset(ms[1..])[m] + if m == ms[0] then 1 else 0
  {
    assert ms == [ms[0]] + ms[1..];
  }

  lemma {:induction false} VisibleMultiset(ms: seq<Member>, m: Member)
    ensures multiset(Visible(ms))[m] == if m.key == Proto() then 0 else multiset(ms)[m]
    decreases |ms|
  {
    hide Proto;
    if |ms| > 0 {
      VisibleMultiset(ms[1..], m);
      MultisetHead(ms, m);
      if ms[0].key != Proto() { MultisetHead(Visible(ms), m); }
    }
  }

  lemma DistinctKeysTell(ms: seq<Member>)
    requires DistinctKeys(ms)
    ensures KeysTell(ms, KeyOf) && Distinct(ms)
  {
    forall x, y | x in ms && y in ms && KeyOf(x) == KeyOf(y) ensures x == y {
      var i :| 0 <= i < |ms| && ms[i] == x;
      var j :| 0 <= j < |ms| && ms[j] == y;
      assert i == j;
    }
  }

  /** Hiding members before or after the sort is the same. */
  lemma SortedVisible(xs: seq<Member>)
    requires DistinctKeys(xs)
    ensures Visible(Sort(ByUnit, xs, KeyOf)) == Sort(ByUnit, Visible(xs), KeyOf)
  {
    hide Le, Visible, Sort, Proto, Sorted;
    var s := Sort(ByUnit, xs, KeyOf);
    SortSorts(ByUnit, xs, KeyOf);
    SortSorts(ByUnit, Visible(xs), KeyOf);
    VisibleSorted(s);
    VisibleDistinct(xs);
    forall m ensures multiset(Visible(s))[m] == multiset(Visible(xs))[m] {
      VisibleMultiset(s, m);
      VisibleMultiset(xs, m);
    }
    assert multiset(Visible(s)) == multiset(Visible(xs));
    DistinctKeysTell(Visible(xs));
    SameKeys(Visible(xs), Visible(s));
    DistinctKeysTell(Visible(s));
    SortedUnique(ByUnit, Visible(s), Sort(ByUnit, Visible(xs), KeyOf), KeyOf);
  }

  lemma Rebuilt(xs: seq<Member>)
    requires DistinctKeys(xs)
    ensures PutAll(Sort(ByUnit, xs, KeyOf), []) == PutAll(Sort(ByUnit, Visible(xs), KeyOf), [])
    ensures multiset(PutAll(Sort(ByUnit, xs, KeyOf), [])) == multiset(Visible(xs))
  {
    hide Le, PutAll, Visible, Sort, Proto, Sorted, DistinctKeys;
    SortedVisible(xs);
    PutAllAdds(Sort(ByUnit, xs, KeyOf), []);
    SortSorts(ByUnit, Visible(xs), KeyOf);
  }

  /** The object rebuilt from sorted members tells exactly the visible members. */
  lemma RebuildExact(xs: seq<Member>, ys: seq<Member>)
    requires DistinctKeys(xs) && DistinctKeys(ys)
    ensures PutAll(Sort(ByUnit, xs, KeyOf), []) == PutAll(Sort(ByUnit, ys, KeyOf), [])
            <==> SameVisible(xs, ys)
  {
    hide PutAll, Sort, Proto, DistinctKeys, KeysTell, Distinct;
    Rebuilt(xs);
    Rebuilt(ys);
    VisibleDistinct(xs);
    VisibleDistinct(ys);
    DistinctKeysTell(Visible(xs));
    DistinctKeysTell(Visible(ys));
    SameElements(Visible(xs), Visible(ys));
    SortExact(ByUnit, Visible(xs), Visible(ys), KeyOf);
  }

  // ---------------------------------------------------------------- exactness

  lemma {:induction false} CanonicalValid(a: Json)
    requires Valid(a)
    ensures Valid(Canonicalize(a))
    decreases a, 1
  {
    match a
    case Array(items) => forall i | 0 <= i < |items| ensures Valid(Canonicalize(items[i])) { CanonicalValid(items[i]); }
    case Object(ms) =>
      forall i | 0 <= i < |ms| ensures Valid(CanonicalMembers(ms)[i].value) { CanonicalValid(ms[i].value); }
      RebuiltValid(CanonicalMembers(ms));
    case _ =>
  }

  lemma RebuiltValid(xs: seq<Member>)
    requires DistinctKeys(xs) && ValidMembers(xs)
    ensures Valid(Object(PutAll(Sort(ByUnit, xs, KeyOf), [])))
  {
    hide PutAll, Visible, Sort, Proto, Valid;
    var r := PutAll(Sort(ByUnit, xs, KeyOf), []);
    Rebuilt(xs);
    VisibleDistinct(xs);
    SameKeys(Visible(xs), r);
    forall k | 0 <= k < |r| ensures Valid(r[k].value) {
      assert r[k] in multiset(r);
      VisibleIn(xs, r[k]);
    }
    ValidObject(r);
  }

  lemma VisibleIn(xs: seq<Member>, m: Member)
    requires ValidMembers(xs) && m in Visible(xs)
    ensures Valid(m.value)
  {
  }

  lemma ValidObject(ms: seq<Member>)
    requires DistinctKeys(ms) && ValidMembers(ms)
    ensures Valid(Object(ms))
  {
  }

  /** A rearrangement of members keeps their keys distinct. */
  lemma SameKeys(xs: seq<Member>, ys: seq<Member>)
    requires DistinctKeys(xs) && multiset(xs) == multiset(ys)
    ensures DistinctKeys(ys)
  {
    DistinctKeysTell(xs);
    forall i, j | 0 <= i < j < |ys| ensures ys[i].key != ys[j].key {
      assert ys[i] in multiset(ys) && ys[j] in multiset(ys);
      assert ys[i] in xs && ys[j] in xs;
      if ys[i] == ys[j] {
        DistinctOnce(xs, ys[i]);
        TwiceCounts(ys, i, j);
      }
    }
  }

  lemma TwiceCounts(ys: seq<Member>, i: nat, j: nat)
    requires i < j < |ys| && ys[i] == ys[j]
    ensures multiset(ys)[ys[i]] >= 2
  {
    assert ys == ys[..j] + [ys[j]] + ys[j + 1..];
    assert ys[..j][i] == ys[i];
    assert ys[i] in multiset(ys[..j]);
  }

  lemma {:induction false} CanonicalizeExact(a: Json, b: Json)
    requires Valid(a) && Valid(b)
    ensures Canonicalize(a) == Canonicalize(b) <==> Same(a, b, false)
    decreases a
  {
    hide PutAll, Sort, Visible, Proto, CanonicalMembers, Matches, MatchedBy;
    if a.Array? && b.Array? {
      forall k | 0 <= k < |a.items| && k < |b.items|
        ensures Canonicalize(a.items[k]) == Canonicalize(b.items[k]) <==> Same(a.items[k], b.items[k], false)
      {
        CanonicalizeExact(a.items[k], b.items[k]);
      }
      ArraysEqual(a.items, b.items);
    } else if a.Object? && b.Object? {
      forall k, l | 0 <= k < |a.members| && 0 <= l < |b.members|
        ensures Canonicalize(a.members[k].value) == Canonicalize(b.members[l].value)
                <==> Same(a.members[k].value, b.members[l].value, false)
      {
        CanonicalizeExact(a.members[k].value, b.members[l].value);
      }
      ObjectsEqual(a.members, b.members);
      assert a == Object(a.members) && b == Object(b.members);
    }
  }

  lemma ObjectsEqual(i: seq<Member>, j: seq<Member>)
    requires DistinctKeys(i) && DistinctKeys(j) && ExactValues(i, j)
    ensures Canonicalize(Object(i)) == Canonicalize(Object(j)) <==> Same(Object(i), Object(j), false)
  {
    hide PutAll, Sort, Visible, Proto, ExactValues, SameVisible;
    RebuildExact(CanonicalMembers(i), CanonicalMembers(j));
    MembersMatch(i, j);
  }

  lemma ArraysEqual(i: seq<Json>, j: seq<Json>)
    ensures Canonicalize(Array(i)) == Canonicalize(Array(j))
            <==> |i| == |j| && forall k :: 0 <= k < |i| ==> Canonicalize(i[k]) == Canonicalize(j[k])
  {
    var x, y := Canonicalize(Array(i)).items, Canonicalize(Array(j)).items;
    assert |x| == |i| && |y| == |j|;
    assert forall k :: 0 <= k < |i| ==> x[k] == Canonicalize(i[k]);
    assert forall k :: 0 <= k < |j| ==> y[k] == Canonicalize(j[k]);
  }

  lemma SameObjects(i: seq<Member>, j: seq<Member>)
    ensures Same(Object(i), Object(j), false)
            <==> && (forall k :: 0 <= k < |i| && i[k].key != Proto() ==> Matches(i[k], j, false))
                 && (forall l :: 0 <= l < |j| && j[l].key != Proto() ==> MatchedBy(i, j[l], false))
  {
    hide Proto, Matches, MatchedBy;
  }

  /** Canonicalization is exact on the values of these members. */
  predicate ExactValues(i: seq<Member>, j: seq<Member>) {
    forall k, l :: 0 <= k < |i| && 0 <= l < |j| ==>
      (Canonicalize(i[k].value) == Canonicalize(j[l].value) <==> Same(i[k].value, j[l].value, false))
  }

  /** Equal visible canonical members are matching members, key by key. */
  lemma MembersMatch(i: seq<Member>, j: seq<Member>)
    requires ExactValues(i, j)
    ensures SameVisible(CanonicalMembers(i), CanonicalMembers(j)) <==> Same(Object(i), Object(j), false)
  {
    hide Proto, Canonicalize, Matches, MatchedBy, ExactValues;
    SameObjects(i, j);
    var x, y := CanonicalMembers(i), CanonicalMembers(j);
    forall k | 0 <= k < |i| ensures x[k] in y <==> Matches(i[k], j, false) { MatchLeft(i, j, k); }
    forall l | 0 <= l < |j| ensures y[l] in x <==> MatchedBy(i, j[l], false) { MatchRight(i, j, l); }
    if Same(Object(i), Object(j), false) {
      forall m ensures m in Visible(x) <==> m in Visible(y) {
        if m in Visible(x) {
          var k :| 0 <= k < |x| && x[k] == m;
          assert i[k].key == x[k].key && Matches(i[k], j, false);
        }
        if m in Visible(y) {
          var l :| 0 <= l < |y| && y[l] == m;
          assert j[l].key == y[l].key && MatchedBy(i, j[l], false);
        }
      }
    }
    if SameVisible(x, y) {
      forall k | 0 <= k < |i| && i[k].key != Proto() ensures Matches(i[k], j, false) { assert x[k] in Visible(x); }
      forall l | 0 <= l < |j| && j[l].key != Proto() ensures MatchedBy(i, j[l], false) { assert y[l] in Visible(y); }
    }
  }

  lemma MatchLeft(i: seq<Member>, j: seq<Member>, k: nat)
    requires k < |i| && ExactValues(i, j)
    ensures CanonicalMembers(i)[k] in CanonicalMembers(j) <==> Matches(i[k], j, false)
  {
    hide Canonicalize, Same;
    var x, y := CanonicalMembers(i), CanonicalMembers(j);
    if x[k] in y {
      var l :| 0 <= l < |y| && y[l] == x[k];
      assert j[l].key == i[k].key;
    }
    if l :| 0 <= l < |j| && j[l].key == i[k].key && Same(i[k].value, j[l].value, false) { assert y[l] == x[k]; }
  }

  lemma MatchRight(i: seq<Member>, j: seq<Member>, l: nat)
    requires l < |j| && ExactValues(i, j)
    ensures CanonicalMembers(j)[l] in CanonicalMembers(i) <==> MatchedBy(i, j[l], false)
  {
    hide Canonicalize, Same;
    var x, y := CanonicalMembers(i), CanonicalMembers(j);
    if y[l] in x {
      var k :| 0 <= k < |x| && x[k] == y[l];
      assert i[k].key == j[l].key;
    }
    if k :| 0 <= k < |i| && i[k].key == j[l].key && Same(i[k].value, j[l].value, false) { assert x[k] == y[l]; }
  }

  // ---------------------------------------------------------------- numbers that overflow

  /** The value with null for every infinite number, which prints alike. */
  function Tidy(a: Json): Json
    decreases a
  {
    match a
    case Infinite(_) => Null
    case Array(items) => Array(seq(|items|, i requires 0 <= i < |items| => Tidy(items[i])))
    case Object(ms) => Object(TidyMembers(ms))
    case _ => a
  }

  function TidyMember(m: Member): Member
    decreases m
  {
    Member(m.key, Tidy(m.value))
  }

  function TidyMembers(ms: seq<Member>): (ts: seq<Member>)
    ensures |ts| == |ms| && forall i :: 0 <= i < |ms| ==> ts[i] == TidyMember(ms[i])
    decreases ms
  {
    seq(|ms|, i requires 0 <= i < |ms| => TidyMember(ms[i]))
  }

  lemma {:induction false} TidyValid(a: Json)
    requires Parsed(a)
    ensures Valid(Tidy(a))
    decreases a
  {
    match a
    case Array(items) => forall i | 0 <= i < |items| ensures Valid(Tidy(items[i])) { TidyValid(items[i]); }
    case Object(ms) => forall i | 0 <= i < |ms| ensures Valid(Tidy(ms[i].value)) { TidyValid(ms[i].value); }
    case _ =>
  }

  lemma TidyConcat(xs: seq<Member>, ys: seq<Member>)
    ensures TidyMembers(xs + ys) == TidyMembers(xs) + TidyMembers(ys)
  {
    hide TidyMember;
  }

  lemma {:induction false} TidyInsert(x: Member, ys: seq<Member>)
    ensures TidyMembers(Insert(ByUnit, x, ys, KeyOf)) == Insert(ByUnit, TidyMember(x), TidyMembers(ys), KeyOf)
    decreases |ys|
  {
    hide Le, Tidy;
    if |ys| == 0 || Le(ByUnit, x.key, ys[0].key) {
      TidyConcat([x], ys);
    } else {
      TidyInsert(x, ys[1..]);
      TidyConcat([ys[0]], Insert(ByUnit, x, ys[1..], KeyOf));
      assert TidyMembers(ys)[1..] == TidyMembers(ys[1..]);
    }
  }

  lemma {:induction false} TidySort(xs: seq<Member>)
    ensures TidyMembers(Sort(ByUnit, xs, KeyOf)) == Sort(ByUnit, TidyMembers(xs), KeyOf)
    decreases |xs|
  {
    hide Insert, Tidy;
    if |xs| > 0 {
      TidySort(xs[1..]);
      TidyInsert(xs[0], Sort(ByUnit, xs[1..], KeyOf));
      assert TidyMembers(xs)[1..] == TidyMembers(xs[1..]);
    }
  }

  lemma {:induction false} TidyPutIndex(ms: seq<Member>, m: Member)
    ensures TidyMembers(PutIndex(ms, m)) == PutIndex(TidyMembers(ms), TidyMember(m))
    decreases |ms|
  {
    hide IsIndex, Decimal, Tidy;
    if |ms| == 0 || !IsIndex(ms[0].key) || Decimal(m.key) < Decimal(ms[0].key) {
      TidyConcat([m], ms);
    } else {
      TidyPutIndex(ms[1..], m);
      TidyConcat([ms[0]], PutIndex(ms[1..], m));
      assert TidyMembers(ms)[1..] == TidyMembers(ms[1..]);
    }
  }

  lemma {:induction false} TidyPutAll(ms: seq<Member>, result: seq<Member>)
    ensures TidyMembers(PutAll(ms, result)) == PutAll(TidyMembers(ms), TidyMembers(result))
    decreases |ms|
  {
    hide IsIndex, PutIndex, Proto, Tidy;
    if |ms| > 0 {
      TidyPutIndex(result, ms[0]);
      TidyConcat(result, [ms[0]]);
      assert TidyMembers([ms[0]]) == [TidyMember(ms[0])];
      TidyPutAll(ms[1..], Put(result, ms[0]));
      assert TidyMembers(ms)[1..] == TidyMembers(ms[1..]);
    }
  }

  /** Tidying before or after canonicalization is the same. */
  lemma {:induction false} TidyCanonicalize(a: Json)
    ensures Tidy(Canonicalize(a)) == Canonicalize(Tidy(a))
    decreases a
  {
    hide Sort, PutAll;
    match a
    case Array(items) =>
      forall i | 0 <= i < |items|
        ensures Tidy(Canonicalize(items[i])) == Canonicalize(Tidy(items[i]))
      {
        TidyCanonicalize(items[i]);
      }
      assert Tidy(Canonicalize(a)).items == Canonicalize(Tidy(a)).items;
    case Object(ms) =>
      forall i | 0 <= i < |ms|
        ensures Tidy(Canonicalize(ms[i].value)) == Canonicalize(Tidy(ms[i].value))
      {
        TidyCanonicalize(ms[i].value);
      }
      TidyMembersCanonical(ms);
      TidyRebuilt(CanonicalMembers(ms));
    case _ =>
  }

  lemma TidyMembersCanonical(ms: seq<Member>)
    requires forall i :: 0 <= i < |ms| ==> Tidy(Canonicalize(ms[i].value)) == Canonicalize(Tidy(ms[i].value))
    ensures TidyMembers(CanonicalMembers(ms)) == CanonicalMembers(TidyMembers(ms))
  {
    hide Tidy, Canonicalize;
  }

  lemma TidyRebuilt(xs: seq<Member>)
    ensures TidyMembers(PutAll(Sort(ByUnit, xs, KeyOf), [])) == PutAll(Sort(ByUnit, TidyMembers(xs), KeyOf), [])
  {
    hide Sort, PutAll, Tidy;
    TidySort(xs);
    TidyPutAll(Sort(ByUnit, xs, KeyOf), []);
  }

  lemma {:induction false} TidyPrints(a: Json, rest: Text)
    ensures PrintTo(a, rest) == PrintTo(Tidy(a), rest)
    decreases a, 1
  {
    hide QuoteTo, ItemsTo, MembersTo;
    match a
    case Array(items) =>
      if |items| > 0 {
        var ts := Tidy(a).items;
        assert ts[1..] == Tidy(Array(items[1..])).items;
        TidyItemsPrint(items[1..], rest);
        TidyPrints(items[0], ItemsTo(items[1..], rest));
      }
    case Object(ms) =>
      if |ms| > 0 {
        assert TidyMembers(ms)[1..] == TidyMembers(ms[1..]);
        TidyMembersPrint(ms[1..], rest);
        TidyPrints(ms[0].value, MembersTo(ms[1..], rest));
      }
    case _ =>
  }

  lemma {:induction false} TidyItemsPrint(items: seq<Json>, rest: Text)
    ensures ItemsTo(items, rest) == ItemsTo(Tidy(Array(items)).items, rest)
    decreases items, 0
  {
    hide PrintTo;
    if |items| > 0 {
      var ts := Tidy(Array(items)).items;
      assert ts[0] == Tidy(items[0]) && ts[1..] == Tidy(Array(items[1..])).items;
      TidyItemsPrint(items[1..], rest);
      TidyPrints(items[0], ItemsTo(items[1..], rest));
    }
  }

  lemma {:induction false} TidyMembersPrint(ms: seq<Member>, rest: Text)
    ensures MembersTo(ms, rest) == MembersTo(TidyMembers(ms), rest)
    decreases ms, 0
  {
    hide PrintTo, QuoteTo;
    if |ms| > 0 {
      assert TidyMembers(ms)[1..] == TidyMembers(ms[1..]);
      TidyMembersPrint(ms[1..], rest);
      TidyPrints(ms[0].value, MembersTo(ms[1..], rest));
    }
  }

  lemma {:induction false} TidySame(a: Json, b: Json)
    ensures Same(a, b, false) == Same(Tidy(a), Tidy(b), false)
    decreases a
  {
    hide Proto, Matches, MatchedBy;
    if a.Array? && b.Array? {
      forall k | 0 <= k < |a.items| && k < |b.items|
        ensures Same(a.items[k], b.items[k], false) == Same(Tidy(a).items[k], Tidy(b).items[k], false)
      {
        TidySame(a.items[k], b.items[k]);
      }
    } else if a.Object? && b.Object? {
      var i, j := a.members, b.members;
      var x, y := TidyMembers(i), TidyMembers(j);
      forall k, l | 0 <= k < |i| && 0 <= l < |j|
        ensures Same(i[k].value, j[l].value, false) == Same(x[k].value, y[l].value, false)
      {
        TidySame(i[k].value, j[l].value);
      }
      forall k | 0 <= k < |i| ensures Matches(i[k], j, false) == Matches(x[k], y, false) { TidyMatches(i, j, x, y, k); }
      forall l | 0 <= l < |j|
        ensures MatchedBy(i, j[l], false) == MatchedBy(x, y[l], false)
      {
        TidyMatched(i, j, x, y, l);
      }
      SameObjects(i, j);
      SameObjects(x, y);
      assert a == Object(i) && b == Object(j);
    }
  }

  predicate KeysAlike(i: seq<Member>, x: seq<Member>) {
    |x| == |i| && forall k :: 0 <= k < |i| ==> x[k].key == i[k].key
  }

  lemma TidyMatches(i: seq<Member>, j: seq<Member>, x: seq<Member>, y: seq<Member>, k: nat)
    requires KeysAlike(i, x) && KeysAlike(j, y) && k < |i|
    requires forall l :: 0 <= l < |j| ==> Same(i[k].value, j[l].value, false) == Same(x[k].value, y[l].value, false)
    ensures Matches(i[k], j, false) == Matches(x[k], y, false)
  {
    hide Same;
    if l :| 0 <= l < |j| && j[l].key == i[k].key && Same(i[k].value, j[l].value, false) { assert y[l].key == x[k].key; }
    if l :| 0 <= l < |y| && y[l].key == x[k].key && Same(x[k].value, y[l].value, false) { assert j[l].key == i[k].key; }
  }

  lemma TidyMatched(i: seq<Member>, j: seq<Member>, x: seq<Member>, y: seq<Member>, l: nat)
    requires KeysAlike(i, x) && KeysAlike(j, y) && l < |j|
    requires forall k :: 0 <= k < |i| ==> Same(i[k].value, j[l].value, false) == Same(x[k].value, y[l].value, false)
    ensures MatchedBy(i, j[l], false) == MatchedBy(x, y[l], false)
  {
    hide Same;
    if k :| 0 <= k < |i| && i[k].key == j[l].key && Same(i[k].value, j[l].value, false) { assert x[k].key == y[l].key; }
    if k :| 0 <= k < |x| && x[k].key == y[l].key && Same(x[k].value, y[l].value, false) { assert i[k].key == j[l].key; }
  }

  // ---------------------------------------------------------------- the comparison of payloads

  /** Two payloads have one text exactly when they are the same value up to member
      order, members named `__proto__` not counted and infinite numbers taken for null. */
  lemma StableExact(v: Option<Json>, w: Option<Json>)
    requires Parsed(Payload(v)) && Parsed(Payload(w))
    ensures Stable(v) == Stable(w) <==> Same(Payload(v), Payload(w), false)
  {
    hide PrintTo, Canonicalize, Same, Tidy;
    var p, q := Payload(v), Payload(w);
    TidyCanonicalize(p);
    TidyCanonicalize(q);
    TidyPrints(Canonicalize(p), []);
    TidyPrints(Canonicalize(q), []);
    TidyValid(p);
    TidyValid(q);
    CanonicalValid(Tidy(p));
    CanonicalValid(Tidy(q));
    PrintInjective(Canonicalize(Tidy(p)), Canonicalize(Tidy(q)));
    CanonicalizeExact(Tidy(p), Tidy(q));
    TidySame(p, q);
  }

  lemma {:induction false} PlainCountsAll(a: Json, b: Json)
    requires Plain(a) && Plain(b)
    ensures Same(a, b, true) == Same(a, b, false)
    decreases a
  {
    hide Proto, Matches, MatchedBy;
    if a.Array? && b.Array? {
      forall k | 0 <= k < |a.items| && k < |b.items|
        ensures Same(a.items[k], b.items[k], true) == Same(a.items[k], b.items[k], false)
      {
        PlainCountsAll(a.items[k], b.items[k]);
      }
    } else if a.Object? && b.Object? {
      var i, j := a.members, b.members;
      forall k, l | 0 <= k < |i| && 0 <= l < |j|
        ensures Same(i[k].value, j[l].value, true) == Same(i[k].value, j[l].value, false)
      {
        PlainCountsAll(i[k].value, j[l].value);
      }
      forall k | 0 <= k < |i| ensures Matches(i[k], j, true) == Matches(i[k], j, false) { MatchesAlike(i, j, k); }
      forall l | 0 <= l < |j| ensures MatchedBy(i, j[l], true) == MatchedBy(i, j[l], false) { MatchedAlike(i, j, l); }
    }
  }

  lemma MatchesAlike(i: seq<Member>, j: seq<Member>, k: nat)
    requires k < |i|
             && forall l :: 0 <= l < |j| ==> Same(i[k].value, j[l].value, true) == Same(i[k].value, j[l].value, false)
    ensures Matches(i[k], j, true) == Matches(i[k], j, false)
  {
    hide Same;
    if l :| 0 <= l < |j| && j[l].key == i[k].key && Same(i[k].value, j[l].value, true) {
      assert Matches(i[k], j, false);
    }
  }

  lemma MatchedAlike(i: seq<Member>, j: seq<Member>, l: nat)
    requires l < |j|
             && forall k :: 0 <= k < |i| ==> Same(i[k].value, j[l].value, true) == Same(i[k].value, j[l].value, false)
    ensures MatchedBy(i, j[l], true) == MatchedBy(i, j[l], false)
  {
    hide Same;
    if k :| 0 <= k < |i| && i[k].key == j[l].key && Same(i[k].value, j[l].value, true) {
      assert MatchedBy(i, j[l], false);
    }
  }

  /** On payloads without that key and such numbers the text is exact at every depth. */
  lemma StableExactOnPlain(v: Option<Json>, w: Option<Json>)
    requires Parsed(Payload(v)) && Parsed(Payload(w)) && Plain(Payload(v)) && Plain(Payload(w))
    ensures Stable(v) == Stable(w) <==> Same(Payload(v), Payload(w), true)
  {
    hide Stable, Same;
    StableExact(v, w);
    PlainCountsAll(Payload(v), Payload(w));
  }

  /** With that key it is not: the member is lost. */
  lemma ProtoMemberIsLost(value: Json)
    requires Parsed(value)
    ensures var a, b := Object([Member(Proto(), value)]), Object([]);
            Stable(Some(a)) == Stable(Some(b)) && !Same(a, b, true)
  {
    hide Proto;
    StableExact(Some(Object([Member(Proto(), value)])), Some(Object([])));
  }

  /** With such a number it is not either: `{"a":1e999}` has the text of `{"a":null}`. */
  lemma OverflowIsTakenForNull(key: Text, negative: bool)
    ensures var a, b := Object([Member(key, Infinite(negative))]), Object([Member(key, Null)]);
            Parsed(a) && Parsed(b) && Stable(Some(a)) == Stable(Some(b)) && !Same(a, b, true)
  {
    var a, b := Object([Member(key, Infinite(negative))]), Object([Member(key, Null)]);
    StableExact(Some(a), Some(b));
    var i, j := a.members, b.members;
    assert Same(i[0].value, j[0].value, false) && !Same(i[0].value, j[0].value, true);
    assert Matches(i[0], j, false) && MatchedBy(i, j[0], false);
  }

  /** The stored and the repeated event. */
  datatype EventTarget = EventTarget(eventType: string, payload: Option<Json>)

  predicate AcceptsRepeat(existing: EventTarget, requested: EventTarget) {
    existing.eventType == requested.eventType && Stable(existing.payload) == Stable(requested.payload)
  }

  /** A repeated event id is accepted exactly for the same type and the same payload;
      among plain payloads acceptance is an equivalence. */
  lemma AcceptedRepeats(x: EventTarget, y: EventTarget, z: EventTarget)
    requires Parsed(Payload(x.payload)) && Parsed(Payload(y.payload)) && Plain(Payload(x.payload))
             && Plain(Payload(y.payload))
    ensures AcceptsRepeat(x, y) <==> x.eventType == y.eventType && Same(Payload(x.payload), Payload(y.payload), true)
    ensures AcceptsRepeat(x, y) && AcceptsRepeat(y, z) ==> AcceptsRepeat(x, z)
  {
    hide Stable, Same;
    StableExactOnPlain(x.payload, y.payload);
  }
}
