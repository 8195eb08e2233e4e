/** The canonical texts behind the hub's content hashes and the payment service's
    same-request check, and exactly which inputs each of them identifies. */
module Canonical {
  import opened Options
  import opened JsonText

  /** The one key a plain assignment does not create: it names the prototype. */
  function Proto(): Text { Ascii("__proto__") }

  // ---------------------------------------------------------------- sorting

  function Insert<T>(o: Order, x: T, ys: seq<T>, key: T -> Text): seq<T>
    decreases |ys|
  {
    if |ys| == 0 || Le(o, key(x), key(ys[0])) then [x] + ys else [ys[0]] + Insert(o, x, ys[1..], key)
  }

  /** A stable sort by key. */
  function Sort<T>(o: Order, xs: seq<T>, key: T -> Text): seq<T>
    decreases |xs|
  {
    if |xs| == 0 then [] else Insert(o, xs[0], Sort(o, xs[1..], key), key)
  }

  predicate Sorted<T>(o: Order, xs: seq<T>, key: T -> Text) {
    forall i, j :: 0 <= i < j < |xs| ==> Le(o, key(xs[i]), key(xs[j]))
  }

  predicate KeysTell<T(==)>(xs: seq<T>, key: T -> Text) {
    forall x, y :: x in xs && y in xs && key(x) == key(y) ==> x == y
  }

  predicate AllFrom<T>(o: Order, z: Text, ys: seq<T>, key: T -> Text) {
    forall j :: 0 <= j < |ys| ==> Le(o, z, key(ys[j]))
  }

  lemma {:induction false} InsertFrom<T>(o: Order, z: Text, x: T, ys: seq<T>, key: T -> Text)
    requires Le(o, z, key(x)) && AllFrom(o, z, ys, key)
    ensures AllFrom(o, z, Insert(o, x, ys, key), key)
    decreases |ys|
  {
    hide Le;
    if |ys| > 0 { InsertFrom(o, z, x, ys[1..], key); }
  }

  lemma AllFromLower<T>(o: Order, x: Text, z: Text, ys: seq<T>, key: T -> Text)
    requires Le(o, x, z) && AllFrom(o, z, ys, key)
    ensures AllFrom(o, x, ys, key)
  {
    hide Le;
    forall j | 0 <= j < |ys| ensures Le(o, x, key(ys[j])) { LeTotalOrder(o, x, z, key(ys[j])); }
  }

  lemma SortedTail<T>(o: Order, ys: seq<T>, key: T -> Text)
    requires Sorted(o, ys, key) && |ys| > 0
    ensures Sorted(o, ys[1..], key) && AllFrom(o, key(ys[0]), ys, key) && AllFrom(o, key(ys[0]), ys[1..], key)
  {
    hide Le;
    LeTotalOrder(o, key(ys[0]), key(ys[0]), key(ys[0]));
    forall j | 0 <= j < |ys| ensures Le(o, key(ys[0]), key(ys[j])) { }
  }

  lemma SortedCons<T>(o: Order, x: T, ys: seq<T>, key: T -> Text)
    requires Sorted(o, ys, key) && AllFrom(o, key(x), ys, key)
    ensures Sorted(o, [x] + ys, key)
  {
    hide Le;
  }

  lemma {:induction false} InsertSorts<T>(o: Order, x: T, ys: seq<T>, key: T -> Text)
    requires Sorted(o, ys, key)
    ensures Sorted(o, Insert(o, x, ys, key), key)
    decreases |ys|
  {
    hide Le, Sorted, AllFrom;
    if |ys| == 0 {
      SingleSorted(o, x, key);
    } else {
      SortedTail(o, ys, key);
      LeTotalOrder(o, key(x), key(ys[0]), key(x));
      if Le(o, key(x), key(ys[0])) {
        AllFromLower(o, key(x), key(ys[0]), ys, key);
        SortedCons(o, x, ys, key);
      } else {
        InsertSorts(o, x, ys[1..], key);
        InsertFrom(o, key(ys[0]), x, ys[1..], key);
        SortedCons(o, ys[0], Insert(o, x, ys[1..], key), key);
      }
    }
  }

  lemma SingleSorted<T>(o: Order, x: T, key: T -> Text)
    ensures Sorted(o, [x] + [], key)
  {
  }

  lemma {:induction false} InsertPermutes<T>(o: Order, x: T, ys: seq<T>, key: T -> Text)
    ensures multiset(Insert(o, x, ys, key)) == multiset{x} + multiset(ys)
    decreases |ys|
  {
    hide Le;
    if |ys| > 0 {
      InsertPermutes(o, x, ys[1..], key);
      assert ys == [ys[0]] + ys[1..];
    }
  }

  lemma {:induction false} SortSorts<T>(o: Order, xs: seq<T>, key: T -> Text)
    ensures Sorted(o, Sort(o, xs, key), key) && multiset(Sort(o, xs, key)) == multiset(xs)
    decreases |xs|
  {
    if |xs| > 0 {
      SortSorts(o, xs[1..], key);
      InsertSorts(o, xs[0], Sort(o, xs[1..], key), key);
      InsertPermutes(o, xs[0], Sort(o, xs[1..], key), key);
      assert xs == [xs[0]] + xs[1..];
    }
  }

  lemma SameHead<T>(o: Order, xs: seq<T>, ys: seq<T>, key: T -> Text)
    requires Sorted(o, xs, key) && Sorted(o, ys, key) && multiset(xs) == multiset(ys) && KeysTell(xs, key) && |xs| > 0
    ensures |ys| > 0 && xs[0] == ys[0]
  {
    hide Le, Sorted;
    assert xs[0] in multiset(xs);
    var i :| 0 <= i < |ys| && ys[i] == xs[0];
    assert ys[0] in multiset(ys);
    var j :| 0 <= j < |xs| && xs[j] == ys[0];
    SortedTail(o, xs, key);
    SortedTail(o, ys, key);
    LeTotalOrder(o, key(xs[0]), key(ys[0]), key(xs[0]));
  }

  lemma MultisetTail<T>(xs: seq<T>)
    requires |xs| > 0
    ensures multiset(xs[1..]) == multiset(xs) - multiset{xs[0]}
  {
    assert xs == [xs[0]] + xs[1..];
  }

  lemma {:induction false} SortedUnique<T>(o: Order, xs: seq<T>, ys: seq<T>, key: T -> Text)
    requires Sorted(o, xs, key) && Sorted(o, ys, key) && multiset(xs) == multiset(ys) && KeysTell(xs, key)
    ensures xs == ys
    decreases |xs|
  {
    hide Le, Sorted;
    if |xs| == 0 {
      assert |multiset(xs)| == |multiset(ys)|;
    } else {
      SameHead(o, xs, ys, key);
      SortedTail(o, xs, key);
      SortedTail(o, ys, key);
      MultisetTail(xs);
      MultisetTail(ys);
      assert xs == [xs[0]] + xs[1..] && ys == [ys[0]] + ys[1..];
      SortedUnique(o, xs[1..], ys[1..], key);
    }
  }

  /** The sorted list tells exactly which elements there were, and how often. */
  lemma SortExact<T>(o: Order, xs: seq<T>, ys: seq<T>, key: T -> Text)
    requires KeysTell(xs, key)
    ensures Sort(o, xs, key) == Sort(o, ys, key) <==> multiset(xs) == multiset(ys)
  {
    SortSorts(o, xs, key);
    SortSorts(o, ys, key);
    if multiset(xs) == multiset(ys) {
      forall x | x in Sort(o, xs, key) ensures x in xs { assert x in multiset(Sort(o, xs, key)); }
      SortedUnique(o, Sort(o, xs, key), Sort(o, ys, key), key);
    }
  }

  predicate Distinct<T(==)>(xs: seq<T>) { forall i, j :: 0 <= i < j < |xs| ==> xs[i] != xs[j] }

  lemma {:induction false} DistinctOnce<T>(xs: seq<T>, x: T)
    requires Distinct(xs)
    ensures multiset(xs)[x] == if x in xs then 1 else 0
    decreases |xs|
  {
    if |xs| > 0 {
      DistinctOnce(xs[1..], x);
      assert xs == [xs[0]] + xs[1..];
    }
  }

  lemma SameElements<T>(xs: seq<T>, ys: seq<T>)
    requires Distinct(xs) && Distinct(ys)
    ensures multiset(xs) == multiset(ys) <==> forall x :: x in xs <==> x in ys
  {
    if forall x :: x in xs <==> x in ys {
      forall x ensures multiset(xs)[x] == multiset(ys)[x] {
        DistinctOnce(xs, x);
        DistinctOnce(ys, x);
      }
    } else {
      var x :| !(x in xs <==> x in ys);
      DistinctOnce(xs, x);
      DistinctOnce(ys, x);
    }
  }

  // ---------------------------------------------------------------- file packages

  datatype File = File(path: Text, content: Text)

  function PathOf(f: File): Text { f.path }

  /** The entries of one object: no path twice, in any order. */
  predicate DistinctPaths(fs: seq<File>) { forall i, j :: 0 <= i < j < |fs| ==> fs[i].path != fs[j].path }

  function PartTo(f: File, rest: Text): Text { QuoteTo(f.path, [COLON, 0x20] + QuoteTo(f.content, rest)) }

  function PartsTo(fs: seq<File>): (t: Text)
    decreases |fs|
  {
    if |fs| == 0 then [0x7D] else [COMMA, 0x20] + PartTo(fs[0], PartsTo(fs[1..]))
  }

  function FilesText(fs: seq<File>): Text { [0x7B] + if |fs| == 0 then [0x7D] else PartTo(fs[0], PartsTo(fs[1..])) }

  /** Paths in code-point order, parts joined by ", ", keys and values by ": ". */
  function CanonicalJson(fs: seq<File>): Text { FilesText(Sort(ByCodePoint, fs, PathOf)) }

  lemma PartSelfDelimiting(f: File, g: File, x: Text, y: Text)
    requires PartTo(f, x) == PartTo(g, y)
    ensures f == g && x == y
  {
    hide QuoteTo;
    QuoteSelfDelimiting(f.path, g.path, [COLON, 0x20] + QuoteTo(f.content, x), [COLON, 0x20] + QuoteTo(g.content, y));
    Cancel([COLON, 0x20], [COLON, 0x20], QuoteTo(f.content, x), QuoteTo(g.content, y));
    QuoteSelfDelimiting(f.content, g.content, x, y);
  }

  lemma {:induction false} PartsInjective(fs: seq<File>, gs: seq<File>)
    requires PartsTo(fs) == PartsTo(gs)
    ensures fs == gs
    decreases |fs|
  {
    hide PartTo;
    assert |fs| > 0 <==> PartsTo(fs)[0] == COMMA;
    assert |gs| > 0 <==> PartsTo(gs)[0] == COMMA;
    if |fs| > 0 {
      Cancel([COMMA, 0x20], [COMMA, 0x20], PartTo(fs[0], PartsTo(fs[1..])), PartTo(gs[0], PartsTo(gs[1..])));
      PartSelfDelimiting(fs[0], gs[0], PartsTo(fs[1..]), PartsTo(gs[1..]));
      PartsInjective(fs[1..], gs[1..]);
      assert fs == [fs[0]] + fs[1..] && gs == [gs[0]] + gs[1..];
    }
  }

  lemma FilesTextInjective(fs: seq<File>, gs: seq<File>)
    requires FilesText(fs) == FilesText(gs)
    ensures fs == gs
  {
    hide QuoteTo;
    var s := if |fs| == 0 then [0x7D] else PartTo(fs[0], PartsTo(fs[1..]));
    var t := if |gs| == 0 then [0x7D] else PartTo(gs[0], PartsTo(gs[1..]));
    Cancel([0x7B], [0x7B], s, t);
    assert (|fs| == 0 <==> s[0] == 0x7D) && (|gs| == 0 <==> t[0] == 0x7D);
    if |fs| > 0 {
      PartSelfDelimiting(fs[0], gs[0], PartsTo(fs[1..]), PartsTo(gs[1..]));
      PartsInjective(fs[1..], gs[1..]);
      assert fs == [fs[0]] + fs[1..] && gs == [gs[0]] + gs[1..];
    }
  }

  /** Two packages have one canonical text exactly when they hold the same files;
      the order in which the files were added plays no part. */
  lemma CanonicalJsonExact(fs: seq<File>, gs: seq<File>)
    requires DistinctPaths(fs) && DistinctPaths(gs)
    ensures CanonicalJson(fs) == CanonicalJson(gs) <==> forall f :: f in fs <==> f in gs
  {
    hide FilesText;
    forall x, y | x in fs && y in fs && PathOf(x) == PathOf(y) ensures x == y {
      var i :| 0 <= i < |fs| && fs[i] == x;
      var j :| 0 <= j < |fs| && fs[j] == y;
      assert i == j;
    }
    SortExact(ByCodePoint, fs, gs, PathOf);
    SameElements(fs, gs);
    if CanonicalJson(fs) == CanonicalJson(gs) {
      FilesTextInjective(Sort(ByCodePoint, fs, PathOf), Sort(ByCodePoint, gs, PathOf));
    }
  }

  // ---------------------------------------------------------------- package references

  const SLASH: Unit := 0x2F

  function PackageRef(scope: Text, name: Text, digest: Text): Text {
    (((Ascii("skills/") + scope) + [SLASH] + name) + [SLASH] + digest) + Ascii(".zip")
  }

  lemma LastSegment(a: Text, b: Text, x: Text, y: Text)
    requires a + [SLASH] + x == b + [SLASH] + y && SLASH !in x && SLASH !in y
    ensures a == b && x == y
  {
    var s, t := a + [SLASH] + x, b + [SLASH] + y;
    if |x| < |y| { SlashInside(a, b, x, y); }
    if |y| < |x| { SlashInside(b, a, y, x); }
    Cancel(a + [SLASH], b + [SLASH], x, y);
    Cancel(a, b, [SLASH], [SLASH]);
  }

  lemma SlashInside(a: Text, b: Text, x: Text, y: Text)
    requires a + [SLASH] + x == b + [SLASH] + y && |x| < |y|
    ensures SLASH in y
  {
    var t := b + [SLASH] + y;
    assert t[|a|] == (a + [SLASH] + x)[|a|] == SLASH;
    assert t[|a|] == y[|a| - |b| - 1];
  }

  /** A reference tells scope, name and digest apart, since names and digests hold no
      slash: packages of different content or owner never share a reference. */
  lemma PackageRefInjective(scope: Text, name: Text, digest: Text, scope2: Text, name2: Text, digest2: Text)
    requires SLASH !in name && SLASH !in digest && SLASH !in name2 && SLASH !in digest2
    ensures PackageRef(scope, name, digest) == PackageRef(scope2, name2, digest2)
            <==> scope == scope2 && name == name2 && digest == digest2
  {
    hide Ascii;
    if PackageRef(scope, name, digest) == PackageRef(scope2, name2, digest2) {
      var zip, prefix := Ascii(".zip"), Ascii("skills/");
      var dir, dir2 := prefix + scope, prefix + scope2;
      var stem, stem2 := dir + [SLASH] + name, dir2 + [SLASH] + name2;
      var full, full2 := stem + [SLASH] + digest, stem2 + [SLASH] + digest2;
      assert |full| == |full2| by { assert |full + zip| == |full2 + zip|; }
      Cancel(full, full2, zip, zip);
      LastSegment(stem, stem2, digest, digest2);
      LastSegment(dir, dir2, name, name2);
      Cancel(prefix, prefix, scope, scope2);
    }
  }

  // ---------------------------------------------------------------- MCP server configs

  datatype Config = Config(transport: Text, url: Text, allowedTools: seq<Text>, secretRef: Option<Text>)

  function Itself(t: Text): Text { t }

  function Ascii(s: string): Text { seq(|s|, i requires 0 <= i < |s| => (s[i] as int) % 0x80) }

  function Strings(ts: seq<Text>): seq<Json> { seq(|ts|, i requires 0 <= i < |ts| => String(ts[i])) }

  function ConfigJson(c: Config): Json {
    Object([Member(Ascii("allowed_tools"), Array(Strings(Sort(ByCodePoint, c.allowedTools, Itself)))),
            Member(Ascii("secret_ref"), if c.secretRef.None? then Null else String(c.secretRef.value)),
            Member(Ascii("transport"), String(c.transport)),
            Member(Ascii("url"), String(c.url))])
  }

  function CanonicalConfig(c: Config): Text { Print(ConfigJson(c)) }

  lemma ConfigJsonValid(c: Config)
    ensures Valid(ConfigJson(c))
  {
    var ms := ConfigJson(c).members;
    assert ms[0].key[0] == 0x61 && ms[1].key[0] == 0x73 && ms[2].key[0] == 0x74 && ms[3].key[0] == 0x75;
    assert Valid(ms[0].value);
  }

  lemma StringsInjective(s: seq<Text>, t: seq<Text>)
    requires Strings(s) == Strings(t)
    ensures s == t
  {
    assert |s| == |Strings(s)| && |t| == |Strings(t)|;
    forall i | 0 <= i < |s|
      ensures s[i] == t[i]
    {
      assert Strings(s)[i] == String(s[i]) && Strings(t)[i] == String(t[i]);
    }
  }

  lemma MembersAgree(a: seq<Member>, b: seq<Member>)
    requires |a| == |b| && Object(a) == Object(b)
    ensures forall i :: 0 <= i < |a| ==> a[i].value == b[i].value
  {
  }

  /** Two configs have one fingerprint exactly when transport, url and secret
      reference agree and the allowed tools agree up to their order. */
  lemma CanonicalConfigExact(c: Config, d: Config)
    ensures CanonicalConfig(c) == CanonicalConfig(d)
            <==> c.transport == d.transport && c.url == d.url && c.secretRef == d.secretRef
                 && multiset(c.allowedTools) == multiset(d.allowedTools)
  {
    hide Print, Sort, Ascii;
    SortExact(ByCodePoint, c.allowedTools, d.allowedTools, Itself);
    ConfigJsonValid(c);
    ConfigJsonValid(d);
    PrintInjective(ConfigJson(c), ConfigJson(d));
    if ConfigJson(c) == ConfigJson(d) {
      MembersAgree(ConfigJson(c).members, ConfigJson(d).members);
      assert ConfigJson(c).members[0].value.items == ConfigJson(d).members[0].value.items;
      StringsInjective(Sort(ByCodePoint, c.allowedTools, Itself), Sort(ByCodePoint, d.allowedTools, Itself));
      assert ConfigJson(c).members[1].value == ConfigJson(d).members[1].value;
      assert ConfigJson(c).members[2].value == ConfigJson(d).members[2].value;
      assert ConfigJson(c).members[3].value == ConfigJson(d).members[3].value;
    }
  }
}
