/** JavaScript strings, the code-point comparison, and JSON text as `JSON.stringify`
    writes it (section 7 of RFC 8259). A string is its sequence of UTF-16 units. */
module JsonText {

  type Unit = x: int | 0 <= x < 0x1_0000

  type Text = seq<Unit>

  const QUOTE: Unit := 0x22
  const COMMA: Unit := 0x2C
  const COLON: Unit := 0x3A
  const BACKSLASH: Unit := 0x5C

  predicate High(u: int) { 0xD800 <= u < 0xDC00 }

  predicate Low(u: int) { 0xDC00 <= u < 0xE000 }

  // ---------------------------------------------------------------- code points

  function Combine(high: Unit, low: Unit): int
    requires High(high) && Low(low)
  {
    0x1_0000 + (high - 0xD800) * 0x400 + (low - 0xDC00)
  }

  predicate PairAhead(s: Text) { |s| >= 2 && High(s[0]) && Low(s[1]) }

  /** `Array.from`: surrogate pairs combine, a lone surrogate stands for itself. */
  function CodePoints(s: Text): (cps: seq<int>)
    ensures forall i :: 0 <= i < |cps| ==> 0 <= cps[i] < 0x11_0000
    decreases |s|
  {
    if |s| == 0 then []
    else if PairAhead(s) then [Combine(s[0], s[1])] + CodePoints(s[2..])
    else [s[0]] + CodePoints(s[1..])
  }

  function Encode(cp: int): Text
    requires 0 <= cp < 0x11_0000
  {
    if cp < 0x1_0000 then [cp] else [0xD800 + (cp - 0x1_0000) / 0x400, 0xDC00 + (cp - 0x1_0000) % 0x400]
  }

  function EncodeAll(cps: seq<int>): Text
    requires forall i :: 0 <= i < |cps| ==> 0 <= cps[i] < 0x11_0000
    decreases |cps|
  {
    if |cps| == 0 then [] else Encode(cps[0]) + EncodeAll(cps[1..])
  }

  lemma PairEncodes(high: Unit, low: Unit)
    requires High(high) && Low(low)
    ensures Encode(Combine(high, low)) == [high, low]
  {
    var offset := low - 0xDC00;
    assert ((high - 0xD800) * 0x400 + offset) / 0x400 == high - 0xD800;
  }

  lemma {:induction false} EncodeDecodes(s: Text)
    ensures EncodeAll(CodePoints(s)) == s
    decreases |s|
  {
    hide Combine;
    if |s| > 0 {
      if PairAhead(s) {
        EncodeDecodes(s[2..]);
        PairEncodes(s[0], s[1]);
        assert s == [s[0], s[1]] + s[2..];
      } else {
        EncodeDecodes(s[1..]);
        assert s == [s[0]] + s[1..];
      }
    }
  }

  lemma CodePointsInjective(s: Text, t: Text)
    requires CodePoints(s) == CodePoints(t)
    ensures s == t
  {
    EncodeDecodes(s);
    EncodeDecodes(t);
  }

  // ---------------------------------------------------------------- orders

  /** Lexicographic order, a proper prefix first. */
  predicate LexLe(a: seq<int>, b: seq<int>)
    decreases |a|
  {
    |a| == 0 || (|b| > 0 && (a[0] < b[0] || (a[0] == b[0] && LexLe(a[1..], b[1..]))))
  }

  lemma {:induction false} LexTotal(a: seq<int>, b: seq<int>)
    ensures LexLe(a, b) || LexLe(b, a)
    ensures LexLe(a, b) && LexLe(b, a) <==> a == b
    decreases |a|
  {
    if |a| > 0 && |b| > 0 {
      LexTotal(a[1..], b[1..]);
      assert a == [a[0]] + a[1..] && b == [b[0]] + b[1..];
    }
  }

  lemma {:induction false} LexTransitive(a: seq<int>, b: seq<int>, c: seq<int>)
    requires LexLe(a, b) && LexLe(b, c)
    ensures LexLe(a, c)
    decreases |a|
  {
    if |a| > 0 && a[0] == b[0] == c[0] { LexTransitive(a[1..], b[1..], c[1..]); }
  }

  /** Order by code point, as Python sorts; order by UTF-16 unit, as `<` compares. */
  datatype Order = ByCodePoint | ByUnit

  function SortKey(o: Order, s: Text): seq<int> { if o.ByCodePoint? then CodePoints(s) else s }

  predicate Le(o: Order, s: Text, t: Text) { LexLe(SortKey(o, s), SortKey(o, t)) }

  /** Each is a total order on all strings, ill-formed ones included. */
  lemma LeTotalOrder(o: Order, s: Text, t: Text, u: Text)
    ensures Le(o, s, t) || Le(o, t, s)
    ensures Le(o, s, t) && Le(o, t, s) <==> s == t
    ensures Le(o, s, t) && Le(o, t, u) ==> Le(o, s, u)
  {
    LexTotal(SortKey(o, s), SortKey(o, t));
    if SortKey(o, s) == SortKey(o, t) && o.ByCodePoint? { CodePointsInjective(s, t); }
    if Le(o, s, t) && Le(o, t, u) { LexTransitive(SortKey(o, s), SortKey(o, t), SortKey(o, u)); }
  }

  /** The first differing code point decides, else the length. The sign of the result
      is the total order by code point; 0 means the same string. */
  method CodePointCompare(a: Text, b: Text) returns (diff: int)
    ensures diff <= 0 <==> Le(ByCodePoint, a, b)
    ensures diff >= 0 <==> Le(ByCodePoint, b, a)
    ensures diff == 0 <==> a == b
  {
    var x, y := CodePoints(a), CodePoints(b);
    LeTotalOrder(ByCodePoint, a, b, b);
    var len := if |x| < |y| then |x| else |y|;
    var i := 0;
    while i < len
      invariant i <= len && x[..i] == y[..i]
      invariant LexLe(x, y) == LexLe(x[i..], y[i..]) && LexLe(y, x) == LexLe(y[i..], x[i..])
    {
      diff := x[i] - y[i];
      if diff != 0 { return; }
      assert x[i..][1..] == x[i + 1..] && y[i..][1..] == y[i + 1..];
      i := i + 1;
    }
    diff := |x| - |y|;
  }

  // ---------------------------------------------------------------- quoted strings

  function Hex(n: int): Unit
    requires 0 <= n < 16
  {
    if n < 10 then 0x30 + n else 0x57 + n
  }

  function Unhex(u: Unit): int { if u < 0x40 then u - 0x30 else u - 0x57 }

  function HexEscape(cp: int): Text
    requires 0 <= cp < 0x1_0000
  {
    [BACKSLASH, 0x75, Hex(cp / 16 / 16 / 16), Hex(cp / 16 / 16 % 16), Hex(cp / 16 % 16), Hex(cp % 16)]
  }

  /** The letter of a two-unit escape, if the code point has one. */
  function ShortEscape(cp: int): int {
    if cp == QUOTE || cp == BACKSLASH then cp
    else if cp == 8 then 0x62 else if cp == 9 then 0x74 else if cp == 10 then 0x6E
    else if cp == 12 then 0x66 else if cp == 13 then 0x72 else -1
  }

  function Escape(cp: int): (e: Text)
    requires 0 <= cp < 0x11_0000
    ensures |e| > 0 && e[0] != QUOTE
  {
    if ShortEscape(cp) >= 0 then [BACKSLASH, ShortEscape(cp)]
    else if cp < 0x20 || High(cp) || Low(cp) then HexEscape(cp)
    else Encode(cp)
  }

  /** The rest of a quoted string, its closing quote, and what follows it. */
  function EscapeTo(cps: seq<int>, rest: Text): (t: Text)
    requires forall i :: 0 <= i < |cps| ==> 0 <= cps[i] < 0x11_0000
    ensures |t| > 0 && (t[0] == QUOTE <==> |cps| == 0)
    decreases |cps|
  {
    if |cps| == 0 then [QUOTE] + rest else Escape(cps[0]) + EscapeTo(cps[1..], rest)
  }

  /** A quoted string and what follows it. */
  function QuoteTo(s: Text, rest: Text): (t: Text)
    ensures |t| > 0 && t[0] == QUOTE
  {
    [QUOTE] + EscapeTo(CodePoints(s), rest)
  }

  /** Reading one escaped code point back. */
  function Unescape(t: Text): int {
    if |t| == 0 then -1
    else if t[0] == BACKSLASH then
      if |t| == 1 then -1
      else if t[1] == 0x75 then
        if |t| < 6 then -1 else ((Unhex(t[2]) * 16 + Unhex(t[3])) * 16 + Unhex(t[4])) * 16 + Unhex(t[5])
      else if t[1] == 0x62 then 8 else if t[1] == 0x74 then 9 else if t[1] == 0x6E then 10
      else if t[1] == 0x66 then 12 else if t[1] == 0x72 then 13 else t[1]
    else if PairAhead(t) then Combine(t[0], t[1])
    else t[0]
  }

  lemma HexReads(cp: int, rest: Text)
    requires 0 <= cp < 0x1_0000
    ensures Unescape(HexEscape(cp) + rest) == cp
  {
    var t := HexEscape(cp) + rest;
    assert t[0] == BACKSLASH && t[1] == 0x75;
    assert t[2] == Hex(cp / 16 / 16 / 16) && t[3] == Hex(cp / 16 / 16 % 16) && t[4] == Hex(cp / 16 % 16)
        && t[5] == Hex(cp % 16);
  }

  lemma EscapeReads(cp: int, rest: Text)
    requires 0 <= cp < 0x11_0000
    ensures Unescape(Escape(cp) + rest) == cp
  {
    if ShortEscape(cp) < 0 {
      if cp < 0x20 || High(cp) || Low(cp) {
        HexReads(cp, rest);
      } else {
        var t := Encode(cp) + rest;
        assert t[0] == Encode(cp)[0];
        assert cp >= 0x1_0000 ==> t[1] == Encode(cp)[1];
      }
    }
  }

  lemma Cancel(s: Text, t: Text, x: Text, y: Text)
    requires s + x == t + y && |s| == |t|
    ensures s == t && x == y
  {
    assert s == (s + x)[..|s|] && t == (t + y)[..|s|];
    assert x == (s + x)[|s|..] && y == (t + y)[|s|..];
  }

  /** Quoted strings are self-delimiting: where one ends, and which string it is,
      does not depend on what follows. */
  lemma {:induction false} EscapeSelfDelimiting(a: seq<int>, b: seq<int>, x: Text, y: Text)
    requires forall i :: 0 <= i < |a| ==> 0 <= a[i] < 0x11_0000
    requires forall i :: 0 <= i < |b| ==> 0 <= b[i] < 0x11_0000
    requires EscapeTo(a, x) == EscapeTo(b, y)
    ensures a == b && x == y
    decreases |a|
  {
    hide Unescape, Escape, HexEscape, Encode;
    if |a| > 0 {
      var u, v := EscapeTo(a[1..], x), EscapeTo(b[1..], y);
      EscapeReads(a[0], u);
      EscapeReads(b[0], v);
      Cancel(Escape(a[0]), Escape(b[0]), u, v);
      EscapeSelfDelimiting(a[1..], b[1..], x, y);
      assert a == [a[0]] + a[1..] && b == [b[0]] + b[1..];
    } else {
      Cancel([QUOTE], [QUOTE], x, y);
    }
  }

  lemma QuoteSelfDelimiting(s: Text, t: Text, x: Text, y: Text)
    requires QuoteTo(s, x) == QuoteTo(t, y)
    ensures s == t && x == y
  {
    hide EscapeTo, CodePoints;
    Cancel([QUOTE], [QUOTE], EscapeTo(CodePoints(s), x), EscapeTo(CodePoints(t), y));
    EscapeSelfDelimiting(CodePoints(s), CodePoints(t), x, y);
    CodePointsInjective(s, t);
  }

  // ---------------------------------------------------------------- JSON values

  /** A number is the decimal text JavaScript prints for it; one too large to be read
      as a finite number is infinite. Object members keep their property order. */
  datatype Json =
    | Null
    | Bool(b: bool)
    | Number(literal: Text)
    | Infinite(negative: bool)
    | String(text: Text)
    | Array(items: seq<Json>)
    | Object(members: seq<Member>)

  datatype Member = Member(key: Text, value: Json)

  predicate Numeric(u: Unit) { 0x30 <= u <= 0x39 || u == 0x2B || u == 0x2D || u == 0x2E || u == 0x65 }

  predicate ValidNumber(t: Text) {
    |t| > 0 && (0x30 <= t[0] <= 0x39 || t[0] == 0x2D) && forall i :: 0 <= i < |t| ==> Numeric(t[i])
  }

  predicate DistinctKeys(ms: seq<Member>) { forall i, j :: 0 <= i < j < |ms| ==> ms[i].key != ms[j].key }

  /** A value JSON has a text for. */
  predicate Valid(a: Json) {
    match a
    case Infinite(_) => false
    case Number(t) => ValidNumber(t)
    case Array(items) => forall i :: 0 <= i < |items| ==> Valid(items[i])
    case Object(ms) => DistinctKeys(ms) && forall i :: 0 <= i < |ms| ==> Valid(ms[i].value)
    case _ => true
  }

  /** The text of a value, followed by `rest`. An infinite number prints as `null`. */
  function PrintTo(a: Json, rest: Text): (t: Text)
    decreases a
  {
    match a
    case Null => [0x6E, 0x75, 0x6C, 0x6C] + rest
    case Infinite(_) => [0x6E, 0x75, 0x6C, 0x6C] + rest
    case Bool(b) => (if b then [0x74, 0x72, 0x75, 0x65] else [0x66, 0x61, 0x6C, 0x73, 0x65]) + rest
    case Number(t) => t + rest
    case String(s) => QuoteTo(s, rest)
    case Array(items) => [0x5B] + if |items| == 0 then [0x5D] + rest else PrintTo(items[0], ItemsTo(items[1..], rest))
    case Object(ms) => [0x7B] + if |ms| == 0 then [0x7D] + rest else MemberTo(ms[0], MembersTo(ms[1..], rest))
  }

  function ItemsTo(items: seq<Json>, rest: Text): (t: Text)
    ensures |t| > 0 && t[0] == if |items| == 0 then 0x5D else COMMA
    decreases items
  {
    if |items| == 0 then [0x5D] + rest else [COMMA] + PrintTo(items[0], ItemsTo(items[1..], rest))
  }

  function MemberTo(m: Member, rest: Text): (t: Text)
    ensures |t| > 0 && t[0] == QUOTE
    decreases m
  {
    QuoteTo(m.key, [COLON] + PrintTo(m.value, rest))
  }

  function MembersTo(ms: seq<Member>, rest: Text): (t: Text)
    ensures |t| > 0 && t[0] == if |ms| == 0 then 0x7D else COMMA
    decreases ms
  {
    if |ms| == 0 then [0x7D] + rest else [COMMA] + MemberTo(ms[0], MembersTo(ms[1..], rest))
  }

  function Print(a: Json): Text { PrintTo(a, []) }

  predicate Delimited(x: Text) { |x| == 0 || !Numeric(x[0]) }

  lemma NextUnit(s: Text, t: Text, x: Text, y: Text)
    requires |s| < |t| && s + x == t + y
    ensures |x| > 0 && x[0] == t[|s|]
  {
    assert (s + x)[|s|] == (t + y)[|s|];
  }

  lemma NumbersEndAtDelimiters(s: Text, t: Text, x: Text, y: Text)
    requires forall i :: 0 <= i < |s| ==> Numeric(s[i])
    requires forall i :: 0 <= i < |t| ==> Numeric(t[i])
    requires Delimited(x) && Delimited(y) && s + x == t + y
    ensures s == t && x == y
  {
    if |s| < |t| {
      NextUnit(s, t, x, y);
    } else if |t| < |s| {
      NextUnit(t, s, y, x);
    } else {
      Cancel(s, t, x, y);
    }
  }

  /** The first unit of a value tells its kind. */
  function Kind(u: Unit): int {
    if u == 0x6E then 0 else if u == 0x74 then 1 else if u == 0x66 then 2 else if u == QUOTE then 3
    else if u == 0x5B then 4 else if u == 0x7B then 5 else if u == 0x5D then 6 else 7
  }

  lemma KindOf(a: Json, x: Text)
    requires Valid(a)
    ensures |PrintTo(a, x)| > 0
    ensures Kind(PrintTo(a, x)[0])
            == match a case Null => 0 case Infinite(_) => 0 case Bool(b) => if b then 1 else 2 case Number(_) => 7
                       case String(_) => 3 case Array(_) => 4 case Object(_) => 5
  {
    hide QuoteTo, ItemsTo, MemberTo;
  }

  predicate ValidItems(items: seq<Json>) { forall k :: 0 <= k < |items| ==> Valid(items[k]) }

  predicate ValidMembers(ms: seq<Member>) { forall k :: 0 <= k < |ms| ==> Valid(ms[k].value) }

  /** JSON text is self-delimiting: which value it starts with does not depend on what
      follows, as long as no number runs on. */
  lemma {:induction false} PrintSelfDelimiting(a: Json, b: Json, x: Text, y: Text)
    requires Valid(a) && Valid(b) && Delimited(x) && Delimited(y)
    requires PrintTo(a, x) == PrintTo(b, y)
    ensures a == b && x == y
    decreases a, 1
  {
    hide QuoteTo, ItemsTo, MemberTo, MembersTo;
    KindOf(a, x);
    KindOf(b, y);
    match a
    case Infinite(_) =>
    case Null => Cancel([0x6E, 0x75, 0x6C, 0x6C], [0x6E, 0x75, 0x6C, 0x6C], x, y);
    case Bool(c) =>
      var word: Text := if c then [0x74, 0x72, 0x75, 0x65] else [0x66, 0x61, 0x6C, 0x73, 0x65];
      Cancel(word, word, x, y);
    case Number(s) => NumbersEndAtDelimiters(s, b.literal, x, y);
    case String(s) => QuoteSelfDelimiting(s, b.text, x, y);
    case Array(i) => ArraysSelfDelimiting(i, b.items, x, y);
    case Object(i) => ObjectsSelfDelimiting(i, b.members, x, y);
  }

  lemma {:induction false} ArraysSelfDelimiting(i: seq<Json>, j: seq<Json>, x: Text, y: Text)
    requires ValidItems(i) && ValidItems(j) && PrintTo(Array(i), x) == PrintTo(Array(j), y)
    ensures i == j && x == y
    decreases i, 1
  {
    hide QuoteTo, ItemsTo, MemberTo, MembersTo, Valid;
    var s := if |i| == 0 then [0x5D] + x else PrintTo(i[0], ItemsTo(i[1..], x));
    var t := if |j| == 0 then [0x5D] + y else PrintTo(j[0], ItemsTo(j[1..], y));
    Cancel([0x5B], [0x5B], s, t);
    if |i| > 0 { KindOf(i[0], ItemsTo(i[1..], x)); }
    if |j| > 0 { KindOf(j[0], ItemsTo(j[1..], y)); }
    if |i| > 0 {
      FirstItem(i, j, x, y);
    } else {
      Cancel([0x5D], [0x5D], x, y);
    }
  }

  lemma {:induction false} FirstItem(i: seq<Json>, j: seq<Json>, x: Text, y: Text)
    requires |i| > 0 && |j| > 0 && ValidItems(i) && ValidItems(j)
    requires PrintTo(i[0], ItemsTo(i[1..], x)) == PrintTo(j[0], ItemsTo(j[1..], y))
    ensures i == j && x == y
    decreases i, 0
  {
    hide PrintTo, ItemsTo, Valid;
    PrintSelfDelimiting(i[0], j[0], ItemsTo(i[1..], x), ItemsTo(j[1..], y));
    ItemsSelfDelimiting(i[1..], j[1..], x, y);
    assert i == [i[0]] + i[1..] && j == [j[0]] + j[1..];
  }

  lemma {:induction false} ItemsSelfDelimiting(i: seq<Json>, j: seq<Json>, x: Text, y: Text)
    requires ValidItems(i) && ValidItems(j) && ItemsTo(i, x) == ItemsTo(j, y)
    ensures i == j && x == y
    decreases i, 1
  {
    hide PrintTo, Valid;
    if |i| > 0 {
      Cancel([COMMA], [COMMA], PrintTo(i[0], ItemsTo(i[1..], x)), PrintTo(j[0], ItemsTo(j[1..], y)));
      FirstItem(i, j, x, y);
    } else {
      Cancel([0x5D], [0x5D], x, y);
    }
  }

  lemma {:induction false} ObjectsSelfDelimiting(i: seq<Member>, j: seq<Member>, x: Text, y: Text)
    requires ValidMembers(i) && ValidMembers(j) && PrintTo(Object(i), x) == PrintTo(Object(j), y)
    ensures i == j && x == y
    decreases i, 1
  {
    hide QuoteTo, ItemsTo, MemberTo, MembersTo, Valid;
    var s := if |i| == 0 then [0x7D] + x else MemberTo(i[0], MembersTo(i[1..], x));
    var t := if |j| == 0 then [0x7D] + y else MemberTo(j[0], MembersTo(j[1..], y));
    Cancel([0x7B], [0x7B], s, t);
    if |i| > 0 {
      FirstMember(i, j, x, y);
    } else {
      Cancel([0x7D], [0x7D], x, y);
    }
  }

  lemma {:induction false} FirstMember(i: seq<Member>, j: seq<Member>, x: Text, y: Text)
    requires |i| > 0 && |j| > 0 && ValidMembers(i) && ValidMembers(j)
    requires MemberTo(i[0], MembersTo(i[1..], x)) == MemberTo(j[0], MembersTo(j[1..], y))
    ensures i == j && x == y
    decreases i, 0
  {
    hide PrintTo, QuoteTo, MembersTo, Valid;
    var u, v := MembersTo(i[1..], x), MembersTo(j[1..], y);
    QuoteSelfDelimiting(i[0].key, j[0].key, [COLON] + PrintTo(i[0].value, u), [COLON] + PrintTo(j[0].value, v));
    Cancel([COLON], [COLON], PrintTo(i[0].value, u), PrintTo(j[0].value, v));
    PrintSelfDelimiting(i[0].value, j[0].value, u, v);
    MembersSelfDelimiting(i[1..], j[1..], x, y);
    assert i == [i[0]] + i[1..] && j == [j[0]] + j[1..];
  }

  lemma {:induction false} MembersSelfDelimiting(i: seq<Member>, j: seq<Member>, x: Text, y: Text)
    requires ValidMembers(i) && ValidMembers(j) && MembersTo(i, x) == MembersTo(j, y)
    ensures i == j && x == y
    decreases i, 1
  {
    hide PrintTo, MemberTo, Valid;
    if |i| > 0 {
      Cancel([COMMA], [COMMA], MemberTo(i[0], MembersTo(i[1..], x)), MemberTo(j[0], MembersTo(j[1..], y)));
      FirstMember(i, j, x, y);
    } else {
      Cancel([0x7D], [0x7D], x, y);
    }
  }

  /** Two values print alike only when they are the same value. */
  lemma PrintInjective(a: Json, b: Json)
    requires Valid(a) && Valid(b)
    ensures Print(a) == Print(b) <==> a == b
  {
    hide PrintTo;
    if Print(a) == Print(b) { PrintSelfDelimiting(a, b, [], []); }
  }
}
