/** The canonical texts letter by letter. What is printed through an accumulator is the
    plain joined form, which is the text Python's `json` module writes for the same
    files and `JSON.stringify` for the same config. */
module JsonForms {
  import opened Options
  import opened JsonText
  import opened Canonical

  // ---------------------------------------------------------------- code points and their order

  /** The code points of a string: written back in UTF-16 they give the string, and no
      surrogate pair is left apart. */
  ghost predicate Decodes(cps: seq<int>, s: Text) {
    && (forall i :: 0 <= i < |cps| ==> 0 <= cps[i] < 0x11_0000)
    && EncodeAll(cps) == s
    && forall i :: 0 <= i < |cps| - 1 ==> !(High(cps[i]) && Low(cps[i + 1]))
  }

  lemma {:induction false} CodePointsDecode(s: Text)
    ensures Decodes(CodePoints(s), s)
    ensures |s| > 0 ==> |CodePoints(s)| > 0
    ensures |s| > 0 && !PairAhead(s) ==> CodePoints(s)[0] == s[0]
    ensures PairAhead(s) ==> 0x1_0000 <= CodePoints(s)[0]
    decreases |s|
  {
    EncodeDecodes(s);
    if |s| > 0 {
      var rest := if PairAhead(s) then s[2..] else s[1..];
      CodePointsDecode(rest);
      if |rest| > 0 && !PairAhead(s) && PairAhead(rest) { assert !Low(CodePoints(rest)[0]); }
    }
  }

  /** The first difference decides; without one the shorter comes first. */
  ghost predicate FirstDifference(a: seq<int>, b: seq<int>, k: nat) {
    && k <= |a| && k <= |b| && a[..k] == b[..k]
    && (k == |a| || (k < |b| && a[k] < b[k]))
  }

  lemma {:induction false} LexIsFirstDifference(a: seq<int>, b: seq<int>)
    ensures LexLe(a, b) <==> exists k: nat :: FirstDifference(a, b, k)
    decreases |a|
  {
    if |a| == 0 {
      assert FirstDifference(a, b, 0);
    } else if |b| > 0 {
      LexIsFirstDifference(a[1..], b[1..]);
      if a[0] == b[0] && LexLe(a[1..], b[1..]) {
        var k: nat :| FirstDifference(a[1..], b[1..], k);
        assert a[..k + 1] == [a[0]] + a[1..][..k] && b[..k + 1] == [b[0]] + b[1..][..k];
        assert FirstDifference(a, b, k + 1);
      } else if a[0] < b[0] {
        assert FirstDifference(a, b, 0);
      }
      if k: nat :| FirstDifference(a, b, k) {
        if k > 0 {
          assert a[0] == a[..k][0] == b[..k][0] == b[0];
          assert a[1..][..k - 1] == a[..k][1..] && b[1..][..k - 1] == b[..k][1..];
          assert FirstDifference(a[1..], b[1..], k - 1);
        }
      }
    }
  }

  /** Python's order of strings: the first differing code point, upwards. */
  lemma CodePointOrder(s: Text, t: Text)
    ensures Le(ByCodePoint, s, t) <==> exists k: nat :: FirstDifference(CodePoints(s), CodePoints(t), k)
  {
    LexIsFirstDifference(CodePoints(s), CodePoints(t));
    assert Le(ByCodePoint, s, t) == LexLe(CodePoints(s), CodePoints(t));
  }

  // ---------------------------------------------------------------- strings

  predicate Control(cp: int) { cp < 0x20 || High(cp) || Low(cp) }

  function HexValue(t: Text): int
    decreases |t|
  {
    if |t| == 0 then 0 else HexValue(t[..|t| - 1]) * 16 + Unhex(t[|t| - 1])
  }

  predicate LowerHex(u: Unit) { 0x30 <= u <= 0x39 || 0x61 <= u <= 0x66 }

  /** Every escape: the two-letter ones of the JSON grammar, four lower-case hex digits
      for the other control characters and for lone surrogates, itself otherwise. */
  lemma EscapeTable(cp: int)
    requires 0 <= cp < 0x11_0000
    ensures Escape(0x22) == Ascii("\\\"") && Escape(0x5C) == Ascii("\\\\")
    ensures Escape(0x08) == Ascii("\\b") && Escape(0x09) == Ascii("\\t") && Escape(0x0A) == Ascii("\\n")
    ensures Escape(0x0C) == Ascii("\\f") && Escape(0x0D) == Ascii("\\r")
    ensures Control(cp) && cp !in {0x08, 0x09, 0x0A, 0x0C, 0x0D} ==>
              && |Escape(cp)| == 6 && Escape(cp)[..2] == Ascii("\\u")
              && (forall i :: 2 <= i < 6 ==> LowerHex(Escape(cp)[i])) && HexValue(Escape(cp)[2..]) == cp
    ensures !Control(cp) && cp != 0x22 && cp != 0x5C ==> EncodeAll([cp]) == Escape(cp)
  {
    if Control(cp) && cp !in {0x08, 0x09, 0x0A, 0x0C, 0x0D} {
      HexDigits(cp);
    } else {
      assert EncodeAll([cp]) == Encode(cp) + EncodeAll([]);
    }
  }

  lemma HexDigits(cp: int)
    requires 0 <= cp < 0x1_0000
    ensures var e := HexEscape(cp);
            && |e| == 6 && e[..2] == Ascii("\\u")
            && (forall i :: 2 <= i < 6 ==> LowerHex(e[i])) && HexValue(e[2..]) == cp
  {
    var e := HexEscape(cp);
    var d := e[2..];
    assert d[..3][..2] == d[..2] && d[..2][..1] == d[..1] && d[..1][..0] == [];
    assert HexValue(d[..1]) == Unhex(d[0]);
    assert HexValue(d[..2]) == Unhex(d[0]) * 16 + Unhex(d[1]);
    assert HexValue(d[..3]) == HexValue(d[..2]) * 16 + Unhex(d[2]);
    assert Unhex(d[0]) == cp / 16 / 16 / 16 && Unhex(d[1]) == cp / 16 / 16 % 16;
    assert Unhex(d[2]) == cp / 16 % 16 && Unhex(d[3]) == cp % 16;
  }

  function Escaped(cps: seq<int>): Text
    requires forall i :: 0 <= i < |cps| ==> 0 <= cps[i] < 0x11_0000
    decreases |cps|
  {
    if |cps| == 0 then [] else Escape(cps[0]) + Escaped(cps[1..])
  }

  /** A string between quotes, each code point escaped on its own. */
  function Quoted(s: Text): Text { Ascii("\"") + Escaped(CodePoints(s)) + Ascii("\"") }

  lemma {:induction false} EscapeToIs(cps: seq<int>, rest: Text)
    requires forall i :: 0 <= i < |cps| ==> 0 <= cps[i] < 0x11_0000
    ensures EscapeTo(cps, rest) == Escaped(cps) + (Ascii("\"") + rest)
    decreases |cps|
  {
    hide Escape;
    if |cps| > 0 {
      EscapeToIs(cps[1..], rest);
      assert Escape(cps[0]) + (Escaped(cps[1..]) + (Ascii("\"") + rest)) == Escaped(cps) + (Ascii("\"") + rest);
    } else {
      assert Ascii("\"") == [QUOTE];
    }
  }

  lemma QuoteToIs(s: Text, rest: Text)
    ensures QuoteTo(s, rest) == Quoted(s) + rest
  {
    hide CodePoints;
    EscapeToIs(CodePoints(s), rest);
    assert Ascii("\"") == [QUOTE];
    assert [QUOTE] + (Escaped(CodePoints(s)) + (Ascii("\"") + rest)) == Quoted(s) + rest;
  }

  // ---------------------------------------------------------------- values

  function Joined(separator: Text, parts: seq<Text>): Text
    decreases |parts|
  {
    if |parts| == 0 then [] else if |parts| == 1 then parts[0] else parts[0] + separator + Joined(separator, parts[1..])
  }

  /** The text of a value without spaces. */
  function Written(a: Json): Text
    decreases a
  {
    match a
    case Null => Ascii("null")
    case Infinite(_) => Ascii("null")
    case Bool(b) => if b then Ascii("true") else Ascii("false")
    case Number(t) => t
    case String(s) => Quoted(s)
    case Array(items) => Ascii("[") + Joined(Ascii(","), ItemsWritten(items)) + Ascii("]")
    case Object(ms) => Ascii("{") + Joined(Ascii(","), MembersWritten(ms)) + Ascii("}")
  }

  function ItemsWritten(items: seq<Json>): (ts: seq<Text>)
    ensures |ts| == |items| && forall i :: 0 <= i < |items| ==> ts[i] == Written(items[i])
    decreases items
  {
    seq(|items|, i requires 0 <= i < |items| => Written(items[i]))
  }

  function MembersWritten(ms: seq<Member>): (ts: seq<Text>)
    ensures |ts| == |ms|
    ensures forall i :: 0 <= i < |ms| ==> ts[i] == Quoted(ms[i].key) + Ascii(":") + Written(ms[i].value)
    decreases ms
  {
    seq(|ms|, i requires 0 <= i < |ms| => Quoted(ms[i].key) + Ascii(":") + Written(ms[i].value))
  }

  /** Parts printed one after the other, the first `n` separators before the last part. */
  lemma JoinedCons(separator: Text, parts: seq<Text>, tail: Text)
    requires |parts| > 0
    ensures Joined(separator, parts) + tail
            == parts[0] + ((if |parts| == 1 then [] else separator + Joined(separator, parts[1..])) + tail)
  {
  }

  lemma Words()
    ensures Ascii("null") == [0x6E, 0x75, 0x6C, 0x6C]
    ensures Ascii("true") == [0x74, 0x72, 0x75, 0x65] && Ascii("false") == [0x66, 0x61, 0x6C, 0x73, 0x65]
    ensures Ascii("[") == [0x5B] && Ascii("]") == [0x5D] && Ascii("{") == [0x7B] && Ascii("}") == [0x7D]
    ensures Ascii(",") == [COMMA] && Ascii(":") == [COLON]
  {
  }

  function MoreItems(items: seq<Json>): Text {
    if |items| == 0 then [] else Ascii(",") + Joined(Ascii(","), ItemsWritten(items))
  }

  function MoreMembers(ms: seq<Member>): Text {
    if |ms| == 0 then [] else Ascii(",") + Joined(Ascii(","), MembersWritten(ms))
  }

  lemma {:induction false} PrintToIs(a: Json, rest: Text)
    ensures PrintTo(a, rest) == Written(a) + rest
    decreases a, 1
  {
    hide Quoted, QuoteTo, ItemsTo, MembersTo, MemberTo, Joined, Ascii, ItemsWritten, MembersWritten;
    Words();
    match a
    case String(s) => QuoteToIs(s, rest);
    case Array(items) => ArrayIs(items, rest);
    case Object(ms) => ObjectIs(ms, rest);
    case _ =>
  }

  lemma {:induction false} ArrayIs(items: seq<Json>, rest: Text)
    ensures PrintTo(Array(items), rest) == Written(Array(items)) + rest
    decreases items, 1
  {
    hide ItemsTo, Ascii, ItemsWritten;
    Words();
    if |items| > 0 {
      FirstItemIs(items, rest);
      hide PrintTo, Joined;
      var inner := Joined(Ascii(","), ItemsWritten(items));
      assert [0x5B] + (inner + ([0x5D] + rest)) == ([0x5B] + inner + [0x5D]) + rest;
    }
  }

  lemma {:induction false} ObjectIs(ms: seq<Member>, rest: Text)
    ensures PrintTo(Object(ms), rest) == Written(Object(ms)) + rest
    decreases ms, 1
  {
    hide MembersTo, MemberTo, Ascii, MembersWritten;
    Words();
    if |ms| > 0 {
      FirstMemberIs(ms, rest);
      hide PrintTo, Joined;
      var inner := Joined(Ascii(","), MembersWritten(ms));
      assert [0x7B] + (inner + ([0x7D] + rest)) == ([0x7B] + inner + [0x7D]) + rest;
    }
  }

  lemma {:induction false} FirstItemIs(items: seq<Json>, rest: Text)
    requires |items| > 0
    ensures PrintTo(items[0], ItemsTo(items[1..], rest))
            == Joined(Ascii(","), ItemsWritten(items)) + ([0x5D] + rest)
    decreases items, 0
  {
    hide PrintTo, ItemsTo, Written, Joined, Ascii;
    PrintToIs(items[0], ItemsTo(items[1..], rest));
    MoreItemsAre(items[1..], rest);
    var parts := ItemsWritten(items);
    assert parts[1..] == ItemsWritten(items[1..]);
    JoinedCons(Ascii(","), parts, [0x5D] + rest);
  }

  lemma {:induction false} MoreItemsAre(items: seq<Json>, rest: Text)
    ensures ItemsTo(items, rest) == MoreItems(items) + ([0x5D] + rest)
    decreases items, 1
  {
    hide PrintTo, Joined, Ascii;
    Words();
    if |items| > 0 {
      FirstItemIs(items, rest);
      assert [COMMA] + (Joined(Ascii(","), ItemsWritten(items)) + ([0x5D] + rest))
          == MoreItems(items) + ([0x5D] + rest);
    }
  }

  lemma {:induction false} FirstMemberIs(ms: seq<Member>, rest: Text)
    requires |ms| > 0
    ensures MemberTo(ms[0], MembersTo(ms[1..], rest)) == Joined(Ascii(","), MembersWritten(ms)) + ([0x7D] + rest)
    decreases ms, 0
  {
    hide PrintTo, MembersTo, Written, Joined, Ascii, QuoteTo, Quoted;
    Words();
    var after := MembersTo(ms[1..], rest);
    PrintToIs(ms[0].value, after);
    QuoteToIs(ms[0].key, [COLON] + PrintTo(ms[0].value, after));
    MoreMembersAre(ms[1..], rest);
    var parts := MembersWritten(ms);
    assert parts[1..] == MembersWritten(ms[1..]);
    JoinedCons(Ascii(","), parts, [0x7D] + rest);
    assert Quoted(ms[0].key) + ([COLON] + (Written(ms[0].value) + after)) == parts[0] + after;
  }

  lemma {:induction false} MoreMembersAre(ms: seq<Member>, rest: Text)
    ensures MembersTo(ms, rest) == MoreMembers(ms) + ([0x7D] + rest)
    decreases ms, 1
  {
    hide PrintTo, Joined, Ascii, MemberTo;
    Words();
    if |ms| > 0 {
      FirstMemberIs(ms, rest);
      assert [COMMA] + (Joined(Ascii(","), MembersWritten(ms)) + ([0x7D] + rest)) == MoreMembers(ms) + ([0x7D] + rest);
    }
  }

  /** Printing through the accumulator writes the joined form, at every depth. */
  lemma PrintIsWritten(a: Json)
    ensures Print(a) == Written(a)
  {
    PrintToIs(a, []);
  }

  // ---------------------------------------------------------------- the two hashed texts

  /** The entries of a package as Python writes them: a space after each separator. */
  function FileParts(fs: seq<File>): (ts: seq<Text>)
    ensures |ts| == |fs|
    ensures forall i :: 0 <= i < |fs| ==> ts[i] == Quoted(fs[i].path) + Ascii(": ") + Quoted(fs[i].content)
  {
    seq(|fs|, i requires 0 <= i < |fs| => Quoted(fs[i].path) + Ascii(": ") + Quoted(fs[i].content))
  }

  lemma PartToIs(f: File, rest: Text)
    ensures PartTo(f, rest) == (Quoted(f.path) + Ascii(": ") + Quoted(f.content)) + rest
  {
    hide Quoted, QuoteTo;
    QuoteToIs(f.content, rest);
    QuoteToIs(f.path, [COLON, 0x20] + QuoteTo(f.content, rest));
    assert Ascii(": ") == [COLON, 0x20];
    assert Quoted(f.path) + ([COLON, 0x20] + (Quoted(f.content) + rest))
        == (Quoted(f.path) + [COLON, 0x20] + Quoted(f.content)) + rest;
  }

  lemma {:induction false} PartsToIs(fs: seq<File>)
    ensures PartsTo(fs) == (if |fs| == 0 then [] else Ascii(", ") + Joined(Ascii(", "), FileParts(fs))) + [0x7D]
    decreases |fs|
  {
    hide PartTo, Quoted;
    if |fs| > 0 {
      PartsToIs(fs[1..]);
      PartToIs(fs[0], PartsTo(fs[1..]));
      var parts := FileParts(fs);
      assert parts[1..] == FileParts(fs[1..]);
      JoinedCons(Ascii(", "), parts, [0x7D]);
      assert Ascii(", ") == [COMMA, 0x20];
    }
  }

  /** The hashed text of a package, letter by letter: its files in code-point order of
      their paths, ": " between a path and its content, ", " between two files. */
  lemma CanonicalJsonIs(fs: seq<File>)
    ensures CanonicalJson(fs)
            == Ascii("{") + Joined(Ascii(", "), FileParts(Sort(ByCodePoint, fs, PathOf))) + Ascii("}")
  {
    hide Sort, PartTo, Quoted;
    var gs := Sort(ByCodePoint, fs, PathOf);
    assert Ascii("{") == [0x7B] && Ascii("}") == [0x7D];
    if |gs| > 0 {
      PartToIs(gs[0], PartsTo(gs[1..]));
      PartsToIs(gs[1..]);
      var parts := FileParts(gs);
      assert parts[1..] == FileParts(gs[1..]);
      JoinedCons(Ascii(", "), parts, [0x7D]);
    }
  }

  predicate PlainText(s: Text) {
    forall i :: 0 <= i < |s| ==> 0x20 <= s[i] < 0x80 && s[i] != QUOTE && s[i] != BACKSLASH
  }

  lemma PlainUnit(u: Unit)
    requires 0x20 <= u < 0x80 && u != QUOTE && u != BACKSLASH
    ensures Escape(u) == [u] && !High(u)
  {
  }

  lemma {:induction false} PlainEscaped(s: Text)
    requires PlainText(s)
    ensures CodePoints(s) == s && Escaped(CodePoints(s)) == s
    decreases |s|
  {
    hide Escape, High, Low, Combine;
    if |s| > 0 {
      PlainUnit(s[0]);
      PlainEscaped(s[1..]);
      assert s == [s[0]] + s[1..];
    }
  }

  predicate PlainKey(key: string) { forall c :: c in key ==> c == '_' || 'a' <= c <= 'z' }

  lemma KeyQuoted(key: string)
    requires PlainKey(key)
    ensures Quoted(Ascii(key)) == Ascii("\"") + Ascii(key) + Ascii("\"")
  {
    forall i | 0 <= i < |key|
      ensures 0x5F <= Ascii(key)[i] < 0x7B
    {
      assert key[i] in key;
      assert 0x5F <= key[i] as int < 0x7B;
    }
    PlainEscaped(Ascii(key));
  }

  /** A member's name and the colon after it. */
  function Key(key: string): Text { Ascii("\"") + Ascii(key) + Ascii("\"") + Ascii(":") }

  lemma JoinedFour(separator: Text, parts: seq<Text>)
    requires |parts| == 4
    ensures Joined(separator, parts)
            == parts[0] + separator + (parts[1] + separator + (parts[2] + separator + parts[3]))
  {
    assert parts[1..][1..] == parts[2..] && parts[2..][1..] == parts[3..];
    assert Joined(separator, parts[3..]) == parts[3];
    assert Joined(separator, parts[2..]) == parts[2] + separator + parts[3];
    assert Joined(separator, parts[1..]) == parts[1] + separator + Joined(separator, parts[2..]);
  }

  function ToolsQuoted(tools: seq<Text>): (ts: seq<Text>)
    ensures |ts| == |tools|
  {
    seq(|tools|, i requires 0 <= i < |tools| => Quoted(tools[i]))
  }

  /** The fingerprinted text of a config: four members in this order, the tools by code
      point, no space anywhere, an absent secret reference as `null`. */
  lemma CanonicalConfigIs(c: Config)
    ensures var tools := Joined(Ascii(","), ToolsQuoted(Sort(ByCodePoint, c.allowedTools, Itself)));
            CanonicalConfig(c)
            == Ascii("{") + (Key("allowed_tools") + (Ascii("[") + tools + Ascii("]")) + Ascii(",")
                             + (Key("secret_ref")
                                + (if c.secretRef.None? then Ascii("null") else Quoted(c.secretRef.value)) + Ascii(",")
                                + (Key("transport") + Quoted(c.transport) + Ascii(",")
                                   + (Key("url") + Quoted(c.url))))) + Ascii("}")
  {
    hide Sort, Print, Quoted, Ascii, Joined;
    PrintIsWritten(ConfigJson(c));
    KeyQuoted("allowed_tools");
    KeyQuoted("secret_ref");
    KeyQuoted("transport");
    KeyQuoted("url");
    var ms := ConfigJson(c).members;
    JoinedFour(Ascii(","), MembersWritten(ms));
    var sorted := Sort(ByCodePoint, c.allowedTools, Itself);
    assert ItemsWritten(Strings(sorted)) == ToolsQuoted(sorted);
  }
}
