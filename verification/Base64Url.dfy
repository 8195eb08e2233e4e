/** base64url without padding (section 5 of RFC 4648), and the tolerant decoder that
    reads it back. */
module Base64Url {

  type Byte = x: int | 0 <= x < 256

  type Sextet = x: int | 0 <= x < 64

  function CharOf(s: Sextet): char {
    if s < 26 then (65 + s) as char
    else if s < 52 then (97 + s - 26) as char
    else if s < 62 then (48 + s - 52) as char
    else if s == 62 then '-' else '_'
  }

  /** -1 for a character outside both base64 alphabets, which the decoder skips. */
  function SextetOf(c: char): int {
    if 'A' <= c <= 'Z' then c as int - 65
    else if 'a' <= c <= 'z' then c as int - 97 + 26
    else if '0' <= c <= '9' then c as int - 48 + 52
    else if c == '-' || c == '+' then 62
    else if c == '_' || c == '/' then 63
    else -1
  }

  function First(a: Byte): Sextet { a / 4 }

  function Second(a: Byte, b: Byte): Sextet { a % 4 * 16 + b / 16 }

  function Third(b: Byte, c: Byte): Sextet { b % 16 * 4 + c / 64 }

  function Fourth(c: Byte): Sextet { c % 64 }

  /** Three bytes to four sextets; the tail is padded with zero bits. */
  function Sextets(bs: seq<Byte>): seq<Sextet>
    decreases |bs|
  {
    if |bs| == 0 then []
    else if |bs| == 1 then [First(bs[0]), Second(bs[0], 0)]
    else if |bs| == 2 then [First(bs[0]), Second(bs[0], bs[1]), Third(bs[1], 0)]
    else [First(bs[0]), Second(bs[0], bs[1]), Third(bs[1], bs[2]), Fourth(bs[2])] + Sextets(bs[3..])
  }

  function Byte0(a: int, b: int): int { a * 4 + b / 16 }

  function Byte1(b: int, c: int): int { b % 16 * 16 + c / 4 }

  function Byte2(c: int, d: int): int { c % 4 * 64 + d }

  function Bytes(ss: seq<Sextet>): seq<Byte>
    decreases |ss|
  {
    if |ss| < 2 then []
    else if |ss| == 2 then [Byte0(ss[0], ss[1])]
    else if |ss| == 3 then [Byte0(ss[0], ss[1]), Byte1(ss[1], ss[2])]
    else [Byte0(ss[0], ss[1]), Byte1(ss[1], ss[2]), Byte2(ss[2], ss[3])] + Bytes(ss[4..])
  }

  function Encode(bs: seq<Byte>): string {
    var ss := Sextets(bs);
    seq(|ss|, i requires 0 <= i < |ss| => CharOf(ss[i]))
  }

  function Read(raw: string): seq<Sextet>
    decreases |raw|
  {
    if |raw| == 0 then []
    else if SextetOf(raw[0]) < 0 then Read(raw[1..])
    else [SextetOf(raw[0])] + Read(raw[1..])
  }

  function Decode(raw: string): seq<Byte> { Bytes(Read(raw)) }

  lemma GroupReads(a: Byte, b: Byte, c: Byte)
    ensures Byte0(First(a), Second(a, b)) == a && Byte1(Second(a, b), Third(b, c)) == b
            && Byte2(Third(b, c), Fourth(c)) == c
  {
  }

  lemma {:induction false} BytesOfSextets(bs: seq<Byte>)
    ensures Bytes(Sextets(bs)) == bs
    decreases |bs|
  {
    hide First, Second, Third, Fourth, Byte0, Byte1, Byte2;
    if |bs| > 0 { GroupReads(bs[0], if |bs| > 1 then bs[1] else 0, if |bs| > 2 then bs[2] else 0); }
    if |bs| >= 3 {
      BytesOfSextets(bs[3..]);
      var ss := Sextets(bs);
      assert ss[4..] == Sextets(bs[3..]);
      assert bs == [bs[0], bs[1], bs[2]] + bs[3..];
    }
  }

  lemma {:induction false} ReadOfChars(ss: seq<Sextet>)
    ensures Read(seq(|ss|, i requires 0 <= i < |ss| => CharOf(ss[i]))) == ss
    decreases |ss|
  {
    if |ss| > 0 {
      var raw := seq(|ss|, i requires 0 <= i < |ss| => CharOf(ss[i]));
      assert raw[1..] == seq(|ss[1..]|, i requires 0 <= i < |ss[1..]| => CharOf(ss[1..][i]));
      assert SextetOf(CharOf(ss[0])) == ss[0];
      ReadOfChars(ss[1..]);
      assert ss == [ss[0]] + ss[1..];
    }
  }

  /** Decoding undoes encoding, for byte strings of every length. */
  lemma RoundTrip(bs: seq<Byte>)
    ensures Decode(Encode(bs)) == bs
  {
    ReadOfChars(Sextets(bs));
    BytesOfSextets(bs);
  }

  /** The alphabet of the standard: capitals, small letters, digits, then `-` and `_`. */
  lemma AlphabetIs(s: Sextet)
    ensures CharOf(0) == 'A' && CharOf(25) == 'Z' && CharOf(26) == 'a' && CharOf(51) == 'z'
    ensures CharOf(52) == '0' && CharOf(61) == '9' && CharOf(62) == '-' && CharOf(63) == '_'
    ensures s !in {25, 51, 61, 62, 63} ==> CharOf(s + 1) == CharOf(s) + (1 as char)
  {
  }

  function ValueOf(ss: seq<int>, base: int): int
    decreases |ss|
  {
    if |ss| == 0 then 0 else ValueOf(ss[..|ss| - 1], base) * base + ss[|ss| - 1]
  }

  /** Three bytes become four letters, of a tail one byte two and two bytes three, with
      no padding letter. */
  lemma EncodeIsBase64(bs: seq<Byte>)
    ensures |Encode(bs)| == (4 * |bs| + 2) / 3
    ensures forall i :: 0 <= i < |Encode(bs)| ==> Encode(bs)[i] == CharOf(Sextets(bs)[i])
    ensures |bs| >= 3 ==> Encode(bs) == Encode(bs[..3]) + Encode(bs[3..])
  {
    hide Sextets, CharOf;
    SextetCount(bs);
    if |bs| >= 3 {
      GroupOfThree(bs);
      LettersAppend(bs, bs[..3], bs[3..]);
    }
  }

  lemma LettersAppend(bs: seq<Byte>, x: seq<Byte>, y: seq<Byte>)
    requires Sextets(bs) == Sextets(x) + Sextets(y)
    ensures Encode(bs) == Encode(x) + Encode(y)
  {
    hide Sextets, CharOf;
  }

  lemma GroupOfThree(bs: seq<Byte>)
    requires |bs| >= 3
    ensures Sextets(bs) == Sextets(bs[..3]) + Sextets(bs[3..])
  {
    hide First, Second, Third, Fourth;
    var x := bs[..3];
    OneGroup(x);
    assert x[0] == bs[0] && x[1] == bs[1] && x[2] == bs[2];
  }

  lemma OneGroup(x: seq<Byte>)
    requires |x| == 3
    ensures Sextets(x) == [First(x[0]), Second(x[0], x[1]), Third(x[1], x[2]), Fourth(x[2])]
  {
    hide First, Second, Third, Fourth;
    assert x[3..] == [];
  }

  /** The letters of a group write the number that its bytes are, with zero bits added at
      the end of a tail. */
  lemma GroupKeepsItsValue(bs: seq<Byte>)
    requires 1 <= |bs| <= 3
    ensures ValueOf(Sextets(bs), 64) == ValueOf(bs, 256) * (if |bs| == 1 then 16 else if |bs| == 2 then 4 else 1)
  {
    hide ValueOf;
    SmallValues(bs, 256);
    SmallValues(Sextets(bs), 64);
    if |bs| == 3 { OneGroup(bs); }
  }

  lemma SmallValues(ss: seq<int>, base: int)
    ensures |ss| == 1 ==> ValueOf(ss, base) == ss[0]
    ensures |ss| == 2 ==> ValueOf(ss, base) == ss[0] * base + ss[1]
    ensures |ss| == 3 ==> ValueOf(ss, base) == (ss[0] * base + ss[1]) * base + ss[2]
    ensures |ss| == 4 ==> ValueOf(ss, base) == ((ss[0] * base + ss[1]) * base + ss[2]) * base + ss[3]
  {
    if 1 <= |ss| <= 4 {
      assert ValueOf(ss[..0], base) == 0;
      assert ss[..1][..0] == ss[..0];
      if |ss| >= 2 { assert ss[..2][..1] == ss[..1]; }
      if |ss| >= 3 { assert ss[..3][..2] == ss[..2]; }
      if |ss| >= 4 { assert ss[..4][..3] == ss[..3]; }
      assert ss[..|ss|] == ss;
    }
  }

  lemma {:induction false} SextetCount(bs: seq<Byte>)
    ensures |Sextets(bs)| == (4 * |bs| + 2) / 3
    decreases |bs|
  {
    if |bs| >= 3 { SextetCount(bs[3..]); }
  }
}
