/**
 UTF-8, section 3 of RFC 3629, between UTF-16 text and bytes as Node's Buffer does it: what is not
 a Unicode scalar value or not valid UTF-8 becomes the replacement character.
 */
module Utf8 {
  import opened JsText

  const REPLACEMENT: Unit := 0xFFFD

  function EncodeUnit(u: Unit): seq<Byte> {
    if u < 0x80 then [u]
    else if u < 0x800 then [0xC0 + u / 64, 0x80 + u % 64]
    else [0xE0 + u / 4096, 0x80 + u / 64 % 64, 0x80 + u % 64]
  }

  function EncodePair(high: Unit, low: Unit): seq<Byte>
    requires High(high) && Low(low)
  {
    var c := 0x10000 + (high - 0xD800) * 1024 + (low - 0xDC00);
    [0xF0 + c / 262144, 0x80 + c / 4096 % 64, 0x80 + c / 64 % 64, 0x80 + c % 64]
  }

  function Encode(t: Text): seq<Byte> {
    if t == [] then []
    else if StartsPair(t) then EncodePair(t[0], t[1]) + Encode(t[2..])
    else (if High(t[0]) || Low(t[0]) then EncodeUnit(REPLACEMENT) else EncodeUnit(t[0])) + Encode(t[1..])
  }

  predicate Continues(bs: seq<Byte>, i: nat) {
    i < |bs| && 0x80 <= bs[i] < 0xC0
  }

  /** The second byte of a longer form; the bounds shut out overlong forms, surrogates and values past U+10FFFF. */
  predicate SecondFits(bs: seq<Byte>) {
    && Continues(bs, 1)
    && (bs[0] == 0xE0 ==> bs[1] >= 0xA0) && (bs[0] == 0xED ==> bs[1] < 0xA0)
    && (bs[0] == 0xF0 ==> bs[1] >= 0x90) && (bs[0] == 0xF4 ==> bs[1] < 0x90)
  }

  /** Six more bits. */
  function Join(c: int, bits: int): int {
    c * 64 + bits
  }

  function Decode(bs: seq<Byte>): Text {
    if bs == [] then []
    else if bs[0] < 0x80 then [bs[0]] + Decode(bs[1..])
    else if 0xC2 <= bs[0] < 0xE0 && Continues(bs, 1) then
      [Join(Join(0, bs[0] - 0xC0), bs[1] - 0x80)] + Decode(bs[2..])
    else if 0xE0 <= bs[0] < 0xF0 && SecondFits(bs) then
      if Continues(bs, 2)
      then [Join(Join(bs[0] - 0xE0, bs[1] - 0x80), bs[2] - 0x80)] + Decode(bs[3..])
      else [REPLACEMENT] + Decode(bs[2..])
    else if 0xF0 <= bs[0] < 0xF5 && SecondFits(bs) then
      if !Continues(bs, 2) then [REPLACEMENT] + Decode(bs[2..])
      else if !Continues(bs, 3) then [REPLACEMENT] + Decode(bs[3..])
      else
        var c := Join(Join(Join(bs[0] - 0xF0, bs[1] - 0x80), bs[2] - 0x80), bs[3] - 0x80) - 0x10000;
        [0xD800 + c / 1024, 0xDC00 + c % 1024] + Decode(bs[4..])
    else [REPLACEMENT] + Decode(bs[1..])
  }

  /** The table of section 3 of RFC 3629: lead byte, continuation bytes and value, in the shortest form. */
  lemma UnitForm(u: Unit)
    ensures var b := EncodeUnit(u);
      || (|b| == 1 && u < 0x80 && b[0] == u)
      || (|b| == 2 && 0x80 <= u < 0x800 && 0xC2 <= b[0] < 0xE0 && 0x80 <= b[1] < 0xC0
        && Join(b[0] - 0xC0, b[1] - 0x80) == u)
      || (|b| == 3 && 0x800 <= u && 0xE0 <= b[0] < 0xF0 && 0x80 <= b[1] < 0xC0 && 0x80 <= b[2] < 0xC0
          && Join(Join(b[0] - 0xE0, b[1] - 0x80), b[2] - 0x80) == u)
  {
    assert u / 64 / 64 == u / 4096;
  }

  /** A surrogate pair is written as the four bytes of the scalar value it stands for. */
  lemma PairForm(high: Unit, low: Unit)
    requires High(high) && Low(low)
    ensures var b, c := EncodePair(high, low), 0x10000 + (high - 0xD800) * 1024 + (low - 0xDC00);
      && |b| == 4 && 0xF0 <= b[0] < 0xF5 && (forall i :: 1 <= i < 4 ==> 0x80 <= b[i] < 0xC0)
      && Join(Join(Join(b[0] - 0xF0, b[1] - 0x80), b[2] - 0x80), b[3] - 0x80) == c < 0x110000
  {
    SixBits(0x10000 + (high - 0xD800) * 1024 + (low - 0xDC00));
  }

  lemma DecodeTwo(a: Byte, b: Byte, rest: seq<Byte>)
    requires 0xC2 <= a < 0xE0 && 0x80 <= b < 0xC0
    ensures Decode([a, b] + rest) == [Join(Join(0, a - 0xC0), b - 0x80)] + Decode(rest)
  {
    var bs := [a, b] + rest;
    assert bs[0] == a && bs[1] == b && bs[2..] == rest;
  }

  lemma DecodeThree(a: Byte, b: Byte, c: Byte, rest: seq<Byte>)
    requires 0xE0 <= a < 0xF0 && SecondFits([a, b]) && 0x80 <= c < 0xC0
    ensures Decode([a, b, c] + rest) == [Join(Join(a - 0xE0, b - 0x80), c - 0x80)] + Decode(rest)
  {
    var bs := [a, b, c] + rest;
    assert bs[0] == a && bs[1] == b && bs[2] == c && bs[3..] == rest;
  }

  lemma DecodeUnit(u: Unit, rest: seq<Byte>)
    requires !High(u) && !Low(u)
    ensures Decode(EncodeUnit(u) + rest) == [u] + Decode(rest)
  {
    if u < 0x80 {
      assert ([u] + rest)[1..] == rest;
    } else if u < 0x800 {
      DecodeTwo(0xC0 + u / 64, 0x80 + u % 64, rest);
    } else {
      assert u / 64 / 64 == u / 4096;
      DecodeThree(0xE0 + u / 4096, 0x80 + u / 64 % 64, 0x80 + u % 64, rest);
    }
  }

  lemma SixBits(c: int)
    requires 0 <= c < 0x110000
    ensures Join(Join(Join(c / 262144, c / 4096 % 64), c / 64 % 64), c % 64) == c
  {
    assert c / 64 / 64 == c / 4096 && c / 4096 / 64 == c / 262144;
  }

  lemma DecodePair(high: Unit, low: Unit, rest: seq<Byte>)
    requires High(high) && Low(low)
    ensures Decode(EncodePair(high, low) + rest) == [high, low] + Decode(rest)
  {
    var bs := EncodePair(high, low) + rest;
    var a, b := high - 0xD800, low - 0xDC00;
    var c := 0x10000 + a * 1024 + b;
    assert bs[4..] == rest && bs[..4] == EncodePair(high, low);
    assert bs[0] == 0xF0 + c / 262144 && bs[1] == 0x80 + c / 4096 % 64 && bs[2] == 0x80 + c / 64 % 64
      && bs[3] == 0x80 + c % 64;
    SixBits(c);
    assert (c - 0x10000) / 1024 == a && (c - 0x10000) % 1024 == b;
  }

  lemma {:induction false} RoundTrip(t: Text)
    requires WellFormed(t)
    ensures Decode(Encode(t)) == t
  {
    if t != [] {
      if StartsPair(t) {
        DecodePair(t[0], t[1], Encode(t[2..]));
        RoundTrip(t[2..]);
        assert t == [t[0], t[1]] + t[2..];
      } else {
        DecodeUnit(t[0], Encode(t[1..]));
        RoundTrip(t[1..]);
        assert t == [t[0]] + t[1..];
      }
    }
  }
}
