/** Base64 with padding, section 4 of RFC 4648, and the forgiving decoder of Node's Buffer. */
module Base64 {
  import opened JsText
  import opened Prelude

  type Sextet = n: nat | n < 64

  const PAD: Unit := 61

  function Digit(n: Sextet): Unit {
    if n < 26 then 65 + n else if n < 52 then 71 + n else if n < 62 then n - 4 else if n == 62 then 43 else 47
  }

  /** The value of a digit; the URL-safe `-` and `_` count as well. */
  function Value(u: Unit): Option<Sextet> {
    if 65 <= u <= 90 then Some(u - 65)
    else if 97 <= u <= 122 then Some(u - 71)
    else if 48 <= u <= 57 then Some(u + 4)
    else if u == 43 || u == 45 then Some(62)
    else if u == 47 || u == 95 then Some(63)
    else None
  }

  function Encode(bs: seq<Byte>): Text {
    if |bs| == 0 then []
    else if |bs| == 1 then [Digit(bs[0] / 4), Digit(bs[0] % 4 * 16), PAD, PAD]
    else if |bs| == 2 then [Digit(bs[0] / 4), Digit(bs[0] % 4 * 16 + bs[1] / 16), Digit(bs[1] % 16 * 4), PAD]
    else Group(bs[0], bs[1], bs[2]) + Encode(bs[3..])
  }

  /** Three bytes as four digits. */
  function Group(x: Byte, y: Byte, z: Byte): Text {
    [Digit(x / 4), Digit(x % 4 * 16 + y / 16), Digit(y % 16 * 4 + z / 64), Digit(z % 64)]
  }

  /** Characters that are no digits are skipped; padding ends the input. */
  function Digits(t: Text): seq<Sextet> {
    if t == [] || t[0] == PAD then []
    else if Value(t[0]).Some? then [Value(t[0]).value] + Digits(t[1..])
    else Digits(t[1..])
  }

  function Byte1(a: int, b: int): Byte
    requires 0 <= a < 64 && 0 <= b < 64
  {
    a * 4 + b / 16
  }

  function Byte2(b: int, c: int): Byte
    requires 0 <= b < 64 && 0 <= c < 64
  {
    b % 16 * 16 + c / 4
  }

  function Byte3(c: int, d: int): Byte
    requires 0 <= c < 64 && 0 <= d < 64
  {
    c % 4 * 64 + d
  }

  function Bytes(ds: seq<Sextet>): seq<Byte> {
    if |ds| < 2 then []
    else if |ds| == 2 then [Byte1(ds[0], ds[1])]
    else if |ds| == 3 then [Byte1(ds[0], ds[1]), Byte2(ds[1], ds[2])]
    else [Byte1(ds[0], ds[1]), Byte2(ds[1], ds[2]), Byte3(ds[2], ds[3])] + Bytes(ds[4..])
  }

  function Decode(t: Text): seq<Byte> {
    Bytes(Digits(t))
  }

  lemma DigitsOf(n: Sextet, t: Text)
    ensures Digits([Digit(n)] + t) == [n] + Digits(t)
  {
    assert ([Digit(n)] + t)[1..] == t;
  }

  lemma FourDigits(a: Sextet, b: Sextet, c: Sextet, d: Sextet, t: Text)
    ensures Digits([Digit(a), Digit(b), Digit(c), Digit(d)] + t) == [a, b, c, d] + Digits(t)
  {
    var all := [Digit(a), Digit(b), Digit(c), Digit(d)] + t;
    assert all == [Digit(a)] + ([Digit(b)] + ([Digit(c)] + ([Digit(d)] + t)));
    DigitsOf(d, t);
    DigitsOf(c, [Digit(d)] + t);
    DigitsOf(b, [Digit(c)] + ([Digit(d)] + t));
    DigitsOf(a, [Digit(b)] + ([Digit(c)] + ([Digit(d)] + t)));
  }

  lemma Regroup(x: Byte, y: Byte, z: Byte)
    ensures Byte1(x / 4, x % 4 * 16 + y / 16) == x
    ensures Byte2(x % 4 * 16 + y / 16, y % 16 * 4 + z / 64) == y
    ensures Byte3(y % 16 * 4 + z / 64, z % 64) == z
  {
  }

  /** The six-bit groups of the bytes, the last one filled up with zero bits. */
  function Sextets(bs: seq<Byte>): seq<Sextet> {
    if |bs| == 0 then []
    else if |bs| == 1 then [bs[0] / 4, bs[0] % 4 * 16]
    else if |bs| == 2 then [bs[0] / 4, bs[0] % 4 * 16 + bs[1] / 16, bs[1] % 16 * 4]
    else [bs[0] / 4, bs[0] % 4 * 16 + bs[1] / 16, bs[1] % 16 * 4 + bs[2] / 64, bs[2] % 64] + Sextets(bs[3..])
  }

  lemma {:induction false} DigitsOfEncoding(bs: seq<Byte>)
    ensures Digits(Encode(bs)) == Sextets(bs)
  {
    if |bs| == 1 {
      var a, b := bs[0] / 4, bs[0] % 4 * 16;
      assert Encode(bs) == [Digit(a)] + ([Digit(b)] + [PAD, PAD]);
      DigitsOf(b, [PAD, PAD]);
      DigitsOf(a, [Digit(b)] + [PAD, PAD]);
    } else if |bs| == 2 {
      var a, b, c := bs[0] / 4, bs[0] % 4 * 16 + bs[1] / 16, bs[1] % 16 * 4;
      assert Encode(bs) == [Digit(a)] + ([Digit(b)] + ([Digit(c)] + [PAD]));
      DigitsOf(c, [PAD]);
      DigitsOf(b, [Digit(c)] + [PAD]);
      DigitsOf(a, [Digit(b)] + ([Digit(c)] + [PAD]));
    } else if |bs| >= 3 {
      FourDigits(bs[0] / 4, bs[0] % 4 * 16 + bs[1] / 16, bs[1] % 16 * 4 + bs[2] / 64, bs[2] % 64, Encode(bs[3..]));
      DigitsOfEncoding(bs[3..]);
    }
  }

  lemma {:induction false} BytesOfSextets(bs: seq<Byte>)
    ensures Bytes(Sextets(bs)) == bs
  {
    if |bs| >= 3 {
      Regroup(bs[0], bs[1], bs[2]);
      BytesOfSextets(bs[3..]);
      assert Sextets(bs)[4..] == Sextets(bs[3..]);
      assert bs == [bs[0], bs[1], bs[2]] + bs[3..];
    } else if |bs| == 2 {
      Regroup(bs[0], bs[1], 0);
    } else if |bs| == 1 {
      Regroup(bs[0], 0, 0);
    }
  }

  /** The four digits of a group, read as a number in base 64, are its three bytes read in base 256. */
  lemma GroupIsOneNumber(x: Byte, y: Byte, z: Byte)
    ensures var g := Group(x, y, z);
      && (forall i :: 0 <= i < 4 ==> Value(g[i]).Some?)
      && ((Value(g[0]).value * 64 + Value(g[1]).value) * 64 + Value(g[2]).value) * 64 + Value(g[3]).value
        == (x * 256 + y) * 256 + z
  {
    var g := Group(x, y, z);
    assert Value(g[0]) == Some(x / 4) && Value(g[1]) == Some(x % 4 * 16 + y / 16);
    assert Value(g[2]) == Some(y % 16 * 4 + z / 64) && Value(g[3]) == Some(z % 64);
  }

  /** Every three bytes, or part of three, take four characters. */
  lemma {:induction false} EncodedLength(bs: seq<Byte>)
    ensures |Encode(bs)| == (|bs| + 2) / 3 * 4
  {
    if |bs| >= 3 { EncodedLength(bs[3..]); }
  }

  lemma RoundTrip(bs: seq<Byte>)
    ensures Decode(Encode(bs)) == bs
  {
    DigitsOfEncoding(bs);
    BytesOfSextets(bs);
  }
}
