/** JavaScript strings: sequences of UTF-16 code units, lone surrogates included. */
module JsText {
  type Unit = u: nat | u < 0x10000

  type Text = seq<Unit>

  type Byte = b: nat | b < 0x100

  predicate High(u: Unit) { 0xD800 <= u < 0xDC00 }

  predicate Low(u: Unit) { 0xDC00 <= u < 0xE000 }

  /** The text starts with a surrogate pair. */
  predicate StartsPair(t: Text) {
    |t| >= 2 && High(t[0]) && Low(t[1])
  }

  /** Every surrogate is half of a pair, so that the text is a sequence of Unicode scalar values. */
  predicate WellFormed(t: Text) {
    t == [] || (if StartsPair(t) then WellFormed(t[2..]) else !High(t[0]) && !Low(t[0]) && WellFormed(t[1..]))
  }

  lemma {:induction false} WellFormedConcat(a: Text, b: Text)
    requires WellFormed(a) && WellFormed(b)
    ensures WellFormed(a + b)
  {
    if a == [] {
      assert a + b == b;
    } else if StartsPair(a) {
      WellFormedConcat(a[2..], b);
      assert (a + b)[2..] == a[2..] + b;
    } else {
      WellFormedConcat(a[1..], b);
      assert (a + b)[1..] == a[1..] + b;
    }
  }

  /** A string literal of ASCII characters. */
  function Ascii(s: string): (t: Text)
    requires forall i :: 0 <= i < |s| ==> s[i] as int < 128
    ensures |t| == |s| && forall i :: 0 <= i < |s| ==> t[i] == s[i] as int
  {
    if s == "" then []
    else [s[0] as int] + Ascii(s[1..])
  }
}
