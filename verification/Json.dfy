/** JSON text, RFC 8259: `JSON.parse`, and `JSON.stringify` for strings. */
module Json {
  import opened JsText
  import opened Prelude

  datatype Json =
    | Null
    | Bool(b: bool)
    | Number(digits: Text)
    | String(text: Text)
    | Array(items: seq<Json>)
    | Object(members: seq<Member>)

  datatype Member = Member(name: Text, value: Json)

  datatype SyntaxError = SyntaxError

  /** A parsed prefix and the text that follows it. */
  datatype Parsed<T> = Parsed(value: T, rest: Text)

  const QUOTE: Unit := 34
  const BACKSLASH: Unit := 92
  const COMMA: Unit := 44
  const COLON: Unit := 58

  // --------------------------------------------------------------- strings

  function HexDigit(n: int): Unit
    requires 0 <= n < 16
  {
    if n < 10 then 48 + n else 87 + n
  }

  function HexValue(u: Unit): int {
    if 48 <= u <= 57 then u - 48
    else if 97 <= u <= 102 then u - 87
    else if 65 <= u <= 70 then u - 55
    else -1
  }

  function UnicodeEscape(u: Unit): Text {
    [BACKSLASH, 117, HexDigit(u / 4096), HexDigit(u / 256 % 16), HexDigit(u / 16 % 16), HexDigit(u % 16)]
  }

  /** The letter of a two-character escape, if the unit has one in QuoteJSONString's table. */
  function ShortEscape(u: Unit): Option<Unit> {
    if u == 8 then Some(98)
    else if u == 9 then Some(116)
    else if u == 10 then Some(110)
    else if u == 12 then Some(102)
    else if u == 13 then Some(114)
    else if u == QUOTE || u == BACKSLASH then Some(u)
    else None
  }

  function EscapeUnit(u: Unit): Text {
    if ShortEscape(u).Some? then [BACKSLASH, ShortEscape(u).value]
    else if u < 32 || High(u) || Low(u) then UnicodeEscape(u)
    else [u]
  }

  /** Surrogate pairs stay as they are; a lone surrogate is escaped. */
  function Escape(t: Text): Text {
    if t == [] then []
    else if StartsPair(t) then [t[0], t[1]] + Escape(t[2..])
    else EscapeUnit(t[0]) + Escape(t[1..])
  }

  function Quote(t: Text): Text {
    [QUOTE] + Escape(t) + [QUOTE]
  }

  function Unescaped(u: Unit): Option<Unit> {
    if u == 98 then Some(8)
    else if u == 116 then Some(9)
    else if u == 110 then Some(10)
    else if u == 102 then Some(12)
    else if u == 114 then Some(13)
    else if u == QUOTE || u == BACKSLASH || u == 47 then Some(u)
    else None
  }

  /** The characters of a string literal, after its opening quote. */
  function ParseChars(s: Text): (r: Result<Parsed<Text>, SyntaxError>)
    ensures r.Ok? ==> |r.value.rest| < |s|
  {
    if s == [] then Err(SyntaxError)
    else if s[0] == QUOTE then Ok(Parsed([], s[1..]))
    else if s[0] < 32 then Err(SyntaxError)
    else if s[0] != BACKSLASH then Prepend(s[0], ParseChars(s[1..]))
    else if |s| >= 2 && Unescaped(s[1]).Some? then Prepend(Unescaped(s[1]).value, ParseChars(s[2..]))
    else if |s| >= 6 && s[1] == 117 && HexValue(s[2]) >= 0 && HexValue(s[3]) >= 0 && HexValue(s[4]) >= 0
      && HexValue(s[5]) >= 0 then
      Prepend(Hex4(HexValue(s[2]), HexValue(s[3]), HexValue(s[4]), HexValue(s[5])), ParseChars(s[6..]))
    else Err(SyntaxError)
  }

  function Hex4(a: int, b: int, c: int, d: int): Unit
    requires 0 <= a < 16 && 0 <= b < 16 && 0 <= c < 16 && 0 <= d < 16
  {
    a * 4096 + b * 256 + c * 16 + d
  }

  function Prepend(u: Unit, r: Result<Parsed<Text>, SyntaxError>): Result<Parsed<Text>, SyntaxError> {
    match r
    case Err(e) => Err(e)
    case Ok(p) => Ok(Parsed([u] + p.value, p.rest))
  }

  // ---------------------------------------------------------------- numbers

  predicate IsDigit(u: Unit) { 48 <= u <= 57 }

  function SkipDigits(s: Text): (r: Text)
    ensures |r| <= |s|
  {
    if s != [] && IsDigit(s[0]) then SkipDigits(s[1..]) else s
  }

  function Fraction(s: Text): (r: Result<Text, SyntaxError>)
    ensures r.Ok? ==> |r.value| <= |s|
  {
    if s == [] || s[0] != 46 then Ok(s)
    else if |s| < 2 || !IsDigit(s[1]) then Err(SyntaxError)
    else Ok(SkipDigits(s[2..]))
  }

  function Exponent(s: Text): (r: Result<Text, SyntaxError>)
    ensures r.Ok? ==> |r.value| <= |s|
  {
    if s == [] || (s[0] != 101 && s[0] != 69) then Ok(s)
    else
      var digits := if |s| >= 2 && (s[1] == 43 || s[1] == 45) then s[2..] else s[1..];
      if digits == [] || !IsDigit(digits[0]) then Err(SyntaxError) else Ok(SkipDigits(digits[1..]))
  }

  function ParseNumber(s: Text): (r: Result<Parsed<Json>, SyntaxError>)
    ensures r.Ok? ==> |r.value.rest| < |s|
  {
    var body := if s != [] && s[0] == 45 then s[1..] else s;
    if body == [] || !IsDigit(body[0]) then Err(SyntaxError)
    else
      match Fraction(if body[0] == 48 then body[1..] else SkipDigits(body[1..]))
      case Err(e) => Err(e)
      case Ok(afterFraction) =>
        match Exponent(afterFraction)
        case Err(e) => Err(e)
        case Ok(rest) => Ok(Parsed(Number(s[..|s| - |rest|]), rest))
  }

  // ----------------------------------------------------------------- values

  function SkipSpace(s: Text): (r: Text)
    ensures |r| <= |s|
  {
    if s != [] && (s[0] == 32 || s[0] == 9 || s[0] == 10 || s[0] == 13) then SkipSpace(s[1..]) else s
  }

  function Literal(s: Text, word: Text, value: Json): (r: Result<Parsed<Json>, SyntaxError>)
    requires word != []
    ensures r.Ok? ==> |r.value.rest| < |s|
  {
    if word <= s then Ok(Parsed(value, s[|word|..])) else Err(SyntaxError)
  }

  function ParseValue(text: Text): (r: Result<Parsed<Json>, SyntaxError>)
    ensures r.Ok? ==> |r.value.rest| < |text|
    decreases |text|, 0
  {
    var s := SkipSpace(text);
    if s == [] then Err(SyntaxError)
    else if s[0] == QUOTE then
      (match ParseChars(s[1..]) case Err(e) => Err(e) case Ok(p) => Ok(Parsed(String(p.value), p.rest)))
    else if s[0] == 123 then
      var inner := SkipSpace(s[1..]);
      if inner != [] && inner[0] == 125 then Ok(Parsed(Object([]), inner[1..]))
      else (match ParseMembers(s[1..]) case Err(e) => Err(e) case Ok(p) => Ok(Parsed(Object(p.value), p.rest)))
    else if s[0] == 91 then
      var inner := SkipSpace(s[1..]);
      if inner != [] && inner[0] == 93 then Ok(Parsed(Array([]), inner[1..]))
      else (match ParseItems(s[1..]) case Err(e) => Err(e) case Ok(p) => Ok(Parsed(Array(p.value), p.rest)))
    else if s[0] == 116 then Literal(s, [116, 114, 117, 101], Bool(true))
    else if s[0] == 102 then Literal(s, [102, 97, 108, 115, 101], Bool(false))
    else if s[0] == 110 then Literal(s, [110, 117, 108, 108], Null)
    else ParseNumber(s)
  }

  function ParseItems(s: Text): (r: Result<Parsed<seq<Json>>, SyntaxError>)
    ensures r.Ok? ==> |r.value.rest| < |s|
    decreases |s|, 1
  {
    match ParseValue(s)
    case Err(e) => Err(e)
    case Ok(first) =>
      var next := SkipSpace(first.rest);
      if next == [] then Err(SyntaxError)
      else if next[0] == 93 then Ok(Parsed([first.value], next[1..]))
      else if next[0] != COMMA then Err(SyntaxError)
      else
        match ParseItems(next[1..])
        case Err(e) => Err(e)
        case Ok(others) => Ok(Parsed([first.value] + others.value, others.rest))
  }

  /** `"name": value` */
  function ParseMember(text: Text): (r: Result<Parsed<Member>, SyntaxError>)
    ensures r.Ok? ==> |r.value.rest| < |text|
    decreases |text|, 1
  {
    var s := SkipSpace(text);
    if s == [] || s[0] != QUOTE then Err(SyntaxError)
    else
      match ParseChars(s[1..])
      case Err(e) => Err(e)
      case Ok(name) =>
        var after := SkipSpace(name.rest);
        if after == [] || after[0] != COLON then Err(SyntaxError)
        else
          match ParseValue(after[1..])
          case Err(e) => Err(e)
          case Ok(value) => Ok(Parsed(Member(name.value, value.value), value.rest))
  }

  function ParseMembers(s: Text): (r: Result<Parsed<seq<Member>>, SyntaxError>)
    ensures r.Ok? ==> |r.value.rest| < |s|
    decreases |s|, 2
  {
    match ParseMember(s)
    case Err(e) => Err(e)
    case Ok(first) =>
      var next := SkipSpace(first.rest);
      if next == [] then Err(SyntaxError)
      else if next[0] == 125 then Ok(Parsed([first.value], next[1..]))
      else if next[0] != COMMA then Err(SyntaxError)
      else
        match ParseMembers(next[1..])
        case Err(e) => Err(e)
        case Ok(others) => Ok(Parsed([first.value] + others.value, others.rest))
  }

  function Parse(text: Text): Result<Json, SyntaxError> {
    match ParseValue(text)
    case Err(e) => Err(e)
    case Ok(p) => if SkipSpace(p.rest) == [] then Ok(p.value) else Err(SyntaxError)
  }

  /** The value of a property; a repeated name means its last value. */
  function Property(members: seq<Member>, name: Text): Option<Json> {
    if members == [] then None
    else if members[|members| - 1].name == name then Some(members[|members| - 1].value)
    else Property(members[..|members| - 1], name)
  }

  // -------------------------------------------------------------- round trip

  lemma HexInverse(n: int)
    requires 0 <= n < 16
    ensures HexValue(HexDigit(n)) == n
  {
  }

  lemma HexSplits(u: Unit)
    ensures Hex4(u / 4096, u / 256 % 16, u / 16 % 16, u % 16) == u
  {
    assert u / 16 / 16 == u / 256 && u / 256 / 16 == u / 4096;
  }

  lemma HexEscapeParses(u: Unit, s: Text, t: Text, rest: Text)
    requires ParseChars(s) == Ok(Parsed(t, rest))
    ensures ParseChars(UnicodeEscape(u) + s) == Ok(Parsed([u] + t, rest))
  {
    HexInverse(u / 4096);
    HexInverse(u / 256 % 16);
    HexInverse(u / 16 % 16);
    HexInverse(u % 16);
    HexSplits(u);
    var all := UnicodeEscape(u) + s;
    assert all[6..] == s && all[0] == BACKSLASH && all[1] == 117;
  }

  lemma ShortEscapeParses(u: Unit, s: Text, t: Text, rest: Text)
    requires ShortEscape(u).Some? && ParseChars(s) == Ok(Parsed(t, rest))
    ensures ParseChars([BACKSLASH, ShortEscape(u).value] + s) == Ok(Parsed([u] + t, rest))
  {
    var all := [BACKSLASH, ShortEscape(u).value] + s;
    assert all[2..] == s && all[0] == BACKSLASH && all[1] == ShortEscape(u).value;
  }

  lemma EscapedUnitParses(u: Unit, s: Text, t: Text, rest: Text)
    requires ParseChars(s) == Ok(Parsed(t, rest))
    ensures ParseChars(EscapeUnit(u) + s) == Ok(Parsed([u] + t, rest))
  {
    if ShortEscape(u).Some? {
      ShortEscapeParses(u, s, t, rest);
    } else if u < 32 || High(u) || Low(u) {
      HexEscapeParses(u, s, t, rest);
    } else {
      PlainUnitParses(u, s, t, rest);
    }
  }

  lemma PlainUnitParses(u: Unit, s: Text, t: Text, rest: Text)
    requires u >= 32 && u != QUOTE && u != BACKSLASH && ParseChars(s) == Ok(Parsed(t, rest))
    ensures ParseChars([u] + s) == Ok(Parsed([u] + t, rest))
  {
    assert ([u] + s)[1..] == s;
  }

  lemma EscapePair(t: Text, rest: Text)
    requires StartsPair(t)
    ensures Escape(t) + rest == [t[0]] + ([t[1]] + (Escape(t[2..]) + rest))
    ensures t == [t[0]] + ([t[1]] + t[2..])
  {
  }

  lemma EscapeOne(t: Text, rest: Text)
    requires t != [] && !StartsPair(t)
    ensures Escape(t) + rest == EscapeUnit(t[0]) + (Escape(t[1..]) + rest)
    ensures t == [t[0]] + t[1..]
  {
  }

  /** `rest` starts with the closing quote. */
  lemma {:induction false} EscapeParses(t: Text, rest: Text)
    requires rest != [] && rest[0] == QUOTE
    ensures ParseChars(Escape(t) + rest) == Ok(Parsed(t, rest[1..]))
  {
    if t == [] {
      assert Escape(t) + rest == rest;
    } else if StartsPair(t) {
      EscapePair(t, rest);
      EscapeParses(t[2..], rest);
      PlainUnitParses(t[1], Escape(t[2..]) + rest, t[2..], rest[1..]);
      PlainUnitParses(t[0], [t[1]] + (Escape(t[2..]) + rest), [t[1]] + t[2..], rest[1..]);
    } else {
      EscapeOne(t, rest);
      EscapeParses(t[1..], rest);
      EscapedUnitParses(t[0], Escape(t[1..]) + rest, t[1..], rest[1..]);
    }
  }

  lemma QuoteShape(open: Text, chars: Text, rest: Text)
    requires |open| == 1
    ensures open + chars + [QUOTE] + rest != [] && (open + chars + [QUOTE] + rest)[0] == open[0]
    ensures (open + chars + [QUOTE] + rest)[1..] == chars + ([QUOTE] + rest)
  {
  }

  lemma QuotedChars(t: Text, rest: Text)
    ensures Quote(t) + rest != [] && (Quote(t) + rest)[0] == QUOTE
    ensures ParseChars((Quote(t) + rest)[1..]) == Ok(Parsed(t, rest))
  {
    QuoteShape([QUOTE], Escape(t), rest);
    EscapeParses(t, [QUOTE] + rest);
  }

  lemma QuoteIsNoSpace(s: Text)
    requires s != [] && s[0] == QUOTE
    ensures SkipSpace(s) == s
  {
  }

  lemma StringStep(s: Text, t: Text, rest: Text)
    requires s != [] && s[0] == QUOTE && SkipSpace(s) == s && ParseChars(s[1..]) == Ok(Parsed(t, rest))
    ensures ParseValue(s) == Ok(Parsed(String(t), rest))
  {
  }

  lemma QuoteParses(t: Text, rest: Text)
    ensures ParseValue(Quote(t) + rest) == Ok(Parsed(String(t), rest))
    ensures SkipSpace(Quote(t) + rest) == Quote(t) + rest
    ensures ParseChars((Quote(t) + rest)[1..]) == Ok(Parsed(t, rest))
  {
    QuotedChars(t, rest);
    QuoteIsNoSpace(Quote(t) + rest);
    StringStep(Quote(t) + rest, t, rest);
  }

  lemma MemberStep(s: Text, name: Text, after: Text, value: Json, rest: Text)
    requires s != [] && s[0] == QUOTE && ParseChars(s[1..]) == Ok(Parsed(name, [COLON] + after))
    requires ParseValue(after) == Ok(Parsed(value, rest))
    ensures ParseMember(s) == Ok(Parsed(Member(name, value), rest))
  {
    assert SkipSpace(s) == s && SkipSpace([COLON] + after) == [COLON] + after;
    assert ([COLON] + after)[1..] == after;
  }

  lemma MembersStep(s: Text, first: Member, tail: Text, others: seq<Member>, rest: Text)
    requires ParseMember(s) == Ok(Parsed(first, [COMMA] + tail)) && ParseMembers(tail) == Ok(Parsed(others, rest))
    ensures ParseMembers(s) == Ok(Parsed([first] + others, rest))
  {
    assert SkipSpace([COMMA] + tail) == [COMMA] + tail;
    assert ([COMMA] + tail)[1..] == tail;
  }

  lemma MembersEnd(s: Text, first: Member, rest: Text)
    requires ParseMember(s) == Ok(Parsed(first, [125] + rest))
    ensures ParseMembers(s) == Ok(Parsed([first], rest))
  {
    assert SkipSpace([125] + rest) == [125] + rest;
    assert ([125] + rest)[1..] == rest;
  }

  lemma ObjectStep(inner: Text, members: seq<Member>, rest: Text)
    requires inner != [] && inner[0] == QUOTE && ParseMembers(inner) == Ok(Parsed(members, rest))
    ensures ParseValue([123] + inner) == Ok(Parsed(Object(members), rest))
  {
    var s := [123] + inner;
    assert SkipSpace(s) == s && SkipSpace(inner) == inner;
    assert s[1..] == inner;
  }

  lemma MemberParses(name: Text, t: Text, rest: Text)
    ensures ParseMember(Quote(name) + [COLON] + Quote(t) + rest) == Ok(Parsed(Member(name, String(t)), rest))
  {
    var s := Quote(name) + [COLON] + Quote(t) + rest;
    assert s == Quote(name) + ([COLON] + (Quote(t) + rest));
    QuoteParses(name, [COLON] + (Quote(t) + rest));
    QuoteParses(t, rest);
    MemberStep(s, name, Quote(t) + rest, String(t), rest);
  }

  /** `JSON.stringify` of an object with two string properties. */
  function StringifyPair(a: Text, x: Text, b: Text, y: Text): Text {
    [123] + Quote(a) + [COLON] + Quote(x) + [COMMA] + Quote(b) + [COLON] + Quote(y) + [125]
  }

  lemma Regroup(open: Text, a: Text, x: Text, comma: Text, b: Text, y: Text, close: Text)
    ensures open + a + [COLON] + x + comma + b + [COLON] + y + close
      == open + (a + [COLON] + x + (comma + (b + [COLON] + y + close)))
  {
  }

  lemma MembersParse(a: Text, x: Text, b: Text, y: Text)
    ensures ParseMembers(Quote(a) + [COLON] + Quote(x) + ([COMMA] + (Quote(b) + [COLON] + Quote(y) + [125])))
      == Ok(Parsed([Member(a, String(x)), Member(b, String(y))], []))
  {
    var second := Quote(b) + [COLON] + Quote(y) + [125];
    var first := Quote(a) + [COLON] + Quote(x) + ([COMMA] + second);
    MemberParses(b, y, [125]);
    assert [125] == [125] + [];
    MembersEnd(second, Member(b, String(y)), []);
    MemberParses(a, x, [COMMA] + second);
    MembersStep(first, Member(a, String(x)), second, [Member(b, String(y))], []);
    assert [Member(a, String(x))] + [Member(b, String(y))] == [Member(a, String(x)), Member(b, String(y))];
  }

  lemma PairParses(a: Text, x: Text, b: Text, y: Text)
    ensures Parse(StringifyPair(a, x, b, y)) == Ok(Object([Member(a, String(x)), Member(b, String(y))]))
  {
    var first := Quote(a) + [COLON] + Quote(x) + ([COMMA] + (Quote(b) + [COLON] + Quote(y) + [125]));
    Regroup([123], Quote(a), Quote(x), [COMMA], Quote(b), Quote(y), [125]);
    MembersParse(a, x, b, y);
    ObjectStep(first, [Member(a, String(x)), Member(b, String(y))], []);
  }

  /** Both properties of a parsed pair can be looked up. */
  lemma PairProperties(a: Text, x: Text, b: Text, y: Text)
    requires a != b
    ensures var members := [Member(a, String(x)), Member(b, String(y))];
      Property(members, a) == Some(String(x)) && Property(members, b) == Some(String(y))
  {
    var members := [Member(a, String(x)), Member(b, String(y))];
    assert members[..1] == [Member(a, String(x))];
    assert Property([Member(a, String(x))], a) == Some(String(x));
  }

  // ------------------------------------------------------------- well-formed

  lemma EscapedUnitWellFormed(u: Unit)
    ensures WellFormed(EscapeUnit(u))
  {
    if ShortEscape(u).None? && (u < 32 || High(u) || Low(u)) {
      var e := UnicodeEscape(u);
      assert WellFormed(e[6..]);
      assert WellFormed(e[5..]);
      assert WellFormed(e[4..]);
      assert e[4..][1..] == e[5..];
      assert e[3..][1..] == e[4..] && WellFormed(e[3..]);
      assert e[2..][1..] == e[3..] && WellFormed(e[2..]);
      assert e[1..][1..] == e[2..] && WellFormed(e[1..]);
    } else {
      assert |EscapeUnit(u)| == 2 ==> WellFormed(EscapeUnit(u)[2..]) && WellFormed(EscapeUnit(u)[1..]);
    }
  }

  lemma {:induction false} EscapeWellFormed(t: Text)
    ensures WellFormed(Escape(t))
  {
    if t != [] {
      if StartsPair(t) {
        EscapeWellFormed(t[2..]);
        assert Escape(t)[2..] == Escape(t[2..]);
      } else {
        EscapedUnitWellFormed(t[0]);
        EscapeWellFormed(t[1..]);
        WellFormedConcat(EscapeUnit(t[0]), Escape(t[1..]));
      }
    }
  }

  lemma QuoteWellFormed(t: Text)
    ensures WellFormed(Quote(t))
  {
    EscapeWellFormed(t);
    WellFormedConcat([QUOTE], Escape(t));
    WellFormedConcat([QUOTE] + Escape(t), [QUOTE]);
  }

  /** Stringified text has no lone surrogate, whatever the strings hold. */
  lemma PairWellFormed(a: Text, x: Text, b: Text, y: Text)
    ensures WellFormed(StringifyPair(a, x, b, y))
  {
    QuoteWellFormed(a);
    QuoteWellFormed(x);
    QuoteWellFormed(b);
    QuoteWellFormed(y);
    var s := [123] + Quote(a);
    WellFormedConcat([123], Quote(a));
    WellFormedConcat(s, [COLON]);
    WellFormedConcat(s + [COLON], Quote(x));
    s := s + [COLON] + Quote(x);
    WellFormedConcat(s, [COMMA]);
    WellFormedConcat(s + [COMMA], Quote(b));
    s := s + [COMMA] + Quote(b);
    WellFormedConcat(s, [COLON]);
    WellFormedConcat(s + [COLON], Quote(y));
    WellFormedConcat(s + [COLON] + Quote(y), [125]);
  }
}
