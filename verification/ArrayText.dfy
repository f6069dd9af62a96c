/**
 Tags in the database: how Postgres writes an array of text, and how `customArrayTransformer.from`
 reads it back. The reader knows quotes around an element but neither escapes nor commas inside one.
 */
module ArrayText {
  import Prelude

  // -------------------------------------------------------- Postgres output

  predicate IsSpace(c: char) {
    c in [' ', '\t', '\n', '\r', '\U{0B}', '\U{0C}']
  }

  function Lower(c: char): char {
    if 'A' <= c <= 'Z' then c - 'A' + 'a' else c
  }

  predicate IsNull(tag: string) {
    |tag| == 4 && Lower(tag[0]) == 'n' && Lower(tag[1]) == 'u' && Lower(tag[2]) == 'l' && Lower(tag[3]) == 'l'
  }

  predicate Special(c: char) {
    c == '"' || c == '\\' || c == '{' || c == '}' || c == ',' || IsSpace(c)
  }

  predicate NeedsQuotes(tag: string) {
    tag == [] || IsNull(tag) || exists c :: c in tag && Special(c)
  }

  function Escaped(tag: string): string {
    if tag == [] then []
    else (if tag[0] == '"' || tag[0] == '\\' then ['\\', tag[0]] else [tag[0]]) + Escaped(tag[1..])
  }

  function Element(tag: string): string {
    if NeedsQuotes(tag) then ['"'] + Escaped(tag) + ['"'] else tag
  }

  function Joined(tags: seq<string>): string {
    if tags == [] then [] else if |tags| == 1 then Element(tags[0]) else Element(tags[0]) + [','] + Joined(tags[1..])
  }

  function ArrayOut(tags: seq<string>): string {
    ['{'] + Joined(tags) + ['}']
  }

  predicate SpellsNull(tag: string) {
    |tag| == 4 && forall i :: 0 <= i < 4 ==> tag[i] == "null"[i] || tag[i] == "NULL"[i]
  }

  /** Postgres leaves a tag bare unless it is empty, spells null, or holds a quote, backslash, brace, comma or space. */
  lemma WrittenBareIff(tag: string)
    ensures Element(tag) == tag <==>
      && tag != [] && !SpellsNull(tag)
      && forall c :: c in tag ==> c !in ['"', '\\', '{', '}', ',', ' ', '\t', '\n', '\r', '\U{0B}', '\U{0C}']
    ensures Element(tag) != tag ==> Element(tag) == ['"'] + Escaped(tag) + ['"']
  {
    EscapedLength(tag);
  }

  lemma {:induction false} EscapedLength(tag: string)
    ensures |Escaped(tag)| >= |tag|
  {
    if tag != [] { EscapedLength(tag[1..]); }
  }

  /** What a reader that knows escapes makes of quoted text; None if a quote stands alone. */
  function Unescaped(s: string): Prelude.Option<string> {
    if s == [] then Prelude.Some([])
    else if s[0] == '"' then Prelude.None
    else if s[0] == '\\' then
      if |s| == 1 || Unescaped(s[2..]).None? then Prelude.None else Prelude.Some([s[1]] + Unescaped(s[2..]).value)
    else if Unescaped(s[1..]).None? then Prelude.None
    else Prelude.Some([s[0]] + Unescaped(s[1..]).value)
  }

  /** Written tags lose nothing: such a reader gets every tag back. */
  lemma {:induction false} EscapesUndone(tag: string)
    ensures Unescaped(Escaped(tag)) == Prelude.Some(tag)
  {
    if tag != [] {
      EscapesUndone(tag[1..]);
      assert tag == [tag[0]] + tag[1..];
      var head := if tag[0] == '"' || tag[0] == '\\' then ['\\', tag[0]] else [tag[0]];
      assert Escaped(tag)[|head|..] == Escaped(tag[1..]);
    }
  }

  // ------------------------------------------------------------- the reader

  datatype Raw = Null | Text(text: string) | Array(tags: seq<string>)

  /** `replace(/^{|}$/g, '')`, and the same for quotes. */
  function Stripped(s: string, open: char, close: char): string {
    var rest := if s != [] && s[0] == open then s[1..] else s;
    if rest != [] && rest[|rest| - 1] == close then rest[..|rest| - 1] else rest
  }

  function Split(s: string, c: char): (parts: seq<string>)
    ensures parts != []
  {
    if s == [] then [[]]
    else
      var rest := Split(s[1..], c);
      if s[0] == c then [[]] + rest else [[s[0]] + rest[0]] + rest[1..]
  }

  function Unquoted(parts: seq<string>): (tags: seq<string>)
    ensures |tags| == |parts| && forall i :: 0 <= i < |parts| ==> tags[i] == Stripped(parts[i], '"', '"')
  {
    seq(|parts|, i requires 0 <= i < |parts| => Stripped(parts[i], '"', '"'))
  }

  function From(value: Raw): seq<string> {
    match value
    case Null => []
    case Array(tags) => tags
    case Text(text) => if text == [] || text == "{}" then [] else Unquoted(Split(Stripped(text, '{', '}'), ','))
  }

  // ------------------------------------------------------------- round trip

  /** An absent value and the two empty texts are no tags; an array is taken as it is. */
  lemma ReadsDirectly(tags: seq<string>)
    ensures From(Null) == From(Text([])) == From(Text("{}")) == [] && From(Array(tags)) == tags
  {
  }

  function Rejoined(parts: seq<string>, c: char): string
    requires parts != []
  {
    if |parts| == 1 then parts[0] else parts[0] + [c] + Rejoined(parts[1..], c)
  }

  /** Splitting loses nothing and leaves no separator in a part, which makes it the only split there is. */
  lemma {:induction false} SplitIsLossless(s: string, c: char)
    ensures Rejoined(Split(s, c), c) == s
    ensures forall part :: part in Split(s, c) ==> c !in part
  {
    if s != [] {
      SplitIsLossless(s[1..], c);
      var rest := Split(s[1..], c);
      assert s == [s[0]] + s[1..];
      if s[0] == c {
        assert Split(s, c)[1..] == rest;
      } else {
        assert Split(s, c)[1..] == rest[1..];
        assert rest[0] in rest;
        forall part | part in Split(s, c) ensures c !in part {
          if part != [s[0]] + rest[0] { assert part in rest; }
        }
      }
    }
  }

  /** One opening and one closing mark at most, each only at its end. */
  lemma StripsEnds(open: char, close: char, inner: string)
    ensures Stripped([open] + inner + [close], open, close) == inner
    ensures inner != [] && inner[0] != open && inner[|inner| - 1] != close ==> Stripped(inner, open, close) == inner
    ensures inner != [] && inner[0] != open ==> Stripped(inner + [close], open, close) == inner
    ensures inner != [] && inner[|inner| - 1] != close ==> Stripped([open] + inner, open, close) == inner
    ensures Stripped([], open, close) == Stripped([open], open, close) == Stripped([close], open, close) == []
  {
    assert ([open] + inner + [close])[1..] == inner + [close];
    assert ([open] + inner)[1..] == inner;
  }

  predicate Plain(tag: string) {
    ',' !in tag && '"' !in tag && '\\' !in tag
  }

  function Commas(s: string): nat {
    if s == [] then 0 else (if s[0] == ',' then 1 else 0) + Commas(s[1..])
  }

  lemma {:induction false} CommasConcat(a: string, b: string)
    ensures Commas(a + b) == Commas(a) + Commas(b)
  {
    if a == [] {
      assert a + b == b;
    } else {
      CommasConcat(a[1..], b);
      assert (a + b)[1..] == a[1..] + b;
    }
  }

  lemma {:induction false} NoCommas(s: string)
    ensures Commas(s) == 0 <==> ',' !in s
  {
    if s != [] {
      NoCommas(s[1..]);
      assert s == [s[0]] + s[1..];
    }
  }

  lemma {:induction false} EscapedShape(tag: string)
    ensures Commas(Escaped(tag)) == Commas(tag)
    ensures |Escaped(tag)| >= |tag|
    ensures Escaped(tag) == tag <==> '"' !in tag && '\\' !in tag
    ensures Escaped(tag) != tag ==> |Escaped(tag)| > |tag|
  {
    if tag != [] {
      var head := if tag[0] == '"' || tag[0] == '\\' then ['\\', tag[0]] else [tag[0]];
      EscapedShape(tag[1..]);
      assert tag == [tag[0]] + tag[1..];
      CommasConcat(head, Escaped(tag[1..]));
      assert Commas(head) == if tag[0] == ',' then 1 else 0 by { assert head[1..] == [] || head[1..][1..] == []; }
      if Escaped(tag[1..]) == tag[1..] && |head| == 1 { assert Escaped(tag) == tag; }
    }
  }

  lemma ElementCommas(tag: string)
    ensures Commas(Element(tag)) == Commas(tag)
  {
    if NeedsQuotes(tag) {
      EscapedShape(tag);
      CommasConcat(['"'] + Escaped(tag), ['"']);
      CommasConcat(['"'], Escaped(tag));
    }
  }

  /** Stripping the quotes of an element leaves its escaped text: the tag itself when it is plain. */
  lemma ElementUnquotes(tag: string)
    ensures Stripped(Element(tag), '"', '"') == tag <==> '"' !in tag && '\\' !in tag
  {
    EscapedShape(tag);
    if NeedsQuotes(tag) {
      var quoted := ['"'] + Escaped(tag) + ['"'];
      assert quoted[1..] == Escaped(tag) + ['"'];
      assert (Escaped(tag) + ['"'])[..|Escaped(tag)|] == Escaped(tag);
    } else {
      assert forall c :: c in tag ==> !Special(c);
      assert tag[0] in tag && tag[|tag| - 1] in tag;
    }
  }

  lemma {:induction false} SplitCounts(s: string)
    ensures |Split(s, ',')| == Commas(s) + 1
  {
    if s != [] { SplitCounts(s[1..]); }
  }

  function CommasIn(tags: seq<string>): nat {
    if tags == [] then 0 else Commas(tags[0]) + CommasIn(tags[1..])
  }

  lemma {:induction false} NoCommasIn(tags: seq<string>)
    ensures CommasIn(tags) == 0 <==> forall t :: t in tags ==> ',' !in t
  {
    if tags != [] {
      NoCommas(tags[0]);
      NoCommasIn(tags[1..]);
      assert tags == [tags[0]] + tags[1..];
    }
  }

  lemma {:induction false} JoinedCommas(tags: seq<string>)
    requires tags != []
    ensures Commas(Joined(tags)) == CommasIn(tags) + |tags| - 1
  {
    ElementCommas(tags[0]);
    if |tags| == 1 {
      assert CommasIn(tags[1..]) == 0;
    } else {
      JoinedCommas(tags[1..]);
      CommasConcat(Element(tags[0]) + [','], Joined(tags[1..]));
      CommasConcat(Element(tags[0]), [',']);
    }
  }

  lemma {:induction false} SplitHead(head: string, rest: string)
    requires ',' !in head
    ensures Split(head, ',') == [head]
    ensures Split(head + [','] + rest, ',') == [head] + Split(rest, ',')
  {
    var s := head + [','] + rest;
    if head == [] {
      assert s[1..] == rest;
    } else {
      SplitHead(head[1..], rest);
      assert s[1..] == head[1..] + [','] + rest;
      assert head == [head[0]] + head[1..];
    }
  }

  function Elements(tags: seq<string>): (parts: seq<string>)
    ensures |parts| == |tags| && forall i :: 0 <= i < |tags| ==> parts[i] == Element(tags[i])
  {
    seq(|tags|, i requires 0 <= i < |tags| => Element(tags[i]))
  }

  lemma {:induction false} SplitJoined(tags: seq<string>)
    requires tags != [] && forall t :: t in tags ==> ',' !in t
    ensures Split(Joined(tags), ',') == Elements(tags)
  {
    ElementCommas(tags[0]);
    NoCommas(tags[0]);
    NoCommas(Element(tags[0]));
    SplitHead(Element(tags[0]), if |tags| == 1 then [] else Joined(tags[1..]));
    if |tags| > 1 {
      SplitJoined(tags[1..]);
      assert Elements(tags) == [Element(tags[0])] + Elements(tags[1..]);
    }
  }

  lemma Braces(tags: seq<string>)
    ensures Stripped(ArrayOut(tags), '{', '}') == Joined(tags)
    ensures ArrayOut(tags) == "{}" <==> tags == []
  {
    assert ArrayOut(tags)[1..] == Joined(tags) + ['}'];
    if tags != [] { assert Element(tags[0]) != []; }
  }

  /**
   What Postgres wrote is read back as it was exactly when no tag has a comma, a double quote or a
   backslash in it; spaces, braces, "null" and the empty list are no trouble.
   */
  lemma ReadsBackIff(tags: seq<string>)
    ensures From(Text(ArrayOut(tags))) == tags <==> forall t :: t in tags ==> Plain(t)
  {
    Braces(tags);
    if tags != [] {
      var read := From(Text(ArrayOut(tags)));
      NoCommasIn(tags);
      if CommasIn(tags) == 0 {
        SplitJoined(tags);
        forall i | 0 <= i < |tags| ensures tags[i] in tags && (read[i] == tags[i] <==> Plain(tags[i])) {
          ElementUnquotes(tags[i]);
        }
      } else {
        SplitCounts(Joined(tags));
        JoinedCommas(tags);
      }
    }
  }

  lemma HalvesUnquote(a: string, b: string)
    requires Plain(a) && Plain(b)
    ensures Stripped(['"'] + a, '"', '"') == a && Stripped(b + ['"'], '"', '"') == b
  {
    assert (['"'] + a)[1..] == a;
    assert (b + ['"'])[..|b|] == b;
  }

  lemma SplitHalves(a: string, b: string)
    requires ',' !in a && ',' !in b
    ensures Split(a + [','] + b, ',') == [a, b]
  {
    SplitHead(a, b);
    SplitHead(b, []);
  }

  lemma ReadsSplit(tags: seq<string>)
    requires tags != []
    ensures From(Text(ArrayOut(tags))) == Unquoted(Split(Joined(tags), ','))
  {
    Braces(tags);
  }

  lemma QuotedHalves(a: string, b: string)
    requires Plain(a) && Plain(b)
    ensures Joined([a + [','] + b]) == ['"'] + a + [','] + (b + ['"'])
  {
    var tag := a + [','] + b;
    EscapedShape(tag);
    CommaNeedsQuotes(tag, |a|);
    Halves(a, b);
  }

  lemma CommaNeedsQuotes(tag: string, i: nat)
    requires i < |tag| && tag[i] == ','
    ensures Element(tag) == ['"'] + Escaped(tag) + ['"']
  {
    assert tag[i] in tag && Special(tag[i]);
  }

  lemma Halves(a: string, b: string)
    ensures ['"'] + (a + [','] + b) + ['"'] == ['"'] + a + [','] + (b + ['"'])
  {
  }

  /** A tag with one comma and nothing else to escape comes back as two tags. */
  lemma CommaSplitsTag(a: string, b: string)
    requires Plain(a) && Plain(b)
    ensures From(Text(ArrayOut([a + [','] + b]))) == [a, b]
  {
    ReadsSplit([a + [','] + b]);
    QuotedHalves(a, b);
    SplitHalves(['"'] + a, b + ['"']);
    HalvesUnquote(a, b);
    assert Unquoted([['"'] + a, b + ['"']]) == [a, b];
  }

  /** For one, the tag `a,b`, which has a permitted length. */
  lemma CommaIsNotReadBack()
    ensures From(Text(ArrayOut(["a,b"]))) == ["a", "b"] != ["a,b"]
  {
    assert "a,b" == "a" + [','] + "b";
    CommaSplitsTag("a", "b");
  }
}
