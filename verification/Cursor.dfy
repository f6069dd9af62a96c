/** Page cursors: a creation time and an id as JSON, in UTF-8, in base64. */
module Cursor {
  import opened JsText
  import opened Prelude
  import Base64
  import Json
  import Utf8

  const CREATED_AT: Text := Ascii("createdAt")
  const ID: Text := Ascii("id")

  /** The property names, unit by unit. */
  lemma PropertyNames()
    ensures CREATED_AT == [99, 114, 101, 97, 116, 101, 100, 65, 116] && ID == [105, 100]
  {
  }

  function EncodeCursor(createdAt: Text, id: Text): Text {
    Base64.Encode(Utf8.Encode(Json.StringifyPair(CREATED_AT, createdAt, ID, id)))
  }

  /** The JSON value a cursor holds, or the error `JSON.parse` throws. */
  function DecodeCursor(cursor: Text): Result<Json.Json, Json.SyntaxError> {
    Json.Parse(Utf8.Decode(Base64.Decode(cursor)))
  }

  function StringProperty(json: Json.Json, name: Text): Option<Text> {
    if json.Object? && Json.Property(json.members, name).Some? && Json.Property(json.members, name).value.String?
    then Some(Json.Property(json.members, name).value.text)
    else None
  }

  lemma PairRoundTrip(a: Text, x: Text, b: Text, y: Text)
    requires a != b
    ensures var decoded := DecodeCursor(Base64.Encode(Utf8.Encode(Json.StringifyPair(a, x, b, y))));
      && decoded.Ok?
      && StringProperty(decoded.value, a) == Some(x)
      && StringProperty(decoded.value, b) == Some(y)
  {
    var text := Json.StringifyPair(a, x, b, y);
    Base64.RoundTrip(Utf8.Encode(text));
    Json.PairWellFormed(a, x, b, y);
    Utf8.RoundTrip(text);
    Json.PairParses(a, x, b, y);
    Json.PairProperties(a, x, b, y);
  }

  /** Decoding gives back both strings exactly, for all strings. */
  lemma CursorRoundTrip(createdAt: Text, id: Text)
    ensures var decoded := DecodeCursor(EncodeCursor(createdAt, id));
      && decoded.Ok?
      && StringProperty(decoded.value, CREATED_AT) == Some(createdAt)
      && StringProperty(decoded.value, ID) == Some(id)
  {
    assert |CREATED_AT| == 9 && |ID| == 2;
    PairRoundTrip(CREATED_AT, createdAt, ID, id);
  }

  /** Different positions have different cursors: no digit of the timestamp text is lost. */
  lemma CursorInjective(c1: Text, i1: Text, c2: Text, i2: Text)
    ensures EncodeCursor(c1, i1) == EncodeCursor(c2, i2) <==> c1 == c2 && i1 == i2
  {
    CursorRoundTrip(c1, i1);
    CursorRoundTrip(c2, i2);
  }
}
