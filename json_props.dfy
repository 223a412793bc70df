/** `JsonProps`: typed reads of a block's JSON properties, each falling back
    to a default.

    A JSON value is either a primitive, held as its `content` text, or a
    composite (an object or an array). JSON `null` is a primitive whose
    content is `null`, as in kotlinx.serialization. */
module JsonProps {
  import opened Wrappers
  import opened Text

  datatype JsonElement = Primitive(content: string) | Composite

  /** JSON `null`. */
  const JSON_NULL: JsonElement := Primitive("null")

  type JsonObject = map<string, JsonElement>

  /** `(props[key] as? JsonPrimitive)?.content`. */
  function RawContent(props: JsonObject, key: string): (r: Option<string>)
    ensures r.Some? <==> key in props && props[key].Primitive?
    ensures r.Some? ==> r.value == props[key].content
  {
    if key in props && props[key].Primitive? then Some(props[key].content) else None
  }

  /** `string`: a primitive's text, or the default for an absent key or a
      composite value. */
  function GetString(props: JsonObject, key: string, fallback: string := ""): (r: string)
    ensures RawContent(props, key).None? ==> r == fallback
    ensures RawContent(props, key).Some? ==> r == RawContent(props, key).value
  {
    match RawContent(props, key)
    case Some(raw) => raw
    case None => fallback
  }

  /** `toBooleanStrictOrNull() ?: toBoolean()`: exactly `true` or `false`,
      and otherwise true only for `true` in any letter case. */
  function TextToBoolean(raw: string): (b: bool)
    ensures b <==> EqualsIgnoreCase(raw, "true")
  {
    if raw == "true" then true
    else if raw == "false" then false
    else EqualsIgnoreCase(raw, "true")
  }

  /** `boolean`: the default only for an absent key or a composite value;
      any primitive is read as text. */
  function GetBoolean(props: JsonObject, key: string, fallback: bool := false): (r: bool)
    ensures RawContent(props, key).None? ==> r == fallback
    ensures RawContent(props, key).Some? ==> (r <==> EqualsIgnoreCase(RawContent(props, key).value, "true"))
  {
    match RawContent(props, key)
    case Some(raw) => TextToBoolean(raw)
    case None => fallback
  }

  /** `int`: the text read as a 32-bit decimal, else the default. */
  function GetInt(props: JsonObject, key: string, fallback: int := 0): (r: int)
    ensures RawContent(props, key).None? ==> r == fallback
    ensures RawContent(props, key).Some? && ParseInt(RawContent(props, key).value).None? ==> r == fallback
    ensures RawContent(props, key).Some? && ParseInt(RawContent(props, key).value).Some? ==>
              r == ParseInt(RawContent(props, key).value).value && MIN_INT <= r <= MAX_INT
  {
    match RawContent(props, key)
    case Some(raw) => ParseInt(raw).GetOr(fallback)
    case None => fallback
  }

  /** An absent key gives the default for all three reads. */
  lemma AbsentKeyDefaults(props: JsonObject, key: string, s: string, b: bool, i: int)
    requires key !in props
    ensures GetString(props, key, s) == s
    ensures GetBoolean(props, key, b) == b
    ensures GetInt(props, key, i) == i
  {
  }

  /** JSON `null` reads as the text `null`, as false and as the default
      number; it is not treated as an absent key. */
  lemma NullIsText(props: JsonObject, key: string, s: string, b: bool, i: int)
    requires key in props && props[key] == JSON_NULL
    ensures GetString(props, key, s) == "null"
    ensures !GetBoolean(props, key, b)
    ensures GetInt(props, key, i) == i
  {
    assert Lower("null") != Lower("true") by {
      assert Lower("null")[0] == 'n';
    }
    assert ParseInteger("null").None? by {
      assert !IsDigit("null"[0]);
    }
  }

  /** A text written under a key is read back by `string`. */
  lemma StringRoundTrip(props: JsonObject, key: string, v: string, s: string)
    ensures GetString(props[key := Primitive(v)], key, s) == v
  {
  }

  /** A boolean written as `true`/`false` is read back by `boolean`,
      whatever the default. */
  lemma BooleanRoundTrip(props: JsonObject, key: string, v: bool, b: bool)
    ensures GetBoolean(props[key := Primitive(if v then "true" else "false")], key, b) == v
  {
    assert Lower("false")[0] != Lower("true")[0];
  }

  /** An Int written in decimal is read back by `int`, whatever the
      default. */
  lemma IntRoundTrip(props: JsonObject, key: string, v: int, i: int)
    requires MIN_INT <= v <= MAX_INT
    ensures GetInt(props[key := Primitive(IntToString(v))], key, i) == v
  {
    ParseIntIntToString(v);
  }

  /** Writing another key changes none of the reads of this one. */
  lemma OtherKeysIgnored(props: JsonObject, key: string, other: string, e: JsonElement,
                         s: string, b: bool, i: int)
    requires other != key
    ensures GetString(props[other := e], key, s) == GetString(props, key, s)
    ensures GetBoolean(props[other := e], key, b) == GetBoolean(props, key, b)
    ensures GetInt(props[other := e], key, i) == GetInt(props, key, i)
  {
  }
}
