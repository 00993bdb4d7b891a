// JSON values (`serde_json::Value`). Objects are finite maps; numbers keep their text.
module JsonValues {
  import opened Wrappers

  datatype Json =
    | Null
    | Bool(truth: bool)
    | Number(digits: string)
    | Str(text: string)
    | Array(items: seq<Json>)
    | Object(fields: map<string, Json>)

  // `Value::get` with a string key: only objects have members.
  function Member(value: Json, key: string): Option<Json> {
    if value.Object? && key in value.fields then Some(value.fields[key]) else None
  }

  function AsStr(value: Json): Option<string> {
    if value.Str? then Some(value.text) else None
  }

  function StrArray(texts: seq<string>): Json {
    Array(seq(|texts|, i requires 0 <= i < |texts| => Str(texts[i])))
  }

  // `serde_json::from_value::<Vec<String>>`.
  function StringsFromJson(value: Json): Option<seq<string>> {
    if value.Array? && forall i :: 0 <= i < |value.items| ==> value.items[i].Str?
    then Some(seq(|value.items|, i requires 0 <= i < |value.items| => AsStr(value.items[i]).value))
    else None
  }

  // A list of strings survives being written as a JSON array.
  lemma StringsRoundTrip(texts: seq<string>)
    ensures StringsFromJson(StrArray(texts)) == Some(texts)
  {
    assert StringsFromJson(StrArray(texts)).value == texts;
  }

  // And nothing else is read as a list of strings.
  lemma StringsParseIff(v: Json, texts: seq<string>)
    ensures StringsFromJson(v) == Some(texts) <==> v == StrArray(texts)
  {
    StringsRoundTrip(texts);
    if StringsFromJson(v) == Some(texts) {
      assert v.items == StrArray(texts).items;
    }
  }
}
