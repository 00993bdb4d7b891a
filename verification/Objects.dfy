// Untyped objects holding typed parameters (src/core/object/mod.rs), and the library code
// that turns values into text and back.
module Objects {
  import opened Wrappers
  import opened JsonValues

  type Entries = map<string, Json>

  datatype Url = Url(
    scheme: string,
    authority: string,
    path: string,
    query: Option<string>)

  // JSON text, URL-encoded forms and URLs are printed and parsed by library code.
  datatype Codec = Codec(
    printText: Json -> string,
    parseText: string -> Option<Json>,
    encodeForm: map<string, string> -> string,
    decodeForm: string -> Option<map<string, string>>,
    printUrl: Url -> string,
    parseUrl: string -> Option<Url>)

  // The one assumption about it: parsing what was printed gives it back.
  ghost predicate Lawful(c: Codec) {
    && (forall v :: c.parseText(c.printText(v)) == Some(v))
    && (forall m :: c.decodeForm(c.encodeForm(m)) == Some(m))
    && (forall u :: c.parseUrl(c.printUrl(u)) == Some(u))
  }

  // A typed parameter: its key, and its conversions from and to JSON.
  datatype TypedParameter<!T> = TypedParameter(
    key: string,
    fromJson: Json -> Option<T>,
    toJson: T -> Option<Json>)

  // What an object holds for a parameter.
  datatype Lookup<T> = Missing | Malformed | Present(value: T) {
    // `Some(Ok(value))` as an option.
    function Value(): Option<T> {
      if Present? then Some(value) else None
    }
  }

  function Parsed<T>(p: TypedParameter<T>, v: Json): Lookup<T> {
    match p.fromJson(v)
    case Some(t) => Present(t)
    case None => Malformed
  }

  function Get<T>(o: Entries, p: TypedParameter<T>): Lookup<T> {
    if p.key in o then Parsed(p, o[p.key]) else Missing
  }

  // Fails only on an entry that is there and does not parse.
  function GetOrDefault<T>(o: Entries, p: TypedParameter<T>, default: T): Option<T> {
    match Get(o, p)
    case Missing => Some(default)
    case Malformed => None
    case Present(t) => Some(t)
  }

  // A parameter that cannot be converted to JSON leaves the object as it is.
  function Inserted<T>(o: Entries, p: TypedParameter<T>, t: T): Entries {
    match p.toJson(t)
    case Some(v) => o[p.key := v]
    case None => o
  }

  class UntypedObject {
    var entries: Entries

    constructor (entries: Entries)
      ensures this.entries == entries
    {
      this.entries := entries;
    }

    // Answers with what was there before; `Malformed` also when the parameter has no JSON form.
    method Insert<T>(p: TypedParameter<T>, t: T) returns (previous: Lookup<T>)
      modifies this
      ensures entries == Inserted(old(entries), p, t)
      ensures previous == if p.toJson(t).Some? then Get(old(entries), p) else Malformed
    {
      match p.toJson(t)
      case None =>
        previous := Malformed;
      case Some(v) =>
        previous := Get(entries, p);
        entries := entries[p.key := v];
    }

    method Remove<T>(p: TypedParameter<T>) returns (previous: Lookup<T>)
      modifies this
      ensures entries == old(entries) - {p.key}
      ensures previous == Get(old(entries), p)
    {
      previous := Get(entries, p);
      entries := entries - {p.key};
    }
  }

  // ---- Posting an object as a form ----

  // Strings go in bare, everything else as JSON text: the two cannot be told apart afterwards.
  function FormText(c: Codec, v: Json): string {
    if v.Str? then v.text else c.printText(v)
  }

  function FlattenForForm(c: Codec, o: Entries): map<string, string> {
    map k | k in o :: FormText(c, o[k])
  }

  // A decoded form, as an object: every value is a string.
  function FormAsObject(form: map<string, string>): Entries {
    map k | k in form :: Str(form[k])
  }

  // What an object looks like after a trip through a form.
  function ThroughForm(c: Codec, o: Entries): Entries {
    map k | k in o :: Str(FormText(c, o[k]))
  }

  // Reads text or a JSON value (`from_string_or_value`).
  function FromStringOrValue<T>(c: Codec, from: Json -> Option<T>, v: Json): Option<T> {
    match v
    case Str(text) =>
      (match c.parseText(text)
       case Some(parsed) => from(parsed)
       case None => None)
    case _ => from(v)
  }

  // A string counts as the JSON text it holds and as nothing else, any other value as itself.
  lemma FromStringOrValueIff<T>(c: Codec, from: Json -> Option<T>, v: Json, t: T)
    ensures FromStringOrValue(c, from, v) == Some(t) <==>
            exists w :: (if v.Str? then c.parseText(v.text) == Some(w) else w == v) && from(w) == Some(t)
  {
  }

  // A parameter whose parser accepts text as well as a value cannot tell that its entry
  // went through a form.
  lemma TextOrValueSurvivesForm<T>(c: Codec, from: Json -> Option<T>, v: Json)
    requires Lawful(c)
    ensures FromStringOrValue(c, from, Str(FormText(c, v))) == FromStringOrValue(c, from, v)
  {
    if !v.Str? {
      assert c.parseText(c.printText(v)) == Some(v);
    }
  }

  lemma FormRoundTrip(c: Codec, o: Entries)
    requires Lawful(c)
    ensures var form := c.decodeForm(c.encodeForm(FlattenForForm(c, o)));
            form.Some? && FormAsObject(form.value) == ThroughForm(c, o)
  {
    var form := FlattenForForm(c, o);
    assert c.decodeForm(c.encodeForm(form)) == Some(form);
    assert FormAsObject(form) == ThroughForm(c, o);
  }
}
