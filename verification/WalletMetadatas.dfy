// Wallet metadata: an untyped object and, beside it, fields read out of it once
// (src/core/metadata/mod.rs).
module WalletMetadatas {
  import opened Wrappers
  import opened JsonValues
  import opened ClaimFormats
  import opened DefinitionForms
  import opened Objects
  import opened ClientIds
  import opened RequestParameters

  // The value of a metadata object.
  datatype Metadata = Metadata(
    inner: Entries,
    authorizationEndpoint: Url,
    vpFormats: ClaimFormatMap,
    responseTypes: seq<ResponseType>,
    clientIdPrefixes: seq<ClientIdPrefix>,
    signingAlgs: seq<string>,
    subjectSyntaxTypes: seq<string>)

  function GetOrElse<T>(o: Entries, p: TypedParameter<T>, default: T): T {
    match Get(o, p)
    case Present(t) => t
    case _ => default
  }

  // `TryFrom<UntypedObject>`: three entries are required; the others fall back to their
  // defaults also when they do not parse.
  function ParseMetadata(s: Serde, o: Entries): Option<Metadata> {
    match (Get(o, EndpointParameter(s.codec)), Get(o, VpFormatsParameter(s)), Get(o, RESPONSE_TYPES))
    case (Present(endpoint), Present(formats), Present(types)) =>
      Some(Metadata(o, endpoint, formats, types,
                    GetOrElse(o, CLIENT_ID_PREFIXES, DEFAULT_PREFIXES),
                    GetOrElse(o, SIGNING_ALGS, DEFAULT_SIGNING_ALGS),
                    GetOrElse(o, SUBJECT_SYNTAX_TYPES, DEFAULT_SUBJECT_SYNTAX_TYPES)))
    case _ => None
  }

  // `From<WalletMetadata>`: only the endpoint and the formats are written back.
  function ToEntries(s: Serde, m: Metadata): Entries {
    Inserted(Inserted(m.inner, EndpointParameter(s.codec), m.authorizationEndpoint), VpFormatsParameter(s), m.vpFormats)
  }

  // What is read out of an object that is metadata, with the defaults of what is not there or
  // does not parse.
  lemma ParsedMetadata(s: Serde, o: Entries)
    ensures ParseMetadata(s, o).Some? <==>
            && Get(o, EndpointParameter(s.codec)).Present?
            && Get(o, VpFormatsParameter(s)).Present?
            && Get(o, RESPONSE_TYPES).Present?
    ensures ParseMetadata(s, o).Some? ==>
              var m := ParseMetadata(s, o).value;
              var prefixes, algs, types := Get(o, CLIENT_ID_PREFIXES), Get(o, SIGNING_ALGS), Get(o, SUBJECT_SYNTAX_TYPES);
              && m.inner == o
              && Get(o, EndpointParameter(s.codec)) == Present(m.authorizationEndpoint)
              && Get(o, VpFormatsParameter(s)) == Present(m.vpFormats)
              && Get(o, RESPONSE_TYPES) == Present(m.responseTypes)
              && m.clientIdPrefixes == (if prefixes.Present? then prefixes.value else [PreRegistered])
              && m.signingAlgs == (if algs.Present? then algs.value else ["ES256"])
              && m.subjectSyntaxTypes ==
                 (if types.Present? then types.value else ["urn:ietf:params:oauth:jwk-thumbprint", "did:key"])
  {
  }

  // ---- The mutators, as functions; an error leaves the metadata as it is ----

  datatype Mutation =
    | AddPrefixes(prefixes: seq<ClientIdPrefix>)
    | AddSigningAlg(alg: string)
    | SetVpFormats(formats: ClaimFormatMap)

  function Apply(m: Metadata, step: Mutation): Metadata {
    match step
    case AddPrefixes(ps) =>
      (match GetOrDefault(m.inner, CLIENT_ID_PREFIXES, DEFAULT_PREFIXES)
       case Some(current) => m.(inner := Inserted(m.inner, CLIENT_ID_PREFIXES, current + ps))
       case None => m)
    case AddSigningAlg(alg) =>
      (match GetOrDefault(m.inner, SIGNING_ALGS, DEFAULT_SIGNING_ALGS)
       case Some(current) => m.(inner := Inserted(m.inner, SIGNING_ALGS, current + [alg]))
       case None => m)
    case SetVpFormats(formats) => m.(vpFormats := formats)
  }

  function Run(m: Metadata, steps: seq<Mutation>): Metadata {
    if steps == [] then m
    else Apply(Run(m, steps[..|steps| - 1]), steps[|steps| - 1])
  }

  class WalletMetadata {
    const inner: UntypedObject
    const authorizationEndpoint: Url
    var vpFormats: ClaimFormatMap
    const responseTypes: seq<ResponseType>
    const clientIdPrefixes: seq<ClientIdPrefix>
    const signingAlgs: seq<string>
    const subjectSyntaxTypes: seq<string>

    function State(): Metadata
      reads this, inner
    {
      Metadata(inner.entries, authorizationEndpoint, vpFormats, responseTypes, clientIdPrefixes, signingAlgs,
               subjectSyntaxTypes)
    }

    constructor (m: Metadata)
      ensures fresh(inner) && State() == m
    {
      inner := new UntypedObject(m.inner);
      authorizationEndpoint := m.authorizationEndpoint;
      vpFormats := m.vpFormats;
      responseTypes := m.responseTypes;
      clientIdPrefixes := m.clientIdPrefixes;
      signingAlgs := m.signingAlgs;
      subjectSyntaxTypes := m.subjectSyntaxTypes;
    }

    method AddClientIdPrefixesSupported(prefixes: seq<ClientIdPrefix>) returns (ok: bool)
      modifies inner
      ensures State() == Apply(old(State()), AddPrefixes(prefixes))
      ensures ok <==> Get(old(inner.entries), CLIENT_ID_PREFIXES) != Malformed
    {
      var supported := GetOrDefault(inner.entries, CLIENT_ID_PREFIXES, DEFAULT_PREFIXES);
      if supported.None? {
        return false;
      }
      var _ := inner.Insert(CLIENT_ID_PREFIXES, supported.value + prefixes);
      return true;
    }

    method AddRequestObjectSigningAlg(alg: string) returns (ok: bool)
      modifies inner
      ensures State() == Apply(old(State()), AddSigningAlg(alg))
      ensures ok <==> Get(old(inner.entries), SIGNING_ALGS) != Malformed
    {
      var supported := GetOrDefault(inner.entries, SIGNING_ALGS, DEFAULT_SIGNING_ALGS);
      if supported.None? {
        return false;
      }
      var _ := inner.Insert(SIGNING_ALGS, supported.value + [alg]);
      return true;
    }

    // Stands for writing through `vp_formats_supported_mut`.
    method SetVpFormatsSupported(formats: ClaimFormatMap)
      modifies this`vpFormats
      ensures State() == Apply(old(State()), SetVpFormats(formats))
    {
      vpFormats := formats;
    }
  }

  // ---- Runs of the mutators ----

  function PrefixesOf(step: Mutation): seq<ClientIdPrefix> {
    if step.AddPrefixes? then step.prefixes else []
  }

  // All prefixes added by a run, in order.
  function AddedPrefixes(steps: seq<Mutation>): seq<ClientIdPrefix> {
    if steps == [] then []
    else
      var last := steps[|steps| - 1];
      AddedPrefixes(steps[..|steps| - 1]) + PrefixesOf(last)
  }

  function AlgsOf(step: Mutation): seq<string> {
    if step.AddSigningAlg? then [step.alg] else []
  }

  // All signing algorithms added by a run, in order.
  function AddedAlgs(steps: seq<Mutation>): seq<string> {
    if steps == [] then []
    else
      var last := steps[|steps| - 1];
      AddedAlgs(steps[..|steps| - 1]) + AlgsOf(last)
  }

  // The VP formats after a run: those set last, or the original ones.
  function LastFormats(original: ClaimFormatMap, steps: seq<Mutation>): ClaimFormatMap {
    if steps == [] then original
    else
      var last := steps[|steps| - 1];
      if last.SetVpFormats? then last.formats else LastFormats(original, steps[..|steps| - 1])
  }

  // Parsed from an object whose prefix list, if any, is well formed.
  ghost predicate WellFormedParse(s: Serde, m: Metadata) {
    ParseMetadata(s, m.inner) == Some(m) && Get(m.inner, CLIENT_ID_PREFIXES) != Malformed
  }

  // Parsing the metadata's object again agrees with it, except that its prefixes may have
  // grown to `prefixes`, its VP formats be set, and its signing algorithms be added to.
  ghost predicate InStep(s: Serde, m: Metadata, start: Metadata, prefixes: seq<ClientIdPrefix>) {
    && GetOrDefault(m.inner, CLIENT_ID_PREFIXES, DEFAULT_PREFIXES) == Some(prefixes)
    && Get(m.inner, EndpointParameter(s.codec)) == Present(start.authorizationEndpoint)
    && Get(m.inner, RESPONSE_TYPES) == Present(start.responseTypes)
    && GetOrElse(m.inner, SUBJECT_SYNTAX_TYPES, DEFAULT_SUBJECT_SYNTAX_TYPES) == start.subjectSyntaxTypes
    && m.clientIdPrefixes == start.clientIdPrefixes
    && m.authorizationEndpoint == start.authorizationEndpoint
    && m.responseTypes == start.responseTypes
    && m.subjectSyntaxTypes == start.subjectSyntaxTypes
  }

  lemma StepStaysInStep(s: Serde, m: Metadata, start: Metadata, prefixes: seq<ClientIdPrefix>, step: Mutation,
                        after: seq<ClientIdPrefix>)
    requires InStep(s, m, start, prefixes) && after == prefixes + PrefixesOf(step)
    ensures InStep(s, Apply(m, step), start, after)
  {
    match step
    case AddPrefixes(ps) => PrefixesRoundTrip(prefixes + ps);
    case AddSigningAlg(_) => assert prefixes + [] == prefixes;
    case SetVpFormats(_) => assert prefixes + [] == prefixes;
  }

  lemma StartsInStep(s: Serde, start: Metadata)
    requires WellFormedParse(s, start)
    ensures InStep(s, start, start, start.clientIdPrefixes)
  {
  }

  lemma AddedByLast(prefixes: seq<ClientIdPrefix>, steps: seq<Mutation>, n: nat)
    requires |steps| == n + 1
    ensures prefixes + AddedPrefixes(steps) == prefixes + AddedPrefixes(steps[..n]) + PrefixesOf(steps[n])
  {
  }

  lemma {:induction false} RunStaysInStep(s: Serde, start: Metadata, prefixes: seq<ClientIdPrefix>, steps: seq<Mutation>)
    requires InStep(s, start, start, prefixes)
    ensures InStep(s, Run(start, steps), start, prefixes + AddedPrefixes(steps))
    decreases |steps|
  {
    if steps == [] {
      assert prefixes + [] == prefixes;
    } else {
      var n := |steps| - 1;
      var before, after := prefixes + AddedPrefixes(steps[..n]), prefixes + AddedPrefixes(steps);
      RunStaysInStep(s, start, prefixes, steps[..n]);
      AddedByLast(prefixes, steps, n);
      StepStaysInStep(s, Run(start, steps[..n]), start, before, steps[n], after);
    }
  }

  lemma {:induction false} RunFormats(start: Metadata, steps: seq<Mutation>)
    ensures Run(start, steps).vpFormats == LastFormats(start.vpFormats, steps)
    decreases |steps|
  {
    if steps != [] {
      RunFormats(start, steps[..|steps| - 1]);
    }
  }

  // The object's list of algorithms is the cached one and `algs`, or was malformed and is left
  // alone; the cached one never moves.
  ghost predicate AlgsInStep(m: Metadata, start: Metadata, algs: seq<string>) {
    && m.signingAlgs == start.signingAlgs
    && if Get(start.inner, SIGNING_ALGS).Malformed? then Get(m.inner, SIGNING_ALGS).Malformed?
       else GetOrDefault(m.inner, SIGNING_ALGS, DEFAULT_SIGNING_ALGS) == Some(start.signingAlgs + algs)
  }

  lemma AlgsStayInStep(m: Metadata, start: Metadata, algs: seq<string>, step: Mutation, after: seq<string>)
    requires AlgsInStep(m, start, algs) && after == algs + AlgsOf(step)
    ensures AlgsInStep(Apply(m, step), start, after)
  {
    match step
    case AddSigningAlg(alg) =>
      StringsRoundTrip(start.signingAlgs + algs + [alg]);
      assert start.signingAlgs + algs + [alg] == start.signingAlgs + after;
    case _ => assert after == algs;
  }

  lemma {:induction false} RunKeepsAlgs(start: Metadata, steps: seq<Mutation>)
    requires AlgsInStep(start, start, [])
    ensures AlgsInStep(Run(start, steps), start, AddedAlgs(steps))
    decreases |steps|
  {
    if steps != [] {
      var n := |steps| - 1;
      RunKeepsAlgs(start, steps[..n]);
      AlgsStayInStep(Run(start, steps[..n]), start, AddedAlgs(steps[..n]), steps[n], AddedAlgs(steps));
    }
  }

  lemma AlgsStartInStep(s: Serde, start: Metadata)
    requires ParseMetadata(s, start.inner) == Some(start)
    ensures AlgsInStep(start, start, [])
  {
    assert start.signingAlgs + [] == start.signingAlgs;
  }

  // Over any run of the mutators the object's prefix list is the cached list followed by
  // everything added, in order, and so is its list of algorithms; the cached lists never move,
  // and the formats are those set last.
  lemma RunKeepsInStep(s: Serde, start: Metadata, steps: seq<Mutation>)
    requires WellFormedParse(s, start)
    ensures InStep(s, Run(start, steps), start, start.clientIdPrefixes + AddedPrefixes(steps))
    ensures Run(start, steps).vpFormats == LastFormats(start.vpFormats, steps)
    ensures AlgsInStep(Run(start, steps), start, AddedAlgs(steps))
  {
    AlgsStartInStep(s, start);
    RunKeepsAlgs(start, steps);
    StartsInStep(s, start);
    RunStaysInStep(s, start, start.clientIdPrefixes, steps);
    RunFormats(start, steps);
  }

  // Writing the metadata out after any run and parsing it again succeeds exactly when the
  // formats last set parse from their own JSON form, and brings the two views together: the
  // prefixes now cached are those of the object, added ones included, and the formats are
  // those read, which are those set exactly when they are canonical.
  lemma ReparseAfterRun(s: Serde, start: Metadata, steps: seq<Mutation>)
    requires Lawful(s.codec) && WellFormedParse(s, start)
    ensures var formats := LastFormats(start.vpFormats, steps);
            var read := s.parts.formatsFromJson(s.parts.formatsToJson(formats));
            var reparsed := ParseMetadata(s, ToEntries(s, Run(start, steps)));
            && (reparsed.Some? <==> read.Some?)
            && (reparsed.Some? ==>
                  && reparsed.value.clientIdPrefixes == start.clientIdPrefixes + AddedPrefixes(steps)
                  && GetOrDefault(reparsed.value.inner, CLIENT_ID_PREFIXES, DEFAULT_PREFIXES)
                     == Some(reparsed.value.clientIdPrefixes)
                  && reparsed.value.authorizationEndpoint == start.authorizationEndpoint
                  && reparsed.value.vpFormats == read.value
                  && (reparsed.value.vpFormats == formats <==> Canonical(s.parts, formats))
                  && reparsed.value.responseTypes == start.responseTypes
                  && reparsed.value.subjectSyntaxTypes == start.subjectSyntaxTypes)
  {
    var m := Run(start, steps);
    RunKeepsInStep(s, start, steps);
    WrittenEntries(s, m);
  }

  // The algorithms then cached are those of the object too, unless these were malformed.
  lemma ReparseAlgs(s: Serde, start: Metadata, steps: seq<Mutation>)
    requires Lawful(s.codec) && WellFormedParse(s, start)
    ensures var reparsed := ParseMetadata(s, ToEntries(s, Run(start, steps)));
            reparsed.Some? ==>
              reparsed.value.signingAlgs ==
              start.signingAlgs + if Get(start.inner, SIGNING_ALGS).Malformed? then [] else AddedAlgs(steps)
  {
    AlgsStartInStep(s, start);
    RunKeepsAlgs(start, steps);
    WrittenEntries(s, Run(start, steps));
  }

  // Writing metadata out sets the endpoint and the formats and keeps every other entry.
  lemma WrittenEntries(s: Serde, m: Metadata)
    requires Lawful(s.codec)
    ensures var o := ToEntries(s, m);
            && Get(o, EndpointParameter(s.codec)) == Present(m.authorizationEndpoint)
            && Get(o, VpFormatsParameter(s)).Value() == s.parts.formatsFromJson(s.parts.formatsToJson(m.vpFormats))
            && Get(o, RESPONSE_TYPES) == Get(m.inner, RESPONSE_TYPES)
            && Get(o, CLIENT_ID_PREFIXES) == Get(m.inner, CLIENT_ID_PREFIXES)
            && Get(o, SUBJECT_SYNTAX_TYPES) == Get(m.inner, SUBJECT_SYNTAX_TYPES)
            && Get(o, SIGNING_ALGS) == Get(m.inner, SIGNING_ALGS)
  {
    var endpoint := m.authorizationEndpoint;
    assert s.codec.parseUrl(s.codec.printUrl(endpoint)) == Some(endpoint);
  }

  // ---- Metadata as URL-encoded text ----

  // Unlike request parameters, every value goes in as JSON text, strings in their quotes.
  function EncodeMetadata(s: Serde, m: Metadata): string {
    var o := ToEntries(s, m);
    s.codec.encodeForm(map k | k in o :: s.codec.printText(o[k]))
  }

  // A value that is not JSON text is read as a bare string.
  function ValueFromText(s: Serde, text: string): Json {
    match s.codec.parseText(text)
    case Some(v) => v
    case None => Str(text)
  }

  function DecodeMetadata(s: Serde, text: string): Option<Metadata> {
    match s.codec.decodeForm(text)
    case Some(form) => ParseMetadata(s, map k | k in form :: ValueFromText(s, form[k]))
    case None => None
  }

  // Decoding the encoded metadata is parsing the entries it was written out as: here no
  // value is confused with its text.
  lemma MetadataUrlRoundTrip(s: Serde, m: Metadata)
    requires Lawful(s.codec)
    ensures DecodeMetadata(s, EncodeMetadata(s, m)) == ParseMetadata(s, ToEntries(s, m))
  {
    var o := ToEntries(s, m);
    var form := map k | k in o :: s.codec.printText(o[k]);
    assert s.codec.decodeForm(s.codec.encodeForm(form)) == Some(form);
    forall k | k in o
      ensures ValueFromText(s, form[k]) == o[k]
    {
      assert s.codec.parseText(s.codec.printText(o[k])) == Some(o[k]);
    }
    assert (map k | k in form :: ValueFromText(s, form[k])) == o;
  }

  // Metadata posted as requests are, with strings bare, are read as well, as long as no string
  // among them is JSON text itself.
  lemma MetadataFromForm(s: Serde, o: Entries)
    requires Lawful(s.codec)
    requires forall k :: k in o && o[k].Str? ==> s.codec.parseText(o[k].text) == None
    ensures DecodeMetadata(s, s.codec.encodeForm(FlattenForForm(s.codec, o))) == ParseMetadata(s, o)
  {
    var form := FlattenForForm(s.codec, o);
    assert s.codec.decodeForm(s.codec.encodeForm(form)) == Some(form);
    forall k | k in o
      ensures ValueFromText(s, form[k]) == o[k]
    {
      assert !o[k].Str? ==> s.codec.parseText(s.codec.printText(o[k])) == Some(o[k]);
    }
    assert (map k | k in form :: ValueFromText(s, form[k])) == o;
  }
}
