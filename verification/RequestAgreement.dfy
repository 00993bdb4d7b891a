// What the verifier builds, the wallet understands and accepts.
module RequestAgreement {
  import opened Wrappers
  import opened JsonValues
  import opened InputDescriptors
  import opened PresentationDefinitions
  import opened DefinitionForms
  import opened Dcql
  import opened Objects
  import opened ClientIds
  import opened RequestParameters
  import opened AuthorizationRequests
  import opened WalletMetadatas
  import opened RequestVerification
  import opened RequestBuilders

  // One attempt at building a request.
  datatype Attempt = Attempt(
    verifier: Verifier,
    parameters: Entries,
    dcql: Option<DCQL>,
    definition: Option<PresentationDefinition>,
    requestType: RequestType)

  ghost predicate Succeeds(s: Serde, a: Attempt, wallet: Metadata) {
    Builds(s, a.verifier, a.parameters, a.dcql, a.definition, wallet, a.requestType)
  }

  function WithItsQuery(s: Serde, a: Attempt): Entries {
    QueryParameters(s, a.verifier, a.parameters, a.dcql, a.definition)
  }

  // `o` is what the attempt's parameters end up as, and it is a request.
  ghost predicate EndsIn(s: Serde, a: Attempt, o: Entries) {
    && AddressParameters(s, WithItsQuery(s, a), a.verifier.submissionEndpoint, a.requestType) == Ok(o)
    && ParseRequest(s, o).Ok?
  }

  // The parameters a successful build ends with.
  ghost function Final(s: Serde, a: Attempt, wallet: Metadata): (o: Entries)
    requires Succeeds(s, a, wallet)
    ensures EndsIn(s, a, o)
  {
    AddressParameters(s, WithItsQuery(s, a), a.verifier.submissionEndpoint, a.requestType).value
  }

  ghost function EndpointOf(s: Serde, wallet: Metadata): Url
    requires Get(wallet.inner, EndpointParameter(s.codec)).Present?
  {
    Get(wallet.inner, EndpointParameter(s.codec)).value
  }

  // ---- What was asked for is what is built ----

  lemma AddressKeepsOthers(s: Serde, o: Entries, endpoint: Option<Url>, requestType: RequestType, key: string)
    requires AddressParameters(s, o, endpoint, requestType).Ok?
    requires key !in {"client_id", "response_uri", "redirect_uri"}
    ensures var o' := AddressParameters(s, o, endpoint, requestType).value;
            (key in o' <==> key in o) && (key in o ==> o'[key] == o[key])
  {
  }

  lemma QueryKeepsOthers(s: Serde, a: Attempt, key: string)
    requires key !in {"client_id", "dcql_query", "presentation_definition"}
    ensures var o := WithItsQuery(s, a);
            (key in o <==> key in a.parameters) && (key in o ==> o[key] == a.parameters[key])
  {
  }

  // A parameter that neither the query nor the response address touches.
  lemma UntouchedParameter<T>(s: Serde, a: Attempt, o: Entries, p: TypedParameter<T>)
    requires EndsIn(s, a, o)
    requires p.key !in {"client_id", "dcql_query", "presentation_definition", "response_uri", "redirect_uri"}
    ensures Get(o, p) == Get(a.parameters, p)
    ensures Get(WithItsQuery(s, a), p) == Get(a.parameters, p)
  {
    QueryKeepsOthers(s, a, p.key);
    AddressKeepsOthers(s, WithItsQuery(s, a), a.verifier.submissionEndpoint, a.requestType, p.key);
  }

  lemma ClientIdParameter(s: Serde, o: Entries, endpoint: Option<Url>, requestType: RequestType)
    requires AddressParameters(s, o, endpoint, requestType).Ok?
    ensures var o' := AddressParameters(s, o, endpoint, requestType).value;
            var dropped := requestType.PlainRequest? && Get(o, RESPONSE_MODE).Present? && Get(o, RESPONSE_MODE).value.IsDcApi();
            Get(o', CLIENT_ID) == if dropped then Missing else Get(o, CLIENT_ID)
  {
  }

  // A plain build in a Digital Credentials API mode drops the client id and then misses it:
  // no such build succeeds.
  lemma PlainDcApiNeverBuilds(s: Serde, a: Attempt, wallet: Metadata)
    requires a.requestType.PlainRequest?
    requires Get(a.parameters, RESPONSE_MODE).Present? && Get(a.parameters, RESPONSE_MODE).value.IsDcApi()
    ensures !Succeeds(s, a, wallet)
  {
    QueryKeepsOthers(s, a, "response_mode");
    var o := WithItsQuery(s, a);
    if AddressParameters(s, o, a.verifier.submissionEndpoint, a.requestType).Ok? {
      ClientIdParameter(s, o, a.verifier.submissionEndpoint, a.requestType);
      assert ParseRequest(s, AddressParameters(s, o, a.verifier.submissionEndpoint, a.requestType).value).Err?;
    }
  }

  ghost function QueryOf(a: Attempt): PresentationQuery
    requires a.dcql.Some? <==> a.definition.None?
  {
    match a.dcql
    case Some(q) => DcqlQuery(q)
    case None => DefinitionByValue(a.definition.value)
  }

  lemma WrittenClientId(s: Serde, a: Attempt)
    ensures Get(WithItsQuery(s, a), CLIENT_ID) == Present(a.verifier.client.id)
  {
    FullIdRoundTrip(a.verifier.client.id);
  }

  lemma ClientIdIsBuilt(s: Serde, a: Attempt, o: Entries)
    requires EndsIn(s, a, o)
    ensures ParseRequest(s, o).value.clientId == a.verifier.client.id
  {
    WrittenClientId(s, a);
    ClientIdParameter(s, WithItsQuery(s, a), a.verifier.submissionEndpoint, a.requestType);
    PartsOf(s, o);
  }

  // What the attempt's query is written as reads back as that query.
  ghost predicate OwnQueryReadsBack(s: Serde, a: Attempt)
    requires a.dcql.Some? <==> a.definition.None?
  {
    match a.dcql
    case None => DefinitionReadsBack(s.parts, a.definition.value)
    case Some(q) =>
      match s.dcqlToJson(q)
      case Some(v) => FromStringOrValue(s.codec, s.dcqlFromJson, v) == Some(q)
      case None => Get(a.parameters, DcqlParameter(s)) == Present(q)
  }

  // The definition among the final parameters is what its JSON form parses to.
  lemma DefinitionAsWritten(s: Serde, a: Attempt, o: Entries)
    requires AddressParameters(s, WithItsQuery(s, a), a.verifier.submissionEndpoint, a.requestType) == Ok(o)
    requires a.dcql.None? && a.definition.Some?
    ensures var read := DefinitionFromJson(s.parts, DefinitionToJson(s.parts, a.definition.value));
            Get(o, DefinitionParameter(s)) == if read.Some? then Present(read.value) else Malformed
  {
    AddressKeepsOthers(s, WithItsQuery(s, a), a.verifier.submissionEndpoint, a.requestType, "presentation_definition");
    assert o["presentation_definition"] == DefinitionToJson(s.parts, a.definition.value);
  }

  lemma DefinitionIsBuilt(s: Serde, a: Attempt, o: Entries)
    requires EndsIn(s, a, o) && a.dcql.None? && a.definition.Some?
    ensures ParseRequest(s, o).value.presentationQuery == DefinitionByValue(a.definition.value) <==>
            DefinitionReadsBack(s.parts, a.definition.value)
  {
    PartsOf(s, o);
    DefinitionAsWritten(s, a, o);
    DefinitionReadsBackIff(s.parts, a.definition.value);
  }

  lemma DcqlIsBuilt(s: Serde, a: Attempt, o: Entries)
    requires EndsIn(s, a, o) && a.dcql.Some? && a.definition.None?
    ensures ParseRequest(s, o).value.presentationQuery == DcqlQuery(a.dcql.value) <==> OwnQueryReadsBack(s, a)
  {
    PartsOf(s, o);
    AddressKeepsOthers(s, WithItsQuery(s, a), a.verifier.submissionEndpoint, a.requestType, "dcql_query");
  }

  lemma QueryIsBuilt(s: Serde, a: Attempt, o: Entries)
    requires EndsIn(s, a, o) && (a.dcql.Some? <==> a.definition.None?)
    ensures ParseRequest(s, o).value.presentationQuery == QueryOf(a) <==> OwnQueryReadsBack(s, a)
  {
    match a.dcql
    case Some(_) => DcqlIsBuilt(s, a, o);
    case None => DefinitionIsBuilt(s, a, o);
  }

  // A definition with a descriptor that has no constraint fields is never built into a
  // request: the parser of the final parameters refuses what the builder has written.
  lemma UnconstrainedDescriptorNeverBuilds(s: Serde, a: Attempt, wallet: Metadata)
    requires a.definition.Some?
    requires exists x :: x in a.definition.value.inputDescriptors && x.constraints.IsEmpty()
    ensures !Succeeds(s, a, wallet)
  {
    var addressed := AddressParameters(s, WithItsQuery(s, a), a.verifier.submissionEndpoint, a.requestType);
    if a.dcql.None? && addressed.Ok? {
      MalformedDefinitionIsRefused(s, a, addressed.value);
    }
  }

  lemma MalformedDefinitionIsRefused(s: Serde, a: Attempt, o: Entries)
    requires AddressParameters(s, WithItsQuery(s, a), a.verifier.submissionEndpoint, a.requestType) == Ok(o)
    requires a.dcql.None? && a.definition.Some?
    requires exists x :: x in a.definition.value.inputDescriptors && x.constraints.IsEmpty()
    ensures ParseRequest(s, o).Err?
  {
    DefinitionAsWritten(s, a, o);
    DefinitionReadsBackIff(s.parts, a.definition.value);
    QueryParsesIff(s, o);
  }

  lemma AddressIsBuilt(s: Serde, a: Attempt, o: Entries)
    requires Lawful(s.codec) && EndsIn(s, a, o)
    ensures var r := ParseRequest(s, o).value;
            && Get(a.parameters, RESPONSE_MODE) == Present(r.responseMode)
            && (r.responseMode.IsDcApi() ==> a.requestType.SignedJwt?)
            && r.returnUri == (if r.responseMode.IsDcApi() then None else a.verifier.submissionEndpoint)
            && (!r.responseMode.IsDcApi() ==> r.returnUri.Some?)
  {
    var before := WithItsQuery(s, a);
    UntouchedParameter(s, a, o, RESPONSE_MODE);
    PartsOf(s, o);
    ClientIdParameter(s, before, a.verifier.submissionEndpoint, a.requestType);
    ReturnIsEndpoint(s, before, a.verifier.submissionEndpoint, a.requestType);
  }

  lemma ReturnIsEndpoint(s: Serde, o: Entries, endpoint: Option<Url>, requestType: RequestType)
    requires Lawful(s.codec)
    requires var addressed := AddressParameters(s, o, endpoint, requestType);
             addressed.Ok? && ParseReturn(s, addressed.value).Ok?
    ensures var (uri, mode) := ParseReturn(s, AddressParameters(s, o, endpoint, requestType).value).value;
            && Get(o, RESPONSE_MODE) == Present(mode)
            && uri == (if mode.IsDcApi() then None else endpoint)
            && (!mode.IsDcApi() ==> endpoint.Some?)
  {
    AddressKeepsOthers(s, o, endpoint, requestType, "response_mode");
    if endpoint.Some? {
      assert s.codec.parseUrl(s.codec.printUrl(endpoint.value)) == Some(endpoint.value);
    }
  }

  lemma NoneReserved(s: Serde, a: Attempt, o: Entries)
    requires EndsIn(s, a, o)
    ensures HasReserved(o) <==> HasReserved(a.parameters)
  {
    UntouchedParameter(s, a, o, TextParameter("request"));
    UntouchedParameter(s, a, o, TextParameter("request_uri"));
  }

  // The URL a plain request goes out as.
  lemma PlainUrlOf(s: Serde, a: Attempt, wallet: Metadata)
    requires Succeeds(s, a, wallet) && a.requestType.PlainRequest?
    ensures Answer(s, a.verifier.client, Final(s, a, wallet), wallet, a.requestType).url
            == IntoUrl(s, ParseRequest(s, Final(s, a, wallet)).value, EndpointOf(s, wallet))
    ensures a.dcql.Some? <==> a.definition.None?
  {
  }

  // A plain request the builder returns is read back by the wallet from its URL with the
  // client's id, the return URI of the verifier and the mode, type, nonce and client metadata
  // of the parameters, unless a parameter named `request` or `request_uri` was among them;
  // and with the query asked for exactly when that query reads back from its own JSON form.
  lemma PlainBuildRoundTrip(s: Serde, a: Attempt, wallet: Metadata)
    requires Lawful(s.codec) && Succeeds(s, a, wallet) && a.requestType.PlainRequest?
    requires !HasReserved(a.parameters)
    ensures a.dcql.Some? <==> a.definition.None?
    ensures var built := Answer(s, a.verifier.client, Final(s, a, wallet), wallet, a.requestType);
            var parsed := FromUrl(s, built.url, EndpointOf(s, wallet));
            && parsed.Ok? && parsed.value.Plain?
            && IsReadBack(s, a, Final(s, a, wallet), parsed.value.request)
            && (parsed.value.request.presentationQuery == QueryOf(a) <==> OwnQueryReadsBack(s, a))
  {
    PlainUrlOf(s, a, wallet);
    QueryIsBuilt(s, a, Final(s, a, wallet));
    ReadBackFromUrl(s, a, Final(s, a, wallet), EndpointOf(s, wallet));
  }

  // All the wallet reads but the query is what the verifier asked for.
  ghost predicate IsReadBack(s: Serde, a: Attempt, o: Entries, r: AuthorizationRequestObject) {
    && r.clientId == a.verifier.client.id
    && r.returnUri == a.verifier.submissionEndpoint && r.returnUri.Some?
    && Present(r.responseMode) == Get(a.parameters, RESPONSE_MODE)
    && Present(r.responseType) == Get(a.parameters, RESPONSE_TYPE)
    && Present(r.nonce) == Get(a.parameters, NONCE)
    && Present(r.clientMetadata) == Get(a.parameters, ClientMetadataParameter(s.codec))
    && r.inner == ThroughForm(s.codec, o)
  }

  lemma ReadBackFromUrl(s: Serde, a: Attempt, o: Entries, endpoint: Url)
    requires Lawful(s.codec) && EndsIn(s, a, o)
    requires a.requestType.PlainRequest? && !HasReserved(a.parameters)
    ensures var parsed := FromUrl(s, IntoUrl(s, ParseRequest(s, o).value, endpoint), endpoint);
            && parsed.Ok? && parsed.value.Plain?
            && IsReadBack(s, a, o, parsed.value.request)
            && parsed.value.request.presentationQuery == ParseRequest(s, o).value.presentationQuery
  {
    PartsOf(s, o);
    ClientIdIsBuilt(s, a, o);
    AddressIsBuilt(s, a, o);
    UntouchedParameter(s, a, o, RESPONSE_TYPE);
    UntouchedParameter(s, a, o, NONCE);
    UntouchedParameter(s, a, o, ClientMetadataParameter(s.codec));
    NoneReserved(s, a, o);
    PlainUrlRoundTrip(s, o, endpoint);
  }

  // ---- The wallet's checks on what was built ----

  // The two views of the metadata fit: its own prefix list names every prefix of the cached
  // one, and its endpoint is the cached one.
  ghost predicate ViewsAgree(s: Serde, wallet: Metadata) {
    var listed := GetOrDefault(wallet.inner, CLIENT_ID_PREFIXES, DEFAULT_PREFIXES);
    && listed.Some? && (forall p :: p in wallet.clientIdPrefixes ==> p in listed.value)
    && Get(wallet.inner, EndpointParameter(s.codec)) == Present(wallet.authorizationEndpoint)
  }

  // So they do after any run of the mutators on well-formed metadata.
  lemma ViewsAgreeAfterRun(s: Serde, start: Metadata, steps: seq<Mutation>)
    requires WellFormedParse(s, start)
    ensures ViewsAgree(s, Run(start, steps))
  {
    RunKeepsInStep(s, start, steps);
  }

  // The two checks on a client's prefix, over the list of the metadata's object on the
  // wallet's side and over the cached list on the builder's, agree after any run exactly on
  // the prefixes that no mutator has added or that were cached before.
  lemma PrefixChecksAgreeIff(s: Serde, start: Metadata, steps: seq<Mutation>, p: ClientIdPrefix)
    requires WellFormedParse(s, start)
    ensures var wallet := Run(start, steps);
            var listed := GetOrDefault(wallet.inner, CLIENT_ID_PREFIXES, DEFAULT_PREFIXES);
            && listed.Some?
            && ((p in listed.value <==> p in wallet.clientIdPrefixes) <==>
                p !in AddedPrefixes(steps) || p in start.clientIdPrefixes)
  {
    RunKeepsInStep(s, start, steps);
  }

  // Where they differ the wallet's check knows the prefix and the builder refuses it.
  lemma AddedPrefixIsStillRefused(s: Serde, a: Attempt, start: Metadata, steps: seq<Mutation>)
    requires WellFormedParse(s, start)
    requires a.verifier.client.prefix in AddedPrefixes(steps)
    requires a.verifier.client.prefix !in start.clientIdPrefixes
    ensures GetOrDefault(Run(start, steps).inner, CLIENT_ID_PREFIXES, DEFAULT_PREFIXES).Some?
    ensures a.verifier.client.prefix in GetOrDefault(Run(start, steps).inner, CLIENT_ID_PREFIXES, DEFAULT_PREFIXES).value
    ensures !Succeeds(s, a, Run(start, steps))
  {
    RunKeepsInStep(s, start, steps);
  }

  // Two forms of one request: the entries differ, what is read out of them does not.
  ghost predicate SameReading(s: Serde, o: Entries, o': Entries) {
    && Get(o', RESPONSE_TYPE) == Get(o, RESPONSE_TYPE)
    && Get(o', ClientMetadataParameter(s.codec)) == Get(o, ClientMetadataParameter(s.codec))
  }

  // The response type check the builder made still holds of the final parameters, in either form.
  lemma TypeStillAccepted(s: Serde, a: Attempt, o: Entries, wallet: Metadata, o': Entries)
    requires EndsIn(s, a, o) && ResponseTypeAccepted(s, WithItsQuery(s, a), wallet)
    requires SameReading(s, o, o')
    ensures ResponseTypeAccepted(s, o', wallet)
  {
    UntouchedParameter(s, a, o, RESPONSE_TYPE);
    UntouchedParameter(s, a, o, ClientMetadataParameter(s.codec));
  }

  // With prefix and response type accepted, the wallet has nothing left to object to but the
  // VP formats, at which the builder does not look.
  lemma OnlyFormatsRemain(s: Serde, wallet: Metadata, r: AuthorizationRequestObject, clientMetadata: Entries)
    requires ResponseTypeAccepted(s, r.inner, wallet) && ViewsAgree(s, wallet)
    requires r.clientId.prefix in wallet.clientIdPrefixes
    requires Get(r.inner, ClientMetadataParameter(s.codec)) == Present(clientMetadata)
    ensures ValidateAgainstMetadata(s, r, wallet) ==
            if FormatsAccepted(s, clientMetadata, wallet.vpFormats) then Ok(()) else Err(VpFormatsNotSupported)
  {
    WalletTypeCheck(s, r.inner, wallet);
    FormatsAcceptedIff(s, clientMetadata, wallet);
  }

  lemma ThroughFormReading(s: Serde, o: Entries)
    requires Lawful(s.codec) && ParseRequest(s, o).Ok?
    ensures SameReading(s, o, ThroughForm(s.codec, o))
  {
    PartsOf(s, o);
    RequestSurvivesForm(s, o);
    PartsOf(s, ThroughForm(s.codec, o));
  }

  lemma PlainVerdict(s: Serde, a: Attempt, o: Entries, wallet: Metadata, r: AuthorizationRequestObject, hook: Hook)
    requires EndsIn(s, a, o)
    requires ResponseTypeAccepted(s, WithItsQuery(s, a), wallet) && a.verifier.client.prefix in wallet.clientIdPrefixes
    requires ViewsAgree(s, wallet) && a.verifier.client.prefix == a.verifier.client.id.prefix
    requires r.clientId == a.verifier.client.id && r.returnUri.Some? && SameReading(s, o, r.inner)
    requires r.clientMetadata == ParseRequest(s, o).value.clientMetadata
    ensures VerifyPlain(s, r, wallet, hook).Ok? <==> hook(r) && FormatsAccepted(s, r.clientMetadata, wallet.vpFormats)
  {
    PartsOf(s, o);
    TypeStillAccepted(s, a, o, wallet, r.inner);
    OnlyFormatsRemain(s, wallet, r, r.clientMetadata);
  }

  // End to end, plain: a wallet that reads the built URL, on metadata whose two prefix lists
  // agree, accepts the request exactly when its own hook does and the VP formats overlap.
  lemma PlainRequestIsAccepted(s: Serde, a: Attempt, wallet: Metadata, hook: Hook)
    requires Lawful(s.codec) && Succeeds(s, a, wallet) && ViewsAgree(s, wallet)
    requires a.requestType.PlainRequest? && !HasReserved(a.parameters)
    requires a.verifier.client.prefix == a.verifier.client.id.prefix
    ensures var built := Answer(s, a.verifier.client, Final(s, a, wallet), wallet, a.requestType);
            var parsed := FromUrl(s, built.url, wallet.authorizationEndpoint);
            && parsed.Ok? && parsed.value.Plain?
            && (VerifyPlain(s, parsed.value.request, wallet, hook).Ok? <==>
                hook(parsed.value.request) && FormatsAccepted(s, parsed.value.request.clientMetadata, wallet.vpFormats))
  {
    PlainBuildRoundTrip(s, a, wallet);
    PartsOf(s, Final(s, a, wallet));
    ThroughFormReading(s, Final(s, a, wallet));
    UntouchedParameter(s, a, Final(s, a, wallet), ClientMetadataParameter(s.codec));
    var built := Answer(s, a.verifier.client, Final(s, a, wallet), wallet, a.requestType);
    PlainVerdict(s, a, Final(s, a, wallet), wallet, FromUrl(s, built.url, EndpointOf(s, wallet)).value.request, hook);
  }

  // The URL and the JWT a signed request goes out as.
  lemma SignedAnswerOf(s: Serde, a: Attempt, wallet: Metadata)
    requires Succeeds(s, a, wallet) && a.requestType.SignedJwt?
    ensures var built := Answer(s, a.verifier.client, Final(s, a, wallet), wallet, a.requestType);
            && built.jwt.Some?
            && built.url == SignedIntoUrl(s, SignedRequestFor(a.verifier.client, a.requestType, built.jwt.value),
                                          EndpointOf(s, wallet))
  {
  }

  lemma NonceIsKept(s: Serde, a: Attempt, o: Entries, issued: string -> bool)
    requires EndsIn(s, a, o)
    ensures ValidateNonce(AuthorizationRequests.ToEntries(ParseRequest(s, o).value), issued) == ValidateNonce(a.parameters, issued)
  {
    PartsOf(s, o);
    UntouchedParameter(s, a, o, WALLET_NONCE);
  }

  lemma SignedVerdict(s: Serde, a: Attempt, o: Entries, wallet: Metadata, signed: SignedAuthorizationRequest, hook: Hook,
                      issued: string -> bool)
    requires EndsIn(s, a, o)
    requires ResponseTypeAccepted(s, WithItsQuery(s, a), wallet) && a.verifier.client.prefix in wallet.clientIdPrefixes
    requires ViewsAgree(s, wallet) && a.verifier.client.prefix == a.verifier.client.id.prefix
    requires signed.clientId == a.verifier.client.id.FullId()
    ensures var request := ParseRequest(s, o).value;
            var body := AuthorizationRequests.ToEntries(request);
            && SameClient(signed, request)
            && (ResolveSigned(s, signed, Some(body), wallet, hook, issued).Ok? <==>
                && hook(request.(inner := body))
                && FormatsAccepted(s, request.clientMetadata, wallet.vpFormats)
                && ValidateNonce(a.parameters, issued).Ok?)
  {
    var request := ParseRequest(s, o).value;
    var body := AuthorizationRequests.ToEntries(request);
    ClientIdIsBuilt(s, a, o);
    SignedBodyRoundTrip(s, o);
    PartsOf(s, o);
    PartsOf(s, body);
    NonceIsKept(s, a, o, issued);
    TypeStillAccepted(s, a, o, wallet, body);
    OnlyFormatsRemain(s, wallet, request.(inner := body), request.clientMetadata);
  }

  // End to end, signed: the URL carries the signed request, and once the wallet has a JWT
  // that decodes to the object signed, the two client ids agree and again only the hook, the
  // VP formats and the wallet nonce, if one was asked for, decide.
  lemma SignedRequestIsAccepted(s: Serde, a: Attempt, wallet: Metadata, hook: Hook, issued: string -> bool)
    requires Lawful(s.codec) && Succeeds(s, a, wallet) && ViewsAgree(s, wallet)
    requires a.requestType.SignedJwt?
    requires a.verifier.client.prefix == a.verifier.client.id.prefix
    ensures var built := Answer(s, a.verifier.client, Final(s, a, wallet), wallet, a.requestType);
            && built.jwt.Some?
            && var signed := SignedRequestFor(a.verifier.client, a.requestType, built.jwt.value);
               var request := ParseRequest(s, Final(s, a, wallet)).value;
               var body := AuthorizationRequests.ToEntries(request);
               && FromUrl(s, built.url, wallet.authorizationEndpoint) == Ok(Signed(signed))
               && SameClient(signed, request)
               && (ResolveSigned(s, signed, Some(body), wallet, hook, issued).Ok? <==>
                   && hook(request.(inner := body))
                   && FormatsAccepted(s, request.clientMetadata, wallet.vpFormats)
                   && ValidateNonce(a.parameters, issued).Ok?)
  {
    SignedAnswerOf(s, a, wallet);
    var built := Answer(s, a.verifier.client, Final(s, a, wallet), wallet, a.requestType);
    var signed := SignedRequestFor(a.verifier.client, a.requestType, built.jwt.value);
    SignedUrlRoundTrip(s, signed, EndpointOf(s, wallet));
    SignedVerdict(s, a, Final(s, a, wallet), wallet, signed, hook, issued);
  }

  // ---- Builds there are ----

  const SOME_ENDPOINT := Url("openid4vp", "", "", None)

  const SOME_PARAMETERS: Entries :=
    map["response_type" := Str("vp_token"), "response_mode" := Str("direct_post"), "nonce" := Str("n"),
        "client_metadata" := Object(map[])]

  const SOME_CLIENT_ID := ClientId("verifier", PreRegistered)

  const SOME_FIELD := ConstraintsField(["$"], None, None, None, None, None, false)

  const SOME_DEFINITION :=
    PresentationDefinition("d", [InputDescriptor("a", Constraints([SOME_FIELD]), map[], [])], None, map[])

  // All that is asked of the conversions of the parts: this one field reads back.
  predicate SomeFieldReadsBack(s: Serde) {
    s.parts.fieldFromJson(s.parts.fieldToJson(SOME_FIELD)) == Some(SOME_FIELD)
  }

  // A pre-registered verifier asking for one descriptor by direct post.
  function SomeAttempt(): Attempt {
    Attempt(
      Verifier(Client(SOME_CLIENT_ID, PreRegistered, r => None), SOME_PARAMETERS, Some(SOME_ENDPOINT)),
      SOME_PARAMETERS, None, Some(SOME_DEFINITION), PlainRequest)
  }

  function SomeFinal(s: Serde): Entries {
    SOME_PARAMETERS["client_id" := Str(SOME_CLIENT_ID.FullId())]
                   ["presentation_definition" := DefinitionToJson(s.parts, SOME_DEFINITION)]
                   ["response_uri" := Str(s.codec.printUrl(SOME_ENDPOINT))]
  }

  lemma SomeAttemptIsAddressed(s: Serde)
    ensures var a := SomeAttempt();
            AddressParameters(s, WithItsQuery(s, a), a.verifier.submissionEndpoint, a.requestType) == Ok(SomeFinal(s))
    ensures ModeFromText("direct_post") == DirectPost
  {
  }

  lemma SomeReturnParses(s: Serde)
    requires Lawful(s.codec)
    ensures ParseReturn(s, SomeFinal(s)) == Ok((Some(SOME_ENDPOINT), DirectPost))
  {
    assert s.codec.parseUrl(s.codec.printUrl(SOME_ENDPOINT)) == Some(SOME_ENDPOINT);
    assert ReturnFits(s, SomeFinal(s), Some(SOME_ENDPOINT), DirectPost);
    ReturnParsesIff(s, SomeFinal(s), Some(SOME_ENDPOINT), DirectPost);
  }

  lemma SomeDefinitionReadsBack(s: Serde)
    requires SomeFieldReadsBack(s)
    ensures DefinitionFromJson(s.parts, DefinitionToJson(s.parts, SOME_DEFINITION)) == Some(SOME_DEFINITION)
  {
    DefinitionReadsBackIff(s.parts, SOME_DEFINITION);
  }

  lemma SomeQueryParses(s: Serde)
    requires SomeFieldReadsBack(s)
    ensures ParseQuery(s, SomeFinal(s)).Ok?
  {
    SomeDefinitionReadsBack(s);
    assert Get(SomeFinal(s), DefinitionParameter(s)) == Present(SOME_DEFINITION);
    QueryParsesIff(s, SomeFinal(s));
  }

  lemma SomeTextParameters(s: Serde)
    ensures Get(SomeFinal(s), RESPONSE_TYPE).Present? && Get(SomeFinal(s), NONCE).Present?
    ensures Get(SomeFinal(s), ClientMetadataParameter(s.codec)) == Present(map[])
    ensures ParseClientId(SOME_CLIENT_ID.FullId()).Some? ==> Get(SomeFinal(s), CLIENT_ID).Present?
  {
  }

  lemma SomeRequestParses(s: Serde)
    requires Lawful(s.codec) && SomeFieldReadsBack(s)
    ensures ParseRequest(s, SomeFinal(s)).Ok?
  {
    SomeReturnParses(s);
    SomeQueryParses(s);
    FullIdRoundTrip(SOME_CLIENT_ID);
    SomeTextParameters(s);
    assert ParseRequest(s, SomeFinal(s)).Ok?;
  }

  // With a `request` parameter added those parameters are still a request, and its URL cannot
  // be read.
  lemma SomeReservedIsRefused(s: Serde) returns (o: Entries)
    requires Lawful(s.codec) && SomeFieldReadsBack(s)
    ensures o == SomeFinal(s)["request" := Str("jwt")]
    ensures ParseRequest(s, o).Ok?
    ensures FromUrl(s, IntoUrl(s, ParseRequest(s, o).value, SOME_ENDPOINT), SOME_ENDPOINT) == Err(InvalidSignedRequest)
  {
    var final := SomeFinal(s);
    SomeRequestParses(s);
    assert "request_uri" !in final;
    RequestParameterBreaksUrl(s, final, Str("jwt"), SOME_ENDPOINT);
    o := final["request" := Str("jwt")];
  }

  function SomeWalletEntries(s: Serde): Entries {
    map["authorization_endpoint" := Str(s.codec.printUrl(SOME_ENDPOINT)),
        "vp_formats_supported" := s.parts.formatsToJson(map[]),
        "response_types_supported" := StrArray(TypeTexts([VpToken]))]
  }

  lemma SomeWalletParses(s: Serde)
    requires Lawful(s.codec) && Canonical(s.parts, map[])
    ensures var wallet := ParseMetadata(s, SomeWalletEntries(s));
            && wallet.Some?
            && WellFormedParse(s, wallet.value)
            && wallet.value.responseTypes == [VpToken] && wallet.value.clientIdPrefixes == [PreRegistered]
  {
    var o := SomeWalletEntries(s);
    assert s.codec.parseUrl(s.codec.printUrl(SOME_ENDPOINT)) == Some(SOME_ENDPOINT);
    StringsRoundTrip(TypeTexts([VpToken]));
    assert TypesFromJson(o["response_types_supported"]).value == [VpToken];
  }

  lemma SomeTypeAccepted(s: Serde, wallet: Metadata)
    requires wallet.responseTypes == [VpToken]
    ensures ResponseTypeAccepted(s, WithItsQuery(s, SomeAttempt()), wallet)
  {
    assert Get(WithItsQuery(s, SomeAttempt()), RESPONSE_TYPE) == Present(VpToken);
  }

  lemma SomeAttemptPrepares(s: Serde, wallet: Metadata)
    requires wallet.responseTypes == [VpToken] && wallet.clientIdPrefixes == [PreRegistered]
    ensures var a := SomeAttempt();
            Prepares(s, a.verifier, a.parameters, a.dcql, a.definition, wallet, a.requestType)
  {
    SomeTypeAccepted(s, wallet);
    SomeAttemptIsAddressed(s);
  }

  // The assumptions of the theorems above can be met: this attempt succeeds against any
  // wallet metadata with these lists and an endpoint, of which `SomeWalletAgrees` gives one.
  lemma SomeAttemptSucceeds(s: Serde, wallet: Metadata)
    requires Lawful(s.codec) && SomeFieldReadsBack(s)
    requires wallet.responseTypes == [VpToken] && wallet.clientIdPrefixes == [PreRegistered]
    requires Get(wallet.inner, EndpointParameter(s.codec)).Present?
    ensures Succeeds(s, SomeAttempt(), wallet)
  {
    SomeAttemptPrepares(s, wallet);
    SomeAttemptIsAddressed(s);
    SomeRequestParses(s);
    SucceedsFrom(s, SomeAttempt(), SomeFinal(s), wallet);
  }

  lemma SucceedsFrom(s: Serde, a: Attempt, o: Entries, wallet: Metadata)
    requires Prepares(s, a.verifier, a.parameters, a.dcql, a.definition, wallet, a.requestType)
    requires EndsIn(s, a, o) && Finishes(s, a.verifier.client, o, wallet, a.requestType)
    ensures Succeeds(s, a, wallet)
  {
  }

  lemma SomeAttemptIsPlain(s: Serde)
    ensures SomeAttempt().requestType.PlainRequest? && !HasReserved(SomeAttempt().parameters)
    ensures SomeAttempt().verifier.client.prefix == SomeAttempt().verifier.client.id.prefix
    ensures Get(SomeAttempt().parameters, ClientMetadataParameter(s.codec)) == Present(map[])
  {
  }

  lemma SomeWalletAgrees(s: Serde) returns (wallet: Metadata)
    requires Lawful(s.codec) && Canonical(s.parts, map[])
    ensures WellFormedParse(s, wallet) && ViewsAgree(s, wallet)
    ensures wallet.responseTypes == [VpToken] && wallet.clientIdPrefixes == [PreRegistered]
    ensures Get(wallet.inner, EndpointParameter(s.codec)).Present?
  {
    SomeWalletParses(s);
    wallet := ParseMetadata(s, SomeWalletEntries(s)).value;
    ViewsAgreeAfterRun(s, wallet, []);
  }

  lemma NoFormatsDeclared(s: Serde, a: Attempt, o: Entries, r: AuthorizationRequestObject, wallet: Metadata)
    requires IsReadBack(s, a, o, r) && Get(a.parameters, ClientMetadataParameter(s.codec)) == Present(map[])
    ensures FormatsAccepted(s, r.clientMetadata, wallet.vpFormats)
  {
  }

  // Client metadata without VP formats leaves the verdict to the hook.
  lemma AcceptedByHook(s: Serde, a: Attempt, wallet: Metadata, hook: Hook)
    requires Lawful(s.codec) && Succeeds(s, a, wallet) && ViewsAgree(s, wallet)
    requires a.requestType.PlainRequest? && !HasReserved(a.parameters)
    requires a.verifier.client.prefix == a.verifier.client.id.prefix
    requires Get(a.parameters, ClientMetadataParameter(s.codec)) == Present(map[])
    ensures var built := Answer(s, a.verifier.client, Final(s, a, wallet), wallet, a.requestType);
            var parsed := FromUrl(s, built.url, wallet.authorizationEndpoint);
            && parsed.Ok? && parsed.value.Plain?
            && (VerifyPlain(s, parsed.value.request, wallet, hook).Ok? <==> hook(parsed.value.request))
  {
    PlainRequestIsAccepted(s, a, wallet, hook);
    PlainBuildRoundTrip(s, a, wallet);
    var built := Answer(s, a.verifier.client, Final(s, a, wallet), wallet, a.requestType);
    NoFormatsDeclared(s, a, Final(s, a, wallet), FromUrl(s, built.url, EndpointOf(s, wallet)).value.request, wallet);
  }

  // From nothing to the wallet's verdict: this attempt is built, its URL is read back, and
  // the wallet accepts what it reads exactly when its hook does.
  lemma SomeRequestIsAccepted(s: Serde, hook: Hook) returns (wallet: Metadata)
    requires Lawful(s.codec) && SomeFieldReadsBack(s) && Canonical(s.parts, map[])
    ensures Succeeds(s, SomeAttempt(), wallet)
    ensures var a := SomeAttempt();
            var built := Answer(s, a.verifier.client, Final(s, a, wallet), wallet, a.requestType);
            var parsed := FromUrl(s, built.url, wallet.authorizationEndpoint);
            && parsed.Ok? && parsed.value.Plain?
            && (VerifyPlain(s, parsed.value.request, wallet, hook).Ok? <==> hook(parsed.value.request))
  {
    wallet := SomeWalletAgrees(s);
    SomeAttemptSucceeds(s, wallet);
    SomeAttemptIsPlain(s);
    AcceptedByHook(s, SomeAttempt(), wallet, hook);
  }

  // A run that adds one new prefix to that wallet's metadata: its object lists the prefix,
  // the cached list does not.
  lemma SomePrefixIsAdded(s: Serde) returns (start: Metadata)
    requires Lawful(s.codec) && Canonical(s.parts, map[])
    ensures WellFormedParse(s, start)
    ensures var wallet := Run(start, [AddPrefixes([X509Hash])]);
            var listed := GetOrDefault(wallet.inner, CLIENT_ID_PREFIXES, DEFAULT_PREFIXES);
            listed == Some([PreRegistered, X509Hash]) && wallet.clientIdPrefixes == [PreRegistered]
  {
    start := SomeWalletAgrees(s);
    var steps := [AddPrefixes([X509Hash])];
    RunKeepsInStep(s, start, steps);
    assert AddedPrefixes(steps) == AddedPrefixes([]) + [X509Hash];
    assert start.clientIdPrefixes + AddedPrefixes(steps) == [PreRegistered, X509Hash];
  }
}
