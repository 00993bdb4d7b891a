// Authorization request objects, their URL form and the wallet's parser
// (src/core/authorization_request/mod.rs).
module AuthorizationRequests {
  import opened Wrappers
  import opened JsonValues
  import opened PresentationDefinitions
  import opened DefinitionForms
  import opened Dcql
  import opened Objects
  import opened ClientIds
  import opened RequestParameters

  datatype PresentationQuery =
    | DcqlQuery(dcql: DCQL)
    | DefinitionByValue(definition: PresentationDefinition)
    | DefinitionByReference(url: Url)

  datatype AuthorizationRequestObject = AuthorizationRequestObject(
    inner: Entries,
    clientId: ClientId,
    responseMode: ResponseMode,
    responseType: ResponseType,
    presentationQuery: PresentationQuery,
    returnUri: Option<Url>,
    nonce: string,
    clientMetadata: Entries,
    expectedOrigins: Option<seq<string>>)

  datatype SignedAuthorizationRequest = SignedAuthorizationRequest(
    clientId: string,
    indirection: RequestIndirection)

  datatype RequestIndirection =
    | ByValue(jwt: string)
    | ByReference(requestUri: Url, requestUriMethod: Option<HttpMethodForAuth>)

  datatype HttpMethodForAuth = GET | POST

  datatype AuthorizationRequest =
    | Plain(request: AuthorizationRequestObject)
    | Signed(signed: SignedAuthorizationRequest)

  datatype RequestError =
    | ParameterMissing(key: string)
    | ParameterMalformed(key: string)
    | ReturnUriMalformed(state: Option<string>)
    | UriNotAllowed(mode: ResponseMode, state: Option<string>)
    | ModeNotSupported(text: string, state: Option<string>)
    | UrisExclusive(state: Option<string>)
    | ResponseUriRequired(mode: ResponseMode, state: Option<string>)
    | RedirectUriRequired(mode: ResponseMode, state: Option<string>)
    | InvalidDcql(state: Option<string>)
    | InvalidDefinition(state: Option<string>)
    | InvalidDefinitionUri(state: Option<string>)
    | OneQueryRequired(state: Option<string>)
    | MissingQuery
    | WrongAuthority
    | WrongPath
    | InvalidQueryParams
    | InvalidSignedRequest

  // `get().parsing_error()`.
  function Need<T>(o: Entries, p: TypedParameter<T>): Result<T, RequestError> {
    match Get(o, p)
    case Missing => Err(ParameterMissing(p.key))
    case Malformed => Err(ParameterMalformed(p.key))
    case Present(t) => Ok(t)
  }

  function StateOf(o: Entries): Option<string> {
    Get(o, STATE).Value()
  }

  // The return URI and the response mode must go together.
  function ParseReturn(s: Serde, o: Entries): Result<(Option<Url>, ResponseMode), RequestError> {
    var state := StateOf(o);
    var redirect := Get(o, RedirectUriParameter(s.codec));
    var response := Get(o, ResponseUriParameter(s.codec));
    match GetOrDefault(o, RESPONSE_MODE, Fragment)
    case None => Err(ParameterMalformed(RESPONSE_MODE.key))
    case Some(mode) =>
      if !redirect.Missing? && response.Missing? && mode.IsFragment() then
        if redirect.Present? then Ok((Some(redirect.value), mode)) else Err(ReturnUriMalformed(state))
      else if redirect.Missing? && !response.Missing? && mode.IsDirectPost() then
        if response.Present? then Ok((Some(response.value), mode)) else Err(ReturnUriMalformed(state))
      else if mode.IsDcApi() then
        if redirect.Missing? && response.Missing? then Ok((None, mode)) else Err(UriNotAllowed(mode, state))
      else if mode.UnsupportedMode? then Err(ModeNotSupported(mode.text, state))
      else if !redirect.Missing? && !response.Missing? then Err(UrisExclusive(state))
      else if mode.IsDirectPost() then Err(ResponseUriRequired(mode, state))
      else Err(RedirectUriRequired(mode, state))
  }

  function ParseQuery(s: Serde, o: Entries): Result<PresentationQuery, RequestError> {
    var state := StateOf(o);
    match (Get(o, DefinitionParameter(s)), Get(o, DefinitionUriParameter(s.codec)), Get(o, DcqlParameter(s)))
    case (Missing, Missing, Present(q)) => Ok(DcqlQuery(q))
    case (Missing, Missing, Malformed) => Err(InvalidDcql(state))
    case (Present(d), Missing, Missing) => Ok(DefinitionByValue(d))
    case (Malformed, Missing, Missing) => Err(InvalidDefinition(state))
    case (Missing, Present(u), Missing) => Ok(DefinitionByReference(u))
    case (Missing, Malformed, Missing) => Err(InvalidDefinitionUri(state))
    case _ => Err(OneQueryRequired(state))
  }

  // `TryFrom<UntypedObject> for AuthorizationRequestObject`.
  function ParseRequest(s: Serde, o: Entries): Result<AuthorizationRequestObject, RequestError> {
    var clientId :- Need(o, CLIENT_ID);
    var (returnUri, mode) :- ParseReturn(s, o);
    var origins := if mode.IsDcApi() then Get(o, ExpectedOriginsParameter(s)).Value() else None;
    var responseType :- Need(o, RESPONSE_TYPE);
    var query :- ParseQuery(s, o);
    var nonce :- Need(o, NONCE);
    var clientMetadata :- Need(o, ClientMetadataParameter(s.codec));
    Ok(AuthorizationRequestObject(o, clientId, mode, responseType, query, returnUri, nonce, clientMetadata, origins))
  }

  // `From<AuthorizationRequestObject> for UntypedObject`.
  function ToEntries(r: AuthorizationRequestObject): Entries {
    Inserted(r.inner, CLIENT_ID, r.clientId)
  }

  function IntoUrl(s: Serde, r: AuthorizationRequestObject, endpoint: Url): Url {
    endpoint.(query := Some(s.codec.encodeForm(FlattenForForm(s.codec, r.inner))))
  }

  function MethodText(m: HttpMethodForAuth): string {
    match m
    case GET => "get"
    case POST => "post"
  }

  function SignedForm(s: Serde, r: SignedAuthorizationRequest): map<string, string> {
    match r.indirection
    case ByValue(jwt) => map["client_id" := r.clientId, "request" := jwt]
    case ByReference(uri, verb) =>
      var form := map["client_id" := r.clientId, "request_uri" := s.codec.printUrl(uri)];
      if verb.Some? then form["request_uri_method" := MethodText(verb.value)] else form
  }

  function SignedIntoUrl(s: Serde, r: SignedAuthorizationRequest, endpoint: Url): Url {
    endpoint.(query := Some(s.codec.encodeForm(SignedForm(s, r))))
  }

  function ParseReference(s: Serde, form: map<string, string>): Option<RequestIndirection> {
    if "request_uri" !in form || s.codec.parseUrl(form["request_uri"]).None? then None
    else
      var uri := s.codec.parseUrl(form["request_uri"]).value;
      if "request_uri_method" !in form then Some(ByReference(uri, None))
      else if form["request_uri_method"] == "get" then Some(ByReference(uri, Some(GET)))
      else if form["request_uri_method"] == "post" then Some(ByReference(uri, Some(POST)))
      else None
  }

  // `request` is the tag of a variant, and a tag must stand alone: with any other entry left
  // beside it only a reference is tried.
  function ParseSigned(s: Serde, form: map<string, string>): Result<SignedAuthorizationRequest, RequestError> {
    if "client_id" !in form then Err(InvalidSignedRequest)
    else if form.Keys - {"client_id"} == {"request"} then Ok(SignedAuthorizationRequest(form["client_id"], ByValue(form["request"])))
    else
      match ParseReference(s, form)
      case Some(reference) => Ok(SignedAuthorizationRequest(form["client_id"], reference))
      case None => Err(InvalidSignedRequest)
  }

  function FromQueryParams(s: Serde, query: string): Result<AuthorizationRequest, RequestError> {
    match s.codec.decodeForm(query)
    case None => Err(InvalidQueryParams)
    case Some(form) =>
      if "request" in form || "request_uri" in form then
        var signed :- ParseSigned(s, form);
        Ok(Signed(signed))
      else
        var request :- ParseRequest(s, FormAsObject(form));
        Ok(Plain(request))
  }

  function FromUrl(s: Serde, url: Url, endpoint: Url): Result<AuthorizationRequest, RequestError> {
    if url.query.None? then Err(MissingQuery)
    else if url.authority != endpoint.authority then Err(WrongAuthority)
    else if url.path != endpoint.path then Err(WrongPath)
    else FromQueryParams(s, url.query.value)
  }

  // ---- The trip through a URL ----

  lemma StringParametersSurvive(s: Serde, o: Entries)
    requires Get(o, RESPONSE_MODE) != Malformed
    ensures Get(o, CLIENT_ID).Present? ==> Get(ThroughForm(s.codec, o), CLIENT_ID) == Get(o, CLIENT_ID)
    ensures Get(o, RESPONSE_TYPE).Present? ==> Get(ThroughForm(s.codec, o), RESPONSE_TYPE) == Get(o, RESPONSE_TYPE)
    ensures Get(o, NONCE).Present? ==> Get(ThroughForm(s.codec, o), NONCE) == Get(o, NONCE)
    ensures Get(ThroughForm(s.codec, o), RESPONSE_MODE) == Get(o, RESPONSE_MODE)
  {
  }

  lemma UrlParameterSurvives(c: Codec, o: Entries, key: string)
    ensures SameUrl(c, o, ThroughForm(c, o), key)
  {
  }

  lemma TextOrValueParametersSurvive(s: Serde, o: Entries)
    requires Lawful(s.codec)
    ensures Get(ThroughForm(s.codec, o), DefinitionParameter(s)) == Get(o, DefinitionParameter(s))
    ensures Get(ThroughForm(s.codec, o), DcqlParameter(s)) == Get(o, DcqlParameter(s))
    ensures Get(ThroughForm(s.codec, o), ClientMetadataParameter(s.codec)) == Get(o, ClientMetadataParameter(s.codec))
  {
    if "presentation_definition" in o {
      TextOrValueSurvivesForm(s.codec, d => DefinitionFromJson(s.parts, d), o["presentation_definition"]);
    }
    if "dcql_query" in o {
      TextOrValueSurvivesForm(s.codec, s.dcqlFromJson, o["dcql_query"]);
    }
    if "client_metadata" in o {
      TextOrValueSurvivesForm(s.codec, EntriesFromJson, o["client_metadata"]);
    }
  }

  // The return URI, the mode and the query depend on nothing but these lookups.
  lemma SameReturn(s: Serde, o: Entries, o': Entries)
    requires ParseReturn(s, o).Ok?
    requires Get(o', RESPONSE_MODE) == Get(o, RESPONSE_MODE)
    requires SameUrl(s.codec, o, o', "redirect_uri") && SameUrl(s.codec, o, o', "response_uri")
    ensures ParseReturn(s, o') == ParseReturn(s, o)
  {
  }

  ghost predicate SameUrl(c: Codec, o: Entries, o': Entries, key: string) {
    var p := UrlParameter(c, key);
    (Get(o, p) != Malformed ==> Get(o', p) == Get(o, p)) && (Get(o', p).Missing? <==> Get(o, p).Missing?)
  }

  lemma SameQuery(s: Serde, o: Entries, o': Entries)
    requires ParseQuery(s, o).Ok?
    requires SameUrl(s.codec, o, o', "presentation_definition_uri")
    requires Get(o', DefinitionParameter(s)) == Get(o, DefinitionParameter(s))
    requires Get(o', DcqlParameter(s)) == Get(o, DcqlParameter(s))
    ensures ParseQuery(s, o') == ParseQuery(s, o)
  {
  }

  // A request object that parses still parses after a trip through a form, into the same
  // request over the stringified entries; only expected origins, an array, are lost.
  lemma RequestSurvivesForm(s: Serde, o: Entries)
    requires Lawful(s.codec)
    requires ParseRequest(s, o).Ok?
    ensures var r := ParseRequest(s, o).value;
            ParseRequest(s, ThroughForm(s.codec, o)) ==
            Ok(r.(inner := ThroughForm(s.codec, o), expectedOrigins := None))
  {
    var o' := ThroughForm(s.codec, o);
    PartsOf(s, o);
    UrlParameterSurvives(s.codec, o, "redirect_uri");
    UrlParameterSurvives(s.codec, o, "response_uri");
    UrlParameterSurvives(s.codec, o, "presentation_definition_uri");
    StringParametersSurvive(s, o);
    TextOrValueParametersSurvive(s, o);
    SameReturn(s, o, o');
    SameQuery(s, o, o');
    OriginsAreLost(s, o);
    SameRequest(s, o, o');
  }

  lemma OriginsAreLost(s: Serde, o: Entries)
    ensures Get(ThroughForm(s.codec, o), ExpectedOriginsParameter(s)).Value() == None
  {
  }

  // What a request that parses was parsed from.
  lemma PartsOf(s: Serde, o: Entries)
    requires ParseRequest(s, o).Ok?
    ensures var r := ParseRequest(s, o).value;
            && r.inner == o
            && Get(o, CLIENT_ID) == Present(r.clientId)
            && ParseReturn(s, o) == Ok((r.returnUri, r.responseMode))
            && Get(o, RESPONSE_TYPE) == Present(r.responseType)
            && ParseQuery(s, o) == Ok(r.presentationQuery)
            && Get(o, NONCE) == Present(r.nonce)
            && Get(o, ClientMetadataParameter(s.codec)) == Present(r.clientMetadata)
  {
  }

  lemma OriginsOf(s: Serde, o: Entries)
    requires ParseRequest(s, o).Ok?
    ensures var r := ParseRequest(s, o).value;
            r.expectedOrigins == if r.responseMode in {DcApi, DcApiJwt} then Get(o, ExpectedOriginsParameter(s)).Value() else None
  {
  }

  lemma SameRequest(s: Serde, o: Entries, o': Entries)
    requires ParseRequest(s, o).Ok?
    requires ParseReturn(s, o') == ParseReturn(s, o) && ParseQuery(s, o') == ParseQuery(s, o)
    requires Get(o', CLIENT_ID) == Get(o, CLIENT_ID)
    requires Get(o', RESPONSE_TYPE) == Get(o, RESPONSE_TYPE)
    requires Get(o', NONCE) == Get(o, NONCE)
    requires Get(o', ClientMetadataParameter(s.codec)) == Get(o, ClientMetadataParameter(s.codec))
    ensures var r := ParseRequest(s, o).value;
            var origins := Get(o', ExpectedOriginsParameter(s)).Value();
            ParseRequest(s, o') ==
            Ok(r.(inner := o', expectedOrigins := if r.responseMode.IsDcApi() then origins else None))
  {
  }

  predicate HasReserved(o: Entries) {
    "request" in o || "request_uri" in o
  }

  // Reading a URL is parsing the stringified entries, or taking them for a signed request.
  lemma UrlReading(s: Serde, r: AuthorizationRequestObject, endpoint: Url)
    requires Lawful(s.codec)
    ensures var parsed := FromUrl(s, IntoUrl(s, r, endpoint), endpoint);
            if HasReserved(r.inner) then
              match ParseSigned(s, FlattenForForm(s.codec, r.inner))
              case Ok(signed) => parsed == Ok(Signed(signed))
              case Err(e) => parsed == Err(e)
            else
              match ParseRequest(s, ThroughForm(s.codec, r.inner))
              case Ok(r') => parsed == Ok(Plain(r'))
              case Err(e) => parsed == Err(e)
  {
    FormRoundTrip(s.codec, r.inner);
    var query := s.codec.encodeForm(FlattenForForm(s.codec, r.inner));
    assert s.codec.decodeForm(query) == Some(FlattenForForm(s.codec, r.inner));
    assert FromUrl(s, IntoUrl(s, r, endpoint), endpoint) == FromQueryParams(s, query);
  }

  // The wallet reads a plain request back from its URL, field by field. Expected origins
  // survive exactly when there were none; the entries come back as strings.
  lemma PlainUrlRoundTrip(s: Serde, o: Entries, endpoint: Url)
    requires Lawful(s.codec)
    requires ParseRequest(s, o).Ok? && !HasReserved(o)
    ensures var r := ParseRequest(s, o).value;
            FromUrl(s, IntoUrl(s, r, endpoint), endpoint) ==
            Ok(Plain(r.(inner := ThroughForm(s.codec, o), expectedOrigins := None)))
  {
    PartsOf(s, o);
    RequestSurvivesForm(s, o);
    UrlReading(s, ParseRequest(s, o).value, endpoint);
  }

  // Read at another endpoint than it was written for, the same URL is accepted exactly when
  // authority and path are the same; the scheme is not compared.
  lemma ReadElsewhere(s: Serde, o: Entries, written: Url, endpoint: Url)
    requires Lawful(s.codec)
    requires ParseRequest(s, o).Ok? && !HasReserved(o)
    ensures var r := ParseRequest(s, o).value;
            FromUrl(s, IntoUrl(s, r, written), endpoint) ==
            if endpoint.authority != written.authority then Err(WrongAuthority)
            else if endpoint.path != written.path then Err(WrongPath)
            else Ok(Plain(r.(inner := ThroughForm(s.codec, o), expectedOrigins := None)))
    ensures IntoUrl(s, ParseRequest(s, o).value, written).(query := written.query) == written
  {
    PlainUrlRoundTrip(s, o, written);
  }

  lemma SignedReadElsewhere(s: Serde, r: SignedAuthorizationRequest, written: Url, endpoint: Url)
    requires Lawful(s.codec)
    ensures FromUrl(s, SignedIntoUrl(s, r, written), endpoint) ==
            if endpoint.authority != written.authority then Err(WrongAuthority)
            else if endpoint.path != written.path then Err(WrongPath)
            else Ok(Signed(r))
    ensures SignedIntoUrl(s, r, written).(query := written.query) == written
    ensures FromUrl(s, written.(query := None), endpoint) == Err(MissingQuery)
  {
    SignedUrlRoundTrip(s, r, written);
  }

  lemma SignedUrlRoundTrip(s: Serde, r: SignedAuthorizationRequest, endpoint: Url)
    requires Lawful(s.codec)
    ensures FromUrl(s, SignedIntoUrl(s, r, endpoint), endpoint) == Ok(Signed(r))
  {
    var form := SignedForm(s, r);
    assert s.codec.decodeForm(s.codec.encodeForm(form)) == Some(form);
    assert r.indirection.ByValue? ==> form.Keys - {"client_id"} == {"request"};
    if r.indirection.ByReference? {
      assert s.codec.parseUrl(s.codec.printUrl(r.indirection.requestUri)) == Some(r.indirection.requestUri);
    }
  }

  // The round trip holds only for requests without a `request` or `request_uri` parameter of
  // their own: those are never read back as plain ones.
  lemma PlainUrlRoundTripExactly(s: Serde, o: Entries, endpoint: Url)
    requires Lawful(s.codec)
    requires ParseRequest(s, o).Ok?
    ensures var r := ParseRequest(s, o).value;
            FromUrl(s, IntoUrl(s, r, endpoint), endpoint) ==
            Ok(Plain(r.(inner := ThroughForm(s.codec, o), expectedOrigins := None)))
            <==> !HasReserved(o)
  {
    PartsOf(s, o);
    if HasReserved(o) {
      UrlReading(s, ParseRequest(s, o).value, endpoint);
    } else {
      PlainUrlRoundTrip(s, o, endpoint);
    }
  }

  // The form holds a URL to fetch from, and the text of the method, if any.
  ghost predicate HoldsReference(s: Serde, form: map<string, string>, uri: Url, verb: Option<HttpMethodForAuth>) {
    && "request_uri" in form && s.codec.parseUrl(form["request_uri"]) == Some(uri)
    && (verb.None? <==> "request_uri_method" !in form)
    && (verb.Some? ==> form["request_uri_method"] == if verb.value.GET? then "get" else "post")
  }

  lemma ReferenceParsesIff(s: Serde, form: map<string, string>, uri: Url, verb: Option<HttpMethodForAuth>)
    ensures ParseReference(s, form) == Some(ByReference(uri, verb)) <==> HoldsReference(s, form, uri, verb)
    ensures ParseReference(s, form).Some? ==> ParseReference(s, form).value.ByReference?
  {
  }

  // A form is a signed request by value exactly when it holds a client id and a JWT and nothing
  // else, and one by reference when it holds a client id and a URL to fetch from, with a known
  // method or none, beside whatever else.
  lemma SignedParsesIff(s: Serde, form: map<string, string>, r: SignedAuthorizationRequest)
    ensures ParseSigned(s, form) == Ok(r) <==>
            && "client_id" in form && form["client_id"] == r.clientId
            && match r.indirection
               case ByValue(jwt) => form == map["client_id" := r.clientId, "request" := jwt]
               case ByReference(uri, verb) =>
                 form.Keys != {"client_id", "request"} && HoldsReference(s, form, uri, verb)
  {
    KeysOfValue(form);
    match r.indirection
    case ByValue(jwt) =>
      if form == map["client_id" := r.clientId, "request" := jwt] {
        assert form.Keys == {"client_id", "request"};
        assert form["request"] == jwt;
      }
    case ByReference(uri, verb) =>
      ReferenceParsesIff(s, form, uri, verb);
  }

  lemma KeysOfValue(form: map<string, string>)
    ensures "client_id" in form && form.Keys - {"client_id"} == {"request"} <==> form.Keys == {"client_id", "request"}
    ensures form.Keys == {"client_id", "request"} ==>
              form == map["client_id" := form["client_id"], "request" := form["request"]]
  {
    if "client_id" in form && form.Keys - {"client_id"} == {"request"} {
      assert form.Keys == {"client_id"} + (form.Keys - {"client_id"});
    }
    if form.Keys == {"client_id", "request"} {
      assert form.Keys - {"client_id"} == {"request"};
    }
  }

  // What becomes of the others: taken for a signed request by reference where `request_uri`
  // is a URL and any method beside it known, and refused otherwise. Never is a `request`
  // parameter taken for a signed request by value, since a plain request has other entries.
  lemma ReservedReading(s: Serde, o: Entries, endpoint: Url)
    requires Lawful(s.codec)
    requires ParseRequest(s, o).Ok? && HasReserved(o)
    ensures var parsed := FromUrl(s, IntoUrl(s, ParseRequest(s, o).value, endpoint), endpoint);
            && o["client_id"].Str?
            && parsed ==
               match ParseReference(s, FlattenForForm(s.codec, o))
               case Some(reference) => Ok(Signed(SignedAuthorizationRequest(o["client_id"].text, reference)))
               case None => Err(InvalidSignedRequest)
    ensures "request_uri" !in o ==> ParseReference(s, FlattenForForm(s.codec, o)) == None
  {
    PartsOf(s, o);
    UrlReading(s, ParseRequest(s, o).value, endpoint);
    var form := FlattenForForm(s.codec, o);
    assert "nonce" in form.Keys - {"client_id"};
  }

  // Any request without a `request_uri` can be given a `request` parameter: it stays a
  // request, and its URL cannot be read any more.
  lemma RequestParameterBreaksUrl(s: Serde, o: Entries, v: Json, endpoint: Url)
    requires Lawful(s.codec)
    requires ParseRequest(s, o).Ok? && "request_uri" !in o
    ensures var o' := o["request" := v];
            && ParseRequest(s, o').Ok?
            && FromUrl(s, IntoUrl(s, ParseRequest(s, o').value, endpoint), endpoint) == Err(InvalidSignedRequest)
  {
    var o' := o["request" := v];
    PartsOf(s, o);
    SameReturn(s, o, o');
    SameQuery(s, o, o');
    SameRequest(s, o, o');
    ReservedReading(s, o', endpoint);
  }

  // The wallet's comparison of the outer client id with that of the request object.
  predicate SameClient(signed: SignedAuthorizationRequest, request: AuthorizationRequestObject) {
    signed.clientId == request.clientId.FullId()
  }

  // A request object keeps its meaning when its client id is written back in full, as it is
  // before signing.
  lemma SignedBodyRoundTrip(s: Serde, o: Entries)
    requires ParseRequest(s, o).Ok?
    ensures var r := ParseRequest(s, o).value;
            && ParseRequest(s, ToEntries(r)) == Ok(r.(inner := ToEntries(r)))
            && ToEntries(r) == o["client_id" := Str(PrefixName(r.clientId.prefix) + ":" + r.clientId.id)]
  {
    var r := ParseRequest(s, o).value;
    var o' := ToEntries(r);
    FullIdRoundTrip(r.clientId);
    PartsOf(s, o);
    assert Get(o', CLIENT_ID) == Present(r.clientId);
    SameReturn(s, o, o');
    SameQuery(s, o, o');
    SameRequest(s, o, o');
  }

  // ---- What the parser accepts ----

  // Exactly one of the three query parameters is there.
  predicate HasOneQuery(o: Entries) {
    var definition, reference, dcql :=
      "presentation_definition" in o, "presentation_definition_uri" in o, "dcql_query" in o;
    && (definition || reference || dcql)
    && !(definition && reference) && !(definition && dcql) && !(reference && dcql)
  }

  // The return parameter of the mode is there and no other: `response_uri` for the direct
  // post modes, `redirect_uri` for the fragment modes, neither for the Digital Credentials API.
  ghost predicate ReturnFits(s: Serde, o: Entries, uri: Option<Url>, mode: ResponseMode) {
    && Get(o, RedirectUriParameter(s.codec)) == (if mode.IsFragment() && uri.Some? then Present(uri.value) else Missing)
    && Get(o, ResponseUriParameter(s.codec)) == (if mode.IsDirectPost() && uri.Some? then Present(uri.value) else Missing)
    && (uri.Some? <==> mode.IsFragment() || mode.IsDirectPost())
    && !mode.UnsupportedMode?
  }

  lemma ReturnParsesIff(s: Serde, o: Entries, uri: Option<Url>, mode: ResponseMode)
    ensures ParseReturn(s, o) == Ok((uri, mode)) <==>
            GetOrDefault(o, RESPONSE_MODE, Fragment) == Some(mode) && ReturnFits(s, o, uri, mode)
  {
  }

  lemma QueryParsesIff(s: Serde, o: Entries)
    ensures ParseQuery(s, o).Ok? <==>
            && HasOneQuery(o)
            && !Get(o, DefinitionParameter(s)).Malformed?
            && !Get(o, DefinitionUriParameter(s.codec)).Malformed?
            && !Get(o, DcqlParameter(s)).Malformed?
  {
  }

  // Which query is read.
  lemma QueryParsesTo(s: Serde, o: Entries, q: PresentationQuery)
    ensures ParseQuery(s, o) == Ok(q) <==>
            && HasOneQuery(o)
            && match q
               case DcqlQuery(dcql) => Get(o, DcqlParameter(s)) == Present(dcql)
               case DefinitionByValue(d) => Get(o, DefinitionParameter(s)) == Present(d)
               case DefinitionByReference(uri) => Get(o, DefinitionUriParameter(s.codec)) == Present(uri)
  {
  }

  // The refusals of the return URI, mode by mode: a mode that does not parse or is not
  // supported, any return parameter with the Digital Credentials API, and otherwise both of
  // them, none of the mode's own, or one that is no URL.
  lemma ReturnRefusal(s: Serde, o: Entries)
    requires ParseReturn(s, o).Err?
    ensures var e := ParseReturn(s, o).error;
            var state := if "state" in o && o["state"].Str? then Some(o["state"].text) else None;
            match GetOrDefault(o, RESPONSE_MODE, Fragment)
            case None => e == ParameterMalformed("response_mode")
            case Some(mode) =>
              if mode in {DcApi, DcApiJwt} then e == UriNotAllowed(mode, state)
              else if mode.UnsupportedMode? then e == ModeNotSupported(mode.text, state)
              else if "redirect_uri" in o && "response_uri" in o then e == UrisExclusive(state)
              else if mode in {DirectPost, DirectPostJwt} then
                e == if "response_uri" in o then ReturnUriMalformed(state) else ResponseUriRequired(mode, state)
              else
                e == if "redirect_uri" in o then ReturnUriMalformed(state) else RedirectUriRequired(mode, state)
  {
  }

  lemma QueryRefusal(s: Serde, o: Entries)
    requires ParseQuery(s, o).Err?
    ensures var e := ParseQuery(s, o).error;
            var state := if "state" in o && o["state"].Str? then Some(o["state"].text) else None;
            e == if !HasOneQuery(o) then OneQueryRequired(state)
                 else if "dcql_query" in o then InvalidDcql(state)
                 else if "presentation_definition" in o then InvalidDefinition(state)
                 else InvalidDefinitionUri(state)
  {
  }

  // A needed parameter is missing or malformed.
  ghost predicate NeedFails<T>(o: Entries, p: TypedParameter<T>, e: RequestError) {
    !Get(o, p).Present? && e == if p.key in o then ParameterMalformed(p.key) else ParameterMissing(p.key)
  }

  // The first check that fails when an object is refused: of the client id, the return URI
  // and mode, the response type, the query, the nonce and the client metadata.
  lemma RequestRefusal(s: Serde, o: Entries)
    requires ParseRequest(s, o).Err?
    ensures var e := ParseRequest(s, o).error;
            if !Get(o, CLIENT_ID).Present? then NeedFails(o, CLIENT_ID, e)
            else if ParseReturn(s, o).Err? then ParseReturn(s, o) == Err(e)
            else if !Get(o, RESPONSE_TYPE).Present? then NeedFails(o, RESPONSE_TYPE, e)
            else if ParseQuery(s, o).Err? then ParseQuery(s, o) == Err(e)
            else if !Get(o, NONCE).Present? then NeedFails(o, NONCE, e)
            else NeedFails(o, ClientMetadataParameter(s.codec), e)
  {
  }

  // An object is a request exactly when its required parameters parse, its return parameter
  // fits its mode and it has exactly one query, which parses.
  lemma RequestParsesIff(s: Serde, o: Entries)
    ensures ParseRequest(s, o).Ok? <==>
            && Get(o, CLIENT_ID).Present?
            && (exists uri, mode :: ReturnFits(s, o, uri, mode) && GetOrDefault(o, RESPONSE_MODE, Fragment) == Some(mode))
            && Get(o, RESPONSE_TYPE).Present?
            && HasOneQuery(o)
            && !Get(o, DefinitionParameter(s)).Malformed?
            && !Get(o, DefinitionUriParameter(s.codec)).Malformed?
            && !Get(o, DcqlParameter(s)).Malformed?
            && Get(o, NONCE).Present?
            && Get(o, ClientMetadataParameter(s.codec)).Present?
  {
    QueryParsesIff(s, o);
    if ParseReturn(s, o).Ok? {
      var (uri, mode) := ParseReturn(s, o).value;
      ReturnParsesIff(s, o, uri, mode);
    }
    if uri, mode :| ReturnFits(s, o, uri, mode) && GetOrDefault(o, RESPONSE_MODE, Fragment) == Some(mode) {
      ReturnParsesIff(s, o, uri, mode);
    }
  }
}
