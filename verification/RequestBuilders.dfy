// Building an authorization request on the verifier's side (src/verifier/request_builder.rs).
module RequestBuilders {
  import opened Wrappers
  import opened JsonValues
  import opened PresentationDefinitions
  import opened Dcql
  import opened Objects
  import opened ClientIds
  import opened RequestParameters
  import opened AuthorizationRequests
  import opened WalletMetadatas
  import opened RequestVerification

  // The client's signing is library code: it may refuse, or answer with a JWT.
  datatype Client = Client(
    id: ClientId,
    prefix: ClientIdPrefix,
    sign: AuthorizationRequestObject -> Option<string>)

  datatype Verifier = Verifier(
    client: Client,
    defaultRequestParams: Entries,
    submissionEndpoint: Option<Url>)

  datatype RequestType =
    | PlainRequest
    | SignedJwt(reference: Option<(Url, Option<HttpMethodForAuth>)>)

  datatype BuildError =
    | OneQueryExpected
    | InvalidDcqlQuery(dcqlError: DcqlError)
    | EmptyDefinitionId
    | NoInputDescriptors
    | ResponseTypeUnavailable
    | ResponseTypeUnsupported(responseType: ResponseType)
    | ClientMetadataUnavailable
    | SyntaxTypesUnavailable
    | SyntaxTypeUnsupported(syntaxType: string)
    | PrefixUnsupportedByWallet(prefix: ClientIdPrefix)
    | ResponseModeMissing
    | ResponseModeMalformed
    | ResponseModeUnsupported(text: string)
    | SubmissionEndpointRequired(mode: ResponseMode)
    | ExpectedOriginsMissing
    | ExpectedOriginsMalformed
    | NotARequest(requestError: RequestError)
    | EndpointUnavailable
    | SigningFailed

  // ---- What a build does to the parameters, as functions ----

  function ValidateDefinition(d: PresentationDefinition): Result<(), BuildError> {
    if d.id == "" then Err(EmptyDefinitionId)
    else if d.inputDescriptors == [] then Err(NoInputDescriptors)
    else Ok(())
  }

  // The return address and what else the response mode asks for (`build_helper`).
  function AddressParameters(s: Serde, o: Entries, endpoint: Option<Url>, requestType: RequestType): Result<Entries, BuildError> {
    match Get(o, RESPONSE_MODE)
    case Missing => Err(ResponseModeMissing)
    case Malformed => Err(ResponseModeMalformed)
    case Present(mode) =>
      if mode.UnsupportedMode? then Err(ResponseModeUnsupported(mode.text))
      else if mode.IsDirectPost() then
        if endpoint.None? then Err(SubmissionEndpointRequired(mode))
        else Ok(Inserted(o, ResponseUriParameter(s.codec), endpoint.value))
      else if mode.IsFragment() then
        if endpoint.None? then Err(SubmissionEndpointRequired(mode))
        else Ok(Inserted(o, RedirectUriParameter(s.codec), endpoint.value))
      else
        var origins := Get(o, ExpectedOriginsParameter(s));
        if requestType.SignedJwt? && origins.Missing? then Err(ExpectedOriginsMissing)
        else if requestType.SignedJwt? && origins.Malformed? then Err(ExpectedOriginsMalformed)
        else
          var kept := if requestType.PlainRequest? then o - {CLIENT_ID.key} else o;
          Ok(kept - {ResponseUriParameter(s.codec).key} - {RedirectUriParameter(s.codec).key})
  }

  // What the modes ask for, mode by mode: an endpoint for the direct post and fragment modes,
  // which is put in as the one return parameter of the mode, and for a signed request of the
  // Digital Credentials API origins that parse; such a request keeps no return parameter.
  lemma AddressedIff(s: Serde, o: Entries, endpoint: Option<Url>, requestType: RequestType, mode: ResponseMode)
    requires Get(o, RESPONSE_MODE) == Present(mode)
    ensures var addressed := AddressParameters(s, o, endpoint, requestType);
            var origins := Get(o, ExpectedOriginsParameter(s));
            if mode in {DcApi, DcApiJwt} then
              if requestType.PlainRequest? then
                addressed == Ok(o - {"client_id", "response_uri", "redirect_uri"})
              else if origins.Present? then
                addressed == Ok(o - {"response_uri", "redirect_uri"})
              else
                addressed == Err(if origins.Missing? then ExpectedOriginsMissing else ExpectedOriginsMalformed)
            else if mode.UnsupportedMode? then
              addressed == Err(ResponseModeUnsupported(mode.text))
            else if endpoint.None? then
              addressed == Err(SubmissionEndpointRequired(mode))
            else
              var key := if mode in {DirectPost, DirectPostJwt} then "response_uri" else "redirect_uri";
              addressed == Ok(o[key := Str(s.codec.printUrl(endpoint.value))])
  {
    if mode in {DcApi, DcApiJwt} {
      assert o - {"response_uri"} - {"redirect_uri"} == o - {"response_uri", "redirect_uri"};
      assert o - {"client_id"} - {"response_uri"} - {"redirect_uri"} == o - {"client_id", "response_uri", "redirect_uri"};
    }
  }

  lemma UnaddressedIff(s: Serde, o: Entries, endpoint: Option<Url>, requestType: RequestType)
    requires !Get(o, RESPONSE_MODE).Present?
    ensures AddressParameters(s, o, endpoint, requestType) ==
            Err(if "response_mode" in o then ResponseModeMalformed else ResponseModeMissing)
  {
  }

  function WithQuery(s: Serde, o: Entries, dcql: Option<DCQL>, definition: Option<PresentationDefinition>): Entries {
    match (dcql, definition)
    case (Some(q), None) => Inserted(o, DcqlParameter(s), q)
    case (None, Some(d)) => Inserted(o, DefinitionParameter(s), d)
    case _ => o
  }

  // The parameters before the response address is settled.
  function QueryParameters(s: Serde, verifier: Verifier, o: Entries, dcql: Option<DCQL>,
                           definition: Option<PresentationDefinition>): Entries
  {
    WithQuery(s, Inserted(o, CLIENT_ID, verifier.client.id), dcql, definition)
  }

  // The request's URL and, for a signed one, its JWT.
  datatype Built = Built(url: Url, jwt: Option<string>)

  // Exactly one query, and a valid one.
  ghost predicate QueryAccepted(dcql: Option<DCQL>, definition: Option<PresentationDefinition>) {
    && (dcql.Some? <==> definition.None?)
    && (dcql.Some? ==> WellFormed(dcql.value))
    && (definition.Some? ==> definition.value.id != "" && definition.value.inputDescriptors != [])
  }

  // What a build checks before it has a request.
  ghost predicate Prepares(s: Serde, verifier: Verifier, o: Entries, dcql: Option<DCQL>,
                           definition: Option<PresentationDefinition>, wallet: Metadata, requestType: RequestType)
  {
    var withQuery := QueryParameters(s, verifier, o, dcql, definition);
    && QueryAccepted(dcql, definition)
    && ResponseTypeAccepted(s, withQuery, wallet)
    && verifier.client.prefix in wallet.clientIdPrefixes
    && AddressParameters(s, withQuery, verifier.submissionEndpoint, requestType).Ok?
  }

  // Everything a build checks.
  ghost predicate Builds(s: Serde, verifier: Verifier, o: Entries, dcql: Option<DCQL>,
                         definition: Option<PresentationDefinition>, wallet: Metadata, requestType: RequestType)
  {
    var withQuery := QueryParameters(s, verifier, o, dcql, definition);
    var addressed := AddressParameters(s, withQuery, verifier.submissionEndpoint, requestType);
    && Prepares(s, verifier, o, dcql, definition, wallet, requestType)
    && Finishes(s, verifier.client, addressed.value, wallet, requestType)
  }

  // The final parameters are a request, and it can be sent.
  ghost predicate Finishes(s: Serde, client: Client, o: Entries, wallet: Metadata, requestType: RequestType) {
    && ParseRequest(s, o).Ok?
    && Get(wallet.inner, EndpointParameter(s.codec)).Present?
    && (requestType.SignedJwt? ==> client.sign(ParseRequest(s, o).value).Some?)
  }

  // The first check on final parameters that fails when they are refused with `e`.
  ghost predicate FinishFails(e: BuildError, s: Serde, client: Client, o: Entries, wallet: Metadata, requestType: RequestType) {
    match e
    case NotARequest(re) => ParseRequest(s, o) == Err(re)
    case EndpointUnavailable => ParseRequest(s, o).Ok? && !Get(wallet.inner, EndpointParameter(s.codec)).Present?
    case SigningFailed =>
      && ParseRequest(s, o).Ok? && Get(wallet.inner, EndpointParameter(s.codec)).Present?
      && requestType.SignedJwt? && client.sign(ParseRequest(s, o).value).None?
    case _ => false
  }

  // The first query check that fails when the query is refused with `e`.
  ghost predicate QueryFails(e: BuildError, dcql: Option<DCQL>, definition: Option<PresentationDefinition>) {
    match e
    case OneQueryExpected => dcql.Some? <==> definition.Some?
    case InvalidDcqlQuery(p) => dcql.Some? && definition.None? && !WellFormed(dcql.value) && FirstProblem(dcql.value, p)
    case EmptyDefinitionId => dcql.None? && definition.Some? && definition.value.id == ""
    case NoInputDescriptors =>
      dcql.None? && definition.Some? && definition.value.id != "" && definition.value.inputDescriptors == []
    case _ => false
  }

  // The first response type check that fails when it is refused with `e`.
  ghost predicate TypeFails(e: BuildError, s: Serde, o: Entries, wallet: Metadata) {
    var metadata := Get(o, ClientMetadataParameter(s.codec));
    match e
    case ResponseTypeUnavailable => !Get(o, RESPONSE_TYPE).Present?
    case ResponseTypeUnsupported(t) => Get(o, RESPONSE_TYPE) == Present(t) && t !in wallet.responseTypes
    case ClientMetadataUnavailable => AsksForIdToken(o, wallet) && !metadata.Present?
    case SyntaxTypesUnavailable =>
      AsksForIdToken(o, wallet) && metadata.Present? && !Get(metadata.value, SUBJECT_SYNTAX_TYPES).Present?
    case SyntaxTypeUnsupported(t) =>
      && AsksForIdToken(o, wallet) && metadata.Present?
      && var types := Get(metadata.value, SUBJECT_SYNTAX_TYPES);
         types.Present? && FirstUnsupported(types.value, wallet.subjectSyntaxTypes) == Some(t)
    case _ => false
  }

  // The first check that fails when a build is refused with `e` before it has a request: of
  // the query, the response type, the client's prefix and the response address, in this order.
  ghost predicate PrepareFails(e: BuildError, s: Serde, verifier: Verifier, o: Entries, dcql: Option<DCQL>,
                               definition: Option<PresentationDefinition>, wallet: Metadata, requestType: RequestType)
  {
    var withQuery := QueryParameters(s, verifier, o, dcql, definition);
    if !QueryAccepted(dcql, definition) then QueryFails(e, dcql, definition)
    else if !ResponseTypeAccepted(s, withQuery, wallet) then TypeFails(e, s, withQuery, wallet)
    else if verifier.client.prefix !in wallet.clientIdPrefixes then e == PrefixUnsupportedByWallet(verifier.client.prefix)
    else AddressParameters(s, withQuery, verifier.submissionEndpoint, requestType) == Err(e)
  }

  // The first check that fails when a build is refused with `e`.
  ghost predicate BuildFails(e: BuildError, s: Serde, verifier: Verifier, o: Entries, dcql: Option<DCQL>,
                             definition: Option<PresentationDefinition>, wallet: Metadata, requestType: RequestType)
  {
    var withQuery := QueryParameters(s, verifier, o, dcql, definition);
    if !Prepares(s, verifier, o, dcql, definition, wallet, requestType) then
      PrepareFails(e, s, verifier, o, dcql, definition, wallet, requestType)
    else
      var addressed := AddressParameters(s, withQuery, verifier.submissionEndpoint, requestType);
      FinishFails(e, s, verifier.client, addressed.value, wallet, requestType)
  }

  function SignedRequestFor(client: Client, requestType: RequestType, jwt: string): SignedAuthorizationRequest
    requires requestType.SignedJwt?
  {
    SignedAuthorizationRequest(
      client.id.FullId(),
      match requestType.reference
      case None => ByValue(jwt)
      case Some((uri, verb)) => ByReference(uri, verb))
  }

  // The answer of a successful build from the final parameters.
  function Answer(s: Serde, client: Client, o: Entries, wallet: Metadata, requestType: RequestType): Built
    requires ParseRequest(s, o).Ok? && Get(wallet.inner, EndpointParameter(s.codec)).Present?
    requires requestType.SignedJwt? ==> client.sign(ParseRequest(s, o).value).Some?
  {
    var request := ParseRequest(s, o).value;
    var endpoint := Get(wallet.inner, EndpointParameter(s.codec)).value;
    match requestType
    case PlainRequest => Built(IntoUrl(s, request, endpoint), None)
    case SignedJwt(_) =>
      var jwt := client.sign(request).value;
      Built(SignedIntoUrl(s, SignedRequestFor(client, requestType, jwt), endpoint), Some(jwt))
  }

  class RequestBuilder {
    const s: Serde
    const verifier: Verifier
    const requestParameters: UntypedObject
    var presentationDefinition: Option<PresentationDefinition>
    var dcql: Option<DCQL>

    constructor (s: Serde, verifier: Verifier)
      ensures fresh(requestParameters)
      ensures this.s == s && this.verifier == verifier
      ensures requestParameters.entries == verifier.defaultRequestParams
      ensures presentationDefinition == None && dcql == None
    {
      this.s := s;
      this.verifier := verifier;
      requestParameters := new UntypedObject(verifier.defaultRequestParams);
      presentationDefinition := None;
      dcql := None;
    }

    method WithPresentationDefinition(definition: PresentationDefinition)
      modifies this`presentationDefinition
      ensures presentationDefinition == Some(definition)
    {
      presentationDefinition := Some(definition);
    }

    method WithDcql(query: DCQL)
      modifies this`dcql
      ensures dcql == Some(query)
    {
      dcql := Some(query);
    }

    method WithRequestParameter<T>(p: TypedParameter<T>, t: T)
      modifies requestParameters
      ensures requestParameters.entries == Inserted(old(requestParameters.entries), p, t)
    {
      var _ := requestParameters.Insert(p, t);
    }

    method BuildHelper(requestType: RequestType) returns (r: Result<(), BuildError>)
      modifies requestParameters
      ensures var spec := AddressParameters(s, old(requestParameters.entries), verifier.submissionEndpoint, requestType);
              && (r.Ok? <==> spec.Ok?)
              && (spec.Ok? ==> requestParameters.entries == spec.value)
              && (spec.Err? ==> r == Err(spec.error) && requestParameters.entries == old(requestParameters.entries))
    {
      var mode := Get(requestParameters.entries, RESPONSE_MODE);
      if mode.Missing? {
        return Err(ResponseModeMissing);
      }
      if mode.Malformed? {
        return Err(ResponseModeMalformed);
      }
      if mode.value.UnsupportedMode? {
        return Err(ResponseModeUnsupported(mode.value.text));
      } else if mode.value.IsDirectPost() {
        if verifier.submissionEndpoint.None? {
          return Err(SubmissionEndpointRequired(mode.value));
        }
        var _ := requestParameters.Insert(ResponseUriParameter(s.codec), verifier.submissionEndpoint.value);
      } else if mode.value.IsFragment() {
        if verifier.submissionEndpoint.None? {
          return Err(SubmissionEndpointRequired(mode.value));
        }
        var _ := requestParameters.Insert(RedirectUriParameter(s.codec), verifier.submissionEndpoint.value);
      } else {
        if requestType.PlainRequest? {
          var _ := requestParameters.Remove(CLIENT_ID);
        } else {
          var origins := Get(requestParameters.entries, ExpectedOriginsParameter(s));
          if origins.Missing? {
            return Err(ExpectedOriginsMissing);
          }
          if origins.Malformed? {
            return Err(ExpectedOriginsMalformed);
          }
        }
        var _ := requestParameters.Remove(ResponseUriParameter(s.codec));
        var _ := requestParameters.Remove(RedirectUriParameter(s.codec));
      }
      return Ok(());
    }

    method ValidateResponseTypeFor(wallet: Metadata) returns (r: Result<(), BuildError>)
      ensures r.Ok? <==> ResponseTypeAccepted(s, requestParameters.entries, wallet)
      ensures r.Err? ==> TypeFails(r.error, s, requestParameters.entries, wallet)
    {
      var o := requestParameters.entries;
      var responseType := Get(o, RESPONSE_TYPE);
      if !responseType.Present? {
        return Err(ResponseTypeUnavailable);
      }
      if responseType.value !in wallet.responseTypes {
        return Err(ResponseTypeUnsupported(responseType.value));
      }
      if responseType.value == VpTokenIdToken {
        var metadata := Get(o, ClientMetadataParameter(s.codec));
        if !metadata.Present? {
          return Err(ClientMetadataUnavailable);
        }
        var types := Get(metadata.value, SUBJECT_SYNTAX_TYPES);
        if !types.Present? {
          return Err(SyntaxTypesUnavailable);
        }
        var unsupported := FirstUnsupported(types.value, wallet.subjectSyntaxTypes);
        if unsupported.Some? {
          return Err(SyntaxTypeUnsupported(unsupported.value));
        }
      }
      return Ok(());
    }

    // The query check and the insertions that precede the response address.
    method InsertQuery() returns (r: Result<(), BuildError>)
      modifies requestParameters
      ensures r.Ok? <==> QueryAccepted(dcql, presentationDefinition)
      ensures r.Ok? ==>
                requestParameters.entries ==
                QueryParameters(s, verifier, old(requestParameters.entries), dcql, presentationDefinition)
      ensures r.Err? ==> QueryFails(r.error, dcql, presentationDefinition)
    {
      var _ := requestParameters.Insert(CLIENT_ID, verifier.client.id);
      match (dcql, presentationDefinition) {
        case (Some(query), None) =>
          var checked := ValidateDcql(query);
          if checked.Err? {
            return Err(InvalidDcqlQuery(checked.error));
          }
          var _ := requestParameters.Insert(DcqlParameter(s), query);
        case (None, Some(definition)) =>
          var checked := ValidateDefinition(definition);
          if checked.Err? {
            return checked;
          }
          var _ := requestParameters.Insert(DefinitionParameter(s), definition);
        case _ =>
          return Err(OneQueryExpected);
      }
      return Ok(());
    }

    // Everything up to the response address.
    method Prepare(wallet: Metadata, requestType: RequestType) returns (r: Result<(), BuildError>)
      modifies requestParameters
      ensures r.Ok? <==>
              Prepares(s, verifier, old(requestParameters.entries), dcql, presentationDefinition, wallet, requestType)
      ensures r.Ok? ==>
                var withQuery := QueryParameters(s, verifier, old(requestParameters.entries), dcql, presentationDefinition);
                AddressParameters(s, withQuery, verifier.submissionEndpoint, requestType) == Ok(requestParameters.entries)
      ensures r.Err? ==>
                PrepareFails(r.error, s, verifier, old(requestParameters.entries), dcql, presentationDefinition, wallet,
                             requestType)
    {
      r := InsertQuery();
      if r.Err? {
        return;
      }
      r := ValidateResponseTypeFor(wallet);
      if r.Err? {
        return;
      }
      if verifier.client.prefix !in wallet.clientIdPrefixes {
        return Err(PrefixUnsupportedByWallet(verifier.client.prefix));
      }
      r := BuildHelper(requestType);
    }

    // From the final parameters to the URL.
    method Finish(wallet: Metadata, requestType: RequestType) returns (r: Result<Built, BuildError>)
      ensures r.Ok? <==> Finishes(s, verifier.client, requestParameters.entries, wallet, requestType)
      ensures r.Ok? ==> r.value == Answer(s, verifier.client, requestParameters.entries, wallet, requestType)
      ensures r.Err? ==> FinishFails(r.error, s, verifier.client, requestParameters.entries, wallet, requestType)
    {
      var request := ParseRequest(s, requestParameters.entries);
      if request.Err? {
        return Err(NotARequest(request.error));
      }
      var endpoint := Get(wallet.inner, EndpointParameter(s.codec));
      if !endpoint.Present? {
        return Err(EndpointUnavailable);
      }
      match requestType {
        case PlainRequest =>
          return Ok(Built(IntoUrl(s, request.value, endpoint.value), None));
        case SignedJwt(_) =>
          var jwt := verifier.client.sign(request.value);
          if jwt.None? {
            return Err(SigningFailed);
          }
          var signed := SignedRequestFor(verifier.client, requestType, jwt.value);
          return Ok(Built(SignedIntoUrl(s, signed, endpoint.value), jwt));
      }
    }

    // Succeeds exactly when every check does, and answers with the URL of the final
    // parameters; a refusal names the first check that fails.
    method Build(wallet: Metadata, requestType: RequestType) returns (r: Result<Built, BuildError>)
      modifies requestParameters
      ensures var o := old(requestParameters.entries);
              r.Ok? <==> Builds(s, verifier, o, dcql, presentationDefinition, wallet, requestType)
      ensures var withQuery := QueryParameters(s, verifier, old(requestParameters.entries), dcql, presentationDefinition);
              r.Ok? ==>
                && AddressParameters(s, withQuery, verifier.submissionEndpoint, requestType) == Ok(requestParameters.entries)
                && r.value == Answer(s, verifier.client, requestParameters.entries, wallet, requestType)
      ensures var o := old(requestParameters.entries);
              r.Err? ==> BuildFails(r.error, s, verifier, o, dcql, presentationDefinition, wallet, requestType)
    {
      var prepared := Prepare(wallet, requestType);
      if prepared.Err? {
        return Err(prepared.error);
      }
      r := Finish(wallet, requestType);
    }
  }
}
