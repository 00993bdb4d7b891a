// When a build succeeds, and with what request, said of the attempt alone.
module BuildConditions {
  import opened Wrappers
  import opened JsonValues
  import opened DefinitionForms
  import opened Objects
  import opened ClientIds
  import opened RequestParameters
  import opened AuthorizationRequests
  import opened WalletMetadatas
  import opened RequestVerification
  import opened RequestBuilders
  import opened RequestAgreement

  // ---- The conditions ----

  // The mode is supported and has what it needs: an endpoint, or origins for a signed request
  // of the Digital Credentials API.
  ghost predicate Addressable(s: Serde, a: Attempt, mode: ResponseMode) {
    && Get(a.parameters, RESPONSE_MODE) == Present(mode)
    && if mode in {DcApi, DcApiJwt} then
         a.requestType.SignedJwt? && Get(a.parameters, ExpectedOriginsParameter(s)).Present?
       else
         !mode.UnsupportedMode? && a.verifier.submissionEndpoint.Some?
  }

  // Besides, the parameters hold no return parameter of another mode. Those of the Digital
  // Credentials API may hold any: they are dropped.
  ghost predicate ModeFits(s: Serde, a: Attempt, mode: ResponseMode) {
    && Addressable(s, a, mode)
    && (mode in {DirectPost, DirectPostJwt} ==> "redirect_uri" !in a.parameters)
    && (mode in {Fragment, FragmentJwt} ==> "response_uri" !in a.parameters)
  }

  // The query parses from what it is written as, and no other query is among the parameters.
  // One that cannot be written leaves the parameters to their own query.
  ghost predicate QueryFits(s: Serde, a: Attempt) {
    match (a.dcql, a.definition)
    case (None, Some(d)) =>
      && "presentation_definition_uri" !in a.parameters && "dcql_query" !in a.parameters
      && DefinitionFromJson(s.parts, DefinitionToJson(s.parts, d)).Some?
    case (Some(q), None) =>
      (match s.dcqlToJson(q)
       case Some(v) =>
         && "presentation_definition" !in a.parameters && "presentation_definition_uri" !in a.parameters
         && FromStringOrValue(s.codec, s.dcqlFromJson, v).Some?
       case None =>
         && HasOneQuery(a.parameters)
         && !Get(a.parameters, DefinitionParameter(s)).Malformed?
         && !Get(a.parameters, DefinitionUriParameter(s.codec)).Malformed?
         && !Get(a.parameters, DcqlParameter(s)).Malformed?)
    case _ => false
  }

  // What the parameters end up as.
  function FinalParameters(s: Serde, a: Attempt, mode: ResponseMode): Entries {
    var o := WithItsQuery(s, a);
    if mode in {DcApi, DcApiJwt} || a.verifier.submissionEndpoint.None? then o - {"response_uri", "redirect_uri"}
    else
      var key := if mode in {DirectPost, DirectPostJwt} then "response_uri" else "redirect_uri";
      o[key := Str(s.codec.printUrl(a.verifier.submissionEndpoint.value))]
  }

  // ---- The final parameters ----

  lemma WrittenParameter<T>(s: Serde, a: Attempt, mode: ResponseMode, p: TypedParameter<T>)
    requires p.key !in {"client_id", "dcql_query", "presentation_definition", "response_uri", "redirect_uri"}
    ensures Get(WithItsQuery(s, a), p) == Get(a.parameters, p)
    ensures Get(FinalParameters(s, a, mode), p) == Get(a.parameters, p)
  {
    QueryKeepsOthers(s, a, p.key);
  }

  lemma FinalClientId(s: Serde, a: Attempt, mode: ResponseMode)
    ensures Get(FinalParameters(s, a, mode), CLIENT_ID) == Present(a.verifier.client.id)
  {
    WrittenClientId(s, a);
  }

  lemma AddressingFits(s: Serde, a: Attempt, mode: ResponseMode)
    requires Get(a.parameters, RESPONSE_MODE) == Present(mode)
    ensures var addressed := AddressParameters(s, WithItsQuery(s, a), a.verifier.submissionEndpoint, a.requestType);
            && (Addressable(s, a, mode) ==> addressed == Ok(FinalParameters(s, a, mode)))
            && (addressed.Ok? && !Addressable(s, a, mode) ==> Get(addressed.value, CLIENT_ID).Missing?)
  {
    WrittenParameter(s, a, mode, RESPONSE_MODE);
    WrittenParameter(s, a, mode, ExpectedOriginsParameter(s));
    AddressedIff(s, WithItsQuery(s, a), a.verifier.submissionEndpoint, a.requestType, mode);
  }

  // The same entry, or none, under the key.
  predicate SameEntry(o: Entries, o': Entries, key: string) {
    (key in o <==> key in o') && (key in o ==> o[key] == o'[key])
  }

  lemma WrittenEntry(s: Serde, a: Attempt, mode: ResponseMode, key: string)
    requires key !in {"client_id", "response_uri", "redirect_uri"}
    ensures SameEntry(FinalParameters(s, a, mode), WithItsQuery(s, a), key)
  {
  }

  // The return parameters the final parameters hold.
  lemma ReturnEntries(s: Serde, a: Attempt, mode: ResponseMode)
    requires Addressable(s, a, mode)
    ensures var o := FinalParameters(s, a, mode);
            if mode in {DcApi, DcApiJwt} then "response_uri" !in o && "redirect_uri" !in o
            else
              var own, other := if mode.IsDirectPost() then "response_uri" else "redirect_uri",
                                if mode.IsDirectPost() then "redirect_uri" else "response_uri";
              own in o && o[own] == Str(s.codec.printUrl(a.verifier.submissionEndpoint.value))
              && SameEntry(o, a.parameters, other)
  {
    QueryKeepsOthers(s, a, "redirect_uri");
    QueryKeepsOthers(s, a, "response_uri");
  }

  lemma ReturnFromEntries(s: Serde, a: Attempt, mode: ResponseMode, o: Entries)
    requires Lawful(s.codec) && Addressable(s, a, mode) && Get(o, RESPONSE_MODE) == Present(mode)
    requires mode.IsDcApi() ==> "response_uri" !in o && "redirect_uri" !in o
    requires !mode.IsDcApi() ==>
               var own, other := if mode.IsDirectPost() then "response_uri" else "redirect_uri",
                                 if mode.IsDirectPost() then "redirect_uri" else "response_uri";
               own in o && o[own] == Str(s.codec.printUrl(a.verifier.submissionEndpoint.value))
               && SameEntry(o, a.parameters, other)
    ensures ParseReturn(s, o).Ok? <==> ModeFits(s, a, mode)
    ensures ModeFits(s, a, mode) ==>
              ParseReturn(s, o) == Ok((if mode in {DcApi, DcApiJwt} then None else a.verifier.submissionEndpoint, mode))
  {
    if !mode.IsDcApi() {
      var endpoint := a.verifier.submissionEndpoint.value;
      assert s.codec.parseUrl(s.codec.printUrl(endpoint)) == Some(endpoint);
    }
  }

  lemma ReturnOfFinal(s: Serde, a: Attempt, mode: ResponseMode)
    requires Lawful(s.codec) && Addressable(s, a, mode)
    ensures var o := FinalParameters(s, a, mode);
            && (ParseReturn(s, o).Ok? <==> ModeFits(s, a, mode))
            && (ModeFits(s, a, mode) ==>
                  ParseReturn(s, o) == Ok((if mode in {DcApi, DcApiJwt} then None else a.verifier.submissionEndpoint, mode)))
  {
    WrittenParameter(s, a, mode, RESPONSE_MODE);
    ReturnEntries(s, a, mode);
    ReturnFromEntries(s, a, mode, FinalParameters(s, a, mode));
  }

  // The queries the final parameters hold.
  lemma QueryEntries(s: Serde, a: Attempt)
    requires a.dcql.Some? <==> a.definition.None?
    ensures var o := WithItsQuery(s, a);
            && SameEntry(o, a.parameters, "presentation_definition_uri")
            && match a.dcql
               case None =>
                 && SameEntry(o, a.parameters, "dcql_query")
                 && "presentation_definition" in o
                 && o["presentation_definition"] == DefinitionToJson(s.parts, a.definition.value)
               case Some(q) =>
                 && SameEntry(o, a.parameters, "presentation_definition")
                 && match s.dcqlToJson(q)
                    case Some(v) => "dcql_query" in o && o["dcql_query"] == v
                    case None => SameEntry(o, a.parameters, "dcql_query")
  {
  }

  lemma QueryFromEntries(s: Serde, a: Attempt, o: Entries)
    requires a.dcql.Some? <==> a.definition.None?
    requires SameEntry(o, a.parameters, "presentation_definition_uri")
    requires a.dcql.None? ==>
               && SameEntry(o, a.parameters, "dcql_query")
               && "presentation_definition" in o
               && o["presentation_definition"] == DefinitionToJson(s.parts, a.definition.value)
    requires a.dcql.Some? ==>
               && SameEntry(o, a.parameters, "presentation_definition")
               && match s.dcqlToJson(a.dcql.value)
                  case Some(v) => "dcql_query" in o && o["dcql_query"] == v
                  case None => SameEntry(o, a.parameters, "dcql_query")
    ensures ParseQuery(s, o).Ok? <==> QueryFits(s, a)
  {
    QueryParsesIff(s, o);
  }

  lemma QueryOfFinal(s: Serde, a: Attempt, mode: ResponseMode)
    requires a.dcql.Some? <==> a.definition.None?
    ensures ParseQuery(s, FinalParameters(s, a, mode)).Ok? <==> QueryFits(s, a)
  {
    QueryEntries(s, a);
    WrittenEntry(s, a, mode, "presentation_definition_uri");
    WrittenEntry(s, a, mode, "presentation_definition");
    WrittenEntry(s, a, mode, "dcql_query");
    QueryFromEntries(s, a, FinalParameters(s, a, mode));
  }

  // The final parameters are a request exactly under these conditions.
  lemma FinalParses(s: Serde, a: Attempt, mode: ResponseMode)
    requires Lawful(s.codec) && Addressable(s, a, mode) && (a.dcql.Some? <==> a.definition.None?)
    ensures ParseRequest(s, FinalParameters(s, a, mode)).Ok? <==>
            && ModeFits(s, a, mode)
            && QueryFits(s, a)
            && Get(a.parameters, RESPONSE_TYPE).Present?
            && Get(a.parameters, NONCE).Present?
            && Get(a.parameters, ClientMetadataParameter(s.codec)).Present?
  {
    FinalClientId(s, a, mode);
    ReturnOfFinal(s, a, mode);
    QueryOfFinal(s, a, mode);
    WrittenParameter(s, a, mode, RESPONSE_TYPE);
    WrittenParameter(s, a, mode, NONCE);
    WrittenParameter(s, a, mode, ClientMetadataParameter(s.codec));
    ParsesFromParts(s, FinalParameters(s, a, mode));
  }

  lemma ParsesFromParts(s: Serde, o: Entries)
    ensures ParseRequest(s, o).Ok? <==>
            && Get(o, CLIENT_ID).Present? && ParseReturn(s, o).Ok? && Get(o, RESPONSE_TYPE).Present?
            && ParseQuery(s, o).Ok? && Get(o, NONCE).Present? && Get(o, ClientMetadataParameter(s.codec)).Present?
  {
  }

  // ---- When a build succeeds ----

  // The signer accepts the request.
  ghost predicate Signs(s: Serde, a: Attempt, o: Entries) {
    a.requestType.SignedJwt? ==> ParseRequest(s, o).Ok? && a.verifier.client.sign(ParseRequest(s, o).value).Some?
  }

  // A build succeeds exactly when there is one query, a valid one, which parses from what it
  // is written as beside no other; the wallet accepts response type and prefix and has an
  // endpoint; the mode is one there is and fits; nonce and client metadata are there; and the
  // signer, where one is needed, signs the request of the final parameters.
  lemma SucceedsIff(s: Serde, a: Attempt, wallet: Metadata)
    requires Lawful(s.codec)
    ensures Succeeds(s, a, wallet) <==>
            && QueryAccepted(a.dcql, a.definition)
            && QueryFits(s, a)
            && ResponseTypeAccepted(s, a.parameters, wallet)
            && a.verifier.client.prefix in wallet.clientIdPrefixes
            && Get(wallet.inner, EndpointParameter(s.codec)).Present?
            && Get(a.parameters, NONCE).Present?
            && Get(a.parameters, ClientMetadataParameter(s.codec)).Present?
            && exists mode :: ModeFits(s, a, mode) && Signs(s, a, FinalParameters(s, a, mode))
  {
    var lookup := Get(a.parameters, RESPONSE_MODE);
    TypeBeforeAddressing(s, a, wallet);
    if lookup.Present? {
      var mode := lookup.value;
      AddressingFits(s, a, mode);
      if Addressable(s, a, mode) && QueryAccepted(a.dcql, a.definition) {
        FinalParses(s, a, mode);
        SucceedsAddressed(s, a, wallet, FinalParameters(s, a, mode));
      } else {
        NotAddressedNeverSucceeds(s, a, wallet);
      }
      assert forall m :: ModeFits(s, a, m) ==> m == mode;
    } else {
      assert Get(WithItsQuery(s, a), RESPONSE_MODE) == lookup by {
        WrittenParameter(s, a, Fragment, RESPONSE_MODE);
      }
      UnaddressedIff(s, WithItsQuery(s, a), a.verifier.submissionEndpoint, a.requestType);
    }
  }

  lemma TypeBeforeAddressing(s: Serde, a: Attempt, wallet: Metadata)
    ensures ResponseTypeAccepted(s, WithItsQuery(s, a), wallet) <==> ResponseTypeAccepted(s, a.parameters, wallet)
  {
    WrittenParameter(s, a, Fragment, RESPONSE_TYPE);
    WrittenParameter(s, a, Fragment, ClientMetadataParameter(s.codec));
  }

  lemma SucceedsAddressed(s: Serde, a: Attempt, wallet: Metadata, o: Entries)
    requires AddressParameters(s, WithItsQuery(s, a), a.verifier.submissionEndpoint, a.requestType) == Ok(o)
    ensures Succeeds(s, a, wallet) <==>
            && QueryAccepted(a.dcql, a.definition)
            && ResponseTypeAccepted(s, WithItsQuery(s, a), wallet)
            && a.verifier.client.prefix in wallet.clientIdPrefixes
            && ParseRequest(s, o).Ok?
            && Get(wallet.inner, EndpointParameter(s.codec)).Present?
            && Signs(s, a, o)
  {
  }

  lemma NotAddressedNeverSucceeds(s: Serde, a: Attempt, wallet: Metadata)
    requires var addressed := AddressParameters(s, WithItsQuery(s, a), a.verifier.submissionEndpoint, a.requestType);
             (addressed.Ok? ==> Get(addressed.value, CLIENT_ID).Missing?) || !QueryAccepted(a.dcql, a.definition)
    ensures !Succeeds(s, a, wallet)
  {
  }

  // ---- What is built ----

  lemma SucceedsFits(s: Serde, a: Attempt, wallet: Metadata) returns (mode: ResponseMode)
    requires Lawful(s.codec) && Succeeds(s, a, wallet)
    ensures ModeFits(s, a, mode)
  {
    SucceedsIff(s, a, wallet);
    mode :| ModeFits(s, a, mode);
  }

  lemma FinalIs(s: Serde, a: Attempt, wallet: Metadata, mode: ResponseMode)
    requires Succeeds(s, a, wallet) && Addressable(s, a, mode)
    ensures Final(s, a, wallet) == FinalParameters(s, a, mode)
  {
    AddressingFits(s, a, mode);
  }

  // The request of a successful build, field by field: the client's id, the verifier's
  // endpoint as return URI or none with the Digital Credentials API, and all else from the
  // parameters, the origins with that API only.
  lemma BuiltRequest(s: Serde, a: Attempt, wallet: Metadata)
    requires Lawful(s.codec) && Succeeds(s, a, wallet)
    ensures var r := ParseRequest(s, Final(s, a, wallet)).value;
            var withApi := r.responseMode in {DcApi, DcApiJwt};
            && r.clientId == a.verifier.client.id
            && Get(a.parameters, RESPONSE_MODE) == Present(r.responseMode)
            && Get(a.parameters, RESPONSE_TYPE) == Present(r.responseType)
            && Get(a.parameters, NONCE) == Present(r.nonce)
            && Get(a.parameters, ClientMetadataParameter(s.codec)) == Present(r.clientMetadata)
            && r.returnUri == (if withApi then None else a.verifier.submissionEndpoint)
            && (withApi ==>
                  && a.requestType.SignedJwt?
                  && r.expectedOrigins.Some?
                  && Get(a.parameters, ExpectedOriginsParameter(s)) == Present(r.expectedOrigins.value)
                  && Final(s, a, wallet) == WithItsQuery(s, a) - {"response_uri", "redirect_uri"})
            && (!withApi ==> r.expectedOrigins == None && r.returnUri.Some?)
  {
    var mode := SucceedsFits(s, a, wallet);
    FinalIs(s, a, wallet, mode);
    var o := Final(s, a, wallet);
    PartsOf(s, o);
    OriginsOf(s, o);
    FinalClientId(s, a, mode);
    ReturnOfFinal(s, a, mode);
    WrittenParameter(s, a, mode, RESPONSE_TYPE);
    WrittenParameter(s, a, mode, NONCE);
    WrittenParameter(s, a, mode, ClientMetadataParameter(s.codec));
    WrittenParameter(s, a, mode, ExpectedOriginsParameter(s));
  }

  // What a successful build sends: plain, the request's own URL and no JWT; signed, the JWT of
  // the request and a URL that reads as the client's full id with the JWT in it, or with the
  // reference asked for.
  lemma SentRequest(s: Serde, a: Attempt, wallet: Metadata)
    requires Lawful(s.codec) && Succeeds(s, a, wallet)
    ensures var request := ParseRequest(s, Final(s, a, wallet)).value;
            var endpoint := EndpointOf(s, wallet);
            var sent := Answer(s, a.verifier.client, Final(s, a, wallet), wallet, a.requestType);
            match a.requestType
            case PlainRequest => sent == Built(IntoUrl(s, request, endpoint), None)
            case SignedJwt(reference) =>
              && sent.jwt.Some? && sent.jwt == a.verifier.client.sign(request)
              && sent.url.(query := endpoint.query) == endpoint
              && var id := a.verifier.client.id;
                 FromUrl(s, sent.url, endpoint) ==
                 Ok(Signed(SignedAuthorizationRequest(
                             PrefixName(id.prefix) + ":" + id.id,
                             match reference
                             case None => ByValue(sent.jwt.value)
                             case Some((uri, verb)) => ByReference(uri, verb))))
  {
    if a.requestType.SignedJwt? {
      SignedAnswerOf(s, a, wallet);
      var sent := Answer(s, a.verifier.client, Final(s, a, wallet), wallet, a.requestType);
      var signed := SignedRequestFor(a.verifier.client, a.requestType, sent.jwt.value);
      SignedReadElsewhere(s, signed, EndpointOf(s, wallet), EndpointOf(s, wallet));
    }
  }

  lemma FailsInAddressing(s: Serde, a: Attempt, wallet: Metadata, e: BuildError, addressed: Result<Entries, BuildError>)
    requires addressed == AddressParameters(s, WithItsQuery(s, a), a.verifier.submissionEndpoint, a.requestType)
    requires QueryAccepted(a.dcql, a.definition) && ResponseTypeAccepted(s, WithItsQuery(s, a), wallet)
    requires a.verifier.client.prefix in wallet.clientIdPrefixes
    ensures BuildFails(e, s, a.verifier, a.parameters, a.dcql, a.definition, wallet, a.requestType) <==>
            match addressed
            case Err(x) => e == x
            case Ok(o) => FinishFails(e, s, a.verifier.client, o, wallet, a.requestType)
  {
  }

  // With a valid query, response type and prefix, a signed build for the Digital Credentials
  // API without origins is refused for their being missed, with malformed ones for that, and
  // with origins that parse it gets as far as making the request.
  lemma OriginsDecide(s: Serde, a: Attempt, wallet: Metadata, e: BuildError)
    requires a.requestType.SignedJwt?
    requires Get(a.parameters, RESPONSE_MODE) in {Present(DcApi), Present(DcApiJwt)}
    requires QueryAccepted(a.dcql, a.definition) && ResponseTypeAccepted(s, a.parameters, wallet)
    requires a.verifier.client.prefix in wallet.clientIdPrefixes
    ensures var refused := BuildFails(e, s, a.verifier, a.parameters, a.dcql, a.definition, wallet, a.requestType);
            match Get(a.parameters, ExpectedOriginsParameter(s))
            case Missing => refused <==> e == ExpectedOriginsMissing
            case Malformed => refused <==> e == ExpectedOriginsMalformed
            case Present(_) =>
              refused <==> FinishFails(e, s, a.verifier.client, WithItsQuery(s, a) - {"response_uri", "redirect_uri"}, wallet, a.requestType)
  {
    var mode := Get(a.parameters, RESPONSE_MODE).value;
    TypeBeforeAddressing(s, a, wallet);
    WrittenParameter(s, a, mode, RESPONSE_MODE);
    WrittenParameter(s, a, mode, ExpectedOriginsParameter(s));
    AddressedIff(s, WithItsQuery(s, a), a.verifier.submissionEndpoint, a.requestType, mode);
    FailsInAddressing(s, a, wallet, e, AddressParameters(s, WithItsQuery(s, a), a.verifier.submissionEndpoint, a.requestType));
  }
}
