// The wallet's checks on a request (src/core/authorization_request/verification/mod.rs and
// `resolve_auth_request` in src/core/authorization_request/mod.rs).
module RequestVerification {
  import opened Wrappers
  import opened ClaimFormats
  import opened Objects
  import opened ClientIds
  import opened RequestParameters
  import opened AuthorizationRequests
  import opened WalletMetadatas

  datatype VerificationError =
    | RequestInvalid(error: RequestError)
    | MetadataMalformed
    | PrefixNotSupported(prefix: ClientIdPrefix)
    | ResponseTypeMissing
    | ResponseTypeMalformed
    | ResponseTypeNotSupported(responseType: ResponseType)
    | ClientMetadataMissing
    | ClientMetadataMalformed
    | SubjectSyntaxTypesMissing
    | SubjectSyntaxTypesMalformed
    | SubjectSyntaxTypeNotSupported(syntaxType: string)
    | VpFormatsNotSupported
    | HookRejected
    | ReturnUriRequired
    | JwtMalformed
    | WalletNonceMalformed
    | WalletNonceInvalid
    | ClientIdsDiffer

  // The first element the wallet does not support, if any.
  function FirstUnsupported(offered: seq<string>, supported: seq<string>): (r: Option<string>)
    ensures r.None? <==> forall x :: x in offered ==> x in supported
    ensures r.Some? ==>
              exists i :: 0 <= i < |offered| && offered[i] == r.value && r.value !in supported
                          && forall j :: 0 <= j < i ==> offered[j] in supported
  {
    if offered == [] then None
    else if offered[0] !in supported then Some(offered[0])
    else FirstUnsupported(offered[1..], supported)
  }

  // `validate_response_type` on the wallet's side; it reads the request's entries.
  function ValidateResponseType(s: Serde, o: Entries, wallet: Metadata): Result<(), VerificationError> {
    match Get(o, RESPONSE_TYPE)
    case Missing => Err(ResponseTypeMissing)
    case Malformed => Err(ResponseTypeMalformed)
    case Present(responseType) =>
      if responseType !in wallet.responseTypes then Err(ResponseTypeNotSupported(responseType))
      else if responseType != VpTokenIdToken then Ok(())
      else
        match Get(o, ClientMetadataParameter(s.codec))
        case Missing => Err(ClientMetadataMissing)
        case Malformed => Err(ClientMetadataMalformed)
        case Present(metadata) =>
          match Get(metadata, SUBJECT_SYNTAX_TYPES)
          case Missing => Err(SubjectSyntaxTypesMissing)
          case Malformed => Err(SubjectSyntaxTypesMalformed)
          case Present(types) =>
            match FirstUnsupported(types, wallet.subjectSyntaxTypes)
            case Some(t) => Err(SubjectSyntaxTypeNotSupported(t))
            case None => Ok(())
  }

  // Whether a format the verifier offers is supported with a payload in common.
  predicate FormatsOverlap(offered: ClaimFormatMap, supported: ClaimFormatMap) {
    exists f :: f in offered && f in supported && PayloadContains(supported[f], offered[f])
  }

  // No list of formats is no objection; a list must not be empty and must overlap.
  predicate VpFormatsAcceptable(s: Serde, clientMetadata: Entries, wallet: Metadata) {
    match Get(clientMetadata, VpFormatsParameter(s))
    case Present(offered) => offered != map[] && FormatsOverlap(offered, wallet.vpFormats)
    case _ => true
  }

  // `validate_request_against_metadata`. The prefix list is read out of the wallet's object,
  // the response and syntax types are the wallet's cached ones.
  function ValidateAgainstMetadata(s: Serde, r: AuthorizationRequestObject, wallet: Metadata): Result<(), VerificationError> {
    match GetOrDefault(wallet.inner, CLIENT_ID_PREFIXES, DEFAULT_PREFIXES)
    case None => Err(MetadataMalformed)
    case Some(prefixes) =>
      if r.clientId.prefix !in prefixes then Err(PrefixNotSupported(r.clientId.prefix))
      else
        var _ :- ValidateResponseType(s, r.inner, wallet);
        match Get(r.inner, ClientMetadataParameter(s.codec))
        case Malformed => Err(ClientMetadataMalformed)
        case Missing => Ok(())
        case Present(metadata) =>
          if VpFormatsAcceptable(s, metadata, wallet) then Ok(()) else Err(VpFormatsNotSupported)
  }

  // The wallet's own verification, by client id prefix: any verdict.
  type Hook = AuthorizationRequestObject -> bool

  function VerifyPlain(s: Serde, r: AuthorizationRequestObject, wallet: Metadata, hook: Hook)
    : Result<AuthorizationRequestObject, VerificationError>
  {
    if r.returnUri.Some? && !hook(r) then Err(HookRejected)
    else if r.returnUri.None? && !r.responseMode.IsDcApi() then Err(ReturnUriRequired)
    else
      var _ :- ValidateAgainstMetadata(s, r, wallet);
      Ok(r)
  }

  // `validate_nonce`: a request need not carry a wallet nonce, but one it carries must be the wallet's.
  function ValidateNonce(o: Entries, issued: string -> bool): Result<(), VerificationError> {
    match Get(o, WALLET_NONCE)
    case Missing => Ok(())
    case Malformed => Err(WalletNonceMalformed)
    case Present(nonce) => if issued(nonce) then Ok(()) else Err(WalletNonceInvalid)
  }

  // `verify_request` on a JWT: `body` is what it decodes to.
  function VerifyJwt(s: Serde, body: Option<Entries>, wallet: Metadata, hook: Hook)
    : Result<AuthorizationRequestObject, VerificationError>
  {
    match body
    case None => Err(JwtMalformed)
    case Some(o) =>
      match ParseRequest(s, o)
      case Err(e) => Err(RequestInvalid(e))
      case Ok(r) =>
        if !hook(r) then Err(HookRejected)
        else
          var _ :- ValidateAgainstMetadata(s, r, wallet);
          Ok(r)
  }

  // `resolve_auth_request` once the JWT is at hand; `issued` is the wallet's verdict on a nonce.
  function ResolveSigned(s: Serde, signed: SignedAuthorizationRequest, body: Option<Entries>, wallet: Metadata, hook: Hook,
                         issued: string -> bool)
    : Result<AuthorizationRequestObject, VerificationError>
  {
    var r :- VerifyJwt(s, body, wallet, hook);
    var _ :- ValidateNonce(r.inner, issued);
    if SameClient(signed, r) then Ok(r) else Err(ClientIdsDiffer)
  }

  // What both sides ask of the response type: the wallet supports it and, where an id token
  // is requested, every subject syntax type the client declares.
  predicate ResponseTypeAccepted(s: Serde, o: Entries, wallet: Metadata) {
    && Get(o, RESPONSE_TYPE).Present?
    && Get(o, RESPONSE_TYPE).value in wallet.responseTypes
    && (Get(o, RESPONSE_TYPE).value == VpTokenIdToken ==>
          && Get(o, ClientMetadataParameter(s.codec)).Present?
          && var types := Get(Get(o, ClientMetadataParameter(s.codec)).value, SUBJECT_SYNTAX_TYPES);
             types.Present? && forall t :: t in types.value ==> t in wallet.subjectSyntaxTypes)
  }

  lemma WalletTypeCheck(s: Serde, o: Entries, wallet: Metadata)
    ensures ValidateResponseType(s, o, wallet).Ok? <==> ResponseTypeAccepted(s, o, wallet)
  {
  }

  // Offered formats that can be read share a designation with the supported ones, and a
  // payload under it; formats that are not declared, or cannot be read, are no objection.
  ghost predicate FormatsAccepted(s: Serde, clientMetadata: Entries, supported: ClaimFormatMap) {
    match Get(clientMetadata, VpFormatsParameter(s))
    case Present(offered) => exists f :: f in offered && f in supported && Share(offered[f], supported[f])
    case _ => true
  }

  lemma FormatsAcceptedIff(s: Serde, clientMetadata: Entries, wallet: Metadata)
    ensures VpFormatsAcceptable(s, clientMetadata, wallet) <==> FormatsAccepted(s, clientMetadata, wallet.vpFormats)
  {
    var lookup := Get(clientMetadata, VpFormatsParameter(s));
    if lookup.Present? {
      forall f | f in lookup.value && f in wallet.vpFormats
        ensures PayloadContains(wallet.vpFormats[f], lookup.value[f]) <==> Share(lookup.value[f], wallet.vpFormats[f])
      {
        PayloadContainsIff(wallet.vpFormats[f], lookup.value[f]);
        PayloadContainsIff(lookup.value[f], wallet.vpFormats[f]);
      }
    }
  }

  // What the wallet asks of a request against its metadata: the client's prefix is listed,
  // the response type accepted, and client metadata, if there are any, parse and share a
  // VP format.
  ghost predicate MetadataAccepts(s: Serde, r: AuthorizationRequestObject, wallet: Metadata) {
    var listed := GetOrDefault(wallet.inner, CLIENT_ID_PREFIXES, DEFAULT_PREFIXES);
    var metadata := Get(r.inner, ClientMetadataParameter(s.codec));
    && listed.Some? && r.clientId.prefix in listed.value
    && ResponseTypeAccepted(s, r.inner, wallet)
    && !metadata.Malformed?
    && (metadata.Present? ==> FormatsAccepted(s, metadata.value, wallet.vpFormats))
  }

  lemma WalletAcceptsIff(s: Serde, r: AuthorizationRequestObject, wallet: Metadata)
    ensures ValidateAgainstMetadata(s, r, wallet).Ok? <==> MetadataAccepts(s, r, wallet)
  {
    WalletTypeCheck(s, r.inner, wallet);
    var metadata := Get(r.inner, ClientMetadataParameter(s.codec));
    if metadata.Present? {
      FormatsAcceptedIff(s, metadata.value, wallet);
    }
  }

  // The wallet's verdict after any run of the mutators, in terms of the metadata parsed and
  // the steps: prefixes added count at once, types are those parsed, formats those set last.
  lemma WalletAcceptsAfterRun(s: Serde, r: AuthorizationRequestObject, start: Metadata, steps: seq<Mutation>)
    requires WellFormedParse(s, start)
    ensures ValidateAgainstMetadata(s, r, Run(start, steps)).Ok? <==>
            var metadata := Get(r.inner, ClientMetadataParameter(s.codec));
            && (r.clientId.prefix in start.clientIdPrefixes || r.clientId.prefix in AddedPrefixes(steps))
            && ResponseTypeAccepted(s, r.inner, start)
            && !metadata.Malformed?
            && (metadata.Present? ==> FormatsAccepted(s, metadata.value, LastFormats(start.vpFormats, steps)))
  {
    WalletAcceptsIff(s, r, Run(start, steps));
    RunKeepsInStep(s, start, steps);
  }

  // ---- What the wallet accepts, whoever made the request ----

  // A plain request: where there is a return URI the hook decides, where there is none the
  // mode must be one of the Digital Credentials API; and the metadata accept.
  lemma PlainAcceptedIff(s: Serde, r: AuthorizationRequestObject, wallet: Metadata, hook: Hook)
    ensures VerifyPlain(s, r, wallet, hook).Ok? <==>
            && (if r.returnUri.Some? then hook(r) else r.responseMode in {DcApi, DcApiJwt})
            && MetadataAccepts(s, r, wallet)
    ensures VerifyPlain(s, r, wallet, hook).Ok? ==> VerifyPlain(s, r, wallet, hook).value == r
  {
    WalletAcceptsIff(s, r, wallet);
  }

  // No wallet nonce, or one that was issued.
  ghost predicate NonceAccepted(o: Entries, issued: string -> bool) {
    "wallet_nonce" in o ==> o["wallet_nonce"].Str? && issued(o["wallet_nonce"].text)
  }

  lemma NonceAcceptedIff(o: Entries, issued: string -> bool)
    ensures ValidateNonce(o, issued).Ok? <==> NonceAccepted(o, issued)
    ensures ValidateNonce(o, issued).Err? ==>
              ValidateNonce(o, issued).error == if o["wallet_nonce"].Str? then WalletNonceInvalid else WalletNonceMalformed
  {
  }

  // What the wallet asks of a JWT: it decodes to a request that the hook and the metadata accept.
  ghost predicate JwtAccepted(s: Serde, body: Option<Entries>, wallet: Metadata, hook: Hook) {
    && body.Some? && ParseRequest(s, body.value).Ok?
    && hook(ParseRequest(s, body.value).value)
    && MetadataAccepts(s, ParseRequest(s, body.value).value, wallet)
  }

  lemma JwtAcceptedIff(s: Serde, body: Option<Entries>, wallet: Metadata, hook: Hook)
    ensures VerifyJwt(s, body, wallet, hook).Ok? <==> JwtAccepted(s, body, wallet, hook)
    ensures VerifyJwt(s, body, wallet, hook).Ok? ==>
              VerifyJwt(s, body, wallet, hook).value == ParseRequest(s, body.value).value
              && VerifyJwt(s, body, wallet, hook).value.inner == body.value
  {
    if body.Some? && ParseRequest(s, body.value).Ok? {
      WalletAcceptsIff(s, ParseRequest(s, body.value).value, wallet);
    }
  }

  // A signed request is resolved exactly when its JWT is accepted, the wallet nonce in it, if
  // there is one, was issued, and the client id outside is the full client id inside.
  lemma SignedAcceptedIff(s: Serde, signed: SignedAuthorizationRequest, body: Option<Entries>, wallet: Metadata, hook: Hook,
                          issued: string -> bool)
    ensures ResolveSigned(s, signed, body, wallet, hook, issued).Ok? <==>
            && JwtAccepted(s, body, wallet, hook)
            && NonceAccepted(body.value, issued)
            && var clientId := ParseRequest(s, body.value).value.clientId;
               signed.clientId == PrefixName(clientId.prefix) + ":" + clientId.id
    ensures ResolveSigned(s, signed, body, wallet, hook, issued).Ok? ==>
              ResolveSigned(s, signed, body, wallet, hook, issued).value == ParseRequest(s, body.value).value
  {
    JwtAcceptedIff(s, body, wallet, hook);
    if body.Some? {
      NonceAcceptedIff(body.value, issued);
    }
  }

  // ---- With which error it refuses ----

  // An id token is asked for, and the wallet gives such responses.
  predicate AsksForIdToken(o: Entries, wallet: Metadata) {
    Get(o, RESPONSE_TYPE) == Present(VpTokenIdToken) && VpTokenIdToken in wallet.responseTypes
  }

  // The first response type check that fails when the wallet refuses with `e`.
  ghost predicate TypeRefused(e: VerificationError, s: Serde, o: Entries, wallet: Metadata) {
    var metadata := Get(o, ClientMetadataParameter(s.codec));
    match e
    case ResponseTypeMissing => Get(o, RESPONSE_TYPE).Missing?
    case ResponseTypeMalformed => Get(o, RESPONSE_TYPE).Malformed?
    case ResponseTypeNotSupported(t) => Get(o, RESPONSE_TYPE) == Present(t) && t !in wallet.responseTypes
    case ClientMetadataMissing => AsksForIdToken(o, wallet) && metadata.Missing?
    case ClientMetadataMalformed => AsksForIdToken(o, wallet) && metadata.Malformed?
    case SubjectSyntaxTypesMissing =>
      AsksForIdToken(o, wallet) && metadata.Present? && Get(metadata.value, SUBJECT_SYNTAX_TYPES).Missing?
    case SubjectSyntaxTypesMalformed =>
      AsksForIdToken(o, wallet) && metadata.Present? && Get(metadata.value, SUBJECT_SYNTAX_TYPES).Malformed?
    case SubjectSyntaxTypeNotSupported(t) =>
      && AsksForIdToken(o, wallet) && metadata.Present?
      && var types := Get(metadata.value, SUBJECT_SYNTAX_TYPES);
         types.Present? && FirstUnsupported(types.value, wallet.subjectSyntaxTypes) == Some(t)
    case _ => false
  }

  // The first check against the metadata that fails.
  ghost predicate MetadataRefuses(e: VerificationError, s: Serde, r: AuthorizationRequestObject, wallet: Metadata) {
    var listed := GetOrDefault(wallet.inner, CLIENT_ID_PREFIXES, DEFAULT_PREFIXES);
    if listed.None? then e == MetadataMalformed
    else if r.clientId.prefix !in listed.value then e == PrefixNotSupported(r.clientId.prefix)
    else if !ResponseTypeAccepted(s, r.inner, wallet) then TypeRefused(e, s, r.inner, wallet)
    else if Get(r.inner, ClientMetadataParameter(s.codec)).Malformed? then e == ClientMetadataMalformed
    else e == VpFormatsNotSupported
  }

  lemma WalletRefusal(s: Serde, r: AuthorizationRequestObject, wallet: Metadata)
    requires ValidateAgainstMetadata(s, r, wallet).Err?
    ensures MetadataRefuses(ValidateAgainstMetadata(s, r, wallet).error, s, r, wallet)
  {
    WalletTypeCheck(s, r.inner, wallet);
  }

  lemma JwtRefusal(s: Serde, body: Option<Entries>, wallet: Metadata, hook: Hook)
    requires !JwtAccepted(s, body, wallet, hook)
    ensures var verified := VerifyJwt(s, body, wallet, hook);
            && verified.Err?
            && if body.None? then verified.error == JwtMalformed
               else if ParseRequest(s, body.value).Err? then
                 verified.error == RequestInvalid(ParseRequest(s, body.value).error)
               else if !hook(ParseRequest(s, body.value).value) then verified.error == HookRejected
               else MetadataRefuses(verified.error, s, ParseRequest(s, body.value).value, wallet)
  {
    JwtAcceptedIff(s, body, wallet, hook);
    if body.Some? && ParseRequest(s, body.value).Ok? && hook(ParseRequest(s, body.value).value) {
      WalletAcceptsIff(s, ParseRequest(s, body.value).value, wallet);
      WalletRefusal(s, ParseRequest(s, body.value).value, wallet);
    }
  }

  // The first check that fails when a signed request is refused: of the JWT and the request
  // in it, the wallet nonce, and the client ids, in this order.
  lemma SignedRefusal(s: Serde, signed: SignedAuthorizationRequest, body: Option<Entries>, wallet: Metadata, hook: Hook,
                      issued: string -> bool)
    requires ResolveSigned(s, signed, body, wallet, hook, issued).Err?
    ensures var error := ResolveSigned(s, signed, body, wallet, hook, issued).error;
            if !JwtAccepted(s, body, wallet, hook) then VerifyJwt(s, body, wallet, hook) == Err(error)
            else if !NonceAccepted(body.value, issued) then
              error == if body.value["wallet_nonce"].Str? then WalletNonceInvalid else WalletNonceMalformed
            else error == ClientIdsDiffer
  {
    JwtAcceptedIff(s, body, wallet, hook);
    if body.Some? {
      NonceAcceptedIff(body.value, issued);
    }
  }
}
