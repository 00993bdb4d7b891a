// Typed request and metadata parameters (src/core/authorization_request/parameters.rs,
// src/core/metadata/parameters).
module RequestParameters {
  import opened Wrappers
  import opened JsonValues
  import opened ClaimFormats
  import opened PresentationDefinitions
  import opened DefinitionForms
  import opened Dcql
  import opened Objects
  import opened ClientIds

  // The serde conversions of the other structured parameters are library code.
  datatype Serde = Serde(
    codec: Codec,
    parts: Parts,
    dcqlFromJson: Json -> Option<DCQL>,
    dcqlToJson: DCQL -> Option<Json>,
    parseOrigin: string -> Option<string>)

  datatype ResponseMode =
    | DirectPost | DirectPostJwt | Fragment | FragmentJwt | DcApi | DcApiJwt
    | UnsupportedMode(text: string)
  {
    predicate IsDcApi() {
      DcApi? || DcApiJwt?
    }

    predicate IsDirectPost() {
      DirectPost? || DirectPostJwt?
    }

    predicate IsFragment() {
      Fragment? || FragmentJwt?
    }
  }

  function ModeFromText(s: string): ResponseMode {
    if s == "direct_post" then DirectPost
    else if s == "direct_post.jwt" then DirectPostJwt
    else if s == "fragment" then Fragment
    else if s == "fragment.jwt" then FragmentJwt
    else if s == "dc_api" then DcApi
    else if s == "dc_api.jwt" then DcApiJwt
    else UnsupportedMode(s)
  }

  function ModeText(m: ResponseMode): string {
    match m
    case DirectPost => "direct_post"
    case DirectPostJwt => "direct_post.jwt"
    case Fragment => "fragment"
    case FragmentJwt => "fragment.jwt"
    case DcApi => "dc_api"
    case DcApiJwt => "dc_api.jwt"
    case UnsupportedMode(s) => s
  }

  datatype ResponseType = VpToken | VpTokenIdToken | UnsupportedType(text: string)

  function TypeFromText(s: string): ResponseType {
    if s == "vp_token" then VpToken
    else if s == "vp_token id_token" then VpTokenIdToken
    else UnsupportedType(s)
  }

  function TypeText(t: ResponseType): string {
    match t
    case VpToken => "vp_token"
    case VpTokenIdToken => "vp_token id_token"
    case UnsupportedType(s) => s
  }

  // The texts of the response modes and types, and that any other text is kept.
  lemma ModeTexts(s: string, m: ResponseMode)
    ensures ModeText(ModeFromText(s)) == s
    ensures !m.UnsupportedMode? ==> ModeFromText(ModeText(m)) == m
    ensures ModeFromText(s).IsDirectPost() <==> s in {"direct_post", "direct_post.jwt"}
    ensures ModeFromText(s).IsFragment() <==> s in {"fragment", "fragment.jwt"}
    ensures ModeFromText(s).IsDcApi() <==> s in {"dc_api", "dc_api.jwt"}
    ensures ModeFromText(s) in {DirectPostJwt, FragmentJwt, DcApiJwt} <==>
            s in {"direct_post.jwt", "fragment.jwt", "dc_api.jwt"}
  {
  }

  lemma TypeTextsMeaning(s: string, t: ResponseType)
    ensures TypeText(TypeFromText(s)) == s
    ensures !t.UnsupportedType? ==> TypeFromText(TypeText(t)) == t
    ensures TypeFromText(s) == VpToken <==> s == "vp_token"
    ensures TypeFromText(s) == VpTokenIdToken <==> s == "vp_token id_token"
  {
  }

  // A parameter that is a string in JSON.
  function TextParameter(key: string): TypedParameter<string> {
    TypedParameter(key, v => AsStr(v), s => Some(Str(s)))
  }

  const NONCE: TypedParameter<string> := TextParameter("nonce")
  const STATE: TypedParameter<string> := TextParameter("state")
  const WALLET_NONCE: TypedParameter<string> := TextParameter("wallet_nonce")

  const CLIENT_ID: TypedParameter<ClientId> :=
    TypedParameter("client_id", v => ClientIdFromJson(v), (c: ClientId) => Some(Str(c.FullId())))

  const RESPONSE_MODE: TypedParameter<ResponseMode> :=
    TypedParameter("response_mode",
                   (v: Json) => if v.Str? then Some(ModeFromText(v.text)) else None,
                   m => Some(Str(ModeText(m))))

  const RESPONSE_TYPE: TypedParameter<ResponseType> :=
    TypedParameter("response_type",
                   (v: Json) => if v.Str? then Some(TypeFromText(v.text)) else None,
                   t => Some(Str(TypeText(t))))

  function UrlFromJson(c: Codec, v: Json): Option<Url> {
    if v.Str? then c.parseUrl(v.text) else None
  }

  function UrlParameter(c: Codec, key: string): TypedParameter<Url> {
    TypedParameter(key, v => UrlFromJson(c, v), u => Some(Str(c.printUrl(u))))
  }

  function RedirectUriParameter(c: Codec): TypedParameter<Url> { UrlParameter(c, "redirect_uri") }
  function ResponseUriParameter(c: Codec): TypedParameter<Url> { UrlParameter(c, "response_uri") }
  function DefinitionUriParameter(c: Codec): TypedParameter<Url> { UrlParameter(c, "presentation_definition_uri") }
  function EndpointParameter(c: Codec): TypedParameter<Url> { UrlParameter(c, "authorization_endpoint") }

  function DefinitionParameter(s: Serde): TypedParameter<PresentationDefinition> {
    TypedParameter("presentation_definition",
                   v => FromStringOrValue(s.codec, d => DefinitionFromJson(s.parts, d), v),
                   d => Some(DefinitionToJson(s.parts, d)))
  }

  function DcqlParameter(s: Serde): TypedParameter<DCQL> {
    TypedParameter("dcql_query", v => FromStringOrValue(s.codec, s.dcqlFromJson, v), s.dcqlToJson)
  }

  function EntriesFromJson(v: Json): Option<Entries> {
    if v.Object? then Some(v.fields) else None
  }

  function ClientMetadataParameter(c: Codec): TypedParameter<Entries> {
    TypedParameter("client_metadata", v => FromStringOrValue(c, EntriesFromJson, v), (o: Entries) => Some(Object(o)))
  }

  function OriginsFromJson(s: Serde, v: Json): Option<seq<string>> {
    match StringsFromJson(v)
    case Some(urls) =>
      if urls != [] && forall i :: 0 <= i < |urls| ==> s.parseOrigin(urls[i]).Some?
      then Some(seq(|urls|, i requires 0 <= i < |urls| => s.parseOrigin(urls[i]).value))
      else None
    case None => None
  }

  function ExpectedOriginsParameter(s: Serde): TypedParameter<seq<string>> {
    TypedParameter("expected_origins", v => OriginsFromJson(s, v), origins => Some(StrArray(origins)))
  }

  // ---- Metadata parameters ----

  function StringListParameter(key: string): TypedParameter<seq<string>> {
    TypedParameter(key, v => StringsFromJson(v), texts => Some(StrArray(texts)))
  }

  const SUBJECT_SYNTAX_TYPES: TypedParameter<seq<string>> := StringListParameter("subject_syntax_types_supported")
  const SIGNING_ALGS: TypedParameter<seq<string>> := StringListParameter("request_object_signing_alg_values_supported")

  const DEFAULT_SUBJECT_SYNTAX_TYPES := ["urn:ietf:params:oauth:jwk-thumbprint", "did:key"]
  const DEFAULT_SIGNING_ALGS := ["ES256"]
  const DEFAULT_PREFIXES := [PreRegistered]

  function PrefixesFromJson(v: Json): Option<seq<ClientIdPrefix>> {
    match StringsFromJson(v)
    case Some(names) =>
      if forall i :: 0 <= i < |names| ==> PrefixFromName(names[i]).Some?
      then Some(seq(|names|, i requires 0 <= i < |names| => PrefixFromName(names[i]).value))
      else None
    case None => None
  }

  function PrefixNames(ps: seq<ClientIdPrefix>): seq<string> {
    seq(|ps|, i requires 0 <= i < |ps| => PrefixName(ps[i]))
  }

  const CLIENT_ID_PREFIXES: TypedParameter<seq<ClientIdPrefix>> :=
    TypedParameter("client_id_prefixes_supported", v => PrefixesFromJson(v), ps => Some(StrArray(PrefixNames(ps))))

  function TypesFromJson(v: Json): Option<seq<ResponseType>> {
    match StringsFromJson(v)
    case Some(texts) => Some(seq(|texts|, i requires 0 <= i < |texts| => TypeFromText(texts[i])))
    case None => None
  }

  function TypeTexts(ts: seq<ResponseType>): seq<string> {
    seq(|ts|, i requires 0 <= i < |ts| => TypeText(ts[i]))
  }

  const RESPONSE_TYPES: TypedParameter<seq<ResponseType>> :=
    TypedParameter("response_types_supported", v => TypesFromJson(v), ts => Some(StrArray(TypeTexts(ts))))

  function VpFormatsParameter(s: Serde): TypedParameter<ClaimFormatMap> {
    TypedParameter("vp_formats_supported", s.parts.formatsFromJson, formats => Some(s.parts.formatsToJson(formats)))
  }

  // The keys the parameters go under.
  lemma ParameterKeys(s: Serde)
    ensures [NONCE.key, STATE.key, WALLET_NONCE.key, CLIENT_ID.key, RESPONSE_MODE.key, RESPONSE_TYPE.key] ==
            ["nonce", "state", "wallet_nonce", "client_id", "response_mode", "response_type"]
    ensures [RedirectUriParameter(s.codec).key, ResponseUriParameter(s.codec).key, ExpectedOriginsParameter(s).key,
             DefinitionUriParameter(s.codec).key, DefinitionParameter(s).key, DcqlParameter(s).key,
             ClientMetadataParameter(s.codec).key] ==
            ["redirect_uri", "response_uri", "expected_origins", "presentation_definition_uri", "presentation_definition",
             "dcql_query", "client_metadata"]
    ensures [EndpointParameter(s.codec).key, SUBJECT_SYNTAX_TYPES.key, SIGNING_ALGS.key, CLIENT_ID_PREFIXES.key,
             RESPONSE_TYPES.key, VpFormatsParameter(s).key] ==
            ["authorization_endpoint", "subject_syntax_types_supported", "request_object_signing_alg_values_supported",
             "client_id_prefixes_supported", "response_types_supported", "vp_formats_supported"]
  {
  }

  // Client metadata are objects.
  lemma EntriesParseIff(v: Json, o: Entries)
    ensures EntriesFromJson(v) == Some(o) <==> v == Object(o)
  {
  }

  lemma PrefixesRoundTrip(ps: seq<ClientIdPrefix>)
    ensures PrefixesFromJson(StrArray(PrefixNames(ps))) == Some(ps)
  {
    var names := PrefixNames(ps);
    StringsRoundTrip(names);
    forall i | 0 <= i < |ps|
      ensures PrefixFromName(names[i]) == Some(ps[i])
    {
      PrefixRoundTrip(ps[i]);
    }
    assert PrefixesFromJson(StrArray(names)).value == ps;
  }

  // No list with a name that is not a prefix is read.
  lemma PrefixesParseIff(v: Json, ps: seq<ClientIdPrefix>)
    ensures PrefixesFromJson(v) == Some(ps) <==> v == StrArray(PrefixNames(ps))
  {
    PrefixesRoundTrip(ps);
    if PrefixesFromJson(v) == Some(ps) {
      var names := StringsFromJson(v).value;
      StringsParseIff(v, names);
      forall i | 0 <= i < |ps|
        ensures PrefixName(ps[i]) == names[i]
      {
        NameRoundTrip(names[i]);
      }
      assert PrefixNames(ps) == names;
    }
  }

  // Any list of strings is read as response types, each kept as its text.
  lemma TypesParseIff(v: Json, ts: seq<ResponseType>)
    ensures TypesFromJson(v).Some? <==> StringsFromJson(v).Some?
    ensures TypesFromJson(v) == Some(ts) ==>
              v == StrArray(TypeTexts(ts)) && forall i :: 0 <= i < |ts| ==> TypeFromText(TypeText(ts[i])) == ts[i]
  {
    if TypesFromJson(v) == Some(ts) {
      var texts := StringsFromJson(v).value;
      StringsParseIff(v, texts);
      assert TypeTexts(ts) == texts;
    }
  }

  // Origins are a non-empty list of strings, each of which parses.
  lemma OriginsParseIff(s: Serde, v: Json, origins: seq<string>)
    ensures OriginsFromJson(s, v) == Some(origins) <==>
            exists texts :: v == StrArray(texts) && OriginsOfTexts(s, texts, origins)
  {
    if OriginsFromJson(s, v) == Some(origins) {
      var texts := StringsFromJson(v).value;
      StringsParseIff(v, texts);
      assert OriginsOfTexts(s, texts, origins);
    }
    if texts :| v == StrArray(texts) && OriginsOfTexts(s, texts, origins) {
      StringsRoundTrip(texts);
      assert OriginsFromJson(s, v).value == origins;
    }
  }

  ghost predicate OriginsOfTexts(s: Serde, texts: seq<string>, origins: seq<string>) {
    && 0 < |texts| == |origins|
    && forall i :: 0 <= i < |texts| ==> s.parseOrigin(texts[i]) == Some(origins[i])
  }
}
