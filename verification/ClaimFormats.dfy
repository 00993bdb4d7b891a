// Claim formats (src/core/credential_format/mod.rs).
module ClaimFormats {
  import opened JsonValues

  datatype ClaimFormatDesignation =
    | Jwt | JwtVc | SdJwtVc | JwtVp | JwtVcJson | JwtVpJson
    | Ldp | LdpVc | LdpVp | AcVc | AcVp | MsoMDoc
    | Other(name: string)

  datatype ClaimFormatPayload =
    | Alg(algs: seq<string>)
    | AlgValuesSupported(algs: seq<string>)
    | ProofType(proofTypes: seq<string>)
    | SdJwtAlgValues(sdJwtAlgs: seq<string>, kbJwtAlgs: seq<string>)
    | Raw(json: Json)

  type ClaimFormatMap = map<ClaimFormatDesignation, ClaimFormatPayload>

  predicate ContainsAny(large: seq<string>, small: seq<string>) {
    exists item :: item in small && item in large
  }

  // Whether a supported payload shares an algorithm with an offered one.
  predicate PayloadContains(supported: ClaimFormatPayload, offered: ClaimFormatPayload) {
    match (supported, offered)
    case (Alg(a), Alg(b)) => ContainsAny(a, b)
    case (AlgValuesSupported(a), AlgValuesSupported(b)) => ContainsAny(a, b)
    case (ProofType(a), ProofType(b)) => ContainsAny(a, b)
    case (SdJwtAlgValues(sa, ka), SdJwtAlgValues(sb, kb)) => ContainsAny(sa, sb) && ContainsAny(ka, kb)
    case (Raw(a), Raw(b)) => a == b
    case _ => false
  }

  // ---- When payloads share an algorithm ----

  ghost predicate InBoth(a: seq<string>, b: seq<string>) {
    exists x :: x in a && x in b
  }

  // One string in both lists, for SD-JWT in each of the two pairs of lists; the same value for
  // raw JSON. Payloads of different kinds share nothing.
  ghost predicate Share(a: ClaimFormatPayload, b: ClaimFormatPayload) {
    match a
    case Alg(algs) => b.Alg? && InBoth(algs, b.algs)
    case AlgValuesSupported(algs) => b.AlgValuesSupported? && InBoth(algs, b.algs)
    case ProofType(types) => b.ProofType? && InBoth(types, b.proofTypes)
    case SdJwtAlgValues(sd, kb) => b.SdJwtAlgValues? && InBoth(sd, b.sdJwtAlgs) && InBoth(kb, b.kbJwtAlgs)
    case Raw(json) => b == Raw(json)
  }

  // It does not matter on which side a payload is offered and on which supported.
  lemma PayloadContainsIff(supported: ClaimFormatPayload, offered: ClaimFormatPayload)
    ensures PayloadContains(supported, offered) <==> Share(supported, offered)
    ensures PayloadContains(supported, offered) <==> PayloadContains(offered, supported)
  {
  }
}
