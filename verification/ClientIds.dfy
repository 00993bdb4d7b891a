// Client identifiers and their prefixes (src/core/authorization_request/parameters.rs).
module ClientIds {
  import opened Wrappers
  import opened JsonValues

  datatype ClientIdPrefix =
    | DecentralizedIdentifier | OpenidFederation | PreRegistered | RedirectUriPrefix
    | VerifierAttestation | Origin | X509SanDns | X509Hash

  function PrefixName(p: ClientIdPrefix): string {
    match p
    case DecentralizedIdentifier => "decentralized_identifier"
    case OpenidFederation => "openid_federation"
    case PreRegistered => "pre-registered"
    case RedirectUriPrefix => "redirect_uri"
    case VerifierAttestation => "verifier_attestation"
    case Origin => "origin"
    case X509SanDns => "x509_san_dns"
    case X509Hash => "x509_hash"
  }

  function PrefixFromName(name: string): Option<ClientIdPrefix> {
    if name == "decentralized_identifier" then Some(DecentralizedIdentifier)
    else if name == "openid_federation" then Some(OpenidFederation)
    else if name == "pre-registered" then Some(PreRegistered)
    else if name == "redirect_uri" then Some(RedirectUriPrefix)
    else if name == "verifier_attestation" then Some(VerifierAttestation)
    else if name == "origin" then Some(Origin)
    else if name == "x509_san_dns" then Some(X509SanDns)
    else if name == "x509_hash" then Some(X509Hash)
    else None
  }

  datatype ClientId = ClientId(id: string, prefix: ClientIdPrefix) {
    function FullId(): string {
      PrefixName(prefix) + ":" + id
    }
  }

  // `splitn(2, sep)`: everything after the first separator stays together.
  function SplitOnce(s: string, sep: char): (string, Option<string>) {
    if s == [] then ("", None)
    else if s[0] == sep then ("", Some(s[1..]))
    else
      var (head, tail) := SplitOnce(s[1..], sep);
      ([s[0]] + head, tail)
  }

  // `ClientId::new`: without a colon the client is pre-registered.
  function ParseClientId(s: string): Option<ClientId> {
    if s == "" then None
    else
      match SplitOnce(s, ':')
      case (whole, None) => Some(ClientId(whole, PreRegistered))
      case (name, Some(id)) =>
        match PrefixFromName(name)
        case Some(prefix) => Some(ClientId(id, prefix))
        case None => None
  }

  function ClientIdFromJson(v: Json): Option<ClientId> {
    if v.Str? then ParseClientId(v.text) else None
  }

  // Parsing a string and writing the full id out again.
  function Normalise(s: string): Option<string> {
    match ParseClientId(s)
    case Some(c) => Some(c.FullId())
    case None => None
  }

  // ---- Round trips ----

  lemma {:induction false} SplitOnceAtFirst(head: string, tail: string, sep: char)
    requires sep !in head
    ensures SplitOnce(head + [sep] + tail, sep) == (head, Some(tail))
    decreases |head|
  {
    var s := head + [sep] + tail;
    if head == [] {
      assert s[1..] == tail;
    } else {
      assert s[1..] == head[1..] + [sep] + tail;
      SplitOnceAtFirst(head[1..], tail, sep);
      assert [s[0]] + head[1..] == head;
    }
  }

  lemma {:induction false} SplitOnceMeaning(s: string, sep: char)
    ensures var (head, tail) := SplitOnce(s, sep);
            && sep !in head
            && s == (if tail.Some? then head + [sep] + tail.value else head)
            && (tail.Some? <==> sep in s)
    decreases |s|
  {
    if s != [] && s[0] != sep {
      SplitOnceMeaning(s[1..], sep);
      assert s == [s[0]] + s[1..];
    }
  }

  lemma PrefixRoundTrip(p: ClientIdPrefix)
    ensures PrefixFromName(PrefixName(p)) == Some(p)
    ensures ':' !in PrefixName(p)
  {
  }

  // The names of the prefixes.
  lemma PrefixNamed(name: string, p: ClientIdPrefix)
    ensures PrefixFromName(name) == Some(p) <==>
            (name, p) in {("decentralized_identifier", DecentralizedIdentifier), ("openid_federation", OpenidFederation),
                          ("pre-registered", PreRegistered), ("redirect_uri", RedirectUriPrefix),
                          ("verifier_attestation", VerifierAttestation), ("origin", Origin),
                          ("x509_san_dns", X509SanDns), ("x509_hash", X509Hash)}
  {
  }

  lemma NameRoundTrip(name: string)
    ensures PrefixFromName(name).Some? ==> PrefixName(PrefixFromName(name).value) == name
  {
  }

  // A client id is found again in its full id, even when it contains colons itself.
  lemma FullIdRoundTrip(c: ClientId)
    ensures ParseClientId(c.FullId()) == Some(c)
  {
    PrefixRoundTrip(c.prefix);
    SplitOnceAtFirst(PrefixName(c.prefix), c.id, ':');
  }

  // What parses as which client id: a string without a colon is a pre-registered client, and
  // any other must be the full id.
  lemma ClientIdParsesIff(s: string, c: ClientId)
    ensures ParseClientId(s) == Some(c) <==>
            || (s != "" && ':' !in s && c == ClientId(s, PreRegistered))
            || s == c.FullId()
  {
    FullIdRoundTrip(c);
    SplitOnceMeaning(s, ':');
    var (head, tail) := SplitOnce(s, ':');
    if tail.Some? {
      NameRoundTrip(head);
    }
    if s == c.FullId() {
      assert s[|PrefixName(c.prefix)|] == ':';
    }
  }

  // Writing out the full id is idempotent, and changes nothing exactly on the accepted
  // strings that have a colon.
  lemma NormalisationIsIdempotent(s: string)
    requires Normalise(s).Some?
    ensures Normalise(Normalise(s).value) == Normalise(s)
    ensures Normalise(s).value == s <==> ':' in s
  {
    FullIdRoundTrip(ParseClientId(s).value);
    SplitOnceMeaning(s, ':');
    var (head, tail) := SplitOnce(s, ':');
    if tail.Some? {
      NameRoundTrip(head);
    } else {
      assert ':' in Normalise(s).value by {
        assert Normalise(s).value[|"pre-registered"|] == ':';
      }
    }
  }
}
