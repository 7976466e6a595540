/** The receipt page's token and key handling (verify-receipt.html): its compact JWS verification, and how it finds the
    keys of a log operator. */
module BrowserJws {
  import opened Wrappers
  import opened Documents
  import opened Strings
  import opened Merkle
  import opened Sequences
  import opened Jws
  import opened TreeHeads
  import Base64Url

  // ---------------------------------------------------------------- verifyJws

  /** `decodePart`; None where it throws. */
  function DecodePart(P: Platform, part: string): Option<Json> {
    var bytes := Base64Url.Decode(part);
    if bytes.None? then None else P.parse(P.text(bytes.value))
  }

  /** The page imports the public part of a key only. */
  function PublicPart(key: Json): Json {
    var x := Get(Some(key), "x");
    Obj([Member("kty", Str("OKP")), Member("crv", Str("Ed25519"))] + if x.Some? then [Member("x", x.value)] else [])
  }

  function Importing(P: Platform): Platform {
    P.(importKey := key => P.importKey(PublicPart(key)))
  }

  /** What a token asks for; None where reading it throws. */
  function ReadPageToken(P: Platform, jws: string): Option<Request> {
    var parts := Split(jws, '.');
    if |parts| != 3 then None
    else
      var header, payload, signature := DecodePart(P, parts[0]), DecodePart(P, parts[1]), Base64Url.Decode(parts[2]);
      var kid := AsString(Get(header, "kid"));
      if header.None? || Get(header, "alg") != Some(Str("EdDSA")) || payload.None? || signature.None? then None
      else if kid.None? || kid.value == "" then None
      else Some(Request(header.value, payload.value, kid.value, P.utf8(parts[0] + "." + parts[1]), signature.value))
  }

  function KeysIn(jwks: Value): seq<Json> {
    if jwks.Some? then KeysOf(jwks.value) else []
  }

  /** The payload that `verifyJws` returns; None where it throws. */
  function PageVerify(P: Platform, jws: string, jwks: Value): Option<Json> {
    var t := ReadPageToken(P, jws);
    if t.None? then None
    else if TryKeys(Importing(P), Candidates(KeysIn(jwks), t.value.kid), t.value.message, t.value.signature).None?
    then Some(t.value.payload) else None
  }

  lemma CandidatesFrom(keys: seq<Json>, i: nat, kid: string)
    requires i < |keys|
    ensures Candidates(keys[i..], kid) ==
            (if IsCandidate(keys[i], kid) then [keys[i]] else []) + Candidates(keys[i + 1..], kid)
  {
    FilterStep(keys[i], keys[i + 1..], CandidateTest(kid));
    assert [keys[i]] + keys[i + 1..] == keys[i..];
  }

  lemma TryKeysStep(P: Platform, key: Json, rest: seq<Json>, message: Bytes, signature: Bytes)
    ensures TryKeys(P, [key] + rest, message, signature) ==
            if P.importKey(key).None? then Some(BadKey)
            else if P.verify(P.importKey(key).value, message, signature) then None
            else TryKeys(P, rest, message, signature)
  {
    assert ([key] + rest)[1..] == rest;
  }

  method VerifyJws(P: Platform, jws: string, jwks: Value) returns (payload: Option<Json>)
    ensures payload == PageVerify(P, jws, jwks)
  {
    var t := ReadPageToken(P, jws);
    if t.None? {
      return None;
    }
    var keys, kid, message, signature := KeysIn(jwks), t.value.kid, t.value.message, t.value.signature;
    ghost var Q := Importing(P);
    assert keys[0..] == keys;
    for i := 0 to |keys|
      invariant TryKeys(Q, Candidates(keys[i..], kid), message, signature)
             == TryKeys(Q, Candidates(keys, kid), message, signature)
    {
      CandidatesFrom(keys, i, kid);
      TryKeysStep(Q, keys[i], Candidates(keys[i + 1..], kid), message, signature);
      if !IsCandidate(keys[i], kid) {
        assert [] + Candidates(keys[i + 1..], kid) == Candidates(keys[i + 1..], kid);
        continue;
      }
      var publicKey := P.importKey(PublicPart(keys[i]));
      if publicKey.None? {
        return None;
      }
      if P.verify(publicKey.value, message, signature) {
        return Some(t.value.payload);
      }
    }
    return None;
  }

  /** Some key of the set carries the token's kid and verifies it. */
  ghost predicate SignedUnder(P: Platform, jws: string, jwks: Value) {
    var t := ReadPageToken(P, jws);
    && t.Some?
    && exists key ::
         key in KeysIn(jwks) && IsCandidate(key, t.value.kid) && Verifies(Importing(P), key, t.value)
  }

  lemma {:induction false} PageVerifiedByItsKey(P: Platform, jws: string, jwks: Value)
    requires PageVerify(P, jws, jwks).Some?
    ensures SignedUnder(P, jws, jwks)
  {
    var t := ReadPageToken(P, jws).value;
    var c := Candidates(KeysIn(jwks), t.kid);
    TryKeysFinds(Importing(P), c, t);
    var i :| 0 <= i < |c| && Verifies(Importing(P), c[i], t);
    FilterHolds(KeysIn(jwks), CandidateTest(t.kid), c[i]);
    assert c[i] in c;
  }

  // ------------------------------------------------------------- did:web documents

  datatype DidUrl = NoUrl | At(url: string) | Malformed

  function DecodeSegments(P: Platform, segments: seq<string>): Option<seq<string>> {
    if segments == [] then Some([])
    else
      var first, rest := P.decodeUri(segments[0]), DecodeSegments(P, segments[1..]);
      if first.None? || rest.None? then None else Some([first.value] + rest.value)
  }

  predicate NameChars(s: string) {
    s != "" && forall c :: c in s ==> 'A' <= c <= 'Z' || 'a' <= c <= 'z' || '0' <= c <= '9' || c == '.' || c == '-'
  }

  predicate PortDigits(s: string) {
    s != "" && forall c :: c in s ==> '0' <= c <= '9'
  }

  /** `/^[A-Za-z0-9.-]+(:\d+)?$/` */
  predicate IsHostAndPort(s: string) {
    var parts := Split(s, ':');
    NameChars(parts[0]) && (|parts| == 1 || (|parts| == 2 && PortDigits(parts[1])))
  }

  /** `didWebDocumentUrl`; Malformed where decodeURIComponent throws. */
  function DidWebDocumentUrl(P: Platform, did: string): DidUrl {
    var s := Trim(did);
    var rest := DropPrefix(s, "did:web:");
    if !("did:web:" <= s) || rest == "" || '#' in rest || '?' in rest then NoUrl
    else
      var segments := DecodeSegments(P, Split(rest, ':'));
      if segments.None? then Malformed
      else if segments.value == [] || !IsHostAndPort(segments.value[0]) then NoUrl
      else
        var path := segments.value[1..];
        At("https://" + segments.value[0] + (if path == [] then "/.well-known" else "/" + Join(path, '/')) +
           "/did.json")
  }

  lemma {:induction false} AllSegmentsDecode(P: Platform, segments: seq<string>)
    ensures DecodeSegments(P, segments).Some? <==> forall s :: s in segments ==> P.decodeUri(s).Some?
    ensures DecodeSegments(P, segments).Some? ==> |DecodeSegments(P, segments).value| == |segments|
  {
    if segments != [] {
      AllSegmentsDecode(P, segments[1..]);
      assert segments == [segments[0]] + segments[1..];
    }
  }

  /** A did:web text with a part between its colons that decodeURIComponent refuses. */
  predicate MalformedDid(P: Platform, did: string) {
    var rest := DropPrefix(Trim(did), "did:web:");
    "did:web:" <= Trim(did) && rest != "" && '#' !in rest && '?' !in rest
    && exists s :: s in Split(rest, ':') && P.decodeUri(s).None?
  }

  lemma {:induction false} MalformedExactly(P: Platform, did: string)
    ensures DidWebDocumentUrl(P, did).Malformed? <==> MalformedDid(P, did)
  {
    AllSegmentsDecode(P, Split(DropPrefix(Trim(did), "did:web:"), ':'));
  }

  lemma {:induction false} UntilColon(s: string)
    requires '#' !in s && '?' !in s
    ensures Until(s, ":#?") == Split(s, ':')[0]
  {
    if s != "" && s[0] != ':' {
      assert s[0] in s;
      UntilColon(s[1..]);
    }
  }

  lemma {:induction false} HostOfAddress(P: Platform, did: string)
    requires DidWebDocumentUrl(P, did).At?
    ensures DidWebHost(P, Some(Str(did))).Some?
  {
    var rest := DropPrefix(Trim(did), "did:web:");
    UntilColon(rest);
    AllSegmentsDecode(P, Split(rest, ':'));
    assert Split(rest, ':')[0] in Split(rest, ':');
  }

  /** The page takes a verification method whose x is anything but falsy. */
  function PageMethodKey(vm: Json): Option<Json> {
    var jwk := Get(Some(vm), "publicKeyJwk");
    var x := Get(jwk, "x");
    if Get(jwk, "kty") == Some(Str("OKP")) && Get(jwk, "crv") == Some(Str("Ed25519")) && Truthy(x) then
      var id := AsString(Get(Some(vm), "id"));
      var kid := if Truthy(Get(jwk, "kid")) then Get(jwk, "kid")
                 else if id.Some? && '#' in id.value then Some(Str(After(id.value, '#'))) else None;
      Some(Obj([Member("kty", Str("OKP")), Member("crv", Str("Ed25519")), Member("x", x.value)]
               + if kid.Some? then [Member("kid", kid.value)] else []))
    else None
  }

  function PageMethodKeys(methods: seq<Json>): seq<Json> {
    if methods == [] then []
    else
      var rest := PageMethodKeys(methods[..|methods| - 1]);
      var key := PageMethodKey(methods[|methods| - 1]);
      if key.Some? then rest + [key.value] else rest
  }

  function PageOperatorKeys(doc: Value): Json {
    KeySet(PageMethodKeys(MethodsOf(doc)))
  }

  predicate PageKeyOf(methods: seq<Json>, key: Json) {
    exists i :: 0 <= i < |methods| && PageMethodKey(methods[i]) == Some(key)
  }

  lemma KeyOfOneMore(front: seq<Json>, last: Json, key: Json)
    ensures PageKeyOf(front + [last], key) <==> PageKeyOf(front, key) || PageMethodKey(last) == Some(key)
  {
    var methods := front + [last];
    if PageKeyOf(front, key) {
      var i :| 0 <= i < |front| && PageMethodKey(front[i]) == Some(key);
      assert methods[i] == front[i];
    }
    assert methods[|front|] == last;
  }

  /** The page's key set, too, is that of the document's verification methods. */
  lemma {:induction false} PageKeysAreOfMethods(methods: seq<Json>, key: Json)
    ensures key in PageMethodKeys(methods) <==> PageKeyOf(methods, key)
  {
    if methods != [] {
      var front, last := methods[..|methods| - 1], methods[|methods| - 1];
      assert methods == front + [last];
      PageKeysAreOfMethods(front, key);
      KeyOfOneMore(front, last, key);
    }
  }

  method JwksFromDidDocument(doc: Value) returns (jwks: Json)
    ensures jwks == PageOperatorKeys(doc)
  {
    var methods := MethodsOf(doc);
    var keys: seq<Json> := [];
    for i := 0 to |methods|
      invariant keys == PageMethodKeys(methods[..i])
    {
      assert methods[..i + 1][..i] == methods[..i];
      var key := PageMethodKey(methods[i]);
      if key.None? {
        continue;
      }
      keys := keys + [key.value];
    }
    assert methods[..|methods|] == methods;
    return KeySet(keys);
  }
}
