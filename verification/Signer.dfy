/** The offer producer (implement.html): the key, the payload, the compact JWS and the discovery document. */
module Signer {
  import opened Wrappers
  import opened Documents
  import opened Strings
  import opened Digits
  import opened Merkle
  import opened Calendar
  import opened Instants
  import opened OfferPage
  import Base64Url

  /** A generated Ed25519 pair: the public key as the JWK's `x`, and the private key. */
  datatype KeyPair = KeyPair(x: string, private: Bytes)

  datatype KeyState = KeyState(host: string, kid: string, jwk: Json, private: Bytes)

  function PublicJwk(kid: string, x: string): Json {
    Obj([Member("kty", Str("OKP")), Member("crv", Str("Ed25519")), Member("kid", Str(kid)), Member("use", Str("sig")),
         Member("alg", Str("EdDSA")), Member("key_ops", Arr([Str("verify")])), Member("x", Str(x))])
  }

  function KeyFor(host: string, pair: KeyPair): KeyState {
    var kid := host + "-vrp-2026";
    KeyState(host, kid, PublicJwk(kid, pair.x), pair.private)
  }

  // ----------------------------------------------------------------- payload

  /** The form's values; `slug` is the property identifier made of the name. */
  datatype StayForm = StayForm(
    checkIn: string, checkOut: string, guests: int, currency: string, total: real, name: string, slug: string)

  const OFFER_LIFETIME_MS: int := 10 * 60 * 1000

  /** `Math.round` */
  function Round(x: real): int {
    (x + 0.5).Floor
  }

  function Nights(B: Browser, vals: StayForm): int {
    var a, b := B.parseDate(vals.checkIn), B.parseDate(vals.checkOut);
    if a.None? || b.None? then 1
    else
      var n := Round((b.value - a.value) as real / MS_PER_DAY as real);
      if n > 0 then n else 1
  }

  function Total(vals: StayForm): int {
    var n := Round(vals.total);
    if n > 0 then n else 0
  }

  /** The years in which toISOString writes four digits. */
  predicate FourDigitYears(now: int) {
    0 <= StampOf(now).date.year <= 9999 && 0 <= StampOf(now + OFFER_LIFETIME_MS).date.year <= 9999
  }

  function RequestPart(B: Browser, vals: StayForm): Json {
    Obj([Member("check_in", Str(vals.checkIn)), Member("check_out", Str(vals.checkOut)),
         Member("guests", Num(vals.guests as real)), Member("nights", Num(Nights(B, vals) as real))])
  }

  function PropertyPart(host: string, vals: StayForm): Json {
    Obj([Member("property_id", Str(host + "/" + vals.slug)),
         Member("name", Str(if vals.name == "" then "Stay" else vals.name)),
         Member("url", Str("https://" + host + "/"))])
  }

  const AVAILABILITY_PART: Json :=
    Obj([Member("available", Bool(true)), Member("source", Str("official_host_domain"))])

  function PricePart(vals: StayForm): Json {
    var total := Num(Total(vals) as real);
    Obj([Member("currency", Str(vals.currency)), Member("public_total", total), Member("agent_total", total),
         Member("minor_unit", Bool(true)), Member("exact", Bool(true)), Member("no_add_on_fees", Bool(true))])
  }

  function BookingPath(B: Browser, vals: StayForm): string {
    "/book?check_in=" + vals.checkIn + "&check_out=" + vals.checkOut + "&guests=" + B.show(Num(vals.guests as real))
  }

  function BookingPart(B: Browser, host: string, vals: StayForm): Json {
    Obj([Member("direct_booking_url", Str("https://" + host + BookingPath(B, vals)))])
  }

  const PERMISSION_PART: Json :=
    Obj([Member("may_quote_as_official_direct_offer", Bool(true)),
         Member("must_not_claim_ota_comparison_without_signed_ota_price", Bool(true))])

  const AUTHORITY_PART: Json :=
    Obj([Member("model", Str("host_verified_direct_source")), Member("is_official_source_for_property", Bool(true)),
         Member("intermediary", Str("none")), Member("payment_recipient", Str("host")),
         Member("booking_model", Str("direct_with_host")), Member("booking_commission_pct", Num(0.0))])

  /** The members of an offer, in the order of the page. */
  function OfferMembers(host: string, generatedAt: string, validUntil: string, request: Json, property: Json,
                        availability: Json, price: Json, booking: Json, permission: Json, authority: Json): seq<Member>
  {
    [Member("kind", Str("verified_stay_offer")), Member("protocol_version", Str("0.1")),
     Member("canonical_domain", Str(host)), Member("node_id", Str(host)),
     Member("generated_at", Str(generatedAt)), Member("valid_until", Str(validUntil)),
     Member("request", request), Member("property", property), Member("availability", availability),
     Member("price", price), Member("booking", booking), Member("agent_permission", permission),
     Member("source_authority", authority)]
  }

  function OfferWith(B: Browser, host: string, vals: StayForm, generatedAt: string, validUntil: string): Json {
    Obj(OfferMembers(host, generatedAt, validUntil, RequestPart(B, vals), PropertyPart(host, vals), AVAILABILITY_PART,
                     PricePart(vals), BookingPart(B, host, vals), PERMISSION_PART, AUTHORITY_PART))
  }

  function BuildOfferPayload(B: Browser, host: string, vals: StayForm, now: int): Json
    requires FourDigitYears(now)
  {
    OfferWith(B, host, vals, SecondText(now), SecondText(now + OFFER_LIFETIME_MS))
  }

  // ----------------------------------------------------------------- signing

  function HeaderFor(kid: string): Json {
    Obj([Member("alg", Str("EdDSA")), Member("typ", Str("JWT")), Member("kid", Str(kid))])
  }

  function B64urlFromString(B: Browser, s: string): string {
    Base64Url.Encode(B.utf8(s))
  }

  function SigningInput(B: Browser, offer: Json, kid: string): string {
    B64urlFromString(B, B.stringify(HeaderFor(kid))) + "." + B64urlFromString(B, B.stringify(offer))
  }

  function SignOffer(B: Browser, offer: Json, key: KeyState): string {
    var input := SigningInput(B, offer, key.kid);
    input + "." + Base64Url.Encode(B.sign(key.private, B.utf8(input)))
  }

  /** `find` over the key set: the key that the header's kid names, if any; None where the search throws. */
  function FindNamedKey(keys: seq<Json>, header: Json): Option<Value> {
    var kid := AsString(Get(Some(header), "kid"));
    if keys == [] then Some(None)
    else if header == Null then None
    else if kid.None? || kid.value == "" then Some(None)
    else if keys[0] == Null then None
    else if Get(Some(keys[0]), "kid") == Some(Str(kid.value)) then Some(Some(keys[0]))
    else FindNamedKey(keys[1..], header)
  }

  /** A part that a short token lacks is the text of undefined. */
  function Part(parts: seq<string>, i: nat): string {
    if i < |parts| then parts[i] else "undefined"
  }

  /** `selfVerify`; None where it throws. */
  function SelfVerify(B: Browser, jws: string, jwks: Json): Option<bool> {
    var parts := Split(jws, '.');
    VerifyDecoded(B, JsonFromB64url(B, Part(parts, 0)), B.utf8(Part(parts, 0) + "." + Part(parts, 1)),
                  Base64Url.Decode(Part(parts, 2)), jwks)
  }

  function VerifyDecoded(B: Browser, header: Option<Json>, message: Bytes, signature: Option<Bytes>, jwks: Json)
    : Option<bool>
  {
    var keys := Get(Some(jwks), "keys");
    if header.None? || jwks == Null || (Truthy(keys) && !keys.value.Arr?) then None
    else
      var key := FindNamedKey(if Truthy(keys) then keys.value.items else [], header.value);
      if key.None? then None
      else if key.value.None? then Some(false)
      else
        var publicKey := B.importKey(Get(key.value, "x"));
        if publicKey.None? || signature.None? then None
        else Some(B.verify(publicKey.value, message, signature.value))
  }

  // ---------------------------------------------------------- what is published

  function DiscoveryMembers(host: string, jwksUrl: string, endpoint: string): seq<Member> {
    [Member("protocol", Str("vacation-rental-protocol")), Member("protocol_version", Str("0.1")),
     Member("canonical_domain", Str(host)), Member("node_id", Str(host)),
     Member("jwks_url", Str(jwksUrl)), Member("verified_stay_offer_endpoint", Str(endpoint)),
     Member("capabilities",
            Obj([Member("signed_verified_stay_offer", Bool(true)), Member("live_availability", Bool(true)),
                 Member("exact_total_price", Bool(true)), Member("direct_booking_url", Bool(true))]))]
  }

  function BuildDiscovery(host: string): Json {
    Obj(DiscoveryMembers(host, "https://" + host + "/.well-known/jwks.json",
                         "https://" + host + "/api/verified-stay-offer"))
  }

  function EnvelopeFor(host: string, offer: Json, key: KeyState, jws: string): Json {
    Obj([Member("kind", Str("signed_verified_stay_offer")), Member("protocol_version", Str("0.1")),
         Member("offer", offer),
         Member("signature", Obj([Member("format", Str("jws_compact")), Member("alg", Str("EdDSA")),
                                  Member("kid", Str(key.kid)), Member("jws", Str(jws))])),
         Member("verification", Obj([Member("jwks_url", Str("https://" + host + "/.well-known/jwks.json"))]))])
  }

  function JwksFor(key: KeyState): Json {
    Obj([Member("keys", Arr([key.jwk]))])
  }

  /** Everything the node of this host serves for one signed offer. */
  function Published(B: Browser, host: string, offer: Json, pair: KeyPair): Fetched {
    var key := KeyFor(host, pair);
    Fetched(Some(BuildDiscovery(host)), Some(EnvelopeFor(host, offer, key, SignOffer(B, offer, key))),
            Some(JwksFor(key)))
  }

  // ------------------------------------------------------------------- the page's run

  /** One press of a button: whether the kept key is to be used again, the form, the pair that would be generated (None
      where the browser has no Ed25519) and the clock. */
  datatype Press = Press(reuse: bool, host: string, vals: StayForm, generated: Option<KeyPair>, now: int)

  /** What the page shows: that the form is refused, that there is no key, or documents and what verifying them gave. */
  datatype Shown = Refused | NoKey | Signed(docs: Fetched, verified: Option<bool>)

  datatype Kept = Kept(host: string, pair: KeyPair)

  predicate IsCurrencyCode(s: string) {
    |s| == 3 && forall c :: c in s ==> 'A' <= c <= 'Z'
  }

  predicate FormAccepted(host: string, currency: string) {
    host != "" && '.' in host && IsCurrencyCode(currency)
  }

  /** The pair kept after `ensureKey`: that of the same host, or else one generated for it. */
  function PairFor(kept: Option<Kept>, host: string, generated: Option<KeyPair>): Option<Kept> {
    if kept.Some? && kept.value.host == host then kept
    else if generated.Some? then Some(Kept(host, generated.value))
    else None
  }

  /** What one press signs with, if the form is accepted. */
  function UsedIn(kept: Option<Kept>, press: Press): Option<Kept> {
    PairFor(if press.reuse then kept else None, press.host, press.generated)
  }

  /** What is kept after one press. */
  function KeptAfter(kept: Option<Kept>, press: Press): Option<Kept> {
    if !FormAccepted(press.host, press.vals.currency) then kept
    else if UsedIn(kept, press).Some? then UsedIn(kept, press)
    else if press.reuse then kept
    else None
  }

  function KeptAfterAll(kept: Option<Kept>, presses: seq<Press>): Option<Kept>
    decreases presses
  {
    if presses == [] then kept else KeptAfterAll(KeptAfter(kept, presses[0]), presses[1..])
  }

  function SignedWith(B: Browser, host: string, offer: Json, pair: KeyPair): Shown {
    var key := KeyFor(host, pair);
    Signed(Published(B, host, offer, pair), SelfVerify(B, SignOffer(B, offer, key), JwksFor(key)))
  }

  function Shows(B: Browser, kept: Option<Kept>, press: Press): Shown
    requires FourDigitYears(press.now)
  {
    if !FormAccepted(press.host, press.vals.currency) then Refused
    else if UsedIn(kept, press).None? then NoKey
    else SignedWith(B, press.host, BuildOfferPayload(B, press.host, press.vals, press.now),
                    UsedIn(kept, press).value.pair)
  }

  /** The key kept in the page between signings; `pair` is the one it was made of. */
  class KeyRing {
    var keyState: Option<KeyState>
    ghost var pair: KeyPair

    ghost predicate Valid()
      reads this
    {
      keyState.Some? ==> keyState.value == KeyFor(keyState.value.host, pair)
    }

    ghost function Contents(): Option<Kept>
      reads this
    {
      if keyState.Some? then Some(Kept(keyState.value.host, pair)) else None
    }

    constructor ()
      ensures Valid() && Contents() == None
    {
      keyState := None;
    }

    /** `ensureKey`: keeps the key of the same host, and otherwise takes the pair generated for it; None where it
        throws. */
    method EnsureKey(host: string, generated: Option<KeyPair>) returns (key: Option<KeyState>)
      requires Valid()
      modifies this
      ensures Valid()
      ensures var used := PairFor(old(Contents()), host, generated);
              && Contents() == (if used.Some? then used else old(Contents()))
              && key == (if used.Some? then Some(KeyFor(host, used.value.pair)) else None)
    {
      if keyState.Some? && keyState.value.host == host {
        return keyState;
      }
      if generated.None? {
        return None;
      }
      keyState := Some(KeyFor(host, generated.value));
      pair := generated.value;
      return keyState;
    }

    /** `run`: checks the form, takes a key and signs, and verifies its own signature. */
    method Run(B: Browser, press: Press) returns (shown: Shown)
      requires Valid() && FourDigitYears(press.now)
      modifies this
      ensures Valid()
      ensures Contents() == KeptAfter(old(Contents()), press)
      ensures shown == Shows(B, old(Contents()), press)
    {
      if !FormAccepted(press.host, press.vals.currency) {
        return Refused;
      }
      if !press.reuse {
        keyState := None;
      }
      var ensured := EnsureKey(press.host, press.generated);
      if ensured.None? {
        return NoKey;
      }
      var key := ensured.value;
      var offer := BuildOfferPayload(B, press.host, press.vals, press.now);
      var jws := SignOffer(B, offer, key);
      var jwks := JwksFor(key);
      var envelope := EnvelopeFor(press.host, offer, key, jws);
      var verified := SelfVerify(B, jws, jwks);
      return Signed(Fetched(Some(BuildDiscovery(press.host)), Some(envelope), Some(jwks)), verified);
    }
  }

  // ------------------------------------------------------ what the signed offer says

  /** A name's first and last letters and its length: enough to tell the names of one object here apart. */
  datatype Mark = Mark(first: char, last: char, length: nat)

  function MarkOf(name: string): Mark {
    if name == "" then Mark(' ', ' ', 0) else Mark(name[0], name[|name| - 1], |name|)
  }

  predicate NoneTwice(marks: seq<Mark>) {
    forall i, j :: 0 <= i < j < |marks| ==> marks[i] != marks[j]
  }

  predicate NoNumbers(marks: seq<Mark>) {
    forall i :: 0 <= i < |marks| ==> !IsDigit(marks[i].first)
  }

  /** No mark occurs twice, and none is that of a number. */
  predicate Distinct(marks: seq<Mark>) {
    NoneTwice(marks) && NoNumbers(marks)
  }

  predicate Marked(marks: seq<Mark>, members: seq<Member>) {
    |marks| == |members| && forall i :: 0 <= i < |marks| ==> marks[i] == MarkOf(members[i].key)
  }

  lemma MarksTellNames(marks: seq<Mark>, members: seq<Member>)
    requires Distinct(marks) && Marked(marks, members)
    ensures UniqueNames(members)
  {
    forall i, j | 0 <= i < j < |members| ensures members[i].key != members[j].key {
      assert marks[i] != marks[j];
    }
  }

  lemma {:induction false} FindAt(members: seq<Member>, i: nat)
    requires UniqueNames(members) && i < |members|
    ensures Find(members, members[i].key) == Some(members[i].value)
  {
    if i > 0 {
      FindAt(members[1..], i - 1);
    }
  }
}
