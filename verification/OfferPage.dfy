/** The offer verifier's decisions (verify.html): discovery, the signature's key, and the
    three-way verdict with everything that keeps an offer from being quoted. */
module OfferPage {
  import opened Wrappers
  import opened Documents
  import opened Sequences
  import opened Strings
  import opened Merkle
  import opened Calendar
  import opened Instants
  import Base64Url
  import PublicSuffix

  datatype Url = Url(protocol: string, username: string, password: string, port: string, hostname: string)

  /** The browser's own functions. */
  datatype Browser = Browser(
    parse: string -> Option<Json>,           // JSON.parse; None where it throws
    stringify: Json -> string,               // JSON.stringify
    text: Bytes -> string,                   // TextDecoder
    utf8: string -> Bytes,                   // TextEncoder
    show: Json -> string,                    // String(value)
    parseUrl: string -> Option<Url>,         // new URL; None where it throws
    parseDate: string -> Option<int>,        // Date.parse; None for NaN
    importKey: Value -> Option<Bytes>,       // crypto.subtle.importKey on { kty, crv, x }
    verify: (Bytes, Bytes, Bytes) -> bool,   // public key, message, signature
    sign: (Bytes, Bytes) -> Bytes)           // private key, message

  // -------------------------------------------------------------- node URLs

  predicate IsNodeUrl(B: Browser, url: Value, domain: string) {
    var u := B.parseUrl(if url.None? then "undefined" else if url.value.Str? then url.value.s else B.show(url.value));
    u.Some? && IsNode(u.value, domain)
  }

  predicate IsNode(u: Url, domain: string) {
    u.protocol == "https:" && u.username == "" && u.password == "" && u.port == ""
    && (u.hostname == domain || u.hostname == "www." + domain)
  }

  // --------------------------------------------------------- the signature

  datatype Checked = Checked(ok: bool, kid: string, payload: Json)

  function JsonFromB64url(B: Browser, part: string): Option<Json> {
    var bytes := Base64Url.Decode(part);
    if bytes.None? then None else B.parse(B.text(bytes.value))
  }

  predicate HasKid(key: Json, kid: string) {
    Get(Some(key), "kid") == Some(Str(kid))
  }

  /** The first key of the set with this kid, of whatever type. */
  function FirstKey(keys: seq<Json>, kid: string): (key: Option<Json>)
    ensures key.Some? ==> key.value in keys && HasKid(key.value, kid)
    ensures key.None? ==> forall k :: k in keys ==> !HasKid(k, kid)
  {
    if keys == [] then None
    else if HasKid(keys[0], kid) then Some(keys[0])
    else FirstKey(keys[1..], kid)
  }

  function KeysIn(jwks: Value): seq<Json> {
    var keys := Get(jwks, "keys");
    if keys.Some? && keys.value.Arr? then keys.value.items else []
  }

  /** What a token holds besides its header; a part that does not decode is None. */
  datatype Token = Token(kid: string, message: Bytes, payload: Option<Json>, signature: Option<Bytes>)

  /** None where reading the header throws. */
  function ReadToken(B: Browser, jws: string): Option<Token> {
    var parts := Split(Trim(jws), '.');
    if |parts| != 3 || parts[0] == "" || parts[1] == "" || parts[2] == "" then None
    else
      var header := JsonFromB64url(B, parts[0]);
      var kid := AsString(Get(header, "kid"));
      if header.None? || Get(header, "alg") != Some(Str("EdDSA")) || kid.None? || kid.value == "" then None
      else Some(Token(kid.value, B.utf8(parts[0] + "." + parts[1]), JsonFromB64url(B, parts[1]),
                      Base64Url.Decode(parts[2])))
  }

  /** What one key makes of a token. */
  function Outcome(B: Browser, t: Token, key: Json): Option<Checked> {
    var k := Some(key);
    var publicKey := B.importKey(Get(k, "x"));
    if Get(k, "kty") != Some(Str("OKP")) || Get(k, "crv") != Some(Str("Ed25519")) then None
    else if publicKey.None? || t.signature.None? || t.payload.None? then None
    else Some(Checked(B.verify(publicKey.value, t.message, t.signature.value), t.kid, t.payload.value))
  }

  /** `verifyJws`; None where it throws. */
  function VerifyJws(B: Browser, jws: string, jwks: Value): Option<Checked> {
    var t := ReadToken(B, jws);
    var key := if t.None? then None else FirstKey(KeysIn(jwks), t.value.kid);
    if key.None? then None else Outcome(B, t.value, key.value)
  }

  function KeySet(keys: seq<Json>): (jwks: Value)
    ensures KeysIn(jwks) == keys
  {
    Some(Obj([Member("keys", Arr(keys))]))
  }

  predicate AgreeOn(B: Browser, t: Token, keys: seq<Json>) {
    forall a, b :: a in keys && b in keys && HasKid(a, t.kid) && HasKid(b, t.kid) ==>
      Outcome(B, t, a) == Outcome(B, t, b)
  }

  lemma SameKeys(a: seq<Json>, b: seq<Json>, key: Json)
    requires multiset(a) == multiset(b)
    ensures key in a <==> key in b
  {
    assert key in a <==> key in multiset(a);
    assert key in b <==> key in multiset(b);
  }

  lemma {:induction false} MovedKeyDecides(B: Browser, jws: string, keys: seq<Json>, i: nat)
    requires ReadToken(B, jws).Some? && i < |keys| && HasKid(keys[i], ReadToken(B, jws).value.kid)
    ensures VerifyJws(B, jws, KeySet(MovedFirst(keys, i))) == Outcome(B, ReadToken(B, jws).value, keys[i])
  {
  }

  lemma {:induction false} AgreeingKeysDecide(B: Browser, jws: string, keys: seq<Json>, other: seq<Json>)
    requires ReadToken(B, jws).Some? && AgreeOn(B, ReadToken(B, jws).value, keys) && multiset(other) == multiset(keys)
    ensures VerifyJws(B, jws, KeySet(other)) == VerifyJws(B, jws, KeySet(keys))
  {
    var kid := ReadToken(B, jws).value.kid;
    forall key ensures key in other <==> key in keys {
      SameKeys(other, keys, key);
    }
  }

  /** The page takes the first key under the kid. So every order of the keys gives one outcome exactly when all keys
      under the token's kid make the same of it. */
  lemma {:induction false} KeyOrderMattersExactly(B: Browser, jws: string, keys: seq<Json>)
    requires ReadToken(B, jws).Some?
    ensures (forall other :: multiset(other) == multiset(keys) ==>
               VerifyJws(B, jws, KeySet(other)) == VerifyJws(B, jws, KeySet(keys)))
       <==> AgreeOn(B, ReadToken(B, jws).value, keys)
  {
    var t := ReadToken(B, jws).value;
    if AgreeOn(B, t, keys) {
      forall other | multiset(other) == multiset(keys)
        ensures VerifyJws(B, jws, KeySet(other)) == VerifyJws(B, jws, KeySet(keys))
      {
        AgreeingKeysDecide(B, jws, keys, other);
      }
    } else {
      var a, b :|
        a in keys && b in keys && HasKid(a, t.kid) && HasKid(b, t.kid) && Outcome(B, t, a) != Outcome(B, t, b);
      var i :| 0 <= i < |keys| && keys[i] == a;
      var j :| 0 <= j < |keys| && keys[j] == b;
      MovedKeyDecides(B, jws, keys, i);
      MovedKeyDecides(B, jws, keys, j);
      assert VerifyJws(B, jws, KeySet(MovedFirst(keys, i))) != VerifyJws(B, jws, KeySet(MovedFirst(keys, j)));
    }
  }

  // -------------------------------------------------------------- discovery

  /** Why a document is not an offer of its domain. */
  datatype Problem =
    | NotVrp | DiscoveryOfAnotherDomain | JwksUrlNotNode | EndpointNotNode
    | NotHostOwned | OfferDiffers | OfferOfAnotherDomain | BookingUrlNotNode

  datatype Discovery = Discovery(
    protocol: Value, protocolVersion: Value, canonicalDomain: Value, jwksUrl: Value, endpoint: Value)

  function DiscoveryOf(doc: Value): Discovery {
    Discovery(Get(doc, "protocol"), Get(doc, "protocol_version"), Get(doc, "canonical_domain"),
              Get(doc, "jwks_url"), Get(doc, "verified_stay_offer_endpoint"))
  }

  /** What each finding of the discovery check means. */
  predicate DiscoveryProblem(B: Browser, d: Discovery, domain: string, p: Problem) {
    match p
    case NotVrp => d.protocol != Some(Str("vacation-rental-protocol")) || d.protocolVersion != Some(Str("0.1"))
    case DiscoveryOfAnotherDomain => d.canonicalDomain != Some(Str(domain))
    case JwksUrlNotNode => !IsNodeUrl(B, d.jwksUrl, domain)
    case EndpointNotNode => !IsNodeUrl(B, d.endpoint, domain)
    case _ => false
  }

  method CheckDiscovery(B: Browser, d: Discovery, domain: string) returns (problems: seq<Problem>, urlsOk: bool)
    ensures forall p :: p in problems <==> DiscoveryProblem(B, d, domain, p)
    ensures urlsOk <==> IsNodeUrl(B, d.jwksUrl, domain) && IsNodeUrl(B, d.endpoint, domain)
  {
    problems := [];
    var proto := d.protocol == Some(Str("vacation-rental-protocol")) && d.protocolVersion == Some(Str("0.1"));
    if !proto {
      problems := problems + [NotVrp];
    }
    if d.canonicalDomain != Some(Str(domain)) {
      problems := problems + [DiscoveryOfAnotherDomain];
    }
    var jwksOk := IsNodeUrl(B, d.jwksUrl, domain);
    if !jwksOk {
      problems := problems + [JwksUrlNotNode];
    }
    var epOk := IsNodeUrl(B, d.endpoint, domain);
    if !epOk {
      problems := problems + [EndpointNotNode];
    }
    urlsOk := jwksOk && epOk;
  }

  // ------------------------------------------------------------ the verdict

  datatype Verdict = Pass | Warn | Fail | CouldNotVerify

  /** What keeps a VRP offer from being quoted, or could not be checked. */
  datatype Caution =
    | OwnershipUnknown | ShapeUnknown | NoReturnedOffer | OriginUnknown
    | NoBookingUrl | ValidUntilMalformed | Expired | GeneratedAtMalformed | AheadOfClock | LifetimeWrong
    | NoRequest | NotAStay | CheckInPassed | NotALanguageTag | AnotherStay | StayUnknown
    | NotAvailable | NotExact | NotForAgents

  datatype StayRequest = StayRequest(checkIn: Value, checkOut: Value, guests: Value, language: Value)

  /** The fields of a payload that the verdict depends on. */
  datatype Offer = Offer(
    kind: Value, protocolVersion: Value, canonicalDomain: Value, complete: bool, bookingUrl: Value,
    validUntil: Value, generatedAt: Value, request: Option<StayRequest>,
    available: Value, exact: Value, mayQuote: Value)

  const REQUIRED_FIELDS: seq<string> :=
    ["kind", "protocol_version", "canonical_domain", "node_id", "generated_at", "valid_until",
     "request", "property", "availability", "price", "booking", "agent_permission"]

  function OfferOf(payload: Json): Offer {
    var p := Some(payload);
    var request := Get(p, "request");
    Offer(Get(p, "kind"), Get(p, "protocol_version"), Get(p, "canonical_domain"),
          forall k :: k in REQUIRED_FIELDS ==> Get(p, k).Some?,
          if Truthy(Get(p, "booking")) then Get(Get(p, "booking"), "direct_booking_url") else Get(p, "booking"),
          Get(p, "valid_until"), Get(p, "generated_at"),
          if IsObject(request) then Some(RequestOf(request)) else None,
          Get(Get(p, "availability"), "available"), Get(Get(p, "price"), "exact"),
          Get(Get(p, "agent_permission"), "may_quote_as_official_direct_offer"))
  }

  function RequestOf(request: Value): StayRequest {
    StayRequest(Get(request, "check_in"), Get(request, "check_out"), Get(request, "guests"), Get(request, "language"))
  }

  /** The unsigned copy beside the signature: none for a bare JWS. A copy that is null counts as none. */
  datatype Envelope = Bare | WithoutOffer | Returned(offer: Json)

  datatype Asked = Asked(checkIn: string, checkOut: string, guests: real)

  /** The three readings of the clock within one verdict, in their order: for valid_until, generated_at and check_in. */
  datatype Clock = Clock(expiry: int, skew: int, day: int)

  /** Everything a verdict depends on. */
  datatype Context = Context(
    ok: bool, payload: Json, offer: Offer, own: PublicSuffix.State, problems: seq<Problem>,
    envelope: Envelope, host: Option<string>, asked: Option<Asked>, now: Clock)

  const MAX_LIFETIME_MS: int := 900 * 1000
  const CLOCK_SKEW_MS: int := 60 * 1000

  predicate Letters(s: string, lo: nat, hi: nat) {
    lo <= |s| <= hi && forall i :: 0 <= i < |s| ==> 'A' <= s[i] <= 'Z' || 'a' <= s[i] <= 'z'
  }

  predicate Region(s: string) {
    Letters(s, 2, 2) || (|s| == 3 && forall i :: 0 <= i < 3 ==> '0' <= s[i] <= '9')
  }

  /** `/^[A-Za-z]{2,3}(-[A-Za-z]{4})?(-([A-Za-z]{2}|[0-9]{3}))?$/` */
  predicate IsLanguageTag(s: string) {
    var parts := Split(s, '-');
    Letters(parts[0], 2, 3) &&
    match |parts|
    case 1 => true
    case 2 => Letters(parts[1], 4, 4) || Region(parts[1])
    case 3 => Letters(parts[1], 4, 4) && Region(parts[2])
    case _ => false
  }

  function DateOf(v: Value): Option<int> {
    if AsString(v).None? then None else DateValue(AsString(v).value)
  }

  function InstantAt(B: Browser, v: Value): Option<int> {
    ParseDateTime(B.parseDate, AsString(v))
  }

  predicate Absent(v: Value) {
    v.None? || v == Some(Null) || v == Some(Str(""))
  }

  predicate BookOnNode(B: Browser, o: Offer) {
    o.canonicalDomain.Some? && o.canonicalDomain.value.Str? && IsNodeUrl(B, o.bookingUrl, o.canonicalDomain.value.s)
  }

  /** Midnight UTC of the day before the one that `now` lies in. */
  function DayBefore(now: int): int {
    now / MS_PER_DAY * MS_PER_DAY - MS_PER_DAY
  }

  predicate LifetimeOk(generated: int, until: Option<int>) {
    until.Some? && generated < until.value <= generated + MAX_LIFETIME_MS
  }

  predicate IsAsked(r: StayRequest, a: Asked) {
    r.checkIn == Some(Str(a.checkIn)) && r.checkOut == Some(Str(a.checkOut)) && r.guests == Some(Num(a.guests))
  }

  // What each finding of the verdict means, group by group.

  predicate IsProblem(B: Browser, c: Context, p: Problem) {
    match p
    case NotHostOwned => c.own == PublicSuffix.Fail
    case OfferDiffers => c.envelope.Returned? && !SameJson(c.envelope.offer, c.payload)
    case OfferOfAnotherDomain => c.host.Some? && c.offer.canonicalDomain != Some(Str(c.host.value))
    case BookingUrlNotNode => !Absent(c.offer.bookingUrl) && !BookOnNode(B, c.offer)
    case _ => false
  }

  predicate HasShape(o: Offer) {
    o.kind == Some(Str("verified_stay_offer")) && o.protocolVersion == Some(Str("0.1")) && o.complete
  }

  predicate IdentityCaution(c: Context, q: Caution) {
    match q
    case OwnershipUnknown => c.own == PublicSuffix.Unknown
    case ShapeUnknown => !HasShape(c.offer)
    case NoReturnedOffer => c.envelope.WithoutOffer?
    case OriginUnknown => c.host.None?
    case _ => false
  }

  /** generated_at, valid_until and the clock. */
  predicate LifetimeCaution(ga: Option<int>, vu: Option<int>, now: Clock, q: Caution) {
    match q
    case ValidUntilMalformed => vu.None?
    case Expired => vu.Some? && vu.value <= now.expiry
    case GeneratedAtMalformed => ga.None?
    case AheadOfClock => ga.Some? && ga.value > now.skew + CLOCK_SKEW_MS
    case LifetimeWrong => ga.Some? && vu.Some? && !LifetimeOk(ga.value, vu)
    case _ => false
  }

  /** The request, its two dates and the clock. */
  predicate StayCaution(r: Option<StayRequest>, ci: Option<int>, co: Option<int>, asked: Option<Asked>, now: int,
                        q: Caution) {
    match q
    case NoRequest => r.None?
    case NotAStay => r.Some? && !(ci.Some? && co.Some? && ci.value < co.value)
    case CheckInPassed => r.Some? && ci.Some? && ci.value < DayBefore(now)
    case NotALanguageTag => r.Some? && r.value.language.Some? && !NamesLanguage(r.value.language.value)
    case AnotherStay => r.Some? && asked.Some? && !IsAsked(r.value, asked.value)
    case StayUnknown => r.Some? && asked.None?
    case _ => false
  }

  predicate NamesLanguage(v: Json) {
    v.Str? && IsLanguageTag(v.s)
  }

  predicate OfferCaution(o: Offer, q: Caution) {
    match q
    case NoBookingUrl => Absent(o.bookingUrl)
    case NotAvailable => o.available != Some(Bool(true))
    case NotExact => o.exact != Some(Bool(true))
    case NotForAgents => o.mayQuote != Some(Bool(true))
    case _ => false
  }

  function CheckIn(o: Offer): Value {
    if o.request.Some? then o.request.value.checkIn else None
  }

  function CheckOut(o: Offer): Value {
    if o.request.Some? then o.request.value.checkOut else None
  }

  predicate IsCaution(B: Browser, c: Context, q: Caution) {
    || IdentityCaution(c, q)
    || LifetimeCaution(InstantAt(B, c.offer.generatedAt), InstantAt(B, c.offer.validUntil), c.now, q)
    || StayCaution(c.offer.request, DateOf(CheckIn(c.offer)), DateOf(CheckOut(c.offer)), c.asked, c.now.day, q)
    || OfferCaution(c.offer, q)
  }

  /** The verdict as the findings give it. */
  ghost function Judge(B: Browser, c: Context): Verdict {
    if !c.ok || c.problems != [] || exists p :: IsProblem(B, c, p) then Fail
    else if exists q :: IsCaution(B, c, q) then Warn
    else Pass
  }

  /** The decision part of `render`: the lists fill up in the order of the page, and the verdict follows them. */
  method Render(B: Browser, c: Context)
    returns (verdict: Verdict, problems: seq<Problem>, unknown: seq<Caution>, notQuotable: seq<Caution>)
    ensures verdict == Judge(B, c)
    ensures c.ok ==> forall p :: p in problems <==> p in c.problems || IsProblem(B, c, p)
    ensures c.ok ==> forall q :: q in unknown + notQuotable <==> IsCaution(B, c, q)
  {
    problems, unknown, notQuotable := c.problems, [], [];
    if c.ok {
      var more := RenderProblems(B, c);
      problems := problems + more;
      unknown := RenderUnknown(c);
      var lifetime := RenderLifetime(InstantAt(B, c.offer.generatedAt), InstantAt(B, c.offer.validUntil), c.now);
      var stay := RenderStay(c.offer.request, c.asked, c.now.day);
      var flags := RenderFlags(c.offer);
      notQuotable := lifetime + stay + flags;
    }
    var cautions := unknown + notQuotable;
    verdict := if !c.ok || problems != [] then Fail else if cautions != [] then Warn else Pass;
    if c.ok {
      ProblemsDecide(B, c, problems);
      CautionsDecide(B, c, cautions);
    }
  }

  lemma ProblemsDecide(B: Browser, c: Context, problems: seq<Problem>)
    requires forall p :: p in problems <==> p in c.problems || IsProblem(B, c, p)
    ensures problems != [] <==> c.problems != [] || exists p :: IsProblem(B, c, p)
  {
    if problems != [] {
      assert problems[0] in problems;
    }
    if c.problems != [] {
      assert c.problems[0] in problems;
    }
    if p :| IsProblem(B, c, p) {
      assert p in problems;
    }
  }

  lemma CautionsDecide(B: Browser, c: Context, cautions: seq<Caution>)
    requires forall q :: q in cautions <==> IsCaution(B, c, q)
    ensures cautions != [] <==> exists q :: IsCaution(B, c, q)
  {
    if cautions != [] {
      assert cautions[0] in cautions;
    }
    if q :| IsCaution(B, c, q) {
      assert q in cautions;
    }
  }

  method RenderProblems(B: Browser, c: Context) returns (problems: seq<Problem>)
    ensures forall p :: p in problems <==> IsProblem(B, c, p)
  {
    problems := [];
    if c.own == PublicSuffix.Fail {
      problems := problems + [NotHostOwned];
    }
    if c.envelope.Returned? {
      if !SameJson(c.envelope.offer, c.payload) {
        problems := problems + [OfferDiffers];
      }
    }
    if c.host.Some? {
      if c.offer.canonicalDomain != Some(Str(c.host.value)) {
        problems := problems + [OfferOfAnotherDomain];
      }
    }
    if !Absent(c.offer.bookingUrl) {
      if !BookOnNode(B, c.offer) {
        problems := problems + [BookingUrlNotNode];
      }
    }
  }

  method RenderUnknown(c: Context) returns (unknown: seq<Caution>)
    ensures forall q :: q in unknown <==> IdentityCaution(c, q)
  {
    unknown := [];
    if c.own == PublicSuffix.Unknown {
      unknown := unknown + [OwnershipUnknown];
    }
    if !HasShape(c.offer) {
      unknown := unknown + [ShapeUnknown];
    }
    if c.envelope.WithoutOffer? {
      unknown := unknown + [NoReturnedOffer];
    }
    if c.host.None? {
      unknown := unknown + [OriginUnknown];
    }
  }

  method RenderLifetime(ga: Option<int>, vu: Option<int>, now: Clock) returns (notQuotable: seq<Caution>)
    ensures forall q :: q in notQuotable <==> LifetimeCaution(ga, vu, now, q)
  {
    notQuotable := [];
    if vu.None? {
      notQuotable := notQuotable + [ValidUntilMalformed];
    } else if !(vu.value > now.expiry) {
      notQuotable := notQuotable + [Expired];
    }
    if ga.None? {
      notQuotable := notQuotable + [GeneratedAtMalformed];
    } else {
      if !(ga.value <= now.skew + CLOCK_SKEW_MS) {
        notQuotable := notQuotable + [AheadOfClock];
      }
      if vu.Some? && !LifetimeOk(ga.value, vu) {
        notQuotable := notQuotable + [LifetimeWrong];
      }
    }
  }

  method RenderStay(request: Option<StayRequest>, asked: Option<Asked>, now: int) returns (notQuotable: seq<Caution>)
    ensures forall q :: q in notQuotable <==>
              var ci := if request.Some? then DateOf(request.value.checkIn) else None;
              var co := if request.Some? then DateOf(request.value.checkOut) else None;
              StayCaution(request, ci, co, asked, now, q)
  {
    if request.None? {
      return [NoRequest];
    }
    var ci := ParseDate(AsString(request.value.checkIn));
    var co := ParseDate(AsString(request.value.checkOut));
    notQuotable := StayFindings(request.value, ci, co, asked, now);
  }

  method StayFindings(r: StayRequest, ci: Option<int>, co: Option<int>, asked: Option<Asked>, now: int)
    returns (notQuotable: seq<Caution>)
    ensures forall q :: q in notQuotable <==> StayCaution(Some(r), ci, co, asked, now, q)
  {
    notQuotable := [];
    var datesOk := ci.Some? && co.Some? && co.value > ci.value;
    var passed := ci.Some? && ci.value < DayBefore(now);
    if !datesOk {
      notQuotable := notQuotable + [NotAStay];
    }
    if passed {
      notQuotable := notQuotable + [CheckInPassed];
    }
    if r.language.Some? {
      if !NamesLanguage(r.language.value) {
        notQuotable := notQuotable + [NotALanguageTag];
      }
    }
    if asked.None? {
      notQuotable := notQuotable + [StayUnknown];
    } else if !IsAsked(r, asked.value) {
      notQuotable := notQuotable + [AnotherStay];
    }
  }

  method RenderFlags(o: Offer) returns (notQuotable: seq<Caution>)
    ensures forall q :: q in notQuotable <==> OfferCaution(o, q)
  {
    notQuotable := [];
    if Absent(o.bookingUrl) {
      notQuotable := notQuotable + [NoBookingUrl];
    }
    if o.available != Some(Bool(true)) {
      notQuotable := notQuotable + [NotAvailable];
    }
    if o.exact != Some(Bool(true)) {
      notQuotable := notQuotable + [NotExact];
    }
    if o.mayQuote != Some(Bool(true)) {
      notQuotable := notQuotable + [NotForAgents];
    }
  }

  // ------------------------------------------------------ the quotable window

  /** Everything about an offer but the clock is in order: it comes from the host-owned domain it names, its returned
      copy is the signed one, its booking URL is on that domain, its lifetime is within bounds, it is for the stay
      asked for, and it is available, exact and may be quoted. */
  predicate TimelesslyGood(B: Browser, c: Context) {
    var ga, vu := InstantAt(B, c.offer.generatedAt), InstantAt(B, c.offer.validUntil);
    && c.ok && c.problems == [] && RightSource(B, c) && HasShape(c.offer) && MayBeQuoted(c.offer)
    && ga.Some? && vu.Some? && LifetimeOk(ga.value, vu)
    && c.offer.request.Some? && c.asked.Some? && GoodStay(c.offer.request.value, c.asked.value)
  }

  predicate RightSource(B: Browser, c: Context) {
    && c.own == PublicSuffix.Pass
    && c.host.Some? && c.offer.canonicalDomain == Some(Str(c.host.value))
    && !Absent(c.offer.bookingUrl) && IsNodeUrl(B, c.offer.bookingUrl, c.host.value)
    && (c.envelope.Bare? || (c.envelope.Returned? && SameJson(c.envelope.offer, c.payload)))
  }

  predicate MayBeQuoted(o: Offer) {
    o.available == Some(Bool(true)) && o.exact == Some(Bool(true)) && o.mayQuote == Some(Bool(true))
  }

  predicate GoodStay(r: StayRequest, asked: Asked) {
    && DateOf(r.checkIn).Some? && DateOf(r.checkOut).Some? && DateOf(r.checkIn).value < DateOf(r.checkOut).value
    && (r.language.Some? ==> NamesLanguage(r.language.value))
    && IsAsked(r, asked)
  }

  /** The clock lies in the offer's window: not more than 60 s before it was generated, before it expires, and before
      its arrival day and the day after are over. */
  predicate InWindow(generated: int, until: int, arrival: int, now: Clock) {
    generated - CLOCK_SKEW_MS <= now.skew && now.expiry < until && now.day < arrival + 2 * MS_PER_DAY
  }

  predicate InOwnWindow(B: Browser, o: Offer, now: Clock)
    requires InstantAt(B, o.generatedAt).Some? && InstantAt(B, o.validUntil).Some? && DateOf(CheckIn(o)).Some?
  {
    InWindow(InstantAt(B, o.generatedAt).value, InstantAt(B, o.validUntil).value, DateOf(CheckIn(o)).value, now)
  }

  lemma DayBeforeIsPassed(day: int, now: int)
    ensures MS_PER_DAY * day < DayBefore(now) <==> MS_PER_DAY * day + 2 * MS_PER_DAY <= now
  {
    var today := now / MS_PER_DAY;
    assert now == MS_PER_DAY * today + now % MS_PER_DAY;
  }

  /** Where all but the clock is in order, the findings are those of the window. */
  lemma {:induction false} ClockFindings(ga: int, vu: int, r: StayRequest, ci: int, co: int, asked: Asked, now: Clock)
    requires LifetimeOk(ga, Some(vu)) && ci < co && MS_PER_DAY * (ci / MS_PER_DAY) == ci
    requires (r.language.Some? ==> NamesLanguage(r.language.value)) && IsAsked(r, asked)
    ensures (forall q :: !LifetimeCaution(Some(ga), Some(vu), now, q)
                      && !StayCaution(Some(r), Some(ci), Some(co), Some(asked), now.day, q))
       <==> InWindow(ga, vu, ci, now)
  {
    DayBeforeIsPassed(ci / MS_PER_DAY, now.day);
    if !InWindow(ga, vu, ci, now) {
      assert LifetimeCaution(Some(ga), Some(vu), now, Expired) || LifetimeCaution(Some(ga), Some(vu), now, AheadOfClock)
          || StayCaution(Some(r), Some(ci), Some(co), Some(asked), now.day, CheckInPassed);
    }
  }

  lemma {:induction false} ClockCautions(ga: int, vu: int, o: Offer, asked: Asked, now: Clock)
    requires LifetimeOk(ga, Some(vu)) && o.request.Some? && GoodStay(o.request.value, asked)
    ensures NoClockFinding(Some(ga), Some(vu), o, Some(asked), now)
       <==> InWindow(ga, vu, DateOf(CheckIn(o)).value, now)
  {
    CheckInIsMidnight(CheckIn(o));
    ClockFindings(ga, vu, o.request.value, DateOf(CheckIn(o)).value, DateOf(CheckOut(o)).value, asked, now);
  }

  lemma CheckInIsMidnight(v: Value)
    requires DateOf(v).Some?
    ensures MS_PER_DAY * (DateOf(v).value / MS_PER_DAY) == DateOf(v).value
  {
    WholeDays(DayNumber(DateFields(AsString(v).value)));
  }

  lemma WholeDays(day: int)
    ensures MS_PER_DAY * day / MS_PER_DAY == day
  {
  }

  lemma {:induction false} SourceFindings(B: Browser, c: Context)
    ensures (forall p :: !IsProblem(B, c, p)) && (forall q :: !IdentityCaution(c, q))
          && !OfferCaution(c.offer, NoBookingUrl)
       <==> RightSource(B, c) && HasShape(c.offer)
  {
    if && (forall p :: !IsProblem(B, c, p)) && (forall q :: !IdentityCaution(c, q))
       && !OfferCaution(c.offer, NoBookingUrl) {
      assert !IsProblem(B, c, NotHostOwned) && !IsProblem(B, c, OfferDiffers);
      assert !IsProblem(B, c, OfferOfAnotherDomain) && !IsProblem(B, c, BookingUrlNotNode);
      assert !IdentityCaution(c, OwnershipUnknown) && !IdentityCaution(c, ShapeUnknown);
      assert !IdentityCaution(c, NoReturnedOffer) && !IdentityCaution(c, OriginUnknown);
    }
  }

  lemma {:induction false} OfferFindings(o: Offer)
    ensures (forall q :: !OfferCaution(o, q)) <==> !Absent(o.bookingUrl) && MayBeQuoted(o)
  {
    if forall q :: !OfferCaution(o, q) {
      assert !OfferCaution(o, NoBookingUrl) && !OfferCaution(o, NotAvailable);
      assert !OfferCaution(o, NotExact) && !OfferCaution(o, NotForAgents);
    }
  }

  /** No finding of the lifetime or of the stay. */
  ghost predicate NoClockFinding(ga: Option<int>, vu: Option<int>, o: Offer, asked: Option<Asked>, now: Clock) {
    forall q :: !LifetimeCaution(ga, vu, now, q)
             && !StayCaution(o.request, DateOf(CheckIn(o)), DateOf(CheckOut(o)), asked, now.day, q)
  }

  lemma {:induction false} NoFindingIsGood(ga: Option<int>, vu: Option<int>, o: Offer, asked: Option<Asked>, now: Clock)
    requires NoClockFinding(ga, vu, o, asked, now)
    ensures ga.Some? && vu.Some? && LifetimeOk(ga.value, vu)
    ensures o.request.Some? && asked.Some? && GoodStay(o.request.value, asked.value)
  {
    assert !LifetimeCaution(ga, vu, now, ValidUntilMalformed) && !LifetimeCaution(ga, vu, now, GeneratedAtMalformed);
    assert !LifetimeCaution(ga, vu, now, LifetimeWrong);
    var r, ci, co := o.request, DateOf(CheckIn(o)), DateOf(CheckOut(o));
    assert !StayCaution(r, ci, co, asked, now.day, NoRequest) && !StayCaution(r, ci, co, asked, now.day, NotAStay);
    assert !StayCaution(r, ci, co, asked, now.day, NotALanguageTag)
        && !StayCaution(r, ci, co, asked, now.day, AnotherStay);
    assert !StayCaution(r, ci, co, asked, now.day, StayUnknown);
  }

  lemma {:induction false} PassByGroups(B: Browser, c: Context)
    ensures Judge(B, c) == Pass <==>
              && c.ok && c.problems == [] && (forall p :: !IsProblem(B, c, p))
              && (forall q :: !IdentityCaution(c, q)) && (forall q :: !OfferCaution(c.offer, q))
              && NoClockFinding(InstantAt(B, c.offer.generatedAt), InstantAt(B, c.offer.validUntil), c.offer, c.asked,
                                c.now)
  {
    var ga, vu := InstantAt(B, c.offer.generatedAt), InstantAt(B, c.offer.validUntil);
    if Judge(B, c) == Pass {
      forall q ensures !IdentityCaution(c, q) && !OfferCaution(c.offer, q) {
        assert !IsCaution(B, c, q);
      }
      forall q ensures !LifetimeCaution(ga, vu, c.now, q)
                    && !StayCaution(c.offer.request, DateOf(CheckIn(c.offer)), DateOf(CheckOut(c.offer)), c.asked,
                                    c.now.day, q) {
        assert !IsCaution(B, c, q);
      }
    }
  }

  /** An offer may be quoted exactly in one window of time, and only if nothing else is amiss. */
  lemma {:induction false} QuotableExactly(B: Browser, c: Context)
    ensures Judge(B, c) == Pass <==>
              TimelesslyGood(B, c) && InOwnWindow(B, c.offer, c.now)
  {
    var ga, vu := InstantAt(B, c.offer.generatedAt), InstantAt(B, c.offer.validUntil);
    PassByGroups(B, c);
    SourceFindings(B, c);
    OfferFindings(c.offer);
    if NoClockFinding(ga, vu, c.offer, c.asked, c.now) {
      NoFindingIsGood(ga, vu, c.offer, c.asked, c.now);
    }
    if TimelesslyGood(B, c) {
      ClockCautions(ga.value, vu.value, c.offer, c.asked.value, c.now);
    }
  }

  /** No reading of one verdict is later than that of another. */
  predicate NotAfter(a: Clock, b: Clock) {
    a.expiry <= b.expiry && a.skew <= b.skew && a.day <= b.day
  }

  /** So for one signed offer in unchanged surroundings the quotable readings of the clock lie within 960 s, have no
      gap, and once they are over never come back. */
  lemma {:induction false} OneBoundedWindow(B: Browser, c: Context, k1: Clock, k2: Clock, k3: Clock)
    requires NotAfter(k1, k2) && NotAfter(k2, k3)
    requires Judge(B, c.(now := k1)) == Pass && Judge(B, c.(now := k3)) == Pass
    ensures Judge(B, c.(now := k2)) == Pass
    ensures k3.expiry - k1.skew < 960 * 1000
  {
    QuotableExactly(B, c.(now := k1));
    QuotableExactly(B, c.(now := k2));
    QuotableExactly(B, c.(now := k3));
  }

  /** An offer of unknown origin, or for an unknown stay, as every pasted one is, never passes. */
  lemma {:induction false} PastedNeverPasses(B: Browser, c: Context)
    requires c.host.None? || c.asked.None?
    ensures Judge(B, c) != Pass
  {
    QuotableExactly(B, c);
  }

  // ------------------------------------------------------- fetching an offer

  /** The returned copy: `"offer" in offer ? offer.offer : undefined`, where null stands for none to compare. */
  function EnvelopeOf(doc: Value): Envelope {
    var v := Get(doc, "offer");
    if v.None? then WithoutOffer else if v == Some(Null) then Bare else Returned(v.value)
  }

  /** The documents that `runLive` fetches from one host. */
  datatype Fetched = Fetched(discovery: Value, envelope: Value, jwks: Value)

  function TokenOf(envelope: Value): Option<string> {
    var jws := AsString(Get(Get(envelope, "signature"), "jws"));
    if jws == Some("") then None else jws
  }

  /** Where reading the payload's fields throws. */
  predicate Unreadable(r: Checked) {
    r.payload == Null || (r.ok && !IsObject(Some(r.payload)))
  }

  function LiveContext(r: Checked, host: string, docs: Fetched, lists: Option<PublicSuffix.Lists>, asked: Asked,
                       now: Clock): Context {
    Context(r.ok, r.payload, OfferOf(r.payload), PublicSuffix.OwnedState(host, lists), [], EnvelopeOf(docs.envelope),
            Some(host), Some(asked), now)
  }

  predicate UrlsOk(B: Browser, d: Discovery, host: string) {
    IsNodeUrl(B, d.jwksUrl, host) && IsNodeUrl(B, d.endpoint, host)
  }

  /** The verdict on an offer fetched live. */
  ghost function LiveVerdict(B: Browser, host: string, docs: Fetched, lists: Option<PublicSuffix.Lists>, asked: Asked,
                             now: Clock)
    : Verdict
  {
    var d, jws := DiscoveryOf(docs.discovery), TokenOf(docs.envelope);
    if !UrlsOk(B, d, host) then Fail
    else if jws.None? then CouldNotVerify
    else
      var r := VerifyJws(B, jws.value, docs.jwks);
      if r.None? || Unreadable(r.value) then CouldNotVerify
      else if exists p :: DiscoveryProblem(B, d, host, p) then Fail
      else Judge(B, LiveContext(r.value, host, docs, lists, asked, now))
  }

  method RunLive(B: Browser, host: string, docs: Fetched, lists: Option<PublicSuffix.Lists>, asked: Asked, now: Clock)
    returns (verdict: Verdict)
    ensures verdict == LiveVerdict(B, host, docs, lists, asked, now)
  {
    var d := DiscoveryOf(docs.discovery);
    var problems, urlsOk := CheckDiscovery(B, d, host);
    if !urlsOk {
      return Fail;
    }
    var jws := TokenOf(docs.envelope);
    if jws.None? {
      return CouldNotVerify;
    }
    var r := VerifyJws(B, jws.value, docs.jwks);
    if r.None? || Unreadable(r.value) {
      return CouldNotVerify;
    }
    var own := PublicSuffix.HostOwned(host, lists);
    var c := LiveContext(r.value, host, docs, lists, asked, now);
    if problems != [] {
      assert problems[0] in problems;
    }
    var p, u, n;
    verdict, p, u, n := Render(B, c.(problems := problems, own := own));
  }

  /** A fetched offer that passes comes from a host-owned domain and was signed by a key of that domain's set that its
      kid names. Its returned copy denotes the very payload that was signed exactly when it is not null. */
  lemma {:induction false} PassedOfferIsTheHosts(B: Browser, host: string, docs: Fetched,
                                                 lists: Option<PublicSuffix.Lists>, asked: Asked, now: Clock)
    requires LiveVerdict(B, host, docs, lists, asked, now) == Pass
    ensures PublicSuffix.OwnedState(host, lists) == PublicSuffix.Pass
    ensures TokenOf(docs.envelope).Some? && VerifyJws(B, TokenOf(docs.envelope).value, docs.jwks).Some?
    ensures var r := VerifyJws(B, TokenOf(docs.envelope).value, docs.jwks).value;
            var copy := Get(docs.envelope, "offer");
            && r.ok && copy.Some?
            && Get(Some(r.payload), "canonical_domain") == Some(Str(host))
            && (WellFormed(copy.value) && WellFormed(r.payload) ==>
                (Denote(copy.value) == Denote(r.payload) <==> copy != Some(Null)))
  {
    var r := VerifyJws(B, TokenOf(docs.envelope).value, docs.jwks).value;
    QuotableExactly(B, LiveContext(r, host, docs, lists, asked, now));
    var copy := Get(docs.envelope, "offer").value;
    if WellFormed(copy) && WellFormed(r.payload) {
      CopyDenotes(copy, r.payload);
    }
  }

  lemma {:induction false} CopyDenotes(copy: Json, payload: Json)
    requires WellFormed(copy) && WellFormed(payload) && IsObject(Some(payload))
    requires copy == Null || SameJson(copy, payload)
    ensures Denote(copy) == Denote(payload) <==> copy != Null
  {
    if copy == Null {
      ObjectIsNotNull(payload);
    } else {
      SameJsonIsEquality(copy, payload);
    }
  }

  lemma ObjectIsNotNull(j: Json)
    requires IsObject(Some(j))
    ensures Denote(j) != DNull
  {
  }

  // -------------------------------------------------------- a copy that is null

  function NullOffer(members: seq<Member>): seq<Member> {
    if members == [] then []
    else [if members[0].key == "offer" then Member("offer", Null) else members[0]] + NullOffer(members[1..])
  }

  /** The same response with null for its returned copy. */
  function WithNullCopy(envelope: Value): Value {
    if envelope.Some? && envelope.value.Obj? then Some(Obj(NullOffer(envelope.value.members))) else envelope
  }

  lemma {:induction false} NullOfferFinds(members: seq<Member>, key: string)
    ensures Find(NullOffer(members), key)
         == if key == "offer" && Find(members, key).Some? then Some(Null) else Find(members, key)
  {
    if members != [] {
      NullOfferFinds(members[1..], key);
      assert NullOffer(members)[1..] == NullOffer(members[1..]);
    }
  }

  lemma {:induction false} NullCopyReads(envelope: Value)
    ensures TokenOf(WithNullCopy(envelope)) == TokenOf(envelope)
    ensures Get(envelope, "offer").Some? ==> EnvelopeOf(WithNullCopy(envelope)) == Bare
  {
    if envelope.Some? && envelope.value.Obj? {
      NullOfferFinds(envelope.value.members, "offer");
      NullOfferFinds(envelope.value.members, "signature");
    }
  }

  lemma {:induction false} BareIsAsGood(B: Browser, c: Context)
    requires Judge(B, c) == Pass
    ensures Judge(B, c.(envelope := Bare)) == Pass
  {
    QuotableExactly(B, c);
    QuotableExactly(B, c.(envelope := Bare));
  }

  /** Putting null for the returned copy of an offer that passes leaves it passing, whatever the copy said. */
  lemma {:induction false} NullCopyPasses(B: Browser, host: string, docs: Fetched, lists: Option<PublicSuffix.Lists>,
                                          asked: Asked, now: Clock)
    requires LiveVerdict(B, host, docs, lists, asked, now) == Pass
    ensures LiveVerdict(B, host, docs.(envelope := WithNullCopy(docs.envelope)), lists, asked, now) == Pass
  {
    var r := VerifyJws(B, TokenOf(docs.envelope).value, docs.jwks).value;
    var c := LiveContext(r, host, docs, lists, asked, now);
    PassedOfferIsTheHosts(B, host, docs, lists, asked, now);
    NullCopyReads(docs.envelope);
    BareIsAsGood(B, c);
    assert LiveContext(r, host, docs.(envelope := WithNullCopy(docs.envelope)), lists, asked, now) ==
           c.(envelope := Bare);
  }
}
