/** The producer page and the verifier page agree: what implement.html signs, verify.html passes. */
module EndToEnd {
  import opened Wrappers
  import opened Documents
  import opened Strings
  import opened Merkle
  import opened Digits
  import opened Calendar
  import opened Instants
  import opened OfferPage
  import opened Signer
  import Base64Url
  import PublicSuffix

  // -------------------------------------------- what is relied on of the browser

  /** The whole numbers that a double holds exactly: 53 significant bits, and below 2^1024 for e == 971. */
  predicate DoubleHolds(n: int, e: nat)
    decreases e
  {
    -0x20_0000_0000_0000 < n < 0x20_0000_0000_0000 || (e > 0 && n % 2 == 0 && DoubleHolds(n / 2, e - 1))
  }

  predicate IsDouble(x: real) {
    x.Floor as real == x && DoubleHolds(x.Floor, 971)
  }

  /** The names that JavaScript lists first, in numeric order, wherever they were written (section 10.1.11.1 of
      ECMA-262). */
  predicate IsArrayIndex(name: string) {
    name != "" && AllDigits(name) && (name[0] != '0' || |name| == 1) && NumberOf(name) < 0xFFFF_FFFF
  }

  /** Documents that JSON texts carry without loss: no name twice in an object and none that is listed out of its place,
      and no numbers but whole ones that a double holds. */
  predicate Plain(j: Json)
    decreases j
  {
    match j
    case Num(n) => IsDouble(n)
    case Arr(items) => forall i :: 0 <= i < |items| ==> Plain(items[i])
    case Obj(members) =>
      UniqueNames(members) && forall i :: 0 <= i < |members| ==>
        !IsArrayIndex(members[i].key) && Plain(members[i].value)
    case _ => true
  }

  predicate ReadsBack(B: Browser, j: Json) {
    Plain(j) ==> B.parse(B.text(B.utf8(B.stringify(j)))) == Some(j)
  }

  function PlainHttps(host: string): Url {
    Url("https:", "", "", "", host)
  }

  /** The parser leaves this host as it is. */
  predicate CanonicalHost(B: Browser, host: string) {
    B.parseUrl("https://" + host + "/") == Some(PlainHttps(host))
  }

  predicate KeepsHost(B: Browser, host: string, rest: string) {
    CanonicalHost(B, host) ==> B.parseUrl("https://" + host + "/" + rest) == Some(PlainHttps(host))
  }

  /** JSON texts read back as the values written and are not empty, a path does not change how a host is parsed, and
      dates are parsed. */
  ghost predicate Lawful(B: Browser) {
    && (forall j :: ReadsBack(B, j)) && B.parse(B.text([])) == None
    && (forall host, rest :: KeepsHost(B, host, rest))
    && ParsesDates(B.parseDate)
  }

  /** The public half imports and verifies what the private half signs; a signature is not empty. */
  ghost predicate Works(B: Browser, pair: KeyPair) {
    B.importKey(Some(Str(pair.x))).Some? && forall m :: SignsFor(B, pair, m)
  }

  predicate SignsFor(B: Browser, pair: KeyPair, m: Bytes)
    requires B.importKey(Some(Str(pair.x))).Some?
  {
    var s := B.sign(pair.private, m);
    s != [] && B.verify(B.importKey(Some(Str(pair.x))).value, m, s)
  }

  // ------------------------------------------------------------------ the token

  lemma {:induction false} SplitsInThree(x: string, y: string, z: string)
    requires '.' !in x && '.' !in y && '.' !in z
    ensures Split(x + "." + y + "." + z, '.') == [x, y, z]
  {
    SplitOfGlued(x + "." + y, z, '.');
    SplitOfGlued(x, y, '.');
    SplitOfPart(x, '.');
    SplitOfPart(y, '.');
    SplitOfPart(z, '.');
  }

  predicate UrlLetter(c: char) {
    'A' <= c <= 'Z' || 'a' <= c <= 'z' || '0' <= c <= '9' || c == '-' || c == '_'
  }

  lemma UrlLetterIsNoSpace(c: char)
    requires UrlLetter(c)
    ensures !IsSpace(c)
  {
  }

  predicate CleanEdges(e: string) {
    e != "" && !IsSpace(e[0]) && !IsSpace(e[|e| - 1])
  }

  lemma LettersGiveCleanEdges(e: string)
    requires e != "" && forall c :: c in e ==> UrlLetter(c)
    ensures CleanEdges(e)
  {
    assert e[0] in e && e[|e| - 1] in e;
    UrlLetterIsNoSpace(e[0]);
    UrlLetterIsNoSpace(e[|e| - 1]);
  }

  lemma EmptyEncoding()
    ensures Base64Url.Encode([]) == ""
  {
    Base64Url.EncodeIsUnpadded([]);
  }

  lemma {:induction false} EncodingEdges(b: Bytes)
    requires b != []
    ensures CleanEdges(Base64Url.Encode(b))
  {
    EmptyEncoding();
    if Base64Url.Encode(b) == "" {
      Base64Url.EncodeIsInjective(b, []);
    }
    Base64Url.EncodingHasNoDot(b);
    LettersGiveCleanEdges(Base64Url.Encode(b));
  }

  lemma NothingToTrim(s: string)
    requires CleanEdges(s)
    ensures Trim(s) == s
  {
  }

  lemma GluedEdges(x: string, y: string, z: string)
    requires CleanEdges(x) && CleanEdges(z)
    ensures CleanEdges(x + "." + y + "." + z)
  {
    var s := x + "." + y + "." + z;
    assert s[0] == x[0] && s[|s| - 1] == z[|z| - 1];
  }

  /** Three encodings joined by dots split into just these three, and no white space is in the way. */
  lemma {:induction false} CompactSplits(h: Bytes, p: Bytes, s: Bytes)
    requires h != [] && s != []
    ensures var (x, y, z) := (Base64Url.Encode(h), Base64Url.Encode(p), Base64Url.Encode(s));
            Trim(x + "." + y + "." + z) == x + "." + y + "." + z && Split(x + "." + y + "." + z, '.') == [x, y, z]
  {
    var x, y, z := Base64Url.Encode(h), Base64Url.Encode(p), Base64Url.Encode(s);
    EncodingEdges(h);
    EncodingEdges(s);
    GluedEdges(x, y, z);
    NothingToTrim(x + "." + y + "." + z);
    Base64Url.EncodingHasNoDot(h);
    Base64Url.EncodingHasNoDot(p);
    Base64Url.EncodingHasNoDot(s);
    SplitsInThree(x, y, z);
  }

  // ------------------------------------------------- the documents the signer writes

  lemma {:induction false} PlainObject(marks: seq<Mark>, members: seq<Member>)
    requires Distinct(marks) && Marked(marks, members) && forall i :: 0 <= i < |members| ==> Plain(members[i].value)
    ensures Plain(Obj(members))
  {
    MarksTellNames(marks, members);
    forall i | 0 <= i < |members| ensures !IsArrayIndex(members[i].key) {
      assert !IsDigit(marks[i].first);
    }
  }

  lemma AllFormed(members: seq<Member>)
    requires forall i :: 0 <= i < |members| ==> WellFormed(members[i].value)
    ensures AllMembersFormed(members)
  {
  }

  lemma AllItems(items: seq<Json>)
    requires forall i :: 0 <= i < |items| ==> WellFormed(items[i])
    ensures AllItemsFormed(items)
  {
  }

  lemma {:induction false} PlainIsFormed(j: Json)
    requires Plain(j)
    ensures WellFormed(j)
    decreases j
  {
    if j.Arr? {
      forall i | 0 <= i < |j.items| ensures WellFormed(j.items[i]) {
        PlainIsFormed(j.items[i]);
      }
      AllItems(j.items);
    } else if j.Obj? {
      forall i | 0 <= i < |j.members| ensures WellFormed(j.members[i].value) {
        PlainIsFormed(j.members[i].value);
      }
      AllFormed(j.members);
    }
  }

  const HEADER_MARKS: seq<Mark> := [Mark('a', 'g', 3), Mark('t', 'p', 3), Mark('k', 'd', 3)]
  const JWK_MARKS: seq<Mark> := [
    Mark('k', 'y', 3), Mark('c', 'v', 3), Mark('k', 'd', 3), Mark('u', 'e', 3), Mark('a', 'g', 3),
    Mark('k', 's', 7), Mark('x', 'x', 1)]
  const REQUEST_MARKS: seq<Mark> := [Mark('c', 'n', 8), Mark('c', 't', 9), Mark('g', 's', 6), Mark('n', 's', 6)]
  const PROPERTY_MARKS: seq<Mark> := [Mark('p', 'd', 11), Mark('n', 'e', 4), Mark('u', 'l', 3)]
  const AVAILABILITY_MARKS: seq<Mark> := [Mark('a', 'e', 9), Mark('s', 'e', 6)]
  const PRICE_MARKS: seq<Mark> := [
    Mark('c', 'y', 8), Mark('p', 'l', 12), Mark('a', 'l', 11), Mark('m', 't', 10), Mark('e', 't', 5),
    Mark('n', 's', 14)]
  const AUTHORITY_MARKS: seq<Mark> := [
    Mark('m', 'l', 5), Mark('i', 'y', 31), Mark('i', 'y', 12), Mark('p', 't', 17), Mark('b', 'l', 13),
    Mark('b', 't', 22)]
  const OFFER_MARKS: seq<Mark> := [
    Mark('k', 'd', 4), Mark('p', 'n', 16), Mark('c', 'n', 16), Mark('n', 'd', 7), Mark('g', 't', 12),
    Mark('v', 'l', 11), Mark('r', 't', 7), Mark('p', 'y', 8), Mark('a', 'y', 12), Mark('p', 'e', 5),
    Mark('b', 'g', 7), Mark('a', 'n', 16), Mark('s', 'y', 16)]
  const DISCOVERY_MARKS: seq<Mark> := [
    Mark('p', 'l', 8), Mark('p', 'n', 16), Mark('c', 'n', 16), Mark('n', 'd', 7), Mark('j', 'l', 8),
    Mark('v', 't', 28), Mark('c', 's', 12)]
  const ENVELOPE_MARKS: seq<Mark> := [
    Mark('k', 'd', 4), Mark('p', 'n', 16), Mark('o', 'r', 5), Mark('s', 'e', 9), Mark('v', 'n', 12)]
  const SIGNATURE_MARKS: seq<Mark> := [Mark('f', 't', 6), Mark('a', 'g', 3), Mark('k', 'd', 3), Mark('j', 's', 3)]

  lemma HeaderIsPlain(kid: string)
    ensures Plain(HeaderFor(kid))
  {
    PlainObject(HEADER_MARKS, HeaderFor(kid).members);
  }

  lemma RequestIsPlain(B: Browser, vals: StayForm)
    requires DoubleHolds(vals.guests, 971) && DoubleHolds(Nights(B, vals), 971)
    ensures Plain(RequestPart(B, vals))
  {
    PlainObject(REQUEST_MARKS, RequestPart(B, vals).members);
  }

  lemma PropertyIsPlain(host: string, vals: StayForm)
    ensures Plain(PropertyPart(host, vals))
  {
    PlainObject(PROPERTY_MARKS, PropertyPart(host, vals).members);
  }

  lemma PriceIsPlain(vals: StayForm)
    requires DoubleHolds(Total(vals), 971)
    ensures Plain(PricePart(vals))
  {
    PlainObject(PRICE_MARKS, PricePart(vals).members);
  }

  lemma AvailabilityIsPlain()
    ensures Plain(AVAILABILITY_PART)
  {
    PlainObject(AVAILABILITY_MARKS, AVAILABILITY_PART.members);
  }

  lemma {:induction false} PlainPair(a: Member, b: Member)
    requires a.key != b.key && !IsArrayIndex(a.key) && !IsArrayIndex(b.key) && Plain(a.value) && Plain(b.value)
    ensures Plain(Obj([a, b]))
  {
  }

  lemma PermissionIsPlain()
    ensures Plain(PERMISSION_PART)
  {
    var a, b := PERMISSION_PART.members[0], PERMISSION_PART.members[1];
    assert |a.key| == 34 && a.key[33] == 'r';
    assert |b.key| == 54 && b.key[53] == 'e';
    PlainPair(a, b);
  }

  lemma AuthorityIsPlain()
    ensures Plain(AUTHORITY_PART)
  {
    PlainObject(AUTHORITY_MARKS, AUTHORITY_PART.members);
  }

  lemma FirstMarks()
    ensures MarkOf("kind") == Mark('k', 'd', 4) && MarkOf("protocol_version") == Mark('p', 'n', 16)
         && MarkOf("canonical_domain") == Mark('c', 'n', 16)
         && MarkOf("node_id") == Mark('n', 'd', 7) && MarkOf("generated_at") == Mark('g', 't', 12)
         && MarkOf("valid_until") == Mark('v', 'l', 11)
         && MarkOf("request") == Mark('r', 't', 7)
  {
  }

  lemma LastMarks()
    ensures MarkOf("property") == Mark('p', 'y', 8) && MarkOf("availability") == Mark('a', 'y', 12)
         && MarkOf("price") == Mark('p', 'e', 5)
         && MarkOf("booking") == Mark('b', 'g', 7) && MarkOf("agent_permission") == Mark('a', 'n', 16)
         && MarkOf("source_authority") == Mark('s', 'y', 16)
  {
  }

  lemma {:induction false} OfferMarks(host: string, generatedAt: string, validUntil: string, request: Json,
                                      property: Json, availability: Json, price: Json, booking: Json,
                                      permission: Json, authority: Json)
    ensures Marked(OFFER_MARKS,
                   OfferMembers(host, generatedAt, validUntil, request, property, availability, price, booking,
                                permission, authority))
  {
    FirstMarks();
    LastMarks();
  }

  lemma OfferMarksOnce()
    ensures NoneTwice(OFFER_MARKS)
  {
  }

  lemma OfferMarksAreWords()
    ensures NoNumbers(OFFER_MARKS)
  {
  }

  lemma OfferMarksDiffer()
    ensures Distinct(OFFER_MARKS)
  {
    OfferMarksOnce();
    OfferMarksAreWords();
  }

  lemma {:induction false} PlainOffer(host: string, generatedAt: string, validUntil: string, request: Json,
                                      property: Json, availability: Json, price: Json, booking: Json,
                                      permission: Json, authority: Json)
    requires Plain(request) && Plain(property) && Plain(availability) && Plain(price) && Plain(booking)
          && Plain(permission) && Plain(authority)
    ensures Plain(Obj(OfferMembers(host, generatedAt, validUntil, request, property, availability, price, booking,
                                   permission, authority)))
  {
    OfferMarks(host, generatedAt, validUntil, request, property, availability, price, booking, permission, authority);
    OfferMarksDiffer();
    PlainObject(OFFER_MARKS,
                OfferMembers(host, generatedAt, validUntil, request, property, availability, price, booking,
                             permission, authority));
  }

  lemma BookingIsPlain(B: Browser, host: string, vals: StayForm)
    ensures Plain(BookingPart(B, host, vals))
  {
  }

  lemma {:induction false} OfferIsPlain(B: Browser, host: string, vals: StayForm, ga: string, vu: string)
    requires DoubleHolds(vals.guests, 971) && DoubleHolds(Total(vals), 971) && DoubleHolds(Nights(B, vals), 971)
    ensures Plain(OfferWith(B, host, vals, ga, vu))
  {
    RequestIsPlain(B, vals);
    PropertyIsPlain(host, vals);
    PriceIsPlain(vals);
    AvailabilityIsPlain();
    BookingIsPlain(B, host, vals);
    PermissionIsPlain();
    AuthorityIsPlain();
    PlainOffer(host, ga, vu, RequestPart(B, vals), PropertyPart(host, vals), AVAILABILITY_PART, PricePart(vals),
               BookingPart(B, host, vals), PERMISSION_PART, AUTHORITY_PART);
  }

  // ------------------------------------------------------ what the verifier reads in them

  lemma {:induction false} Lookup(marks: seq<Mark>, members: seq<Member>, i: nat)
    requires Distinct(marks) && Marked(marks, members) && i < |members|
    ensures Get(Some(Obj(members)), members[i].key) == Some(members[i].value)
  {
    MarksTellNames(marks, members);
    FindAt(members, i);
  }

  lemma NotThere(marks: seq<Mark>, members: seq<Member>, key: string)
    requires Marked(marks, members) && MarkOf(key) !in marks
    ensures Get(Some(Obj(members)), key) == None
  {
  }

  /** The offer's own members, each under its name. */
  predicate SaysOffer(o: Json, host: string, generatedAt: string, validUntil: string, request: Json,
                      availability: Json, price: Json, booking: Json, permission: Json)
  {
    var p := Some(o);
    && Get(p, "kind") == Some(Str("verified_stay_offer")) && Get(p, "protocol_version") == Some(Str("0.1"))
    && Get(p, "canonical_domain") == Some(Str(host))
    && Get(p, "generated_at") == Some(Str(generatedAt)) && Get(p, "valid_until") == Some(Str(validUntil))
    && Get(p, "request") == Some(request) && Get(p, "availability") == Some(availability)
    && Get(p, "price") == Some(price) && Get(p, "booking") == Some(booking)
    && Get(p, "agent_permission") == Some(permission)
  }

  predicate Complete(o: Json) {
    forall k :: k in REQUIRED_FIELDS ==> Get(Some(o), k).Some?
  }

  lemma {:induction false} OfferReads(host: string, generatedAt: string, validUntil: string, request: Json,
                                      property: Json, availability: Json, price: Json, booking: Json,
                                      permission: Json, authority: Json)
    ensures SaysOffer(Obj(OfferMembers(host, generatedAt, validUntil, request, property, availability, price, booking,
                                       permission, authority)),
                      host, generatedAt, validUntil, request, availability, price, booking, permission)
  {
    var members := OfferMembers(host, generatedAt, validUntil, request, property, availability, price, booking,
                                permission, authority);
    OfferMarks(host, generatedAt, validUntil, request, property, availability, price, booking, permission, authority);
    OfferMarksDiffer();
    Lookup(OFFER_MARKS, members, 0);
    Lookup(OFFER_MARKS, members, 1);
    Lookup(OFFER_MARKS, members, 2);
    Lookup(OFFER_MARKS, members, 4);
    Lookup(OFFER_MARKS, members, 5);
    Lookup(OFFER_MARKS, members, 6);
    Lookup(OFFER_MARKS, members, 8);
    Lookup(OFFER_MARKS, members, 9);
    Lookup(OFFER_MARKS, members, 10);
    Lookup(OFFER_MARKS, members, 11);
    assert members[0].key == "kind" && members[1].key == "protocol_version" && members[2].key == "canonical_domain";
    assert members[4].key == "generated_at" && members[5].key == "valid_until";
    assert members[6].key == "request" && members[7].key == "property" && members[8].key == "availability";
    assert members[9].key == "price" && members[10].key == "booking" && members[11].key == "agent_permission";
  }

  lemma {:induction false} OfferIsComplete(host: string, generatedAt: string, validUntil: string, request: Json,
                                           property: Json, availability: Json, price: Json, booking: Json,
                                           permission: Json, authority: Json)
    ensures Complete(Obj(OfferMembers(host, generatedAt, validUntil, request, property, availability, price, booking,
                                      permission, authority)))
  {
    var members := OfferMembers(host, generatedAt, validUntil, request, property, availability, price, booking,
                                permission, authority);
    OfferMarks(host, generatedAt, validUntil, request, property, availability, price, booking, permission, authority);
    OfferMarksDiffer();
    forall k | k in REQUIRED_FIELDS ensures Get(Some(Obj(members)), k).Some? {
      var i :| 0 <= i < |REQUIRED_FIELDS| && REQUIRED_FIELDS[i] == k;
      assert members[i].key == k;
      Lookup(OFFER_MARKS, members, i);
    }
  }

  lemma {:induction false} RequestReads(B: Browser, vals: StayForm)
    ensures RequestOf(Some(RequestPart(B, vals))) == StayOf(vals)
  {
    var members := RequestPart(B, vals).members;
    assert members[0].key == "check_in" && members[1].key == "check_out" && members[2].key == "guests";
    Lookup(REQUEST_MARKS, members, 0);
    Lookup(REQUEST_MARKS, members, 1);
    Lookup(REQUEST_MARKS, members, 2);
    NotThere(REQUEST_MARKS, members, "language");
  }

  lemma {:induction false} FlagsRead(vals: StayForm)
    ensures Get(Some(AVAILABILITY_PART), "available") == Some(Bool(true))
    ensures Get(Some(PERMISSION_PART), "may_quote_as_official_direct_offer") == Some(Bool(true))
    ensures Get(Some(PricePart(vals)), "exact") == Some(Bool(true))
  {
    var members := PricePart(vals).members;
    assert members[4].key == "exact";
    Lookup(PRICE_MARKS, members, 4);
  }

  function BookingUrl(B: Browser, host: string, vals: StayForm): string {
    "https://" + host + BookingPath(B, vals)
  }

  lemma BookingReads(B: Browser, host: string, vals: StayForm)
    ensures Get(Some(BookingPart(B, host, vals)), "direct_booking_url") == Some(Str(BookingUrl(B, host, vals)))
  {
  }

  function StayOf(vals: StayForm): StayRequest {
    StayRequest(Some(Str(vals.checkIn)), Some(Str(vals.checkOut)), Some(Num(vals.guests as real)), None)
  }

  function GoodOffer(host: string, bookingUrl: string, generatedAt: string, validUntil: string, stay: StayRequest)
    : Offer
  {
    Offer(Some(Str("verified_stay_offer")), Some(Str("0.1")), Some(Str(host)), true, Some(Str(bookingUrl)),
          Some(Str(validUntil)), Some(Str(generatedAt)), Some(stay), Some(Bool(true)),
          Some(Bool(true)), Some(Bool(true)))
  }

  lemma {:induction false} OfferOfParts(o: Json, host: string, generatedAt: string, validUntil: string, request: Json,
                                        availability: Json, price: Json, booking: Json, permission: Json)
    requires SaysOffer(o, host, generatedAt, validUntil, request, availability, price, booking, permission)
          && Complete(o)
    requires request.Obj? && booking.Obj? && AsString(Get(Some(booking), "direct_booking_url")).Some?
    requires Get(Some(availability), "available") == Some(Bool(true))
    requires Get(Some(price), "exact") == Some(Bool(true))
    requires Get(Some(permission), "may_quote_as_official_direct_offer") == Some(Bool(true))
    ensures OfferOf(o) ==
            GoodOffer(host, AsString(Get(Some(booking), "direct_booking_url")).value, generatedAt, validUntil,
                      RequestOf(Some(request)))
  {
  }

  lemma {:induction false} OfferOfMembers(host: string, generatedAt: string, validUntil: string, request: Json,
                                          property: Json, availability: Json, price: Json, booking: Json,
                                          permission: Json, authority: Json)
    requires request.Obj? && booking.Obj? && AsString(Get(Some(booking), "direct_booking_url")).Some?
    requires Get(Some(availability), "available") == Some(Bool(true))
    requires Get(Some(price), "exact") == Some(Bool(true))
    requires Get(Some(permission), "may_quote_as_official_direct_offer") == Some(Bool(true))
    ensures OfferOf(Obj(OfferMembers(host, generatedAt, validUntil, request, property, availability, price, booking,
                                     permission, authority)))
            == GoodOffer(host, AsString(Get(Some(booking), "direct_booking_url")).value, generatedAt, validUntil,
                         RequestOf(Some(request)))
  {
    OfferReads(host, generatedAt, validUntil, request, property, availability, price, booking, permission, authority);
    OfferIsComplete(host, generatedAt, validUntil, request, property, availability, price, booking, permission,
                    authority);
    OfferOfParts(Obj(OfferMembers(host, generatedAt, validUntil, request, property, availability, price, booking,
                                  permission, authority)),
                 host, generatedAt, validUntil, request, availability, price, booking, permission);
  }

  /** What the verifier sees of an offer that the signer built. */
  lemma {:induction false} OfferSeen(B: Browser, host: string, vals: StayForm, ga: string, vu: string)
    ensures OfferOf(OfferWith(B, host, vals, ga, vu)) ==
            GoodOffer(host, BookingUrl(B, host, vals), ga, vu, StayOf(vals))
  {
    RequestReads(B, vals);
    FlagsRead(vals);
    BookingReads(B, host, vals);
    OfferOfMembers(host, ga, vu, RequestPart(B, vals), PropertyPart(host, vals), AVAILABILITY_PART, PricePart(vals),
                   BookingPart(B, host, vals), PERMISSION_PART, AUTHORITY_PART);
  }

  // ------------------------------------------------------------- the signature holds

  lemma {:induction false} PartReads(B: Browser, j: Json)
    requires Lawful(B) && Plain(j)
    ensures B.utf8(B.stringify(j)) != []
    ensures JsonFromB64url(B, B64urlFromString(B, B.stringify(j))) == Some(j)
  {
    assert ReadsBack(B, j);
    Base64Url.DecodeOfEncode(B.utf8(B.stringify(j)));
  }

  /** A set whose only key has this kid and this public half. */
  predicate HoldsKey(jwks: Json, kid: string, x: string) {
    var keys := Get(Some(jwks), "keys");
    jwks.Obj? && keys.Some? && keys.value.Arr? && |keys.value.items| == 1 && IsKey(keys.value.items[0], kid, x)
  }

  predicate IsKey(key: Json, kid: string, x: string) {
    var k := Some(key);
    key.Obj? && Get(k, "kid") == Some(Str(kid)) && Get(k, "kty") == Some(Str("OKP"))
    && Get(k, "crv") == Some(Str("Ed25519"))
    && Get(k, "x") == Some(Str(x))
  }

  lemma {:induction false} JwkReads(kid: string, x: string)
    ensures Get(Some(PublicJwk(kid, x)), "kty") == Some(Str("OKP"))
    ensures Get(Some(PublicJwk(kid, x)), "crv") == Some(Str("Ed25519"))
    ensures Get(Some(PublicJwk(kid, x)), "kid") == Some(Str(kid))
    ensures Get(Some(PublicJwk(kid, x)), "x") == Some(Str(x))
  {
    var members := PublicJwk(kid, x).members;
    assert members[0].key == "kty" && members[1].key == "crv" && members[2].key == "kid" && members[6].key == "x";
    Lookup(JWK_MARKS, members, 0);
    Lookup(JWK_MARKS, members, 1);
    Lookup(JWK_MARKS, members, 2);
    Lookup(JWK_MARKS, members, 6);
  }

  lemma {:induction false} JwksHoldsKey(key: KeyState, x: string)
    requires key.jwk == PublicJwk(key.kid, x)
    ensures HoldsKey(JwksFor(key), key.kid, x)
  {
    JwkReads(key.kid, x);
    assert Get(Some(JwksFor(key)), "keys") == Some(Arr([key.jwk]));
  }

  lemma {:induction false} HeaderReads(kid: string)
    ensures Get(Some(HeaderFor(kid)), "alg") == Some(Str("EdDSA")) && Get(Some(HeaderFor(kid)), "kid") == Some(Str(kid))
  {
    var members := HeaderFor(kid).members;
    assert members[0].key == "alg" && members[2].key == "kid";
    Lookup(HEADER_MARKS, members, 0);
    Lookup(HEADER_MARKS, members, 2);
  }

  /** Three parts that read as a header of this kid and a payload. */
  predicate GoodParts(B: Browser, jws: string, parts: seq<string>, header: Json, kid: string, payload: Json) {
    && Trim(jws) == jws && Split(jws, '.') == parts && |parts| == 3
    && parts[0] != "" && parts[1] != "" && parts[2] != "" && kid != ""
    && JsonFromB64url(B, parts[0]) == Some(header) && JsonFromB64url(B, parts[1]) == Some(payload)
    && header.Obj? && Get(Some(header), "alg") == Some(Str("EdDSA")) && Get(Some(header), "kid") == Some(Str(kid))
  }

  predicate GoodSignature(B: Browser, parts: seq<string>, x: string)
    requires |parts| == 3
  {
    var publicKey, signature := B.importKey(Some(Str(x))), Base64Url.Decode(parts[2]);
    publicKey.Some? && signature.Some? && B.verify(publicKey.value, B.utf8(parts[0] + "." + parts[1]), signature.value)
  }

  lemma OnlyKeyIsFound(items: seq<Json>, header: Json, kid: string, x: string)
    requires |items| == 1 && IsKey(items[0], kid, x) && header.Obj? && Get(Some(header), "kid") == Some(Str(kid))
          && kid != ""
    ensures FirstKey(items, kid) == Some(items[0]) && FindNamedKey(items, header) == Some(Some(items[0]))
  {
  }

  lemma {:induction false} VerifierAccepts(B: Browser, jws: string, parts: seq<string>, header: Json, kid: string,
                                           payload: Json, jwks: Json, x: string)
    requires GoodParts(B, jws, parts, header, kid, payload) && GoodSignature(B, parts, x) && HoldsKey(jwks, kid, x)
    ensures VerifyJws(B, jws, Some(jwks)) == Some(Checked(true, kid, payload))
  {
    OnlyKeyIsFound(Get(Some(jwks), "keys").value.items, header, kid, x);
  }

  lemma {:induction false} DecodedAccepted(B: Browser, header: Json, kid: string, message: Bytes, signature: Bytes,
                                           jwks: Json, x: string)
    requires header.Obj? && Get(Some(header), "kid") == Some(Str(kid)) && kid != "" && HoldsKey(jwks, kid, x)
    requires B.importKey(Some(Str(x))).Some? && B.verify(B.importKey(Some(Str(x))).value, message, signature)
    ensures VerifyDecoded(B, Some(header), message, Some(signature), jwks) == Some(true)
  {
    OnlyKeyIsFound(Get(Some(jwks), "keys").value.items, header, kid, x);
  }

  lemma {:induction false} SignerAccepts(B: Browser, jws: string, parts: seq<string>, header: Json, kid: string,
                                         payload: Json, jwks: Json, x: string)
    requires GoodParts(B, jws, parts, header, kid, payload) && GoodSignature(B, parts, x) && HoldsKey(jwks, kid, x)
    ensures SelfVerify(B, jws, jwks) == Some(true)
  {
    DecodedAccepted(B, header, kid, B.utf8(parts[0] + "." + parts[1]), Base64Url.Decode(parts[2]).value, jwks, x);
  }

  /** What `signOffer` makes of any document is verified by the page itself and by the verifier page, under the key of
      the set that is published with it, and the verifier reads the very document that was signed. */
  lemma {:induction false} SignedVerifies(B: Browser, offer: Json, host: string, pair: KeyPair)
    requires Lawful(B) && Works(B, pair) && Plain(offer)
    ensures var key := KeyFor(host, pair);
            && VerifyJws(B, SignOffer(B, offer, key), Some(JwksFor(key))) == Some(Checked(true, key.kid, offer))
            && SelfVerify(B, SignOffer(B, offer, key), JwksFor(key)) == Some(true)
  {
    var key := KeyFor(host, pair);
    var h, p := B.utf8(B.stringify(HeaderFor(key.kid))), B.utf8(B.stringify(offer));
    var input := SigningInput(B, offer, key.kid);
    var s := B.sign(pair.private, B.utf8(input));
    assert SignsFor(B, pair, B.utf8(input));
    HeaderIsPlain(key.kid);
    HeaderReads(key.kid);
    PartReads(B, HeaderFor(key.kid));
    PartReads(B, offer);
    CompactSplits(h, p, s);
    EncodingEdges(h);
    EncodingEdges(p);
    EncodingEdges(s);
    JwksHoldsKey(key, pair.x);
    Base64Url.DecodeOfEncode(s);
    var parts := [Base64Url.Encode(h), Base64Url.Encode(p), Base64Url.Encode(s)];
    VerifierAccepts(B, SignOffer(B, offer, key), parts, HeaderFor(key.kid), key.kid, offer, JwksFor(key), pair.x);
    SignerAccepts(B, SignOffer(B, offer, key), parts, HeaderFor(key.kid), key.kid, offer, JwksFor(key), pair.x);
  }

  // ------------------------------------------------------ what surrounds the signature

  lemma {:induction false} OnNode(B: Browser, host: string, path: string)
    requires Lawful(B) && CanonicalHost(B, host) && path != "" && path[0] == '/'
    ensures IsNodeUrl(B, Some(Str("https://" + host + path)), host)
  {
    assert "https://" + host + path == "https://" + host + "/" + path[1..];
    assert KeepsHost(B, host, path[1..]);
  }

  lemma {:induction false} DiscoveryReads(host: string, jwksUrl: string, endpoint: string)
    ensures DiscoveryOf(Some(Obj(DiscoveryMembers(host, jwksUrl, endpoint)))) ==
            Discovery(Some(Str("vacation-rental-protocol")), Some(Str("0.1")), Some(Str(host)), Some(Str(jwksUrl)),
                      Some(Str(endpoint)))
  {
    var members := DiscoveryMembers(host, jwksUrl, endpoint);
    assert members[0].key == "protocol" && members[1].key == "protocol_version" && members[2].key == "canonical_domain";
    assert members[4].key == "jwks_url" && members[5].key == "verified_stay_offer_endpoint";
    Lookup(DISCOVERY_MARKS, members, 0);
    Lookup(DISCOVERY_MARKS, members, 1);
    Lookup(DISCOVERY_MARKS, members, 2);
    Lookup(DISCOVERY_MARKS, members, 4);
    Lookup(DISCOVERY_MARKS, members, 5);
  }

  /** The discovery document of the signer passes every check of the verifier. */
  lemma {:induction false} DiscoveryIsClean(B: Browser, host: string)
    requires Lawful(B) && CanonicalHost(B, host)
    ensures var d := DiscoveryOf(Some(BuildDiscovery(host)));
            UrlsOk(B, d, host) && forall p :: !DiscoveryProblem(B, d, host, p)
  {
    DiscoveryReads(host, "https://" + host + "/.well-known/jwks.json", "https://" + host + "/api/verified-stay-offer");
    OnNode(B, host, "/.well-known/jwks.json");
    OnNode(B, host, "/api/verified-stay-offer");
  }

  lemma {:induction false} SignatureReads(members: seq<Member>, format: Json, alg: Json, kid: Json, jws: Json)
    requires members == [Member("format", format), Member("alg", alg), Member("kid", kid), Member("jws", jws)]
    ensures Get(Some(Obj(members)), "jws") == Some(jws)
  {
    assert members[3].key == "jws";
    Lookup(SIGNATURE_MARKS, members, 3);
  }

  lemma {:induction false} EnvelopeParts(host: string, offer: Json, key: KeyState, jws: string)
    ensures Get(Some(EnvelopeFor(host, offer, key, jws)), "offer") == Some(offer)
    ensures Get(Get(Some(EnvelopeFor(host, offer, key, jws)), "signature"), "jws") == Some(Str(jws))
  {
    var members := EnvelopeFor(host, offer, key, jws).members;
    assert members[2].key == "offer" && members[3].key == "signature";
    Lookup(ENVELOPE_MARKS, members, 2);
    Lookup(ENVELOPE_MARKS, members, 3);
    SignatureReads(members[3].value.members, Str("jws_compact"), Str("EdDSA"), Str(key.kid), Str(jws));
  }

  lemma {:induction false} EnvelopeReads(host: string, offer: Json, key: KeyState, jws: string)
    requires offer.Obj? && jws != ""
    ensures TokenOf(Some(EnvelopeFor(host, offer, key, jws))) == Some(jws)
    ensures EnvelopeOf(Some(EnvelopeFor(host, offer, key, jws))) == Returned(offer)
  {
    EnvelopeParts(host, offer, key, jws);
  }

  lemma {:induction false} SameAsItself(j: Json)
    requires Plain(j)
    ensures SameJson(j, j)
  {
    PlainIsFormed(j);
    SameJsonIsEquality(j, j);
  }

  // ------------------------------------------------------------- one key, many offers

  predicate Reuses(press: Press, host: string) {
    press.reuse && press.host == host
  }

  lemma {:induction false} KeptWhileReused(kept: Kept, presses: seq<Press>)
    requires forall press :: press in presses ==> Reuses(press, kept.host)
    ensures KeptAfterAll(Some(kept), presses) == Some(kept)
  {
    if presses != [] {
      assert presses[0] in presses;
      KeptWhileReused(kept, presses[1..]);
    }
  }

  /** The page found its own signature good, and the token shown reads as this document under this key set. */
  predicate VerifiesUnder(B: Browser, shown: Shown, jwks: Value, kid: string, offer: Json) {
    && shown.Signed? && shown.verified == Some(true) && TokenOf(shown.docs.envelope).Some?
    && VerifyJws(B, TokenOf(shown.docs.envelope).value, jwks) == Some(Checked(true, kid, offer))
  }

  lemma {:induction false} ShownVerifies(B: Browser, host: string, offer: Json, pair: KeyPair)
    requires Lawful(B) && Works(B, pair) && Plain(offer) && offer.Obj?
    ensures var key := KeyFor(host, pair);
            VerifiesUnder(B, SignedWith(B, host, offer, pair), Some(JwksFor(key)), key.kid, offer)
  {
    var key := KeyFor(host, pair);
    SignedVerifies(B, offer, host, pair);
    EnvelopeReads(host, offer, key, SignOffer(B, offer, key));
  }

  lemma UsedIsOfTheHost(kept: Option<Kept>, press: Press)
    requires UsedIn(kept, press).Some?
    ensures UsedIn(kept, press).value.host == press.host
  {
  }

  lemma SignsWithUsed(B: Browser, kept: Option<Kept>, press: Press)
    requires FourDigitYears(press.now)
    ensures var shown, used := Shows(B, kept, press), UsedIn(kept, press);
            && (shown.Signed? <==> FormAccepted(press.host, press.vals.currency) && used.Some?)
            && (shown.Signed? ==>
                 shown == SignedWith(B, press.host, BuildOfferPayload(B, press.host, press.vals, press.now),
                                     used.value.pair))
  {
  }

  lemma SignedSetIs(B: Browser, host: string, offer: Json, pair: KeyPair)
    ensures var shown := SignedWith(B, host, offer, pair);
            shown.Signed? && shown.docs.jwks == Some(JwksFor(KeyFor(host, pair)))
  {
  }

  /** Whatever the page kept before: what it signs in one press is verified under the key set that it publishes in any
      later one, as long as every press in between and the last use the key of that host again. */
  lemma {:induction false} LaterKeySetVerifies(B: Browser, kept: Option<Kept>, first: Press, between: seq<Press>,
                                               last: Press)
    requires Lawful(B) && FourDigitYears(first.now) && FourDigitYears(last.now)
    requires (forall press :: press in between ==> Reuses(press, first.host)) && Reuses(last, first.host)
    requires FormAccepted(last.host, last.vals.currency) && Shows(B, kept, first).Signed?
    requires forall used :: KeptAfter(kept, first) == Some(used) ==> Works(B, used.pair)
    requires Plain(BuildOfferPayload(B, first.host, first.vals, first.now))
    ensures var later := Shows(B, KeptAfterAll(KeptAfter(kept, first), between), last);
            later.Signed? && VerifiesUnder(B, Shows(B, kept, first), later.docs.jwks, first.host + "-vrp-2026",
                                           BuildOfferPayload(B, first.host, first.vals, first.now))
  {
    SignsWithUsed(B, kept, first);
    UsedIsOfTheHost(kept, first);
    var used := UsedIn(kept, first).value;
    KeptWhileReused(used, between);
    SignsWithUsed(B, Some(used), last);
    SignedSetIs(B, last.host, BuildOfferPayload(B, last.host, last.vals, last.now), used.pair);
    ShownVerifies(B, first.host, BuildOfferPayload(B, first.host, first.vals, first.now), used.pair);
  }

  // ------------------------------------------------------------------ the agreement

  /** A stay that can be booked: both days exist, and departure is after arrival. */
  predicate RealStay(vals: StayForm) {
    DateValue(vals.checkIn).Some? && DateValue(vals.checkOut).Some?
    && DateValue(vals.checkIn).value < DateValue(vals.checkOut).value
  }

  function StayAsked(vals: StayForm): Asked {
    Asked(vals.checkIn, vals.checkOut, vals.guests as real)
  }

  lemma ReadAt(B: Browser, text: string, t: int)
    requires ParseDateTime(B.parseDate, Some(text)) == Some(t)
    ensures InstantAt(B, Some(Str(text))) == Some(t)
  {
  }

  lemma SameMillisecond(now: int)
    ensures SecondStart(now + OFFER_LIFETIME_MS) == SecondStart(now) + OFFER_LIFETIME_MS
  {
  }

  lemma {:induction false} SeenTimes(B: Browser, host: string, vals: StayForm, ga: string, vu: string, g: int, u: int)
    requires ParseDateTime(B.parseDate, Some(ga)) == Some(g) && ParseDateTime(B.parseDate, Some(vu)) == Some(u)
    ensures SignedAs(B, OfferWith(B, host, vals, ga, vu), g, u)
  {
    OfferSeen(B, host, vals, ga, vu);
    ReadAt(B, ga, g);
    ReadAt(B, vu, u);
  }

  /** The times that the verifier reads in an offer. */
  predicate SignedAs(B: Browser, offer: Json, generated: int, until: int) {
    InstantAt(B, OfferOf(offer).generatedAt) == Some(generated)
    && InstantAt(B, OfferOf(offer).validUntil) == Some(until)
  }

  /** The signed lifetime of every offer is exactly 600 s, although both ends lose their milliseconds. */
  lemma {:induction false} SignedLifetime(B: Browser, host: string, vals: StayForm, now: int)
    requires Lawful(B) && FourDigitYears(now)
    ensures SignedAs(B, BuildOfferPayload(B, host, vals, now), SecondStart(now), SecondStart(now) + 600 * 1000)
  {
    SecondTextReadsBack(B.parseDate, now);
    SecondTextReadsBack(B.parseDate, now + OFFER_LIFETIME_MS);
    SameMillisecond(now);
    SeenTimes(B, host, vals, SecondText(now), SecondText(now + OFFER_LIFETIME_MS), SecondStart(now),
              SecondStart(now + OFFER_LIFETIME_MS));
  }

  /** From 60 s before the second of signing until 600 s after it, unless the day after arrival is over before. */
  predicate InSignedWindow(vals: StayForm, now: int, t: Clock)
    requires RealStay(vals)
  {
    InWindow(SecondStart(now), SecondStart(now) + OFFER_LIFETIME_MS, DateValue(vals.checkIn).value, t)
  }

  lemma TimelesslyGoodParts(B: Browser, c: Context, generated: int, until: int)
    requires c.ok && c.problems == [] && RightSource(B, c) && HasShape(c.offer) && MayBeQuoted(c.offer)
    requires InstantAt(B, c.offer.generatedAt) == Some(generated) && InstantAt(B, c.offer.validUntil) == Some(until)
    requires LifetimeOk(generated, Some(until))
    requires c.offer.request.Some? && c.asked.Some? && GoodStay(c.offer.request.value, c.asked.value)
    ensures TimelesslyGood(B, c)
  {
  }

  lemma {:induction false} WindowOf(B: Browser, c: Context, generated: int, until: int, arrival: int)
    requires TimelesslyGood(B, c)
    requires InstantAt(B, c.offer.generatedAt) == Some(generated) && InstantAt(B, c.offer.validUntil) == Some(until)
    requires DateOf(CheckIn(c.offer)) == Some(arrival)
    ensures Judge(B, c) == Pass <==> InWindow(generated, until, arrival, c.now)
  {
    QuotableExactly(B, c);
  }

  lemma RightlySourced(B: Browser, c: Context, host: string, bookingUrl: string, ga: string, vu: string,
                       stay: StayRequest)
    requires c.own == PublicSuffix.Pass && c.host == Some(host)
    requires c.envelope == Returned(c.payload) && SameJson(c.payload, c.payload)
    requires c.offer == GoodOffer(host, bookingUrl, ga, vu, stay)
    requires bookingUrl != "" && IsNodeUrl(B, Some(Str(bookingUrl)), host)
    ensures RightSource(B, c) && HasShape(c.offer) && MayBeQuoted(c.offer)
  {
  }

  lemma RealStayIsGood(vals: StayForm)
    requires RealStay(vals)
    ensures GoodStay(StayOf(vals), StayAsked(vals)) && DateOf(StayOf(vals).checkIn) == DateValue(vals.checkIn)
  {
  }

  /** The verdict on a good offer whose fields are known. */
  lemma {:induction false} GoodOfferPasses(B: Browser, c: Context, host: string, bookingUrl: string, ga: string,
                                           vu: string, vals: StayForm, now: int)
    requires c.ok && c.problems == [] && c.own == PublicSuffix.Pass && c.host == Some(host)
    requires c.asked == Some(StayAsked(vals)) && RealStay(vals)
    requires c.envelope == Returned(c.payload) && SameJson(c.payload, c.payload)
    requires c.offer == GoodOffer(host, bookingUrl, ga, vu, StayOf(vals))
    requires bookingUrl != "" && IsNodeUrl(B, Some(Str(bookingUrl)), host)
    requires InstantAt(B, Some(Str(ga))) == Some(SecondStart(now))
    requires InstantAt(B, Some(Str(vu))) == Some(SecondStart(now) + OFFER_LIFETIME_MS)
    ensures Judge(B, c) == Pass <==> InSignedWindow(vals, now, c.now)
  {
    RightlySourced(B, c, host, bookingUrl, ga, vu, StayOf(vals));
    RealStayIsGood(vals);
    TimelesslyGoodParts(B, c, SecondStart(now), SecondStart(now) + OFFER_LIFETIME_MS);
    WindowOf(B, c, SecondStart(now), SecondStart(now) + OFFER_LIFETIME_MS, DateValue(vals.checkIn).value);
  }

  /** Documents in good order are judged by their signed payload. */
  lemma {:induction false} LiveIsJudged(B: Browser, host: string, docs: Fetched, lists: Option<PublicSuffix.Lists>,
                                        asked: Asked, t: Clock, jws: string, kid: string, payload: Json)
    requires var d := DiscoveryOf(docs.discovery); UrlsOk(B, d, host) && forall p :: !DiscoveryProblem(B, d, host, p)
    requires TokenOf(docs.envelope) == Some(jws) && payload.Obj?
    requires VerifyJws(B, jws, docs.jwks) == Some(Checked(true, kid, payload))
    ensures LiveVerdict(B, host, docs, lists, asked, t)
         == Judge(B, LiveContext(Checked(true, kid, payload), host, docs, lists, asked, t))
  {
  }

  lemma {:induction false} SignedIsJudged(B: Browser, host: string, offer: Json, pair: KeyPair,
                                          lists: Option<PublicSuffix.Lists>, asked: Asked, t: Clock)
    requires Lawful(B) && Works(B, pair) && CanonicalHost(B, host) && Plain(offer) && offer.Obj?
    ensures var (key, docs) := (KeyFor(host, pair), Published(B, host, offer, pair));
            var c := LiveContext(Checked(true, key.kid, offer), host, docs, lists, asked, t);
            LiveVerdict(B, host, docs, lists, asked, t) == Judge(B, c) && c.envelope == Returned(offer)
  {
    var key := KeyFor(host, pair);
    var jws := SignOffer(B, offer, key);
    SignedVerifies(B, offer, host, pair);
    DiscoveryIsClean(B, host);
    EnvelopeReads(host, offer, key, jws);
    LiveIsJudged(B, host, Published(B, host, offer, pair), lists, asked, t, jws, key.kid, offer);
  }

  lemma {:induction false} ContextPasses(B: Browser, host: string, vals: StayForm, ga: string, vu: string, now: int,
                                         c: Context)
    requires Lawful(B) && CanonicalHost(B, host) && RealStay(vals) && Plain(c.payload)
    requires InstantAt(B, Some(Str(ga))) == Some(SecondStart(now))
    requires InstantAt(B, Some(Str(vu))) == Some(SecondStart(now) + OFFER_LIFETIME_MS)
    requires c.ok && c.problems == [] && c.own == PublicSuffix.Pass && c.host == Some(host)
          && c.asked == Some(StayAsked(vals))
    requires c.payload == OfferWith(B, host, vals, ga, vu) && c.envelope == Returned(c.payload)
          && c.offer == OfferOf(c.payload)
    ensures Judge(B, c) == Pass <==> InSignedWindow(vals, now, c.now)
  {
    SameAsItself(c.payload);
    OfferSeen(B, host, vals, ga, vu);
    OnNode(B, host, BookingPath(B, vals));
    GoodOfferPasses(B, c, host, BookingUrl(B, host, vals), ga, vu, vals, now);
  }

  lemma {:induction false} SignedOfferJudged(B: Browser, host: string, vals: StayForm, pair: KeyPair,
                                             lists: Option<PublicSuffix.Lists>, ga: string, vu: string, now: int,
                                             t: Clock)
    requires Lawful(B) && Works(B, pair) && CanonicalHost(B, host)
    requires PublicSuffix.OwnedState(host, lists) == PublicSuffix.Pass && RealStay(vals)
    requires Plain(OfferWith(B, host, vals, ga, vu))
    requires InstantAt(B, Some(Str(ga))) == Some(SecondStart(now))
    requires InstantAt(B, Some(Str(vu))) == Some(SecondStart(now) + OFFER_LIFETIME_MS)
    ensures var docs := Published(B, host, OfferWith(B, host, vals, ga, vu), pair);
            LiveVerdict(B, host, docs, lists, StayAsked(vals), t) == Pass <==> InSignedWindow(vals, now, t)
  {
    var offer := OfferWith(B, host, vals, ga, vu);
    SignedIsJudged(B, host, offer, pair, lists, StayAsked(vals), t);
    var docs := Published(B, host, offer, pair);
    var c := LiveContext(Checked(true, KeyFor(host, pair).kid, offer), host, docs, lists, StayAsked(vals), t);
    ContextPasses(B, host, vals, ga, vu, now, c);
  }

  // The stay has no more nights than a double can count.

  lemma {:induction false} YearsAreFew(y: int)
    requires 0 <= y <= 10000
    ensures -1_000_000 <= DayFromYear(y) <= 4_000_000
  {
  }

  lemma {:induction false} DatesAreFew(s: string)
    requires DateValue(s).Some?
    ensures -1_000_000 * MS_PER_DAY <= DateValue(s).value <= 4_000_000 * MS_PER_DAY
  {
    var c := DateFields(s);
    Powers();
    YearsAreFew(c.year);
    YearsAreFew(c.year + 1);
    DayNumberInYear(c);
  }

  lemma RoundsToFew(span: int)
    requires 0 < span <= 5_000_000 * MS_PER_DAY
    ensures 0 <= Round(span as real / MS_PER_DAY as real) <= 5_000_001
  {
    assert 0.0 <= span as real / MS_PER_DAY as real <= 5_000_000.0;
  }

  lemma {:induction false} NightsAreHeld(B: Browser, vals: StayForm)
    requires Lawful(B) && RealStay(vals)
    ensures DoubleHolds(Nights(B, vals), 971)
  {
    assert ParsesText(B.parseDate, vals.checkIn) && ParsesText(B.parseDate, vals.checkOut);
    DatesAreFew(vals.checkIn);
    DatesAreFew(vals.checkOut);
    RoundsToFew(DateValue(vals.checkOut).value - DateValue(vals.checkIn).value);
  }

  /** For every host-owned domain, every real stay and any number of guests and any price that a number can be: what the
      signer publishes for it gets the verdict Pass from the verifier, asked for the same stay, at exactly the instants
      of that window. */
  lemma {:induction false} SignedOfferPasses(B: Browser, host: string, vals: StayForm, pair: KeyPair,
                                             lists: Option<PublicSuffix.Lists>, now: int, t: Clock)
    requires Lawful(B) && Works(B, pair) && CanonicalHost(B, host)
    requires PublicSuffix.OwnedState(host, lists) == PublicSuffix.Pass
    requires RealStay(vals) && FourDigitYears(now)
    requires DoubleHolds(vals.guests, 971) && DoubleHolds(Total(vals), 971)
    ensures var docs := Published(B, host, BuildOfferPayload(B, host, vals, now), pair);
            LiveVerdict(B, host, docs, lists, StayAsked(vals), t) == Pass <==> InSignedWindow(vals, now, t)
  {
    SecondTextReadsBack(B.parseDate, now);
    SecondTextReadsBack(B.parseDate, now + OFFER_LIFETIME_MS);
    SameMillisecond(now);
    var ga, vu := SecondText(now), SecondText(now + OFFER_LIFETIME_MS);
    ReadAt(B, ga, SecondStart(now));
    ReadAt(B, vu, SecondStart(now + OFFER_LIFETIME_MS));
    NightsAreHeld(B, vals);
    OfferIsPlain(B, host, vals, ga, vu);
    SignedOfferJudged(B, host, vals, pair, lists, ga, vu, now, t);
  }
}
