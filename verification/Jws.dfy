/** Compact JWS verification against a key set (lib/vrp-jws.mjs): the key is one whose
    kid the header names. */
module Jws {
  import opened Wrappers
  import opened Documents
  import opened Merkle
  import opened Sequences
  import opened Strings

  /** The calls into code that is not the repository's. Nothing is assumed about them here. */
  datatype Platform = Platform(
    decode64: string -> Bytes,              // Buffer.from(padded, "base64")
    text: Bytes -> string,                  // bytes as UTF-8 text
    utf8: string -> Bytes,                  // text as UTF-8 bytes
    parse: string -> Option<Json>,          // JSON.parse; None where it throws
    show: Json -> string,                   // String(value)
    number: string -> JsNumber,             // Number(text)
    below: (string, string) -> bool,        // `<` on two texts
    decodeUri: string -> Option<string>,    // decodeURIComponent; None where it throws
    lower: string -> string,                // toLowerCase
    hex: Bytes -> string,
    importKey: Json -> Option<Bytes>,       // an Ed25519 public key; None where it throws
    verify: (Bytes, Bytes, Bytes) -> bool)  // key, message, signature

  datatype JwsError =
    | NotCompact
    | BadPart
    | UnsupportedAlg(alg: string)
    | NoKid
    | NoMatchingKey
    | BadKey
    | BadSignature

  datatype Verified = Verified(header: Json, payload: Json, kid: string)

  /** `parseBase64urlJson` */
  function ParsePart(P: Platform, part: string): Option<Json> {
    var v := P.parse(P.text(P.decode64(part)));
    if v.Some? && v.value.Obj? then v else None
  }

  function StringValue(v: Value): Option<string> {
    if v.Some? && v.value.Str? && Trim(v.value.s) != "" then Some(Trim(v.value.s)) else None
  }

  function KeysOf(jwks: Json): seq<Json> {
    var v := Get(Some(jwks), "keys");
    if v.Some? && v.value.Arr? then v.value.items else []
  }

  function KeySet(keys: seq<Json>): (jwks: Json)
    ensures KeysOf(jwks) == keys
  {
    Obj([Member("keys", Arr(keys))])
  }

  predicate IsCandidate(key: Json, kid: string) {
    key.Obj? && Get(Some(key), "kty") == Some(Str("OKP")) && Get(Some(key), "crv") == Some(Str("Ed25519"))
    && Get(Some(key), "kid") == Some(Str(kid))
  }

  function CandidateTest(kid: string): Json -> bool {
    key => IsCandidate(key, kid)
  }

  function Candidates(keys: seq<Json>, kid: string): seq<Json> {
    Filter(keys, CandidateTest(kid))
  }

  /** The loop over the candidates; the first key that does not import ends it. */
  function TryKeys(P: Platform, candidates: seq<Json>, message: Bytes, signature: Bytes): Option<JwsError> {
    if candidates == [] then Some(BadSignature)
    else
      var key := P.importKey(candidates[0]);
      if key.None? then Some(BadKey)
      else if P.verify(key.value, message, signature) then None
      else TryKeys(P, candidates[1..], message, signature)
  }

  /** What a token asks for before any key is looked at. */
  datatype Request = Request(header: Json, payload: Json, kid: string, message: Bytes, signature: Bytes)

  function ReadToken(P: Platform, jws: string): Result<Request, JwsError> {
    var parts := Split(jws, '.');
    if |parts| != 3 then Err(NotCompact)
    else
      var header, payload := ParsePart(P, parts[0]), ParsePart(P, parts[1]);
      if header.None? || payload.None? then Err(BadPart)
      else
        var alg := Get(header, "alg");
        if alg != Some(Str("EdDSA")) then
          Err(UnsupportedAlg(if alg.Some? then P.show(alg.value) else "undefined"))
        else
          var kid := StringValue(Get(header, "kid"));
          if kid.None? then Err(NoKid)
          else Ok(Request(header.value, payload.value, kid.value,
                          P.utf8(parts[0] + "." + parts[1]), P.decode64(parts[2])))
  }

  function VerifyCompactJws(P: Platform, jws: string, jwks: Json): Result<Verified, JwsError> {
    var token := ReadToken(P, jws);
    if token.Err? then Err(token.error)
    else
      var t := token.value;
      var candidates := Candidates(KeysOf(jwks), t.kid);
      if candidates == [] then Err(NoMatchingKey)
      else
        var failure := TryKeys(P, candidates, t.message, t.signature);
        if failure.Some? then Err(failure.value) else Ok(Verified(t.header, t.payload, t.kid))
  }

  // ------------------------------------------------------- what is accepted

  predicate Verifies(P: Platform, key: Json, t: Request) {
    P.importKey(key).Some? && P.verify(P.importKey(key).value, t.message, t.signature)
  }

  lemma {:induction false} TryKeysFinds(P: Platform, candidates: seq<Json>, t: Request)
    ensures TryKeys(P, candidates, t.message, t.signature).None? <==>
              exists i :: 0 <= i < |candidates| && Verifies(P, candidates[i], t)
                       && forall j :: 0 <= j < i ==> P.importKey(candidates[j]).Some?
  {
    if candidates != [] {
      var rest := candidates[1..];
      TryKeysFinds(P, rest, t);
      if TryKeys(P, rest, t.message, t.signature).None? && P.importKey(candidates[0]).Some? {
        var i :| 0 <= i < |rest| && Verifies(P, rest[i], t) && forall j :: 0 <= j < i ==> P.importKey(rest[j]).Some?;
        assert Verifies(P, candidates[i + 1], t);
        forall j | 0 <= j < i + 1 ensures P.importKey(candidates[j]).Some? {
          assert j > 0 ==> candidates[j] == rest[j - 1];
        }
      }
      if i :| 0 <= i < |candidates| && Verifies(P, candidates[i], t)
              && forall j :: 0 <= j < i ==> P.importKey(candidates[j]).Some? {
        if i > 0 {
          assert P.importKey(candidates[0]).Some?;
          assert Verifies(P, rest[i - 1], t);
          forall j | 0 <= j < i - 1 ensures P.importKey(rest[j]).Some? {
            assert rest[j] == candidates[j + 1];
          }
        }
      }
    }
  }

  predicate WellFormedKeys(P: Platform, jwks: Json, kid: string) {
    forall key :: key in KeysOf(jwks) && IsCandidate(key, kid) ==> P.importKey(key).Some?
  }

  /** Some key of the set carries the token's kid and verifies it. */
  ghost predicate HasVerifyingKey(P: Platform, jwks: Json, t: Request) {
    exists key :: key in KeysOf(jwks) && IsCandidate(key, t.kid) && Verifies(P, key, t)
  }

  /** An accepted token is verified by a key in the set that carries its own kid; where every
      such key imports, that is all it takes. */
  lemma {:induction false} AcceptedByItsKey(P: Platform, jws: string, jwks: Json)
    requires ReadToken(P, jws).Ok?
    ensures VerifyCompactJws(P, jws, jwks).Ok? ==> HasVerifyingKey(P, jwks, ReadToken(P, jws).value)
    ensures WellFormedKeys(P, jwks, ReadToken(P, jws).value.kid) ==>
              (VerifyCompactJws(P, jws, jwks).Ok? <==> HasVerifyingKey(P, jwks, ReadToken(P, jws).value))
  {
    var t := ReadToken(P, jws).value;
    var keys := KeysOf(jwks);
    var c := Candidates(keys, t.kid);
    TryKeysFinds(P, c, t);
    forall key ensures key in c <==> key in keys && IsCandidate(key, t.kid) {
      FilterHolds(keys, CandidateTest(t.kid), key);
    }
    if i :| 0 <= i < |c| && Verifies(P, c[i], t) {
      assert c[i] in c;
    }
    if WellFormedKeys(P, jwks, t.kid) && HasVerifyingKey(P, jwks, t) {
      var key :| key in keys && IsCandidate(key, t.kid) && Verifies(P, key, t);
      var i :| 0 <= i < |c| && c[i] == key;
      forall j | 0 <= j < i ensures P.importKey(c[j]).Some? {
        assert c[j] in c;
      }
    }
  }

  /** The order of keys that import does not matter. */
  lemma {:induction false} OrderDoesNotMatter(P: Platform, jws: string, a: Json, b: Json)
    requires multiset(KeysOf(a)) == multiset(KeysOf(b))
    requires ReadToken(P, jws).Ok? ==> WellFormedKeys(P, a, ReadToken(P, jws).value.kid)
    ensures VerifyCompactJws(P, jws, a).Ok? <==> VerifyCompactJws(P, jws, b).Ok?
  {
    if ReadToken(P, jws).Ok? {
      forall key ensures key in KeysOf(a) <==> key in KeysOf(b) {
        assert key in KeysOf(a) <==> key in multiset(KeysOf(a));
        assert key in KeysOf(b) <==> key in multiset(KeysOf(b));
      }
      AcceptedByItsKey(P, jws, a);
      AcceptedByItsKey(P, jws, b);
    }
  }

  /** The first candidate decides: one that does not import hides whatever good keys stand behind it. */
  lemma {:induction false} FirstDecides(P: Platform, jws: string, key: Json, rest: seq<Json>)
    requires ReadToken(P, jws).Ok? && IsCandidate(key, ReadToken(P, jws).value.kid)
    ensures P.importKey(key).None? ==> VerifyCompactJws(P, jws, KeySet([key] + rest)) == Err(BadKey)
    ensures Verifies(P, key, ReadToken(P, jws).value) ==> VerifyCompactJws(P, jws, KeySet([key] + rest)).Ok?
  {
    var p := CandidateTest(ReadToken(P, jws).value.kid);
    FilterStep(key, rest, p);
    assert Filter([key] + rest, p)[0] == key;
  }

  lemma {:induction false} MovedKeyDecides(P: Platform, jws: string, keys: seq<Json>, i: nat)
    requires ReadToken(P, jws).Ok? && i < |keys| && IsCandidate(keys[i], ReadToken(P, jws).value.kid)
    ensures P.importKey(keys[i]).None? ==> VerifyCompactJws(P, jws, KeySet(MovedFirst(keys, i))).Err?
    ensures Verifies(P, keys[i], ReadToken(P, jws).value) ==> VerifyCompactJws(P, jws, KeySet(MovedFirst(keys, i))).Ok?
  {
    FirstDecides(P, jws, keys[i], keys[..i] + keys[i + 1..]);
  }

  predicate SameOutcome(P: Platform, jws: string, a: seq<Json>, b: seq<Json>) {
    VerifyCompactJws(P, jws, KeySet(a)).Ok? <==> VerifyCompactJws(P, jws, KeySet(b)).Ok?
  }

  lemma {:induction false} ReorderedWithoutKey(P: Platform, jws: string, a: seq<Json>, b: seq<Json>)
    requires multiset(a) == multiset(b) && ReadToken(P, jws).Ok?
          && !HasVerifyingKey(P, KeySet(a), ReadToken(P, jws).value)
    ensures !VerifyCompactJws(P, jws, KeySet(b)).Ok?
  {
    AcceptedByItsKey(P, jws, KeySet(b));
    forall key | key in b ensures key in a {
      assert key in multiset(b);
    }
  }

  /** Every reordering of the keys accepts or refuses a token alike exactly when all keys under its kid import, or none
      of them verifies it. */
  lemma {:induction false} OrderMattersExactly(P: Platform, jws: string, keys: seq<Json>)
    requires ReadToken(P, jws).Ok?
    ensures (forall other :: multiset(other) == multiset(keys) ==> SameOutcome(P, jws, other, keys))
       <==> WellFormedKeys(P, KeySet(keys), ReadToken(P, jws).value.kid)
            || !HasVerifyingKey(P, KeySet(keys), ReadToken(P, jws).value)
  {
    var t := ReadToken(P, jws).value;
    if WellFormedKeys(P, KeySet(keys), t.kid) || !HasVerifyingKey(P, KeySet(keys), t) {
      forall other | multiset(other) == multiset(keys) ensures SameOutcome(P, jws, other, keys) {
        if WellFormedKeys(P, KeySet(keys), t.kid) {
          OrderDoesNotMatter(P, jws, KeySet(keys), KeySet(other));
        } else {
          ReorderedWithoutKey(P, jws, keys, other);
          ReorderedWithoutKey(P, jws, keys, keys);
        }
      }
    } else {
      var bad :| bad in keys && IsCandidate(bad, t.kid) && P.importKey(bad).None?;
      var good :| good in keys && IsCandidate(good, t.kid) && Verifies(P, good, t);
      var i :| 0 <= i < |keys| && keys[i] == bad;
      var j :| 0 <= j < |keys| && keys[j] == good;
      MovedKeyDecides(P, jws, keys, i);
      MovedKeyDecides(P, jws, keys, j);
      assert !SameOutcome(P, jws, MovedFirst(keys, i), keys) || !SameOutcome(P, jws, MovedFirst(keys, j), keys);
    }
  }

  // --------------------------------------------------------- rotating keys

  /** Changes to a published key set. */
  datatype Change = Insert(at: nat, key: Json) | Delete(at: nat)

  function Change1(keys: seq<Json>, c: Change): seq<Json> {
    match c
    case Insert(at, key) => if at <= |keys| then keys[..at] + [key] + keys[at..] else keys
    case Delete(at) => if at < |keys| then keys[..at] + keys[at + 1..] else keys
  }

  function Evolve(keys: seq<Json>, changes: seq<Change>): seq<Json>
    decreases |changes|
  {
    if changes == [] then keys else Evolve(Change1(keys, changes[0]), changes[1..])
  }

  /** No change adds or removes a key that carries this kid. */
  predicate Spares(keys: seq<Json>, changes: seq<Change>, kid: string)
    decreases |changes|
  {
    changes == [] ||
    ((match changes[0]
      case Insert(_, key) => !IsCandidate(key, kid)
      case Delete(at) => at < |keys| ==> !IsCandidate(keys[at], kid))
     && Spares(Change1(keys, changes[0]), changes[1..], kid))
  }

  lemma {:induction false} SparedByOne(keys: seq<Json>, c: Change, kid: string)
    requires Spares(keys, [c], kid)
    ensures Candidates(Change1(keys, c), kid) == Candidates(keys, kid)
  {
    match c {
      case Insert(at, key) =>
        if at <= |keys| {
          FilterSkips(keys[..at], key, keys[at..], CandidateTest(kid));
          assert keys == keys[..at] + keys[at..];
        }
      case Delete(at) =>
        if at < |keys| {
          FilterSkips(keys[..at], keys[at], keys[at + 1..], CandidateTest(kid));
          assert keys == keys[..at] + [keys[at]] + keys[at + 1..];
        }
    }
  }

  lemma {:induction false} SparedCandidates(keys: seq<Json>, changes: seq<Change>, kid: string)
    requires Spares(keys, changes, kid)
    ensures Candidates(Evolve(keys, changes), kid) == Candidates(keys, kid)
    decreases |changes|
  {
    if changes != [] {
      assert Spares(keys, [changes[0]], kid);
      SparedByOne(keys, changes[0], kid);
      SparedCandidates(Change1(keys, changes[0]), changes[1..], kid);
    }
  }

  /** Any history of changes to keys with other kids leaves the outcome of a token as it was. */
  lemma {:induction false} OtherKeysDoNotMatter(P: Platform, jws: string, keys: seq<Json>, changes: seq<Change>)
    requires ReadToken(P, jws).Ok? ==> Spares(keys, changes, ReadToken(P, jws).value.kid)
    ensures VerifyCompactJws(P, jws, KeySet(Evolve(keys, changes))) == VerifyCompactJws(P, jws, KeySet(keys))
  {
    if ReadToken(P, jws).Ok? {
      SparedCandidates(keys, changes, ReadToken(P, jws).value.kid);
    }
  }

  /** Once no key carries its kid, a token is refused for want of a key, whoever signed it. */
  lemma {:induction false} RevokedIsRefused(P: Platform, jws: string, jwks: Json)
    requires ReadToken(P, jws).Ok?
    ensures (forall key :: key in KeysOf(jwks) ==> !IsCandidate(key, ReadToken(P, jws).value.kid))
       <==> VerifyCompactJws(P, jws, jwks) == Err(NoMatchingKey)
  {
    var t := ReadToken(P, jws).value;
    var c := Candidates(KeysOf(jwks), t.kid);
    forall key ensures key in c <==> key in KeysOf(jwks) && IsCandidate(key, t.kid) {
      FilterHolds(KeysOf(jwks), CandidateTest(t.kid), key);
    }
    if c != [] {
      assert c[0] in c;
      TryKeysErrors(P, c, t.message, t.signature);
    }
  }

  lemma TryKeysErrors(P: Platform, candidates: seq<Json>, message: Bytes, signature: Bytes)
    ensures TryKeys(P, candidates, message, signature) in {None, Some(BadKey), Some(BadSignature)}
  {
  }
}
