/** Signed tree heads, anchoring and append-only audits (lib/vrp-tlog.mjs): what turns
    the hash arithmetic into statements about a log. */
module TreeHeads {
  import opened Wrappers
  import opened Documents
  import opened Strings
  import opened Merkle
  import opened Inclusion
  import opened Consistency
  import opened Jws

  /** `String(v || "")` */
  function TextOf(P: Platform, v: Value): string {
    if !Truthy(v) then "" else if v.value.Str? then v.value.s else P.show(v.value)
  }

  /** `b64urlDecode` */
  function Decode(P: Platform, v: Value): Bytes {
    P.decode64(TextOf(P, v))
  }

  function DecodeAll(P: Platform, v: Value): (r: seq<Bytes>)
    ensures |r| == if v.Some? && v.value.Arr? then |v.value.items| else 0
  {
    if v.Some? && v.value.Arr? then
      seq(|v.value.items|, i requires 0 <= i < |v.value.items| => Decode(P, Some(v.value.items[i])))
    else []
  }

  /** `didWebHost`: the host of a did:web identifier, "" for any other text; None where
      decodeURIComponent throws. */
  function DidWebHost(P: Platform, did: Value): Option<string> {
    var s := Trim(TextOf(P, did));
    var host := Until(DropPrefix(s, "did:web:"), ":#?");
    if "did:web:" <= s && host != "" then
      var decoded := P.decodeUri(host);
      if decoded.None? then None else Some(P.lower(decoded.value))
    else Some("")
  }

  // ------------------------------------------------------ the operator's keys

  /** A verification method's key as the log reads it; None for a method it skips. */
  function MethodKey(vm: Json): Option<Json> {
    var jwk := Get(Some(vm), "publicKeyJwk");
    var x := Get(jwk, "x");
    if Get(jwk, "kty") == Some(Str("OKP")) && Get(jwk, "crv") == Some(Str("Ed25519")) && x.Some? && x.value.Str? then
      var id := Get(Some(vm), "id");
      var kid := if Truthy(Get(jwk, "kid")) then Get(jwk, "kid")
                 else if id.Some? && id.value.Str? && '#' in id.value.s
                 then Some(Str(After(id.value.s, '#'))) else None;
      Some(Obj([Member("kty", Str("OKP")), Member("crv", Str("Ed25519")), Member("x", x.value)]
               + if kid.Some? then [Member("kid", kid.value)] else []))
    else None
  }

  function MethodKeys(methods: seq<Json>): seq<Json> {
    if methods == [] then []
    else
      var rest := MethodKeys(methods[..|methods| - 1]);
      var key := MethodKey(methods[|methods| - 1]);
      if key.Some? then rest + [key.value] else rest
  }

  function MethodsOf(did: Value): seq<Json> {
    var methods := Get(did, "verificationMethod");
    if methods.Some? && methods.value.Arr? then methods.value.items else []
  }

  /** `jwksFromDidDocument` */
  function OperatorKeys(did: Value): Json {
    KeySet(MethodKeys(MethodsOf(did)))
  }

  /** The key set is that of the document's verification methods: no key that is not one's, and none left out. */
  lemma {:induction false} KeysAreOfMethods(methods: seq<Json>, key: Json)
    ensures key in MethodKeys(methods) <==> exists i :: 0 <= i < |methods| && MethodKey(methods[i]) == Some(key)
  {
    if methods != [] {
      var front, last := methods[..|methods| - 1], methods[|methods| - 1];
      KeysAreOfMethods(front, key);
      if i :| 0 <= i < |methods| && MethodKey(methods[i]) == Some(key) {
        assert i < |front| ==> front[i] == methods[i];
      }
      if i :| 0 <= i < |front| && MethodKey(front[i]) == Some(key) {
        assert methods[i] == front[i];
      }
    }
  }

  method JwksFromDidDocument(did: Value) returns (jwks: Json)
    ensures jwks == OperatorKeys(did)
  {
    var methods := MethodsOf(did);
    var keys: seq<Json> := [];
    for i := 0 to |methods|
      invariant keys == MethodKeys(methods[..i])
    {
      assert methods[..i + 1][..i] == methods[..i];
      var key := MethodKey(methods[i]);
      if key.None? {
        continue;
      }
      keys := keys + [key.value];
    }
    assert methods[..|methods|] == methods;
    return KeySet(keys);
  }

  // ------------------------------------------------------- signed tree heads

  /** The fields of a tree head; a field that is absent is None. */
  datatype TreeHead = TreeHead(logId: Value, treeSize: Value, rootHash: Value, timestamp: Value)

  /** `{ signed_tree_head, signature: { jws } }`; no head where the document holds no object for it. */
  datatype SignedHead = SignedHead(head: Option<TreeHead>, jws: Value)

  function HeadOf(payload: Json): TreeHead {
    var p := Some(payload);
    TreeHead(Get(p, "log_id"), Get(p, "tree_size"), Get(p, "root_hash"), Get(p, "timestamp"))
  }

  predicate SameFields(a: TreeHead, b: TreeHead) {
    && StrictlyEqual(a.logId, b.logId)
    && StrictlyEqual(a.treeSize, b.treeSize)
    && StrictlyEqual(a.rootHash, b.rootHash)
    && StrictlyEqual(a.timestamp, b.timestamp)
  }

  datatype Reason =
    | SthValid | SthUnsigned | SthKeyNotPublished | SthSignatureInvalid | SthPayloadMismatch
    | NoArtifact | NoInclusionProof | LogIdNotDidWeb | LogOperatedByIssuer | InclusionProofInvalid | Anchored
    | First(of: Reason) | Second(of: Reason) | LogIdMismatch | SizesMismatch | ConsistencyProofInvalid | Consistent

  datatype HeadCheck = HeadCheck(valid: bool, reason: Reason, payload: Option<TreeHead>)

  /** The test on the thrown message also matches an `alg` that contains the words. */
  function FailureReason(e: JwsError): Reason {
    if e == NoMatchingKey || SaysNoKey(e) then SthKeyNotPublished else SthSignatureInvalid
  }

  function VerifySignedTreeHead(P: Platform, signed: SignedHead, did: Value): HeadCheck {
    var jws := AsString(signed.jws);
    if signed.head.None? || jws.None? || jws.value == "" then HeadCheck(false, SthUnsigned, None)
    else
      var r := VerifyCompactJws(P, jws.value, OperatorKeys(did));
      if r.Err? then HeadCheck(false, FailureReason(r.error), None)
      else
        var payload := HeadOf(r.value.payload);
        if SameFields(payload, signed.head.value) then HeadCheck(true, SthValid, Some(payload))
        else HeadCheck(false, SthPayloadMismatch, Some(payload))
  }

  /** The words that the source looks for in the message of a failure. */
  predicate SaysNoKey(e: JwsError) {
    e.UnsupportedAlg? && Contains(e.alg, "No matching Ed25519 key")
  }

  predicate NoKeyOf(P: Platform, jws: string, did: Value) {
    ReadToken(P, jws).Ok? && forall key :: key in KeysOf(OperatorKeys(did)) ==>
      !IsCandidate(key, ReadToken(P, jws).value.kid)
  }

  lemma TokenError(P: Platform, jws: string, jwks: Json)
    requires ReadToken(P, jws).Err?
    ensures VerifyCompactJws(P, jws, jwks) == Err(ReadToken(P, jws).error) && ReadToken(P, jws).error != NoMatchingKey
  {
  }

  lemma KeyError(P: Platform, jws: string, jwks: Json)
    requires ReadToken(P, jws).Ok? && VerifyCompactJws(P, jws, jwks).Err?
    ensures VerifyCompactJws(P, jws, jwks).error in {NoMatchingKey, BadKey, BadSignature}
  {
    var t := ReadToken(P, jws).value;
    TryKeysErrors(P, Candidates(KeysOf(jwks), t.kid), t.message, t.signature);
  }

  lemma {:induction false} NoKeyFailure(P: Platform, jws: string, did: Value)
    ensures var r := VerifyCompactJws(P, jws, OperatorKeys(did));
            r.Err? && FailureReason(r.error) == SthKeyNotPublished
            <==> NoKeyOf(P, jws, did) || (ReadToken(P, jws).Err? && SaysNoKey(ReadToken(P, jws).error))
  {
    if ReadToken(P, jws).Err? {
      TokenError(P, jws, OperatorKeys(did));
    } else {
      RevokedIsRefused(P, jws, OperatorKeys(did));
      if VerifyCompactJws(P, jws, OperatorKeys(did)).Err? {
        KeyError(P, jws, OperatorKeys(did));
      }
    }
  }

  lemma HeadByToken(P: Platform, signed: SignedHead, did: Value, r: Result<Verified, JwsError>)
    requires signed.head.Some? && AsString(signed.jws).Some? && AsString(signed.jws).value != ""
    requires r == VerifyCompactJws(P, AsString(signed.jws).value, OperatorKeys(did))
    ensures VerifySignedTreeHead(P, signed, did).valid <==>
            r.Ok? && SameFields(HeadOf(r.value.payload), signed.head.value)
    ensures VerifySignedTreeHead(P, signed, did).reason == SthKeyNotPublished
       <==> r.Err? && FailureReason(r.error) == SthKeyNotPublished
  {
  }

  /** The reason says "key not published" exactly when the operator publishes no key under the token's kid, or an alg
      that contains the words makes it say so. That touches the reason alone: whether the head is valid is decided by
      the token and the fields. */
  lemma {:induction false} ReasonOfRefusal(P: Platform, signed: SignedHead, did: Value, jws: string)
    requires signed.head.Some? && signed.jws == Some(Str(jws)) && jws != ""
    ensures VerifySignedTreeHead(P, signed, did).reason == SthKeyNotPublished
       <==> NoKeyOf(P, jws, did) || (ReadToken(P, jws).Err? && SaysNoKey(ReadToken(P, jws).error))
    ensures var r := VerifyCompactJws(P, jws, OperatorKeys(did));
            VerifySignedTreeHead(P, signed, did).valid <==>
              r.Ok? && SameFields(HeadOf(r.value.payload), signed.head.value)
  {
    NoKeyFailure(P, jws, did);
    HeadByToken(P, signed, did, VerifyCompactJws(P, jws, OperatorKeys(did)));
  }

  /** The token of a signed tree head is read and verified by a key the operator publishes, and
      it signs the very fields shown. */
  ghost predicate SignedBy(P: Platform, signed: SignedHead, did: Value) {
    var jws := AsString(signed.jws);
    && signed.head.Some? && jws.Some? && ReadToken(P, jws.value).Ok?
    && HasVerifyingKey(P, OperatorKeys(did), ReadToken(P, jws.value).value)
    && HeadOf(ReadToken(P, jws.value).value.payload) == signed.head.value
  }

  lemma {:induction false} ValidHeadIsSigned(P: Platform, signed: SignedHead, did: Value)
    requires VerifySignedTreeHead(P, signed, did).valid
    ensures SignedBy(P, signed, did)
    ensures VerifySignedTreeHead(P, signed, did).payload == signed.head
  {
    var jws := AsString(signed.jws).value;
    AcceptedByItsKey(P, jws, OperatorKeys(did));
    TokenOfVerified(P, jws, OperatorKeys(did));
  }

  lemma TokenOfVerified(P: Platform, jws: string, jwks: Json)
    requires VerifyCompactJws(P, jws, jwks).Ok?
    ensures ReadToken(P, jws).Ok?
    ensures VerifyCompactJws(P, jws, jwks).value.payload == ReadToken(P, jws).value.payload
  {
  }

  predicate MethodSigns(P: Platform, vm: Json, t: Request) {
    MethodKey(vm).Some? && IsCandidate(MethodKey(vm).value, t.kid) && Verifies(P, MethodKey(vm).value, t)
  }

  /** A valid head was signed with the key of a verification method in the operator's own document. */
  lemma {:induction false} ValidHeadHasMethod(P: Platform, signed: SignedHead, did: Value)
    requires VerifySignedTreeHead(P, signed, did).valid
    ensures AsString(signed.jws).Some? && ReadToken(P, AsString(signed.jws).value).Ok?
    ensures exists i ::
              0 <= i < |MethodsOf(did)|
              && MethodSigns(P, MethodsOf(did)[i], ReadToken(P, AsString(signed.jws).value).value)
  {
    ValidHeadIsSigned(P, signed, did);
    var t := ReadToken(P, AsString(signed.jws).value).value;
    var key :| key in KeysOf(OperatorKeys(did)) && IsCandidate(key, t.kid) && Verifies(P, key, t);
    KeysAreOfMethods(MethodsOf(did), key);
    var i :| 0 <= i < |MethodsOf(did)| && MethodKey(MethodsOf(did)[i]) == Some(key);
    assert MethodSigns(P, MethodsOf(did)[i], t);
  }

  /** The root that a signed tree head commits its operator to. */
  function RootOf(P: Platform, signed: SignedHead): Bytes {
    if signed.head.Some? then Decode(P, signed.head.value.rootHash) else []
  }

  // --------------------------------------------------------------- anchoring

  /** The issuing node must not be its own anchor. */
  predicate SameOperator(logHost: string, issuer: string) {
    var a, b := DropPrefix(logHost, "www."), DropPrefix(issuer, "www.");
    a != "" && b != "" && (a == b || EndsWith(a, "." + b) || EndsWith(b, "." + a))
  }

  /** Two names have one operator when one's labels end with all of the other's. */
  lemma {:induction false} SameOperatorIsByLabels(logHost: string, issuer: string)
    requires DropPrefix(logHost, "www.") != "" && DropPrefix(issuer, "www.") != ""
    ensures var a, b := Split(DropPrefix(logHost, "www."), '.'), Split(DropPrefix(issuer, "www."), '.');
            SameOperator(logHost, issuer) <==> a == b || EndsWithLabels(a, b) || EndsWithLabels(b, a)
    ensures SameOperator(logHost, issuer) <==> SameOperator(issuer, logHost)
  {
    var a, b := DropPrefix(logHost, "www."), DropPrefix(issuer, "www.");
    SuffixIsLabelSuffix(a, b, '.');
    SuffixIsLabelSuffix(b, a, '.');
    JoinOfSplit(a, '.');
    JoinOfSplit(b, '.');
  }

  /** An inclusion part; a part that is absent (or false in the source's eyes) is None. */
  datatype InclusionPart = InclusionPart(leafIndex: Value, treeSize: Value, auditPath: Value)

  datatype LogProof = LogProof(signed: SignedHead, inclusion: Option<InclusionPart>)

  datatype AnchorVector = AnchorVector(
    artifactHash: Value, artifactJws: Value, proof: Option<LogProof>, operatorDid: Value, issuerDomain: Value)

  datatype Anchoring =
    | Anchoring(anchored: bool, reason: Reason, artifactHash: Value, logId: Option<string>)
    | Thrown  // decodeURIComponent on a malformed log_id

  /** `sha256:{hex}` of the artifact as issued. */
  function ArtifactHash(P: Platform, H: HashFn, jws: Json): Json {
    Str("sha256:" + P.hex(H(P.utf8(if jws.Str? then jws.s else P.show(jws)))))
  }

  predicate Nullish(v: Value) {
    v.None? || v == Some(Null)
  }

  /** `artifact_hash ?? (artifact_jws != null ? artifactHash(artifact_jws) : null)` */
  function HashOfVector(P: Platform, H: HashFn, v: AnchorVector): Json {
    if !Nullish(v.artifactHash) then v.artifactHash.value
    else if !Nullish(v.artifactJws) then ArtifactHash(P, H, v.artifactJws.value)
    else Null
  }

  /** The Merkle entry of an artifact: its hash as text, in UTF-8. */
  function EntryBytes(P: Platform, hash: Json): Bytes {
    P.utf8(if hash.Str? then hash.s else P.show(hash))
  }

  predicate InclusionOk(P: Platform, H: HashFn, hash: Json, inclusion: InclusionPart, root: Bytes) {
    InclusionAccepted(H, HashLeaf(H, EntryBytes(P, hash)), AsInteger(inclusion.leafIndex),
                      AsInteger(inclusion.treeSize), DecodeAll(P, inclusion.auditPath), root)
  }

  function VerifyAnchoring(P: Platform, H: HashFn, v: AnchorVector): Anchoring {
    var hash := HashOfVector(P, H, v);
    if !Truthy(Some(hash)) then Anchoring(false, NoArtifact, Some(hash), None)
    else if v.proof.None? || v.proof.value.inclusion.None? || v.proof.value.signed.head.None? then
      Anchoring(false, NoInclusionProof, Some(hash), None)
    else
      var signed, inclusion := v.proof.value.signed, v.proof.value.inclusion.value;
      AnchorVerdict(P, hash, signed, v.operatorDid, v.issuerDomain,
                    InclusionOk(P, H, hash, inclusion, RootOf(P, signed)))
  }

  /** The decision on a tree head, once the inclusion proof has been recomputed. */
  function AnchorVerdict(P: Platform, hash: Json, signed: SignedHead, did: Value, issuer: Value, included: bool)
    : Anchoring
    requires signed.head.Some?
  {
    var log := LogIdText(signed.head.value);
    var host := DidWebHost(P, Some(Str(log)));
    if AsString(signed.jws).None? then Anchoring(false, SthUnsigned, Some(hash), Some(log))
    else if !IsDidWeb(log) then Anchoring(false, LogIdNotDidWeb, Some(hash), Some(log))
    else if host.None? then Thrown
    else if SameOperator(host.value, TextOf(P, issuer)) then
      Anchoring(false, LogOperatedByIssuer, Some(hash), Some(log))
    else
      var check := VerifySignedTreeHead(P, signed, did);
      if !check.valid then Anchoring(false, check.reason, Some(hash), Some(log))
      else if check.payload.value.logId != Some(Str(log))
        then Anchoring(false, SthPayloadMismatch, Some(hash), Some(log))
      else if !included then Anchoring(false, InclusionProofInvalid, Some(hash), Some(log))
      else Anchoring(true, Anchored, Some(hash), Some(log))
  }

  function LogIdText(sth: TreeHead): string {
    var id := AsString(sth.logId);
    if id.Some? then id.value else ""
  }

  predicate IsDidWeb(log: string) {
    log != "" && "did:web:" <= log
  }

  predicate IsAnchored(P: Platform, H: HashFn, v: AnchorVector) {
    var r := VerifyAnchoring(P, H, v);
    r.Anchoring? && r.anchored
  }

  /** An anchored artifact is an entry of the log behind the signed root, whatever index, size and
      audit path the proof claims, or this finds the collision. */
  function AnchoredCollision(P: Platform, H: HashFn, v: AnchorVector, entries: seq<Bytes>): (c: Option<Collision>)
    requires IsAnchored(P, H, v)
    requires RootOf(P, v.proof.value.signed) == MerkleTreeHash(H, entries)
    ensures c.Some? ==> IsCollision(H, c.value)
    ensures c.None? ==> EntryBytes(P, HashOfVector(P, H, v)) in entries
  {
    var inclusion := v.proof.value.inclusion.value;
    AnySizeCollision(H, EntryBytes(P, HashOfVector(P, H, v)), AsInteger(inclusion.leafIndex),
                     AsInteger(inclusion.treeSize), entries, DecodeAll(P, inclusion.auditPath))
  }

  /** Where no other leaf of the log lies where the claim leads, it is the entry at the claimed index. */
  function AnchoredIndexCollision(P: Platform, H: HashFn, v: AnchorVector, entries: seq<Bytes>): (c: Option<Collision>)
    requires IsAnchored(P, H, v)
    requires RootOf(P, v.proof.value.signed) == MerkleTreeHash(H, entries)
    requires NamesOnly(ClaimedIndex(v), ClaimedSize(v), |entries|)
    ensures c.Some? ==> IsCollision(H, c.value)
    ensures c.None? ==>
            0 <= ClaimedIndex(v) < |entries| && EntryBytes(P, HashOfVector(P, H, v)) == entries[ClaimedIndex(v)]
  {
    ClaimCollision(H, EntryBytes(P, HashOfVector(P, H, v)), ClaimedIndex(v), ClaimedSize(v), entries,
                   DecodeAll(P, v.proof.value.inclusion.value.auditPath))
  }

  /** The index and the size that the proof claims; -1 where they are no integers, and nothing is anchored. */
  function ClaimedIndex(v: AnchorVector): int {
    if v.proof.Some? && v.proof.value.inclusion.Some? then IntegerOf(v.proof.value.inclusion.value.leafIndex) else -1
  }

  function ClaimedSize(v: AnchorVector): int {
    if v.proof.Some? && v.proof.value.inclusion.Some? then IntegerOf(v.proof.value.inclusion.value.treeSize) else -1
  }

  function IntegerOf(v: Value): int {
    if AsInteger(v).Some? then AsInteger(v).value else -1
  }

  /** A proof that claims the log's own size, up to 2^32, anchors the entry at the index it claims. */
  function AnchoredAtOwnSizeCollision(P: Platform, H: HashFn, v: AnchorVector, entries: seq<Bytes>)
    : (c: Option<Collision>)
    requires IsAnchored(P, H, v)
    requires RootOf(P, v.proof.value.signed) == MerkleTreeHash(H, entries)
    requires ClaimedSize(v) == |entries| <= 0x1_0000_0000
    ensures c.Some? ==> IsCollision(H, c.value)
    ensures c.None? ==>
            0 <= ClaimedIndex(v) < |entries| && EntryBytes(P, HashOfVector(P, H, v)) == entries[ClaimedIndex(v)]
  {
    OwnSizeNamesOnly(ClaimedIndex(v), |entries|);
    AnchoredIndexCollision(P, H, v, entries)
  }

  /** The same vector with other numbers for the leaf's index and the tree's size. */
  function Reclaimed(v: AnchorVector, i: int, s: int): AnchorVector
    requires v.proof.Some? && v.proof.value.inclusion.Some?
  {
    v.(proof := Some(v.proof.value.(inclusion := Some(Renumbered(v.proof.value.inclusion.value, i, s)))))
  }

  function Renumbered(inclusion: InclusionPart, i: int, s: int): InclusionPart {
    inclusion.(leafIndex := Some(Num(i as real)), treeSize := Some(Num(s as real)))
  }

  lemma {:induction false} ReclaimedInclusion(P: Platform, H: HashFn, hash: Json, inclusion: InclusionPart, i: int,
                                              s: int, root: Bytes)
    requires 0 <= IntegerOf(inclusion.leafIndex) < IntegerOf(inclusion.treeSize) && 0 <= i < s
    requires var n := |DecodeAll(P, inclusion.auditPath)|;
             Walk(IntegerOf(inclusion.leafIndex), IntegerOf(inclusion.treeSize) - 1, n) == Walk(i, s - 1, n)
    ensures InclusionOk(P, H, hash, Renumbered(inclusion, i, s), root) == InclusionOk(P, H, hash, inclusion, root)
  {
    WalkedAlike(H, HashLeaf(H, EntryBytes(P, hash)), IntegerOf(inclusion.leafIndex), IntegerOf(inclusion.treeSize), i,
                s, DecodeAll(P, inclusion.auditPath), root);
  }

  /** Another claim that the loop walks alike is anchored alike: the tree head's own size plays no part. */
  lemma {:induction false} ClaimIsNotCompared(P: Platform, H: HashFn, v: AnchorVector, i: int, s: int)
    requires v.proof.Some? && v.proof.value.inclusion.Some? && v.proof.value.signed.head.Some?
    requires var n := |DecodeAll(P, v.proof.value.inclusion.value.auditPath)|;
             0 <= ClaimedIndex(v) < ClaimedSize(v) && 0 <= i < s
             && Walk(ClaimedIndex(v), ClaimedSize(v) - 1, n) == Walk(i, s - 1, n)
    ensures VerifyAnchoring(P, H, Reclaimed(v, i, s)) == VerifyAnchoring(P, H, v)
  {
    ReclaimedInclusion(P, H, HashOfVector(P, H, v), v.proof.value.inclusion.value, i, s,
                       RootOf(P, v.proof.value.signed));
  }

  /** What an anchored artifact amounts to: a hash and a proof that recomputes to the signed root, a
      tree head whose very fields the operator signed with a key it publishes, and an operator
      named by the head's own log_id that is not the issuer. */
  ghost predicate Grounded(P: Platform, H: HashFn, v: AnchorVector) {
    && Recomputes(P, H, v)
    && SignedBy(P, v.proof.value.signed, v.operatorDid)
    && !HasObjects(v.proof.value.signed.head.value)
    && IndependentLog(P, v.proof.value.signed.head.value, v.issuerDomain)
  }

  /** The vector shows an artifact, a tree head and an inclusion proof that recomputes to the head's root. */
  predicate Recomputes(P: Platform, H: HashFn, v: AnchorVector) {
    && v.proof.Some? && v.proof.value.inclusion.Some? && v.proof.value.signed.head.Some?
    && Truthy(Some(HashOfVector(P, H, v)))
    && InclusionOk(P, H, HashOfVector(P, H, v), v.proof.value.inclusion.value, RootOf(P, v.proof.value.signed))
  }

  lemma {:induction false} AnchoredRecomputes(P: Platform, H: HashFn, v: AnchorVector)
    requires IsAnchored(P, H, v)
    ensures Recomputes(P, H, v)
    ensures VerifySignedTreeHead(P, v.proof.value.signed, v.operatorDid).valid
  {
  }

  lemma {:induction false} AnchoredIsIndependent(P: Platform, H: HashFn, v: AnchorVector)
    requires IsAnchored(P, H, v)
    ensures v.proof.Some? && v.proof.value.signed.head.Some?
    ensures IndependentLog(P, v.proof.value.signed.head.value, v.issuerDomain)
  {
  }

  lemma ValidHeadHasNoObjects(P: Platform, signed: SignedHead, did: Value)
    requires VerifySignedTreeHead(P, signed, did).valid
    ensures signed.head.Some? && !HasObjects(signed.head.value)
  {
  }

  lemma {:induction false} AnchoredIsGrounded(P: Platform, H: HashFn, v: AnchorVector)
    requires IsAnchored(P, H, v)
    ensures Grounded(P, H, v)
  {
    AnchoredRecomputes(P, H, v);
    AnchoredIsIndependent(P, H, v);
    ValidHeadIsSigned(P, v.proof.value.signed, v.operatorDid);
    ValidHeadHasNoObjects(P, v.proof.value.signed, v.operatorDid);
  }

  lemma {:induction false} GroundedIsAnchored(P: Platform, H: HashFn, v: AnchorVector)
    requires Grounded(P, H, v)
    requires WellFormedKeys(P, OperatorKeys(v.operatorDid),
                            ReadToken(P, AsString(v.proof.value.signed.jws).value).value.kid)
    ensures IsAnchored(P, H, v)
  {
    var signed := v.proof.value.signed;
    SignedHeadIsValid(P, signed, v.operatorDid);
    LogIdIsText(signed.head.value);
  }

  lemma LogIdIsText(h: TreeHead)
    ensures LogIdText(h) != "" ==> h.logId == Some(Str(LogIdText(h)))
  {
  }

  /** A field that is itself an object is never identical to the signed one. */
  predicate HasObjects(h: TreeHead) {
    IsObject(h.logId) || IsObject(h.treeSize) || IsObject(h.rootHash) || IsObject(h.timestamp)
  }

  /** log_id is a did:web identifier whose host is not the issuer's. */
  predicate IndependentLog(P: Platform, h: TreeHead, issuer: Value) {
    var log := LogIdText(h);
    var host := DidWebHost(P, Some(Str(log)));
    IsDidWeb(log) && host.Some? && !SameOperator(host.value, TextOf(P, issuer))
  }

  lemma {:induction false} SignedHeadIsValid(P: Platform, signed: SignedHead, did: Value)
    requires SignedBy(P, signed, did) && !HasObjects(signed.head.value)
    requires WellFormedKeys(P, OperatorKeys(did), ReadToken(P, AsString(signed.jws).value).value.kid)
    ensures VerifySignedTreeHead(P, signed, did) == HeadCheck(true, SthValid, signed.head)
  {
    var jws := AsString(signed.jws).value;
    AcceptedByItsKey(P, jws, OperatorKeys(did));
    TokenOfVerified(P, jws, OperatorKeys(did));
    TokenIsNotEmpty(P, jws);
  }

  lemma TokenIsNotEmpty(P: Platform, jws: string)
    requires ReadToken(P, jws).Ok?
    ensures jws != ""
  {
  }

  // ------------------------------------------------------------- append-only

  datatype ConsistencyPart = ConsistencyPart(firstSize: Value, secondSize: Value, proof: Value)

  datatype AuditVector = AuditVector(first: SignedHead, second: SignedHead, consistency: ConsistencyPart,
                                     operatorDid: Value)

  datatype ConsistencyCheck =
    | ConsistencyCheck(consistent: bool, reason: Reason)
    | NeverEnds  // the first loop of verifyConsistency

  function VerifyConsistencyVector(P: Platform, H: HashFn, v: AuditVector): ConsistencyCheck {
    var first := VerifySignedTreeHead(P, v.first, v.operatorDid);
    if !first.valid then ConsistencyCheck(false, First(first.reason))
    else
      var second := VerifySignedTreeHead(P, v.second, v.operatorDid);
      if !second.valid then ConsistencyCheck(false, Second(second.reason))
      else
        var a, b, c := first.payload.value, second.payload.value, v.consistency;
        if !StrictlyEqual(a.logId, b.logId) then ConsistencyCheck(false, LogIdMismatch)
        else if !StrictlyEqual(c.firstSize, a.treeSize) || !StrictlyEqual(c.secondSize, b.treeSize) then
          ConsistencyCheck(false, SizesMismatch)
        else if !Ends(AsInteger(c.firstSize), AsInteger(c.secondSize)) then NeverEnds
        else if ConsistencyAccepted(H, AsInteger(c.firstSize), AsInteger(c.secondSize), Decode(P, a.rootHash),
                                    Decode(P, b.rootHash), DecodeAll(P, c.proof)) then
          ConsistencyCheck(true, Consistent)
        else ConsistencyCheck(false, ConsistencyProofInvalid)
  }

  predicate IsConsistent(P: Platform, H: HashFn, v: AuditVector) {
    var r := VerifyConsistencyVector(P, H, v);
    r.ConsistencyCheck? && r.consistent
  }

  lemma {:induction false} ConsistentIsAccepted(P: Platform, H: HashFn, v: AuditVector)
    requires IsConsistent(P, H, v)
    ensures ConsistencyAccepted(H, AsInteger(v.consistency.firstSize), AsInteger(v.consistency.secondSize),
                                RootOf(P, v.first), RootOf(P, v.second), DecodeAll(P, v.consistency.proof))
  {
    ValidHeadIsSigned(P, v.first, v.operatorDid);
    ValidHeadIsSigned(P, v.second, v.operatorDid);
  }

  /** A consistent pair of heads over tree hashes is an append, or this finds the collision. */
  function AuditCollision(P: Platform, H: HashFn, v: AuditVector, older: seq<Bytes>, newer: seq<Bytes>)
    : (c: Option<Collision>)
    requires IsConsistent(P, H, v)
    requires RootOf(P, v.first) == MerkleTreeHash(H, older)
    requires RootOf(P, v.second) == MerkleTreeHash(H, newer)
    ensures c.Some? ==> IsCollision(H, c.value)
    ensures c.None? ==> older <= newer
  {
    ConsistentIsAccepted(P, H, v);
    AppendCollision(H, AsInteger(v.consistency.firstSize), AsInteger(v.consistency.secondSize), older, newer,
                    DecodeAll(P, v.consistency.proof))
  }

  /** A chain of audits: each starts from the head that the one before ended with, and each
      head's root is the tree hash of a list. */
  predicate Audited(P: Platform, H: HashFn, audits: seq<AuditVector>, logs: seq<seq<Bytes>>) {
    |logs| == |audits| + 1 &&
    forall i :: 0 <= i < |audits| ==> AuditedAt(P, H, audits[i], logs[i], logs[i + 1])
  }

  predicate AuditedAt(P: Platform, H: HashFn, audit: AuditVector, older: seq<Bytes>, newer: seq<Bytes>) {
    && IsConsistent(P, H, audit)
    && RootOf(P, audit.first) == MerkleTreeHash(H, older)
    && RootOf(P, audit.second) == MerkleTreeHash(H, newer)
  }

  predicate Grows(logs: seq<seq<Bytes>>) {
    forall i, j :: 0 <= i <= j < |logs| ==> logs[i] <= logs[j]
  }

  /** Over a whole history the log has only grown, or this finds the collision. */
  function HistoryCollision(P: Platform, H: HashFn, audits: seq<AuditVector>, logs: seq<seq<Bytes>>)
    : (c: Option<Collision>)
    requires Audited(P, H, audits, logs)
    ensures c.Some? ==> IsCollision(H, c.value)
    ensures c.None? ==> Grows(logs)
    decreases |audits|
  {
    if audits == [] then None
    else
      var n := |audits| - 1;
      assert AuditedAt(P, H, audits[n], logs[n], logs[n + 1]);
      var earlier := HistoryCollision(P, H, audits[..n], logs[..n + 1]);
      if earlier.Some? then earlier
      else
        GrowsOn(logs, n);
        AuditCollision(P, H, audits[n], logs[n], logs[n + 1])
  }

  lemma GrowsOn(logs: seq<seq<Bytes>>, n: nat)
    requires |logs| == n + 2 && Grows(logs[..n + 1])
    ensures logs[n] <= logs[n + 1] ==> Grows(logs)
  {
    if logs[n] <= logs[n + 1] {
      var earlier := logs[..n + 1];
      forall i, j | 0 <= i <= j < |logs| ensures logs[i] <= logs[j] {
        if i <= n {
          assert logs[i] == earlier[i] <= earlier[if j <= n then j else n];
        }
      }
    }
  }
}
