/** Booking receipts (lib/vrp-receipt.mjs): a flat list of attestations, each verified on its own, in its own window of
    time and under its own key set. */
module Receipt {
  import opened Wrappers
  import opened Documents
  import opened Strings
  import opened Jws

  /** What verification is given beside the receipt: the platform, Date.parse (None for NaN) and the key resolver. */
  datatype Setting = Setting(P: Platform, parseDate: string -> Option<int>, resolve: (Value, Json) -> Value)

  const RECEIPT_VERSION := "1.0"
  const RECEIPT_REQUIRED: seq<string> := ["vrp_receipt_version", "subject", "issuer", "attestations"]
  const ATTESTATION_REQUIRED: seq<string> := ["layer", "valid_from", "valid_until"]

  /** `asRecord` */
  predicate IsRecord(v: Value) {
    v.Some? && v.value.Obj?
  }

  // ------------------------------------------------------------------- shape

  predicate HasAll(record: Json, keys: seq<string>) {
    forall k :: k in keys ==> Get(Some(record), k).Some?
  }

  predicate IsAttestation(att: Json) {
    att.Obj? && HasAll(att, ATTESTATION_REQUIRED)
    && var layer := AsString(Get(Some(att), "layer")); layer.Some? && layer.value != ""
  }

  predicate AllAttestations(atts: seq<Json>) {
    forall att :: att in atts ==> IsAttestation(att)
  }

  function AttestationsOf(receipt: Value): seq<Json> {
    var v := Get(receipt, "attestations");
    if v.Some? && v.value.Arr? then v.value.items else []
  }

  predicate HasReceiptShape(receipt: Value) {
    && IsRecord(receipt) && HasAll(receipt.value, RECEIPT_REQUIRED)
    && Get(receipt, "vrp_receipt_version") == Some(Str(RECEIPT_VERSION))
    && IsRecord(Get(receipt, "subject")) && IsRecord(Get(receipt, "issuer"))
    && AttestationsOf(receipt) != [] && AllAttestations(AttestationsOf(receipt))
  }

  method RequireKeys(record: Json, keys: seq<string>) returns (ok: bool)
    ensures ok <==> HasAll(record, keys)
  {
    for i := 0 to |keys|
      invariant forall j :: 0 <= j < i ==> Get(Some(record), keys[j]).Some?
    {
      if Get(Some(record), keys[i]).None? {
        assert keys[i] in keys;
        return false;
      }
    }
    return true;
  }

  method ValidateReceiptShape(receipt: Value) returns (ok: bool)
    ensures ok <==> HasReceiptShape(receipt)
  {
    if !IsRecord(receipt) {
      return false;
    }
    var complete := RequireKeys(receipt.value, RECEIPT_REQUIRED);
    if !complete || Get(receipt, "vrp_receipt_version") != Some(Str(RECEIPT_VERSION)) {
      return false;
    }
    if !IsRecord(Get(receipt, "subject")) || !IsRecord(Get(receipt, "issuer")) {
      return false;
    }
    var atts := AttestationsOf(receipt);
    if atts == [] {
      return false;
    }
    for i := 0 to |atts|
      invariant forall j :: 0 <= j < i ==> IsAttestation(atts[j])
    {
      var good := ValidateAttestation(atts[i]);
      if !good {
        assert atts[i] in atts;
        return false;
      }
    }
    return true;
  }

  method ValidateAttestation(att: Json) returns (ok: bool)
    ensures ok <==> IsAttestation(att)
  {
    if !att.Obj? {
      return false;
    }
    var complete := RequireKeys(att, ATTESTATION_REQUIRED);
    var layer := AsString(Get(Some(att), "layer"));
    return complete && layer.Some? && layer.value != "";
  }

  // ----------------------------------------------------------- one attestation

  datatype Outcome =
    | MissingValidityWindow | LayerUnverifiable | KeyUnresolvable | SigInvalid | NotYetValid | SigExpired | Fine

  datatype LayerResult = LayerResult(index: nat, layer: string, kid: Option<string>, outcome: Outcome)

  function ParseInstant(S: Setting, v: Value): Option<int> {
    if v.Some? && v.value.Str? && Trim(v.value.s) != "" then S.parseDate(v.value.s) else None
  }

  function VerifyAttestation(S: Setting, att: Json, index: nat, now: int): LayerResult {
    var a := Some(att);
    var layer := AsString(Get(a, "layer"));
    var base := LayerResult(index, if layer.Some? then layer.value else "", None, Fine);
    var from, until := ParseInstant(S, Get(a, "valid_from")), ParseInstant(S, Get(a, "valid_until"));
    if from.None? || until.None? then base.(outcome := MissingValidityWindow)
    else
      var signature := AsString(Get(a, "signature"));
      if signature.None? || Trim(signature.value) == "" then base.(outcome := LayerUnverifiable)
      else
        var jwks := S.resolve(Get(a, "source"), att);
        if !IsRecord(jwks) then base.(outcome := KeyUnresolvable)
        else
          var r := VerifyCompactJws(S.P, signature.value, jwks.value);
          if r.Err? then base.(outcome := SigInvalid)
          else
            base.(kid := Some(r.value.kid),
                  outcome := if now < from.value then NotYetValid else if now > until.value then SigExpired else Fine)
  }

  /** Everything about an attestation but the clock: its window, where key and signature are in order. */
  datatype Standing = Broken(outcome: Outcome) | Signed(kid: string, from: int, until: int)

  function StandingOf(S: Setting, att: Json): Standing {
    var r := VerifyAttestation(S, att, 0, 0);
    if r.kid.None? then Broken(r.outcome)
    else Signed(r.kid.value, ParseInstant(S, Get(Some(att), "valid_from")).value,
                ParseInstant(S, Get(Some(att), "valid_until")).value)
  }

  function OutcomeAt(s: Standing, now: int): Outcome {
    match s
    case Broken(outcome) => outcome
    case Signed(_, from, until) => if now < from then NotYetValid else if now > until then SigExpired else Fine
  }

  /** A layer's result depends on the clock only through its standing, and on the position not at all. */
  lemma {:induction false} LayerByStanding(S: Setting, att: Json, index: nat, now: int)
    ensures var r, s := VerifyAttestation(S, att, index, now), StandingOf(S, att);
            r.outcome == OutcomeAt(s, now) && r.kid == (if s.Signed? then Some(s.kid) else None)
    ensures StandingOf(S, att).Broken? ==>
              StandingOf(S, att).outcome in {MissingValidityWindow, LayerUnverifiable, KeyUnresolvable, SigInvalid}
  {
  }

  /** Where an outcome stands in a layer's life; the others never change. */
  function Phase(o: Outcome): int {
    match o
    case NotYetValid => 0
    case Fine => 1
    case SigExpired => 2
    case _ => 3
  }

  /** As the clock goes on, a layer moves from not yet valid to verified to expired and never back, passing through all
      three exactly when its window is not empty; a layer that is broken stays as it is. */
  lemma {:induction false} LayerLife(S: Setting, att: Json, i: nat, t1: int, t2: int)
    requires t1 <= t2
    ensures Phase(VerifyAttestation(S, att, i, t1).outcome) <= Phase(VerifyAttestation(S, att, i, t2).outcome)
    ensures Phase(VerifyAttestation(S, att, i, t2).outcome) == 3 ==>
              VerifyAttestation(S, att, i, t1) == VerifyAttestation(S, att, i, t2)
    ensures StandingOf(S, att).Signed? ==>
              var s := StandingOf(S, att);
              && VerifyAttestation(S, att, i, s.from - 1).outcome == NotYetValid
              && (VerifyAttestation(S, att, i, s.from).outcome == Fine <==> s.from <= s.until)
              && (VerifyAttestation(S, att, i, t1).outcome == Fine ==> s.from <= s.until)
              && (s.from <= s.until ==> VerifyAttestation(S, att, i, s.until + 1).outcome == SigExpired)
  {
    var s := StandingOf(S, att);
    LayerByStanding(S, att, i, t1);
    LayerByStanding(S, att, i, t2);
    if s.Signed? {
      LayerByStanding(S, att, i, s.from - 1);
      LayerByStanding(S, att, i, s.from);
      LayerByStanding(S, att, i, s.until + 1);
    }
  }

  // ------------------------------------------------------------- the receipt

  datatype ReceiptError = UnsupportedVersion | MalformedReceipt

  datatype ReceiptResult =
    ReceiptResult(receiptValid: bool, fullyVerified: bool, attestations: seq<LayerResult>, errors: seq<ReceiptError>)

  function Layers(S: Setting, atts: seq<Json>, now: int): (r: seq<LayerResult>)
    ensures |r| == |atts|
    ensures forall i :: 0 <= i < |atts| ==> r[i] == VerifyAttestation(S, atts[i], i, now)
  {
    seq(|atts|, i requires 0 <= i < |atts| => VerifyAttestation(S, atts[i], i, now))
  }

  predicate AllFine(layers: seq<LayerResult>) {
    forall l :: l in layers ==> l.outcome == Fine
  }

  ghost function ReceiptVerdict(S: Setting, receipt: Value, now: int): ReceiptResult {
    if IsRecord(receipt) && Get(receipt, "vrp_receipt_version") != Some(Str(RECEIPT_VERSION)) then
      ReceiptResult(false, false, [], [UnsupportedVersion])
    else if !HasReceiptShape(receipt) then ReceiptResult(false, false, [], [MalformedReceipt])
    else
      var layers := Layers(S, AttestationsOf(receipt), now);
      ReceiptResult(true, AllFine(layers), layers, [])
  }

  method VerifyReceipt(S: Setting, receipt: Value, now: int) returns (r: ReceiptResult)
    ensures r == ReceiptVerdict(S, receipt, now)
    ensures r.receiptValid <==> HasReceiptShape(receipt)
    ensures r.fullyVerified ==> r.receiptValid && |r.attestations| == |AttestationsOf(receipt)| > 0
  {
    if IsRecord(receipt) && Get(receipt, "vrp_receipt_version") != Some(Str(RECEIPT_VERSION)) {
      return ReceiptResult(false, false, [], [UnsupportedVersion]);
    }
    var shaped := ValidateReceiptShape(receipt);
    if !shaped {
      return ReceiptResult(false, false, [], [MalformedReceipt]);
    }
    var layers := Layers(S, AttestationsOf(receipt), now);
    return ReceiptResult(true, AllFine(layers), layers, []);
  }

  lemma PositionIsNoMatter(S: Setting, att: Json, i: nat, j: nat, now: int)
    ensures VerifyAttestation(S, att, j, now) == VerifyAttestation(S, att, i, now).(index := j)
  {
  }

  /** A layer's result is that of its attestation, whatever receipt it stands in and whatever stands around it. */
  lemma {:induction false} LayerIsItsOwn(S: Setting, a: Value, i: nat, b: Value, j: nat, now: int)
    requires HasReceiptShape(a) && HasReceiptShape(b)
    requires i < |AttestationsOf(a)| && j < |AttestationsOf(b)| && AttestationsOf(a)[i] == AttestationsOf(b)[j]
    ensures |ReceiptVerdict(S, a, now).attestations| == |AttestationsOf(a)|
    ensures |ReceiptVerdict(S, b, now).attestations| == |AttestationsOf(b)|
    ensures ReceiptVerdict(S, b, now).attestations[j] == ReceiptVerdict(S, a, now).attestations[i].(index := j)
  {
    PositionIsNoMatter(S, AttestationsOf(a)[i], i, j, now);
  }

  function Standings(S: Setting, atts: seq<Json>): (r: seq<Standing>)
    ensures |r| == |atts| && forall i :: 0 <= i < |atts| ==> r[i] == StandingOf(S, atts[i])
  {
    seq(|atts|, i requires 0 <= i < |atts| => StandingOf(S, atts[i]))
  }

  predicate AllFineAt(standings: seq<Standing>, now: int) {
    forall s :: s in standings ==> OutcomeAt(s, now) == Fine
  }

  lemma {:induction false} AllFineByStanding(S: Setting, atts: seq<Json>, now: int)
    ensures AllFine(Layers(S, atts, now)) <==> AllFineAt(Standings(S, atts), now)
  {
    var layers, standings := Layers(S, atts, now), Standings(S, atts);
    forall i | 0 <= i < |atts| ensures layers[i].outcome == OutcomeAt(standings[i], now) {
      LayerByStanding(S, atts[i], i, now);
    }
    if AllFine(layers) {
      forall s | s in standings ensures OutcomeAt(s, now) == Fine {
        var i :| 0 <= i < |atts| && standings[i] == s;
        assert layers[i] in layers;
      }
    }
    if AllFineAt(standings, now) {
      forall l | l in layers ensures l.outcome == Fine {
        var i :| 0 <= i < |atts| && layers[i] == l;
        assert standings[i] in standings;
      }
    }
  }

  function ReceiptStandings(S: Setting, receipt: Value): seq<Standing> {
    Standings(S, AttestationsOf(receipt))
  }

  lemma {:induction false} FullyByStanding(S: Setting, receipt: Value, now: int)
    requires HasReceiptShape(receipt)
    ensures ReceiptVerdict(S, receipt, now).fullyVerified <==> AllFineAt(ReceiptStandings(S, receipt), now)
  {
    AllFineByStanding(S, AttestationsOf(receipt), now);
  }

  lemma JoinedStandings(S: Setting, xs: seq<Json>, ys: seq<Json>)
    ensures Standings(S, xs + ys) == Standings(S, xs) + Standings(S, ys)
  {
  }

  /** A receipt whose list joins those of two others is fully verified exactly when both are. */
  lemma {:induction false} JoinedIsBoth(S: Setting, a: Value, b: Value, joined: Value, now: int)
    requires HasReceiptShape(a) && HasReceiptShape(b) && HasReceiptShape(joined)
    requires AttestationsOf(joined) == AttestationsOf(a) + AttestationsOf(b)
    ensures ReceiptVerdict(S, joined, now).fullyVerified
       <==> ReceiptVerdict(S, a, now).fullyVerified && ReceiptVerdict(S, b, now).fullyVerified
  {
    FullyByStanding(S, a, now);
    FullyByStanding(S, b, now);
    FullyByStanding(S, joined, now);
    JoinedStandings(S, AttestationsOf(a), AttestationsOf(b));
  }

  // ---------------------------------------------------- the intersection of windows

  predicate AllSigned(standings: seq<Standing>) {
    forall s :: s in standings ==> s.Signed?
  }

  predicate StartsAt(s: Standing, t: int) {
    s.Signed? && s.from == t
  }

  predicate EndsAt(s: Standing, t: int) {
    s.Signed? && s.until == t
  }

  /** The latest start and the earliest end of some windows. */
  function LatestStart(standings: seq<Standing>): (t: int)
    requires standings != [] && AllSigned(standings)
    ensures forall s :: s in standings ==> s.from <= t
    ensures exists s :: s in standings && StartsAt(s, t)
  {
    var s, before := standings[|standings| - 1], standings[..|standings| - 1];
    if before == [] then s.from
    else
      var t := LatestStart(before);
      if t > s.from then t else s.from
  }

  function EarliestEnd(standings: seq<Standing>): (t: int)
    requires standings != [] && AllSigned(standings)
    ensures forall s :: s in standings ==> t <= s.until
    ensures exists s :: s in standings && EndsAt(s, t)
  {
    var s, before := standings[|standings| - 1], standings[..|standings| - 1];
    if before == [] then s.until
    else
      var t := EarliestEnd(before);
      if t < s.until then t else s.until
  }

  predicate NoneBrokenFine(standings: seq<Standing>) {
    forall s :: s in standings && s.Broken? ==> s.outcome != Fine
  }

  lemma {:induction false} FineInTheIntersection(standings: seq<Standing>, now: int)
    requires standings != [] && NoneBrokenFine(standings)
    ensures AllFineAt(standings, now)
       <==> AllSigned(standings) && LatestStart(standings) <= now <= EarliestEnd(standings)
  {
    if AllFineAt(standings, now) {
      forall s | s in standings ensures s.Signed? {
        assert OutcomeAt(s, now) == Fine;
      }
      var start, end := LatestStart(standings), EarliestEnd(standings);
      var a :| a in standings && StartsAt(a, start);
      var b :| b in standings && EndsAt(b, end);
      assert OutcomeAt(a, now) == Fine && OutcomeAt(b, now) == Fine;
    }
  }

  /** A receipt is fully verified exactly in the intersection of its windows, and only if every layer's key and
      signature hold. */
  lemma {:induction false} FullyVerifiedExactly(S: Setting, receipt: Value, now: int)
    requires HasReceiptShape(receipt)
    ensures var standings := ReceiptStandings(S, receipt);
            ReceiptVerdict(S, receipt, now).fullyVerified
            <==> AllSigned(standings) && LatestStart(standings) <= now <= EarliestEnd(standings)
  {
    var atts := AttestationsOf(receipt);
    FullyByStanding(S, receipt, now);
    forall i | 0 <= i < |atts| ensures StandingOf(S, atts[i]).Broken? ==> StandingOf(S, atts[i]).outcome != Fine {
      LayerByStanding(S, atts[i], i, now);
    }
    FineInTheIntersection(ReceiptStandings(S, receipt), now);
  }
}
