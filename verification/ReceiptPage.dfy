/** The receipt page's run (verify-receipt.html): the checks pile up in the page, an error stops them, and the verdict
    follows from what is there. */
module ReceiptPage {
  import opened Wrappers
  import opened Documents
  import opened Strings
  import opened Merkle
  import opened Jws
  import opened TreeHeads
  import opened BrowserJws
  import BrowserInclusion
  import Base64Url
  import PublicSuffix

  // ----------------------------------------------------------------- the inputs

  datatype Answer = Answered(doc: Json) | Redirected | Unreachable

  /** A log's answer that has an inclusion part and a tree head; index and size are whatever values are there. */
  datatype PageProof = PageProof(head: TreeHead, jws: Value, index: Value, size: Value, path: seq<Value>)

  /** What the network gives: the two lists, the domain's keys, the log's answer and the documents at URLs. */
  datatype World = World(
    lists: Option<PublicSuffix.Lists>, jwks: Answer, proof: Option<PageProof>, web: string -> Option<Json>)

  datatype Opened = Opened(jws: string, subject: Value, issuer: Value, domain: string, attestations: seq<Json>)

  /** The pasted token, or the one a pasted JSON document wraps. */
  function PastedToken(P: Platform, pasted: string): Value {
    var s := Trim(pasted);
    var doc := if s != "" && s[0] == '{' then P.parse(s) else None;
    var inner := Get(Get(doc, "signature"), "jws");
    if s == "" then None
    else if Truthy(Get(doc, "receipt_jws")) then Get(doc, "receipt_jws")
    else if Truthy(inner) then inner
    else Some(Str(s))
  }

  /** Step 0: the envelope, not trusted yet; None where the page stops. */
  function Open(P: Platform, pasted: string): Option<Opened> {
    var token := AsString(PastedToken(P, pasted));
    if token.None? || |Split(token.value, '.')| != 3 then None
    else
      var envelope := DecodePart(P, Split(token.value, '.')[1]);
      var issuer, atts := Get(envelope, "issuer"), Get(envelope, "attestations");
      var domain := DropPrefix(TextOf(P, Get(issuer, "domain")), "www.");
      if envelope.None? || domain == "" then None
      else Some(Opened(token.value, Get(envelope, "subject"), issuer, domain,
                       if atts.Some? && atts.value.Arr? then atts.value.items else []))
  }

  // ------------------------------------------------------------ the page's checks

  datatype Subject =
    | HostOwned | KeysFetched | ReceiptSigned | SubjectNode | IssuerDid | InnerSignatures | Fingerprint
    | InclusionRecomputes | HeadSigned | LogInclusion | VerificationStopped

  /** None is the page's null: neither passed nor failed. */
  datatype Check = Check(state: Option<bool>, about: Subject)

  datatype Ending = GoesOn | Stopped | StoppedUnknown

  datatype Verdict = Verified | SignatureVerified | Unknown | NotVerified

  /** The checks so far, and whether the run goes on. A stage adds to a run that goes on and leaves a stopped one. */
  datatype Trace = Trace(checks: seq<Check>, ending: Ending)

  function Start(): Trace {
    Trace([], GoesOn)
  }

  function Add(t: Trace, state: Option<bool>, about: Subject): Trace {
    t.(checks := t.checks + [Check(state, about)])
  }

  function Stop(t: Trace): Trace {
    t.(ending := Stopped)
  }

  function Passed(ok: bool): Option<bool> {
    if ok then Some(true) else None
  }

  function IssuerTrace(t: Trace, own: PublicSuffix.State): Trace {
    if t.ending != GoesOn then t
    else if own == PublicSuffix.Fail then Stop(t)
    else Add(t, Passed(own == PublicSuffix.Pass), HostOwned)
  }

  function KeysTrace(t: Trace, jwks: Answer): Trace {
    if t.ending != GoesOn then t
    else
      match jwks
      case Answered(_) => Add(t, Some(true), KeysFetched)
      case Redirected => t.(ending := StoppedUnknown)
      case Unreachable => Stop(Add(t, Some(false), KeysFetched))
  }

  function KeysOfAnswer(jwks: Answer): Value {
    if jwks.Answered? then Some(jwks.doc) else None
  }

  function SignatureTrace(t: Trace, P: Platform, o: Opened, jwks: Value): Trace {
    if t.ending != GoesOn then t
    else if PageVerify(P, o.jws, jwks).None? then Stop(t)
    else Add(t, Some(true), ReceiptSigned)
  }

  /** The node that the subject names, "" for none. */
  function NodeNamed(P: Platform, o: Opened): string {
    var node := Get(o.subject, "node");
    if Nullish(node) then "" else DropPrefix(if node.value.Str? then node.value.s else P.show(node.value), "www.")
  }

  predicate NamesAnotherNode(P: Platform, o: Opened) {
    NodeNamed(P, o) != "" && NodeNamed(P, o) != o.domain
  }

  function NodeTrace(t: Trace, P: Platform, o: Opened): Trace {
    if t.ending == GoesOn && NamesAnotherNode(P, o) then Add(t, Some(false), SubjectNode) else t
  }

  predicate HasDid(o: Opened) {
    !Nullish(Get(o.issuer, "did")) && Get(o.issuer, "did") != Some(Str(""))
  }

  function DidTrace(t: Trace, P: Platform, o: Opened): Trace {
    if t.ending != GoesOn || !HasDid(o) then t
    else
      var host := DidWebHost(P, Get(o.issuer, "did"));
      if host.None? then Stop(t)
      else if DropPrefix(host.value, "www.") == o.domain && o.domain != "" then t
      else Add(t, Some(false), IssuerDid)
  }

  function SignatureOf(att: Json): Option<string> {
    AsString(Get(Some(att), "signature"))
  }

  /** What the page finds of one attestation's signature. */
  datatype Inner = Unsigned | Holds | Broken

  function InnerOf(P: Platform, att: Json, jwks: Value): Inner {
    if SignatureOf(att).None? then Unsigned
    else if PageVerify(P, SignatureOf(att).value, jwks).None? then Broken
    else Holds
  }

  function InnersOf(P: Platform, atts: seq<Json>, jwks: Value): (r: seq<Inner>)
    ensures |r| == |atts|
  {
    if atts == [] then []
    else InnersOf(P, atts[..|atts| - 1], jwks) + [InnerOf(P, atts[|atts| - 1], jwks)]
  }

  lemma {:induction false} InnersAt(P: Platform, atts: seq<Json>, jwks: Value, i: nat)
    requires i < |atts|
    ensures InnersOf(P, atts, jwks)[i] == InnerOf(P, atts[i], jwks)
  {
    if i < |atts| - 1 {
      InnersAt(P, atts[..|atts| - 1], jwks, i);
    }
  }

  function Plus(n: nat, rest: Option<nat>): Option<nat> {
    if rest.None? then None else Some(n + rest.value)
  }

  /** How many signatures hold from position i on; None where one is broken. */
  function CountFrom(inners: seq<Inner>, i: nat): Option<nat>
    requires i <= |inners|
    decreases |inners| - i
  {
    if i == |inners| then Some(0)
    else if inners[i] == Broken then None
    else Plus(if inners[i] == Holds then 1 else 0, CountFrom(inners, i + 1))
  }

  /** All of them hold exactly when the count is full. */
  lemma {:induction false} FullCount(inners: seq<Inner>, i: nat)
    requires i <= |inners|
    ensures CountFrom(inners, i).Some? ==> CountFrom(inners, i).value <= |inners| - i
    ensures CountFrom(inners, i) == Some(|inners| - i) <==> forall j :: i <= j < |inners| ==> inners[j] == Holds
    decreases |inners| - i
  {
    if i < |inners| {
      FullCount(inners, i + 1);
    }
  }

  function InnerTrace(t: Trace, inners: seq<Inner>): Trace {
    var attOk := CountFrom(inners, 0);
    if t.ending != GoesOn then t
    else if attOk.None? then Stop(t)
    else Add(t, Some(|inners| > 0 && attOk.value == |inners|), InnerSignatures)
  }

  /** The confirmation reference of the exact token. */
  function Reference(P: Platform, H: HashFn, o: Opened): string {
    "sha256:" + P.hex(H(P.utf8(o.jws)))
  }

  function DecodeText(v: Value): Option<Bytes> {
    if AsString(v).None? then None else Base64Url.Decode(AsString(v).value)
  }

  function DecodePath(path: seq<Value>): (d: seq<Option<Bytes>>)
    ensures |d| == |path| && forall i :: 0 <= i < |path| ==> d[i] == DecodeText(path[i])
  {
    seq(|path|, i requires 0 <= i < |path| => DecodeText(path[i]))
  }

  /** None where the inclusion loop throws. */
  function Included(P: Platform, H: HashFn, o: Opened, proof: PageProof): Option<bool> {
    BrowserInclusion.PageInclusion(P, H, P.utf8(Reference(P, H, o)), proof.index, proof.size, DecodePath(proof.path),
                                   DecodeText(proof.head.rootHash))
  }

  /** The signed payload is not null and says root, size and log as the head shows them. */
  predicate SignsHead(payload: Option<Json>, head: TreeHead) {
    payload.Some? && payload != Some(Null)
    && StrictlyEqual(Get(payload, "root_hash"), head.rootHash)
    && StrictlyEqual(Get(payload, "tree_size"), head.treeSize)
    && StrictlyEqual(Get(payload, "log_id"), head.logId)
  }

  /** How the tree head's signature comes out. */
  datatype HeadOutcome = SignedByOperator | NotSigned | Threw

  function HeadOutcomeOf(P: Platform, o: Opened, proof: PageProof, web: string -> Option<Json>): HeadOutcome {
    var log := TextOf(P, proof.head.logId);
    var url, host := DidWebDocumentUrl(P, log), DidWebHost(P, Some(Str(log)));
    if url.Malformed? then Threw
    else if !Truthy(proof.jws) || url.NoUrl? then NotSigned
    else if host.None? then Threw
    else if SameOperator(host.value, o.domain) || web(url.url).None? then NotSigned
    else if SignsHead(PageVerify(P, TextOf(P, proof.jws), Some(PageOperatorKeys(web(url.url)))), proof.head)
    then SignedByOperator else NotSigned
  }

  function LogTrace(t: Trace, P: Platform, H: HashFn, o: Opened, proof: Option<PageProof>, web: string -> Option<Json>)
    : Trace
  {
    if t.ending != GoesOn then t
    else if proof.None? then Add(t, None, LogInclusion)
    else
      var included, head := Included(P, H, o, proof.value), HeadOutcomeOf(P, o, proof.value, web);
      if included.None? then Stop(t)
      else
        var t1 := Add(t, Passed(included.value), InclusionRecomputes);
        if head == Threw then Stop(t1) else Add(t1, Passed(head == SignedByOperator), HeadSigned)
  }

  predicate AnchoredBy(P: Platform, H: HashFn, o: Opened, proof: Option<PageProof>, web: string -> Option<Json>) {
    proof.Some? && Included(P, H, o, proof.value) == Some(true)
    && HeadOutcomeOf(P, o, proof.value, web) == SignedByOperator
  }

  // ------------------------------------------------------------- the whole run

  /** The stages before the log is asked. */
  function BeforeLog(P: Platform, w: World, o: Opened): Trace {
    var jwks := KeysOfAnswer(w.jwks);
    var keys := KeysTrace(IssuerTrace(Start(), PublicSuffix.OwnedState(o.domain, w.lists)), w.jwks);
    var names := DidTrace(NodeTrace(SignatureTrace(keys, P, o, jwks), P, o), P, o);
    FingerprintTrace(InnerTrace(names, InnersOf(P, o.attestations, jwks)))
  }

  function FingerprintTrace(t: Trace): Trace {
    if t.ending != GoesOn then t else Add(t, Some(true), Fingerprint)
  }

  function RunTrace(P: Platform, H: HashFn, w: World, o: Opened): Trace {
    LogTrace(BeforeLog(P, w, o), P, H, o, w.proof, w.web)
  }

  predicate NoneFailed(checks: seq<Check>) {
    forall c :: c in checks ==> c.state != Some(false)
  }

  function VerdictOf(t: Trace, own: PublicSuffix.State, anchored: bool): Verdict {
    match t.ending
    case Stopped => NotVerified
    case StoppedUnknown => Unknown
    case GoesOn =>
      if !NoneFailed(t.checks) then NotVerified
      else if own != PublicSuffix.Pass then Unknown
      else if anchored then Verdict.Verified
      else SignatureVerified
  }

  function StopChecks(e: Ending): seq<Check> {
    match e
    case GoesOn => []
    case Stopped => [Check(Some(false), VerificationStopped)]
    case StoppedUnknown => [Check(None, VerificationStopped)]
  }

  /** The checks the page ends up showing. */
  function FinalChecks(P: Platform, H: HashFn, w: World, pasted: string): seq<Check> {
    var o := Open(P, pasted);
    if o.None? then StopChecks(Stopped)
    else
      var t := RunTrace(P, H, w, o.value);
      t.checks + StopChecks(t.ending)
  }

  function FinalVerdict(P: Platform, H: HashFn, w: World, pasted: string): Verdict {
    var o := Open(P, pasted);
    if o.None? then NotVerified
    else VerdictOf(RunTrace(P, H, w, o.value), PublicSuffix.OwnedState(o.value.domain, w.lists),
                   AnchoredBy(P, H, o.value, w.proof, w.web))
  }

  class Page {
    var checks: seq<Check>

    constructor ()
      ensures checks == []
    {
      checks := [];
    }

    method AddCheck(state: Option<bool>, about: Subject)
      modifies this
      ensures checks == old(checks) + [Check(state, about)]
    {
      checks := checks + [Check(state, about)];
    }

    method IssuerStage(domain: string, lists: Option<PublicSuffix.Lists>)
      returns (own: PublicSuffix.State, ending: Ending)
      modifies this
      ensures own == PublicSuffix.OwnedState(domain, lists)
      ensures Trace(checks, ending) == IssuerTrace(Trace(old(checks), GoesOn), own)
    {
      own := PublicSuffix.HostOwned(domain, lists);
      if own == PublicSuffix.Fail {
        return own, Stopped;
      }
      AddCheck(Passed(own == PublicSuffix.Pass), HostOwned);
      return own, GoesOn;
    }

    method KeysStage(jwks: Answer) returns (ending: Ending)
      modifies this
      ensures Trace(checks, ending) == KeysTrace(Trace(old(checks), GoesOn), jwks)
    {
      if jwks.Redirected? {
        return StoppedUnknown;
      }
      if jwks.Unreachable? {
        AddCheck(Some(false), KeysFetched);
        return Stopped;
      }
      AddCheck(Some(true), KeysFetched);
      return GoesOn;
    }

    method SignatureStage(P: Platform, o: Opened, jwks: Value) returns (ending: Ending)
      modifies this
      ensures Trace(checks, ending) == SignatureTrace(Trace(old(checks), GoesOn), P, o, jwks)
    {
      var payload := VerifyJws(P, o.jws, jwks);
      if payload.None? {
        return Stopped;
      }
      AddCheck(Some(true), ReceiptSigned);
      return GoesOn;
    }

    method NamesStage(P: Platform, o: Opened) returns (ending: Ending)
      modifies this
      ensures Trace(checks, ending) == DidTrace(NodeTrace(Trace(old(checks), GoesOn), P, o), P, o)
    {
      var node := NodeNamed(P, o);
      if node != "" && node != o.domain {
        AddCheck(Some(false), SubjectNode);
      }
      if HasDid(o) {
        var host := DidWebHost(P, Get(o.issuer, "did"));
        if host.None? {
          return Stopped;
        }
        var didHost := DropPrefix(host.value, "www.");
        if didHost == "" {
          AddCheck(Some(false), IssuerDid);
        } else if didHost != o.domain {
          AddCheck(Some(false), IssuerDid);
        }
      }
      return GoesOn;
    }

    /** The loop over the attestations; None where one is broken. */
    method CountSigned(P: Platform, atts: seq<Json>, jwks: Value) returns (attOk: Option<nat>)
      ensures attOk == CountFrom(InnersOf(P, atts, jwks), 0)
    {
      ghost var inners := InnersOf(P, atts, jwks);
      var n := 0;
      for i := 0 to |atts|
        invariant CountFrom(inners, 0) == Plus(n, CountFrom(inners, i))
      {
        var inner := CheckInnerAt(P, atts, i, jwks);
        if inner == Broken {
          return None;
        }
        if inner == Holds {
          n := n + 1;
        }
      }
      return Some(n);
    }

    method InnerStage(P: Platform, atts: seq<Json>, jwks: Value) returns (ending: Ending)
      modifies this
      ensures Trace(checks, ending) == InnerTrace(Trace(old(checks), GoesOn), InnersOf(P, atts, jwks))
    {
      var attOk := CountSigned(P, atts, jwks);
      if attOk.None? {
        return Stopped;
      }
      AddCheck(Some(|atts| > 0 && attOk.value == |atts|), InnerSignatures);
      return GoesOn;
    }

    method CheckInnerAt(P: Platform, atts: seq<Json>, i: nat, jwks: Value) returns (inner: Inner)
      requires i < |atts|
      ensures inner == InnersOf(P, atts, jwks)[i]
    {
      InnersAt(P, atts, jwks, i);
      inner := CheckInner(P, atts[i], jwks);
    }

    method CheckInner(P: Platform, att: Json, jwks: Value) returns (inner: Inner)
      ensures inner == InnerOf(P, att, jwks)
    {
      var signature := SignatureOf(att);
      if signature.None? {
        return Unsigned;
      }
      var payload := VerifyJws(P, signature.value, jwks);
      return if payload.None? then Broken else Holds;
    }

    method CheckHead(P: Platform, o: Opened, proof: PageProof, web: string -> Option<Json>)
      returns (outcome: HeadOutcome)
      ensures outcome == HeadOutcomeOf(P, o, proof, web)
    {
      var log := TextOf(P, proof.head.logId);
      var url := DidWebDocumentUrl(P, log);
      if url.Malformed? {
        return Threw;
      }
      if !Truthy(proof.jws) || url.NoUrl? {
        return NotSigned;
      }
      var host := DidWebHost(P, Some(Str(log)));
      if host.None? {
        return Threw;
      }
      var doc := web(url.url);
      if SameOperator(host.value, o.domain) || doc.None? {
        return NotSigned;
      }
      var keys := BrowserJws.JwksFromDidDocument(doc);
      var payload := VerifyJws(P, TextOf(P, proof.jws), Some(keys));
      return if SignsHead(payload, proof.head) then SignedByOperator else NotSigned;
    }

    method LogStage(P: Platform, H: HashFn, o: Opened, proof: Option<PageProof>, web: string -> Option<Json>)
      returns (ending: Ending, anchored: bool)
      modifies this
      ensures Trace(checks, ending) == LogTrace(Trace(old(checks), GoesOn), P, H, o, proof, web)
      ensures ending == GoesOn ==> anchored == AnchoredBy(P, H, o, proof, web)
    {
      anchored := false;
      if proof.None? {
        AddCheck(None, LogInclusion);
        return GoesOn, false;
      }
      var included := BrowserInclusion.VerifyInclusion(P, H, P.utf8(Reference(P, H, o)), proof.value.index,
                                                       proof.value.size, DecodePath(proof.value.path),
                                                       DecodeText(proof.value.head.rootHash));
      if included.None? {
        return Stopped, false;
      }
      AddCheck(Passed(included.value), InclusionRecomputes);
      var head := CheckHead(P, o, proof.value, web);
      if head == Threw {
        return Stopped, false;
      }
      AddCheck(Passed(head == SignedByOperator), HeadSigned);
      return GoesOn, included.value && head == SignedByOperator;
    }

    /** The stages up to the reference. */
    method BeforeLogStages(P: Platform, w: World, o: Opened) returns (own: PublicSuffix.State, ending: Ending)
      modifies this
      ensures own == PublicSuffix.OwnedState(o.domain, w.lists)
      ensures old(checks) == [] ==> Trace(checks, ending) == BeforeLog(P, w, o)
    {
      var jwks := KeysOfAnswer(w.jwks);
      own, ending := IssuerStage(o.domain, w.lists);
      if ending != GoesOn {
        return;
      }
      ending := KeysStage(w.jwks);
      if ending != GoesOn {
        return;
      }
      ending := SignatureStage(P, o, jwks);
      if ending != GoesOn {
        return;
      }
      ending := NamesStage(P, o);
      if ending != GoesOn {
        return;
      }
      ending := InnerStage(P, o.attestations, jwks);
      if ending != GoesOn {
        return;
      }
      AddCheck(Some(true), Fingerprint);
    }

    method Run(P: Platform, H: HashFn, w: World, pasted: string) returns (verdict: Verdict)
      modifies this
      ensures checks == FinalChecks(P, H, w, pasted)
      ensures verdict == FinalVerdict(P, H, w, pasted)
    {
      checks := [];
      var o := Open(P, pasted);
      if o.None? {
        AddCheck(Some(false), VerificationStopped);
        return NotVerified;
      }
      var anchored := false;
      var own, ending := BeforeLogStages(P, w, o.value);
      if ending == GoesOn {
        ending, anchored := LogStage(P, H, o.value, w.proof, w.web);
      }
      if ending == GoesOn {
        var allHard := NoneFailed(checks);
        return if !allHard then NotVerified else if own != PublicSuffix.Pass then Unknown
               else if anchored then Verdict.Verified else SignatureVerified;
      }
      AddCheck(if ending == StoppedUnknown then None else Some(false), VerificationStopped);
      return if ending == StoppedUnknown then Unknown else NotVerified;
    }
  }

  // ------------------------------------------------------ what the verdict means

  /** What the receipt's own words must say: they name no node, or the domain that signed; no issuer identifier, or a
      did:web of that domain. */
  predicate NamesItself(P: Platform, o: Opened) {
    !NamesAnotherNode(P, o)
    && (HasDid(o) ==>
        var host := DidWebHost(P, Get(o.issuer, "did")); host.Some? && DropPrefix(host.value, "www.") == o.domain)
  }

  predicate AllHold(inners: seq<Inner>) {
    inners != [] && forall i :: 0 <= i < |inners| ==> inners[i] == Holds
  }

  /** The receipt is signed by its domain, in full. */
  predicate SignedByDomain(P: Platform, w: World, o: Opened) {
    && w.jwks.Answered? && PageVerify(P, o.jws, Some(w.jwks.doc)).Some?
    && NamesItself(P, o) && AllHold(InnersOf(P, o.attestations, Some(w.jwks.doc)))
  }

  /** A trace in which nothing has failed so far. */
  predicate Clean(t: Trace) {
    t.ending == GoesOn && NoneFailed(t.checks)
  }

  lemma AddFails(t: Trace, state: Option<bool>, about: Subject)
    ensures NoneFailed(Add(t, state, about).checks) <==> NoneFailed(t.checks) && state != Some(false)
  {
    var c := Add(t, state, about).checks;
    assert Check(state, about) in c;
    forall x ensures x in c <==> x in t.checks || x == Check(state, about) {
    }
  }

  lemma CleanIssuer(t: Trace, own: PublicSuffix.State)
    ensures Clean(IssuerTrace(t, own)) <==> Clean(t) && own != PublicSuffix.Fail
  {
    AddFails(t, Passed(own == PublicSuffix.Pass), HostOwned);
  }

  lemma CleanKeys(t: Trace, jwks: Answer)
    ensures Clean(KeysTrace(t, jwks)) <==> Clean(t) && jwks.Answered?
  {
    AddFails(t, Some(true), KeysFetched);
  }

  lemma CleanSignature(t: Trace, P: Platform, o: Opened, jwks: Value)
    ensures Clean(SignatureTrace(t, P, o, jwks)) <==> Clean(t) && PageVerify(P, o.jws, jwks).Some?
  {
    AddFails(t, Some(true), ReceiptSigned);
  }

  lemma CleanNames(t: Trace, P: Platform, o: Opened)
    requires o.domain != ""
    ensures Clean(DidTrace(NodeTrace(t, P, o), P, o)) <==> Clean(t) && NamesItself(P, o)
  {
    AddFails(t, Some(false), SubjectNode);
    AddFails(NodeTrace(t, P, o), Some(false), IssuerDid);
  }

  lemma CleanInner(t: Trace, inners: seq<Inner>)
    ensures Clean(InnerTrace(t, inners)) <==> Clean(t) && AllHold(inners)
  {
    FullCount(inners, 0);
    AddFails(t, Some(false), InnerSignatures);
    AddFails(t, Some(true), InnerSignatures);
  }

  lemma CleanFingerprint(t: Trace)
    ensures Clean(FingerprintTrace(t)) <==> Clean(t)
  {
    AddFails(t, Some(true), Fingerprint);
  }

  /** Before the log is asked nothing has failed exactly when the domain may be host-owned and has signed. */
  lemma {:induction false} CleanBeforeLog(P: Platform, w: World, o: Opened)
    requires o.domain != ""
    ensures Clean(BeforeLog(P, w, o))
       <==> PublicSuffix.OwnedState(o.domain, w.lists) != PublicSuffix.Fail && SignedByDomain(P, w, o)
  {
    var own, jwks := PublicSuffix.OwnedState(o.domain, w.lists), KeysOfAnswer(w.jwks);
    var t1 := IssuerTrace(Start(), own);
    var t2 := KeysTrace(t1, w.jwks);
    var t3 := SignatureTrace(t2, P, o, jwks);
    var t4 := DidTrace(NodeTrace(t3, P, o), P, o);
    var t5 := InnerTrace(t4, InnersOf(P, o.attestations, jwks));
    CleanIssuer(Start(), own);
    CleanKeys(t1, w.jwks);
    CleanSignature(t2, P, o, jwks);
    CleanNames(t3, P, o);
    CleanInner(t4, InnersOf(P, o.attestations, jwks));
    CleanFingerprint(t5);
  }

  /** Where reading the log's answer stops the run: an audit path or a root hash that does not decode where the loop
      needs it, or a log_id with a malformed escape. */
  predicate LogThrows(P: Platform, w: World) {
    w.proof.Some?
    && var proof := w.proof.value;
       BrowserInclusion.InclusionThrows(P, proof.index, proof.size, DecodePath(proof.path),
                                        DecodeText(proof.head.rootHash))
       || MalformedDid(P, TextOf(P, proof.head.logId))
  }

  lemma {:induction false} HeadThrows(P: Platform, o: Opened, proof: PageProof, web: string -> Option<Json>)
    ensures HeadOutcomeOf(P, o, proof, web) == Threw <==> MalformedDid(P, TextOf(P, proof.head.logId))
  {
    var log := TextOf(P, proof.head.logId);
    MalformedExactly(P, log);
    if DidWebDocumentUrl(P, log).At? {
      HostOfAddress(P, log);
    }
  }

  lemma {:induction false} LogThrowsExactly(P: Platform, H: HashFn, w: World, o: Opened)
    ensures LogThrows(P, w) <==> w.proof.Some? && (Included(P, H, o, w.proof.value).None?
                                                  || HeadOutcomeOf(P, o, w.proof.value, w.web) == Threw)
  {
    if w.proof.Some? {
      var proof := w.proof.value;
      BrowserInclusion.ThrowsExactly(P, H, P.utf8(Reference(P, H, o)), proof.index, proof.size, DecodePath(proof.path),
                                     DecodeText(proof.head.rootHash));
      HeadThrows(P, o, proof, w.web);
    }
  }

  lemma CleanLog(t: Trace, P: Platform, H: HashFn, w: World, o: Opened)
    ensures Clean(LogTrace(t, P, H, o, w.proof, w.web)) <==> Clean(t) && !LogThrows(P, w)
  {
    LogThrowsExactly(P, H, w, o);
    AddFails(t, None, LogInclusion);
    if w.proof.Some? && Included(P, H, o, w.proof.value).Some? {
      var first := Passed(Included(P, H, o, w.proof.value).value);
      AddFails(t, first, InclusionRecomputes);
      AddFails(Add(t, first, InclusionRecomputes),
               Passed(HeadOutcomeOf(P, o, w.proof.value, w.web) == SignedByOperator), HeadSigned);
    }
  }

  lemma VerdictGood(t: Trace, own: PublicSuffix.State, anchored: bool)
    ensures VerdictOf(t, own, anchored) == Verdict.Verified <==> Clean(t) && own == PublicSuffix.Pass && anchored
    ensures VerdictOf(t, own, anchored) == SignatureVerified <==> Clean(t) && own == PublicSuffix.Pass && !anchored
  {
  }

  lemma AnchoredIsRead(P: Platform, H: HashFn, w: World, o: Opened)
    requires AnchoredBy(P, H, o, w.proof, w.web)
    ensures !LogThrows(P, w)
  {
    LogThrowsExactly(P, H, w, o);
  }

  /** The verdict, stage by stage no more: what each of the two good verdicts means. */
  lemma {:induction false} VerdictExactly(P: Platform, H: HashFn, w: World, pasted: string)
    requires Open(P, pasted).Some?
    ensures var o := Open(P, pasted).value;
            var good := PublicSuffix.OwnedState(o.domain, w.lists) == PublicSuffix.Pass && SignedByDomain(P, w, o);
            && (FinalVerdict(P, H, w, pasted) == Verdict.Verified <==> good && AnchoredBy(P, H, o, w.proof, w.web))
            && (FinalVerdict(P, H, w, pasted) == SignatureVerified
                <==> good && !LogThrows(P, w) && !AnchoredBy(P, H, o, w.proof, w.web))
  {
    var o := Open(P, pasted).value;
    CleanBeforeLog(P, w, o);
    CleanLog(BeforeLog(P, w, o), P, H, w, o);
    VerdictGood(RunTrace(P, H, w, o), PublicSuffix.OwnedState(o.domain, w.lists), AnchoredBy(P, H, o, w.proof, w.web));
    if AnchoredBy(P, H, o, w.proof, w.web) {
      AnchoredIsRead(P, H, w, o);
    }
  }

  /** Nothing is known exactly when the domain's keys are behind a redirect, or all is signed but the lists are missing.
      With the lemma before, this says of every run which of the four verdicts it gets. */
  lemma {:induction false} UnknownExactly(P: Platform, H: HashFn, w: World, pasted: string)
    requires Open(P, pasted).Some?
    ensures var o := Open(P, pasted).value;
            var own := PublicSuffix.OwnedState(o.domain, w.lists);
            FinalVerdict(P, H, w, pasted) == Unknown
            <==> (own != PublicSuffix.Fail && w.jwks.Redirected?)
                 || (own == PublicSuffix.Unknown && SignedByDomain(P, w, o) && !LogThrows(P, w))
  {
    var o := Open(P, pasted).value;
    CleanBeforeLog(P, w, o);
    CleanLog(BeforeLog(P, w, o), P, H, w, o);
    StoppedAtRedirect(P, w, o);
    LogKeepsUnknown(BeforeLog(P, w, o), P, H, w, o);
    VerdictUnknown(RunTrace(P, H, w, o), PublicSuffix.OwnedState(o.domain, w.lists),
                   AnchoredBy(P, H, o, w.proof, w.web));
  }

  lemma LogKeepsUnknown(t: Trace, P: Platform, H: HashFn, w: World, o: Opened)
    ensures LogTrace(t, P, H, o, w.proof, w.web).ending == StoppedUnknown <==> t.ending == StoppedUnknown
  {
  }

  lemma VerdictUnknown(t: Trace, own: PublicSuffix.State, anchored: bool)
    ensures VerdictOf(t, own, anchored) == Unknown
       <==> t.ending == StoppedUnknown || (Clean(t) && own != PublicSuffix.Pass)
  {
  }

  lemma StoppedAtRedirect(P: Platform, w: World, o: Opened)
    ensures BeforeLog(P, w, o).ending == StoppedUnknown
       <==> PublicSuffix.OwnedState(o.domain, w.lists) != PublicSuffix.Fail && w.jwks.Redirected?
  {
  }

  /** The verdict that is left to a log answer. */
  function LogVerdict(throws: bool, anchored: bool): Verdict {
    if throws then NotVerified else if anchored then Verdict.Verified else SignatureVerified
  }

  lemma VerdictLeft(v: Verdict, throws: bool, anchored: bool)
    requires v != Unknown && (anchored ==> !throws)
    requires v == Verdict.Verified <==> anchored
    requires v == SignatureVerified <==> !throws && !anchored
    ensures v == LogVerdict(throws, anchored)
  {
  }

  lemma {:induction false} LogDecides(P: Platform, H: HashFn, w: World, pasted: string, o: Opened)
    requires Open(P, pasted) == Some(o)
    requires PublicSuffix.OwnedState(o.domain, w.lists) == PublicSuffix.Pass && SignedByDomain(P, w, o)
    ensures FinalVerdict(P, H, w, pasted) == LogVerdict(LogThrows(P, w), AnchoredBy(P, H, o, w.proof, w.web))
  {
    VerdictExactly(P, H, w, pasted);
    UnknownExactly(P, H, w, pasted);
    if AnchoredBy(P, H, o, w.proof, w.web) {
      AnchoredIsRead(P, H, w, o);
    }
    VerdictLeft(FinalVerdict(P, H, w, pasted), LogThrows(P, w), AnchoredBy(P, H, o, w.proof, w.web));
  }

  /** A missing proof never makes a verdict worse, as section 3 of the transparency log's specification wants it. But a
      proof that makes the page throw does: it turns "signature verified" into "not verified". */
  lemma {:induction false} LogCannotFailUnlessItThrows(P: Platform, H: HashFn, w: World, pasted: string)
    requires FinalVerdict(P, H, w.(proof := None), pasted) == SignatureVerified
    ensures Open(P, pasted).Some?
    ensures FinalVerdict(P, H, w, pasted)
         == LogVerdict(LogThrows(P, w), AnchoredBy(P, H, Open(P, pasted).value, w.proof, w.web))
  {
    var o, without := Open(P, pasted).value, w.(proof := None);
    VerdictExactly(P, H, without, pasted);
    assert SignedByDomain(P, without, o) == SignedByDomain(P, w, o);
    LogDecides(P, H, w, pasted, o);
  }

  /** So an answer whose path holds an element that is no text costs a receipt its verdict. */
  lemma {:induction false} BadPathFails(P: Platform, H: HashFn, w: World, pasted: string, head: TreeHead, jws: Value)
    requires FinalVerdict(P, H, w.(proof := None), pasted) == SignatureVerified
    requires w.proof == Some(PageProof(head, jws, Some(Num(0.0)), Some(Num(2.0)), [Some(Null)]))
    ensures FinalVerdict(P, H, w, pasted) == NotVerified
  {
    assert DecodePath([Some(Null)]) == [None];
    BrowserInclusion.BadElementThrows(P, H, [], DecodeText(head.rootHash));
    LogCannotFailUnlessItThrows(P, H, w, pasted);
  }

  /** The tree head is signed by a key published at the did:web address in its own log_id, and that host is not the
      issuing domain's. */
  ghost predicate HeadSignedIndependently(P: Platform, o: Opened, proof: PageProof, web: string -> Option<Json>) {
    var log := TextOf(P, proof.head.logId);
    var url, host := DidWebDocumentUrl(P, log), DidWebHost(P, Some(Str(log)));
    && url.At? && host.Some? && web(url.url).Some? && !SameOperator(host.value, o.domain)
    && SignedUnder(P, TextOf(P, proof.jws), Some(PageOperatorKeys(web(url.url))))
  }

  ghost predicate AllSignedUnder(P: Platform, atts: seq<Json>, jwks: Value) {
    forall i :: 0 <= i < |atts| ==> SignatureOf(atts[i]).Some? && SignedUnder(P, SignatureOf(atts[i]).value, jwks)
  }

  lemma {:induction false} HoldsIsSigned(P: Platform, att: Json, jwks: Value)
    requires InnerOf(P, att, jwks) == Holds
    ensures SignatureOf(att).Some? && SignedUnder(P, SignatureOf(att).value, jwks)
  {
    PageVerifiedByItsKey(P, SignatureOf(att).value, jwks);
  }

  lemma {:induction false} AllHoldIsSigned(P: Platform, atts: seq<Json>, jwks: Value)
    requires AllHold(InnersOf(P, atts, jwks))
    ensures AllSignedUnder(P, atts, jwks)
  {
    forall i | 0 <= i < |atts| ensures SignatureOf(atts[i]).Some? && SignedUnder(P, SignatureOf(atts[i]).value, jwks) {
      InnersAt(P, atts, jwks, i);
      HoldsIsSigned(P, atts[i], jwks);
    }
  }

  lemma {:induction false} OperatorSigned(P: Platform, o: Opened, proof: PageProof, web: string -> Option<Json>)
    requires HeadOutcomeOf(P, o, proof, web) == SignedByOperator
    ensures HeadSignedIndependently(P, o, proof, web)
  {
    var url := DidWebDocumentUrl(P, TextOf(P, proof.head.logId));
    PageVerifiedByItsKey(P, TextOf(P, proof.jws), Some(PageOperatorKeys(web(url.url))));
  }

  /** A verified receipt: the issuer is a host-owned domain, a key of its set that the header names signed the receipt
      and every attestation in it, and an independent log's operator signed the tree head. */
  lemma {:induction false} VerifiedIsSigned(P: Platform, H: HashFn, w: World, pasted: string)
    requires FinalVerdict(P, H, w, pasted) == Verdict.Verified
    ensures Open(P, pasted).Some? && w.jwks.Answered? && w.proof.Some?
    ensures var o, jwks := Open(P, pasted).value, Some(w.jwks.doc);
            && PublicSuffix.OwnedState(o.domain, w.lists) == PublicSuffix.Pass
            && SignedUnder(P, o.jws, jwks) && o.attestations != [] && AllSignedUnder(P, o.attestations, jwks)
            && HeadSignedIndependently(P, o, w.proof.value, w.web)
  {
    var o, jwks := Open(P, pasted).value, KeysOfAnswer(w.jwks);
    VerdictExactly(P, H, w, pasted);
    PageVerifiedByItsKey(P, o.jws, jwks);
    AllHoldIsSigned(P, o.attestations, jwks);
    OperatorSigned(P, o, w.proof.value, w.web);
  }

  /** And its reference is an entry of the log behind the signed root, whatever index, size and path the proof shows, or
      this finds the collision. */
  function VerifiedCollision(P: Platform, H: HashFn, w: World, pasted: string, entries: seq<Bytes>)
    : (c: Option<Collision>)
    requires FinalVerdict(P, H, w, pasted) == Verdict.Verified
    requires w.proof.Some? && DecodeText(w.proof.value.head.rootHash) == Some(MerkleTreeHash(H, entries))
    ensures c.Some? ==> IsCollision(H, c.value)
    ensures c.None? ==> Open(P, pasted).Some? && P.utf8(Reference(P, H, Open(P, pasted).value)) in entries
  {
    VerdictExactly(P, H, w, pasted);
    var o, proof := Open(P, pasted).value, w.proof.value;
    BrowserInclusion.PageCollision(P, H, P.utf8(Reference(P, H, o)), proof.index, proof.size, DecodePath(proof.path),
                                   entries)
  }
}
