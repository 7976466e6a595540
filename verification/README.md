# Vacation Rental Protocol: a verified model

The Vacation Rental Protocol lets a host sign stay offers and booking receipts under its own domain, and lets anyone
check them: against the domain's published keys, against the clock, and against a transparency log that somebody else
operates. This project models that core in Dafny and proves what its parts promise, separately and together:

- the transparency log (`lib/vrp-tlog.mjs`): provers that split lists from the top down, verifiers that fold hashes from
  the bottom up along two shifted integers, signed tree heads, anchoring and append-only audits;
- the offer verifier and the offer producer (`verify.html`, `implement.html`): the Public Suffix List scan, dates told by
  roll-over, JSON equality, base64url, discovery, the three-way verdict, and the two pages end to end;
- receipts and tokens (`lib/vrp-receipt.mjs`, `lib/vrp-jws.mjs`, `verify-receipt.html`): layers that are verified one by one
  in their own windows of time, key selection by `kid`, and the receipt page's run.

## How it is modelled

- One module a component. Loops are methods with invariants, proved against functions; pages that keep state (the list of
  checks, the key kept between signings, the Date object) are classes; expressions are functions.
- SHA-256 is a parameter `H` from bytes to 32 bytes, and nothing is assumed of it. "Or a collision" is a function that
  returns the two colliding inputs; that some collision exists says nothing, as there are more inputs than digests.
- Ed25519, `JSON.parse`, the URL parser, `Date.parse` and their kin are fields of a record (`Platform`, `Browser`). Laws
  about them are stated only where a result needs them: `EndToEnd.Lawful`, `EndToEnd.Works`, `Instants.ParsesDates`.
- Integers are unbounded; `Int32` writes out what JavaScript's `>>`, `<<` and `&` do to them. Numbers in documents are
  reals; that a double holds only some of them is stated where documents go through their texts (`EndToEnd.IsDouble`).
- The offer verdict reads the clock three times, as the page does; all clocks are in milliseconds.

## What came out

- `largestPowerOfTwoLessThan` ends exactly for sizes up to 2^30; the first loop of `verifyConsistency` never ends exactly
  when the older size is a multiple of 2^32. Both verifiers compute the unbounded answer for every index or older size and
  every proof length exactly for sizes up to 2^31, and refuse everything while bit 31 of size - 1 is set.
- `verifyConsistency` checks the length of nothing it hashes. An accepted proof forces the older root where the first
  element of the path is 32 bytes long (or more than 64). For every other length up to 64 bytes a wrong older root is
  accepted, or a collision is found: in a log of two, 31 bytes pass for the root of size 1
  (`Consistency.ShortRootAccepted`). Between two tree hashes acceptance always means an append.
- `inclusion.tree_size` is never compared with the tree head's own size, although section 8 of
  `spec/transparency-log-v0.1.md` describes verification against the tree size. What is anchored is an entry of the log
  all the same, whatever index and size are claimed; it is the entry at the claimed index exactly when no other leaf of the
  log lies where the claim leads. For the log's own size that is so up to 2^32 entries, and not beyond: of 2^32 + 1 entries
  the last is accepted as entry 1 of that very size. With another size it fails at once: in every log of three, entry 2 is
  accepted as entry 1 of two.
- The browser's copy of the inclusion loop converts whatever it is given, where the library wants integers: in a tree of
  two, an index of 0.5 or no index at all stands for the first entry (`BrowserInclusion.StrangeIndexAccepted`). The two
  agree on every path and root exactly for integers, for an index out of range, and where bit 31 of size - 1 is set.
  Membership holds in either.
- In the library, a key that does not import ends the search and hides good keys behind it. Every order of the keys gives
  one outcome exactly when all keys under the token's kid import, or none of them verifies it. The offer page looks at the
  first key under the kid alone, so there the order matters exactly unless all of them make the same of the token.
- The Public Suffix List scan depends on the order of its rules exactly when two matching exception rules differ in length.
- A returned offer that is `null` is not compared with the signed payload: `null` also stands for a bare token. An offer
  that passes still passes when its copy is replaced by `null`, and only then does the copy not denote the payload.
- An `alg` whose text contains "No matching Ed25519 key" changes the reason that a tree head is refused for, nothing else.
- A missing log proof never makes a receipt fail, as section 3 of `spec/transparency-log-v0.1.md` asks. One that makes the
  page throw does: exactly an audit path or a root hash that does not decode where the loop gets to it, or a `log_id` with a
  malformed escape.

## Model

| member | source | states |
|---|---|---|
| `Merkle.SplitPointIsUnique` | lib/vrp-tlog.mjs:52-56 | the split point is the one power of two k with k < n <= 2k |
| `Merkle.BuildIsTheTree` | lib/vrp-tlog.mjs:59-65 | the tree built by splitting holds exactly the list, in order, and its root hash is the list's tree hash |
| `Merkle.TreeCollision` | lib/vrp-tlog.mjs:44-50 | two trees with one root hash are the same tree, or the colliding inputs are returned; leaf and node prefixes keep the kinds apart |
| `Merkle.ListCollision` | lib/vrp-tlog.mjs:59-65 | lists of any lengths with one tree hash are equal, or a collision is returned |
| `Int32.PowerOfTwoTest` | lib/vrp-tlog.mjs:119-151 | `(m & (m - 1)) === 0` holds exactly for powers of two, for every size up to 2^31 |
| `Int32.LowBitIsAnd` | lib/vrp-tlog.mjs:78-101 | `x & 1` is the parity of x, for negative and out-of-range operands too |
| `Routes.CeilLog2IsLeast` | lib/vrp-tlog.mjs:68-75 | CeilLog2(n), the bound on proof lengths below, is the least h with n <= 2^h |
| `Inclusion.LargestPowerOfTwoLessThan` | lib/vrp-tlog.mjs:52-56 | up to 2^30 the 32-bit loop ends with the split point |
| `Inclusion.SplitLoopEnds` | lib/vrp-tlog.mjs:52-56 | the loop ever meets a false guard if and only if n <= 2^30 |
| `Routes.RouteIsPath` | lib/vrp-tlog.mjs:68-101 | the sides found by shifting fn and sn upward are those found by splitting downward, for every index and size |
| `Routes.StrippedRouteIsConsistencyPath` | lib/vrp-tlog.mjs:104-151 | after the trailing ones are shifted out, the shifting loop walks the sides of the recursive consistency proof |
| `Inclusion.ShiftPastZeros` | lib/vrp-tlog.mjs:89-92 | the inner do-while ends for every pair of integers, with both shifted alike |
| `Inclusion.FoldPath` | lib/vrp-tlog.mjs:81-100 | the loop's root is the fold of the proof along the sides of its walk, or it gives up just where the walk does |
| `Inclusion.VerifyInclusion` | lib/vrp-tlog.mjs:78-101 | the method accepts exactly the proofs whose fold along the walk is the root |
| `Inclusion.WalkIsRoute` | lib/vrp-tlog.mjs:81-99 | for sizes up to 2^31 the 32-bit walk is the unbounded one |
| `Inclusion.ThirtyTwoBitsSuffice` | lib/vrp-tlog.mjs:81-99 | the 32-bit walk equals the unbounded one for every index and proof length if and only if the size is at most 2^31 |
| `Inclusion.TopBitRejectsAll` | lib/vrp-tlog.mjs:81-99 | a size whose last index has bit 31 set accepts no proof at all |
| `Inclusion.ProofIsSiblings` | lib/vrp-tlog.mjs:68-75 | the recursive proof is the list of sibling hashes on the way from the entry's leaf |
| `Inclusion.InclusionCompleteness` | lib/vrp-tlog.mjs:68-101 | every entry's own proof is accepted, for every list of up to 2^31 entries; the code's own prover ends for up to 2^30 of them (`Inclusion.SplitLoopEnds`) |
| `Inclusion.InclusionCollision` | lib/vrp-tlog.mjs:68-101 | an accepted proof for the log's size is, for logs of up to 2^31 entries, about the entry at that index and equals the prover's proof, or a collision is returned |
| `Inclusion.LeafHashCollision` | lib/vrp-tlog.mjs:78-101 | the same, up to 2^31 entries, for any 32-byte leaf hash: it is the hash of that entry |
| `Inclusion.AnySizeCollision` | lib/vrp-tlog.mjs:78-101 | whatever index and size are claimed, an accepted entry is in the list behind the root, or a collision is returned |
| `Inclusion.ClaimCollision` | lib/vrp-tlog.mjs:78-101 | an accepted claim of index i and size s proves the entry of a leaf whose path is the claimed walk, or a collision is returned |
| `Inclusion.ClaimsOneLeaf` | lib/vrp-tlog.mjs:78-101 | a claim leads to at most one leaf of a log |
| `Inclusion.ClaimedProofAccepted` | lib/vrp-tlog.mjs:78-101 | the proof of the leaf that a claim leads to is accepted under that claim |
| `Inclusion.IndexIsTrueExactly` | lib/vrp-tlog.mjs:78-101 | whatever is accepted as entry i of s in a log of n, free of collisions, is entry i of that log if and only if no other leaf of it has the claimed path |
| `Inclusion.OwnSizeNamesOnly` | lib/vrp-tlog.mjs:78-101 | a claim with the log's own size, up to 2^32 entries, leads to no other leaf |
| `Inclusion.OwnSizeMisleads` | lib/vrp-tlog.mjs:78-101 | at 2^32 + 1 entries it does: entry 1 of that size leads to the last leaf |
| `Inclusion.OwnSizeMisleadsAccepted` | lib/vrp-tlog.mjs:78-101 | so the last of 2^32 + 1 entries is accepted as entry 1 of that very size |
| `Inclusion.OtherIndexAccepted` | lib/vrp-tlog.mjs:78-101 | in every log of three, entry 2 is accepted as entry 1 of two |
| `Inclusion.InclusionProofLength` | lib/vrp-tlog.mjs:78-101 | no proof longer than ceil(log2 n), the least h with n <= 2^h, is accepted, for any size; up to 2^31 only the path's own length is |
| `Inclusion.InclusionProofBound` | lib/vrp-tlog.mjs:68-75 | none longer than ceil(log2 n) is made |
| `Consistency.StripLoopEnds` | lib/vrp-tlog.mjs:124-129 | the loop that shifts out trailing ones ever ends if and only if the older size is not a multiple of 2^32 |
| `Consistency.VerifyConsistency` | lib/vrp-tlog.mjs:119-151 | the method accepts exactly the proofs that fold to both roots, for all sizes but those for which it never ends |
| `Consistency.FoldBoth` | lib/vrp-tlog.mjs:130-150 | one pass computes both folds, the older root by the left siblings only |
| `Consistency.StrippedWalkIsPath` | lib/vrp-tlog.mjs:124-149 | for sizes up to 2^31 the loop walks the consistency path and accepts its length alone |
| `Consistency.ThirtyTwoBitsSufficeHere` | lib/vrp-tlog.mjs:124-149 | the loop's walk is the unbounded one, for every older size for which it ends and every proof length, if and only if the newer size is at most 2^31 |
| `Consistency.TopBitRejectsConsistency` | lib/vrp-tlog.mjs:119-151 | a newer size whose last index has bit 31 set accepts no consistency proof at all |
| `Consistency.PrefixTreeIsOlderTree` | lib/vrp-tlog.mjs:104-116 | the part of the tree up to entry m is the tree of the first m entries |
| `Consistency.SubproofIsSiblings` | lib/vrp-tlog.mjs:110-116 | SUBPROOF is the seed subtree's hash followed by its siblings |
| `Consistency.ConsistencyCompleteness` | lib/vrp-tlog.mjs:104-151 | every prover's proof is accepted against the older and newer root, powers of two included, for up to 2^31 entries; the code's own prover ends for up to 2^30 of them |
| `Consistency.ConsistencyCollision` | lib/vrp-tlog.mjs:119-151 | for logs of up to 2^31 entries, an accepted proof for the log's size whose first path element has 32 bytes, or more than 64, forces the first root to be the hash of the first m entries and the proof to be the prover's, or a collision is returned; no other length is asked for |
| `Consistency.RecutAccepted` | lib/vrp-tlog.mjs:119-151 | for every log of up to 2^31 entries, every older size and every length from 0 to 64 bytes, a proof whose first path element has that length is accepted |
| `Consistency.RecutCollision` | lib/vrp-tlog.mjs:119-151 | and for every such length but 32 its first root is not the hash of the first m entries, or a collision is returned |
| `Consistency.ShortRootAccepted` | lib/vrp-tlog.mjs:119-151 | in every log of two, the first 31 bytes of the two leaf hashes are accepted as the root of size 1 |
| `Consistency.AppendCollision` | lib/vrp-tlog.mjs:119-151 | between two tree hashes of any lists, with any sizes claimed, acceptance means the older list is a prefix of the newer, or a collision is returned |
| `Consistency.ConsistencyProofLength` | lib/vrp-tlog.mjs:119-151 | no proof longer than ceil(log2 n) + 1 is accepted, for any sizes |
| `Consistency.ConsistencyProofBound` | lib/vrp-tlog.mjs:104-116 | none longer is made |
| `TreeHeads.JwksFromDidDocument` | lib/vrp-tlog.mjs:160-171 | the loop collects the Ed25519 keys of the verification methods in their order |
| `TreeHeads.KeysAreOfMethods` | lib/vrp-tlog.mjs:160-171 | a key is in the set if and only if it is the key of one of the document's verification methods |
| `TreeHeads.ValidHeadHasMethod` | lib/vrp-tlog.mjs:160-206 | a valid head's token is verified by the key of a verification method in the operator's own document |
| `TreeHeads.ValidHeadIsSigned` | lib/vrp-tlog.mjs:190-206 | a valid head's very fields were signed by a key that the operator publishes under the token's kid |
| `TreeHeads.ReasonOfRefusal` | lib/vrp-tlog.mjs:195-205 | a head is refused for want of a published key if and only if no operator key carries the token's kid, or the token's alg contains the words looked for; its validity depends on the token and the four fields only |
| `TreeHeads.SameOperatorIsByLabels` | lib/vrp-tlog.mjs:174-179 | two hosts have one operator if and only if one's labels are the other's or end with them; symmetric |
| `TreeHeads.AnchoredIsGrounded` | lib/vrp-tlog.mjs:221-247 | anchored implies a recomputing proof, a head signed by its operator, and an operator that is not the issuer |
| `TreeHeads.GroundedIsAnchored` | lib/vrp-tlog.mjs:221-247 | and the converse, where the operator's keys of that kid import |
| `TreeHeads.AnchoredCollision` | lib/vrp-tlog.mjs:221-247 | an anchored artifact's hash is an entry of the log behind the signed root, whatever size the proof claims, or a collision is returned |
| `TreeHeads.AnchoredIndexCollision` | lib/vrp-tlog.mjs:221-247 | where no other leaf has the claimed path, the anchored artifact is the entry at the claimed index, or a collision is returned |
| `TreeHeads.AnchoredAtOwnSizeCollision` | lib/vrp-tlog.mjs:221-247 | so it is for every proof that claims the log's own size, up to 2^32 entries |
| `TreeHeads.ClaimIsNotCompared` | lib/vrp-tlog.mjs:230-246 | replacing index and size by others that the loop walks alike changes nothing in the answer |
| `TreeHeads.AuditCollision` | lib/vrp-tlog.mjs:256-275 | a consistent pair of heads over two lists is an append, or a collision is returned |
| `TreeHeads.HistoryCollision` | lib/vrp-tlog.mjs:256-275 | along any chain of consistent pairs every earlier list is a prefix of every later one, or a collision is returned |
| `Jws.AcceptedByItsKey` | lib/vrp-jws.mjs:31-61 | an accepted token is verified by a key of the set under its own kid; where those keys import, that is all it takes |
| `Jws.OrderMattersExactly` | lib/vrp-jws.mjs:43-60 | every reordering of a key set accepts or refuses a token alike if and only if all its keys under the token's kid import, or none verifies the token |
| `Jws.FirstDecides` | lib/vrp-jws.mjs:54-60 | the first key under the kid decides: if it does not import the token is refused whatever follows, if it verifies it is accepted |
| `Jws.OtherKeysDoNotMatter` | lib/vrp-jws.mjs:43-50 | over any history of insertions and deletions of keys with other kids, the outcome stays the same, error included |
| `Jws.RevokedIsRefused` | lib/vrp-jws.mjs:48-50 | a token is refused for want of a key if and only if no key carries its kid |
| `Receipt.ValidateReceiptShape` | lib/vrp-receipt.mjs:41-65 | the loops with early returns accept exactly the receipts of the schema's required shape |
| `Receipt.VerifyReceipt` | lib/vrp-receipt.mjs:106-120 | wrong version, malformed or verified layer by layer; fully verified only with at least one layer and all of them fine |
| `Receipt.LayerIsItsOwn` | lib/vrp-receipt.mjs:67-97 | a layer's result is that of its attestation in any receipt, at any position, among any others |
| `Receipt.LayerLife` | lib/vrp-receipt.mjs:93-96 | in time a layer only moves from not yet valid to verified to expired, reaches verified exactly when its window is not empty, and a broken layer never changes |
| `Receipt.JoinedIsBoth` | lib/vrp-receipt.mjs:117-119 | a receipt whose list joins two others is fully verified if and only if both are |
| `Receipt.FullyVerifiedExactly` | lib/vrp-receipt.mjs:106-120 | a receipt is fully verified exactly in the intersection of its windows, and only if every key and signature holds |
| `PublicSuffix.HostOwned` | verify.html:465-496 | the scan with its early exits yields the state that suffix length and top-level domain prescribe |
| `PublicSuffix.ScanIsPrescribed` | verify.html:476-485 | the scan's suffix is one the list's algorithm prescribes (an exception first, else the longest match, else `*`), and where the matching exceptions agree it is the only one |
| `PublicSuffix.OrderIndependence` | verify.html:478-484 | every reordering of the rules yields the same suffix if and only if the matching exceptions agree in length |
| `PublicSuffix.RegistrableIsIdempotent` | verify.html:485-490 | the registrable domain of a registrable domain is itself |
| `PublicSuffix.RegistrableIsOwned` | verify-receipt.html:383-402 | the last suffix + 1 labels of any longer name pass as a host-owned domain, unless the top-level domain is closed |
| `Calendar.JsDate.SetUTCFullYear` | verify.html:554-557 | the Date lies on the day that the given fields roll over to, at its old time of day, and reads back those fields if and only if the date exists |
| `Calendar.RollOverDetects` | verify.html:557-557 | reading back the fields just set succeeds if and only if the date exists, leap years included |
| `Calendar.CivilOfDayNumber` | verify.html:550-558 | for dates that exist, day number and civil date undo each other |
| `Calendar.ParseDate` | verify.html:550-558 | a value for exactly the texts that denote dates that exist: midnight UTC of that day |
| `Calendar.TextOrderIsTimeOrder` | verify.html:550-558 | of two valid dates the smaller text is the earlier instant, and equal instants have equal texts |
| `Instants.DateTimeIsExact` | verify.html:539-548 | a value for exactly the texts of that shape whose fields all exist, within the second they name |
| `Instants.StampIsReal` | verify.html:544-546 | the UTC fields of every instant exist and name the second it lies in |
| `Instants.SecondTextIsStamp` | implement.html:634-635 | toISOString without its fraction is the text of the instant's second |
| `Instants.SecondTextReadsBack` | implement.html:634-635 | what the signer writes, the verifier reads back as the start of that second |
| `Documents.SameJsonIsEquality` | verify.html:529-536 | the comparison holds if and only if both documents denote the same value, objects as finite maps |
| `Documents.SameJsonIsEquivalence` | verify.html:529-536 | it is reflexive, symmetric and transitive |
| `Documents.MemberOrderIsIgnored` | verify.html:529-536 | any reordering of an object's members compares equal |
| `Base64Url.B64urlFromBytes` | implement.html:568-573 | the loop over the byte buffer yields the encoding |
| `Base64Url.B64urlToBytes` | implement.html:577-585 | the loop fills a buffer with the decoded bytes, or throws exactly where decoding fails |
| `Base64Url.DecodeOfEncode` | implement.html:568-585 | decoding inverts encoding for every byte sequence |
| `Base64Url.EncodeIsInjective` | implement.html:568-573 | no two byte sequences share an encoding |
| `Base64Url.EncodingHasNoDot` | implement.html:568-576 | an encoding holds letters of the URL alphabet only, never the dot that separates a token's parts |
| `OfferPage.CheckDiscovery` | verify.html:564-585 | the list of findings holds exactly those that apply |
| `OfferPage.Render` | verify.html:655-848 | problems and cautions are exactly those that apply at the three readings of the clock, and the verdict follows them |
| `OfferPage.RenderStay` | verify.html:773-817 | the findings about dates, language tag and stay asked for |
| `OfferPage.RenderLifetime` | verify.html:737-770 | the findings about lifetime, freshness and skew |
| `OfferPage.QuotableExactly` | verify.html:656-848 | the verdict is pass if and only if everything timeless is in order and the three clock readings lie in one window with explicit ends |
| `OfferPage.OneBoundedWindow` | verify.html:737-848 | the passing clock readings have no gap and span less than 960 s, so an offer that stopped being quotable never is again |
| `OfferPage.RunLive` | verify.html:899-942 | the live verdict: stopped, could not verify, or judged |
| `OfferPage.PassedOfferIsTheHosts` | verify.html:899-942 | an offer that passes names a host-owned domain, its signature verified, and its returned copy denotes the signed payload if and only if the copy is not null |
| `OfferPage.NullCopyPasses` | verify.html:685-698 | an offer that passes still passes with null for its returned copy |
| `OfferPage.KeyOrderMattersExactly` | verify.html:383-423 | every reordering of the key set makes the same of a token if and only if all its keys under the token's kid do |
| `OfferPage.PastedNeverPasses` | verify.html:943-976 | with no host or no stay asked for, as for a pasted offer, the verdict is never pass |
| `Signer.KeyRing.EnsureKey` | implement.html:596-617 | the key of the same host is kept, another host gets the generated pair; either way it is the key made of the pair kept for that host |
| `Signer.KeyRing.Run` | implement.html:717-748 | one press of a button: the form refused, no key, or the documents signed with the kept pair, and which pair is kept afterwards |
| `EndToEnd.LaterKeySetVerifies` | implement.html:593-748 | what one press signs is verified under the key set published by any later press, as long as the presses from then on use that host's key again |
| `EndToEnd.CompactSplits` | implement.html:671-676 | three encodings joined by dots are split by the verifier into just these three, untouched by trimming |
| `EndToEnd.SignedVerifies` | implement.html:671-687 | what is signed verifies in the producer and in the verifier, and the verifier reads the very document that was signed |
| `EndToEnd.OfferSeen` | implement.html:619-669 | every field the verifier looks at in a built offer, found and as the signer meant it |
| `EndToEnd.DiscoveryIsClean` | implement.html:689-704 | the built discovery document has none of the verifier's findings |
| `EndToEnd.SignedLifetime` | implement.html:620-635 | the verifier reads a lifetime of exactly 600 s from every built offer, although both ends lose their milliseconds |
| `EndToEnd.SignedOfferPasses` | implement.html:619-748 | for every host-owned domain and real stay, what is published passes live verification if and only if the clock readings lie between 60 s before signing (to the second) and 600 s after it, and before the day after arrival is over |
| `BrowserInclusion.VerifyInclusion` | verify-receipt.html:420-442 | the page's loop, which decodes as it goes, accepts, refuses or throws as specified, whatever values it is given for index and size |
| `BrowserInclusion.PageIsLibrary` | verify-receipt.html:420-442 | for whole numbers and paths that decode, page and library give one answer |
| `BrowserInclusion.AgreeExactly` | verify-receipt.html:420-442 | page and library agree on every decoding path and root for values of any kind, if and only if both are integers, the index is out of range, or bit 31 of size - 1 is set |
| `BrowserInclusion.StrangeIndexAccepted` | verify-receipt.html:420-442 | in a tree of two, a missing index and the index 0.5 are accepted for the first entry |
| `BrowserInclusion.ThrowsExactly` | verify-receipt.html:427-441 | the loop throws if and only if the index is in range and either an element that does not decode comes before sn is 0 at an earlier turn, or all decode, sn first is 0 at the end of the path, and the root does not decode |
| `BrowserInclusion.PageCollision` | verify-receipt.html:420-442 | what the page finds included, under any index and size, numbers or not, is an entry behind the root, or a collision is returned |
| `BrowserJws.VerifyJws` | verify-receipt.html:299-330 | the loop over the keys returns the payload, or throws, as the search over the candidates decides |
| `BrowserJws.PageVerifiedByItsKey` | verify-receipt.html:299-330 | a token that verifies does so under a key of the set that its kid names |
| `BrowserJws.MalformedExactly` | verify-receipt.html:447-454 | building the address of a DID document throws if and only if one of its colon-separated parts does not decode |
| `BrowserJws.JwksFromDidDocument` | verify-receipt.html:459-471 | the page's own loop over the operator's verification methods |
| `BrowserJws.PageKeysAreOfMethods` | verify-receipt.html:459-471 | a key is in the page's set if and only if it is the key that the page makes of one of the document's verification methods |
| `ReceiptPage.Page.Run` | verify-receipt.html:509-715 | the checks shown and the verdict, for every input and every point at which the run stops |
| `ReceiptPage.VerdictExactly` | verify-receipt.html:687-708 | VERIFIED and SIGNATURE VERIFIED if and only if domain, signatures, names and log are as stated, whatever the order of the stages |
| `ReceiptPage.UnknownExactly` | verify-receipt.html:687-713 | UNKNOWN if and only if the keys are behind a redirect, or all is signed but the lists are missing |
| `ReceiptPage.LogThrowsExactly` | verify-receipt.html:621-660 | reading the log's answer stops the run if and only if the inclusion loop throws or the log_id holds a malformed escape |
| `ReceiptPage.LogCannotFailUnlessItThrows` | verify-receipt.html:596-669 | a log answer turns a signature-verified receipt into a verified one or leaves it, unless reading it throws |
| `ReceiptPage.BadPathFails` | verify-receipt.html:624-630 | an audit path that holds null makes a signature-verified receipt fail |
| `ReceiptPage.VerifiedIsSigned` | verify-receipt.html:543-661 | VERIFIED implies a host-owned issuer, its key on the receipt and on every attestation, and a head signed by another operator |
| `ReceiptPage.VerifiedCollision` | verify-receipt.html:591-663 | and that the receipt's reference is an entry of the log behind the signed root, or a collision is returned |

## Left out

- Rendering, rows, facts panels, error texts and the demo pages: user interface only.
- Fetching, redirects, CORS, caching and the download and parsing of the two published lists: documents, rule lists and
  fetched answers are arguments.
- `runPaste` of `verify.html`: the same discovery check and verdict with no host and no stay asked for, so it never passes
  (`OfferPage.PastedNeverPasses`).
- `Signer.KeyRing.EnsureKey`: key generation is a given pair; the private JWK that the page shows is not modelled.
- `Signer.KeyRing.Run`: the form's fields are given as the page has trimmed, parsed and normalised them; years as below.
- `EndToEnd.SignedOfferPasses`: signing instants whose year has other than four digits, for which toISOString writes
  another form; guests and totals that a double does not hold, which JavaScript does not have; the property's slug is a
  given text.
- `BrowserInclusion.VerifyInclusion`: an index or size that is an object with a `toString` or `valueOf` member of its own,
  and an `audit_path` that is not a list.
- `TreeHeads.ValidHeadIsSigned`: a signed tree head that is an array or a text is taken for one without fields.
- `Receipt.ValidateReceiptShape`: the schema is the shipped one; `deref` over other schemas is not modelled.
- `TreeHeads.ReasonOfRefusal`: the messages of `JSON.parse`, which might quote a part that contains the words looked for;
  other messages of thrown errors.
- Fractions of a millisecond in date-times, and what Date.parse makes of texts of other forms, about which nothing is
  assumed.
- Host name normalisation and Punycode: hosts are given as the URL parser leaves them.
- Rules that the specifications state without code here: refunds, supersession, cache bounds, node seals, status lists.
- `scripts/`: building the site.
