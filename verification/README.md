# EduVault core, modelled and proved in Dafny

EduVault is a marketplace for course material. This project models the parts of
it that decide money, access and signatures, and proves what those parts promise.
Each module says in its header which source file it follows.

| module | what it models |
|---|---|
| `Wrappers`, `Text`, `Sorting`, `Spelling` | optional values, 16-bit strings, code-unit order, JavaScript whitespace, stable sorting, and the spelling rules for strings and keys |
| `Values`, `JsonText` | JavaScript values, the text `JSON.stringify` gives them, and a parser for it (RFC 8259, sections 4 to 7) |
| `Canonical`, `CanonicalCases`, `CanonicalText`, `Respelling` | canonical serialization: normal forms, what the text determines, what may be spelled differently |
| `KeyOrder`, `ParseBack`, `AssertCanonical` | when the text keeps the documented order of keys; when it can be read back; which payloads are canonical as written |
| `Signing`, `Receipt` | signing payloads and signature comparison; the receipt printer and its fallback digest |
| `Legacy`, `LegacyCases`, `LegacyFixed`, `LegacyFlatten`, `LegacyText` | dotted keys, array wrappers and boolean strings of old payloads |
| `Entitlement`, `EntitlementCases`, `EntitlementRuns`, `EntitlementService` | who may download what: one call, runs of calls, and the service with its collections |
| `Quota` | actor quotas as interleaved atomic database steps |
| `RateLimit`, `Proxy` | the sliding-window limiter and the route rules that drive it |
| `Fallback`, `Breaker`, `Degradation`, `DegradationCases` | the service registry, health probing with thresholds, and the policy gate in front of handlers |
| `Incident` | incident impact reports and their redacted view |
| `ApiClient`, `WalletBalances` | single-flight session refresh; balance fetches guarded by a token |

How the source is rendered:

* Code made of expressions and recursion is a function, and its promises are
  lemmas. Code that works step by step is a method proved to compute such a
  function (`CanonicalText.NormalizePayload`, `Incident.CalculateIncidentImpact`,
  `Signing.SignatureMatches`, and so on). Module-level state is a class
  (`EntitlementService.Service`, `Quota.QuotaManager`, `RateLimit.Limiter`,
  `Fallback.Registry`, `Degradation.Matrix`).
* Concurrent protocols (quotas, session refresh, balance fetches) are step
  relations; the theorems hold after every run of enabled steps. Entitlement runs
  consist of whole calls, mixed with arbitrary outside changes to purchases,
  materials and users.
* The database, the chain, probes, handlers and the clock appear as parameters:
  the answer each gives in a call, which operations throw, and the times read.
* The Unicode tables behind `normalize("NFC")` and `toLowerCase` are parameters
  constrained by the four facts in `Spelling.TableLaws`, which fix them on ASCII.
  Buyer-address normalization and the test for a completed purchase status are
  arbitrary functions.

Where the code does not do what it, or its documentation, says, there is an input
that shows it and the exact condition under which it does:

* The cache comment (`src/lib/entitlement.js:446-448`) says the cache "can never
  be the reason a download is served". In `Entitlement.CacheIsTheReason` it is:
  one second after a confirmed purchase the chain reports a refund, and only the
  cached entry grants. `Entitlement.UncachedDiffersIff` gives the condition by the
  guards of the short cut (`ServedFromCacheIff`), and
  `EntitlementRuns.CachedAccessIsJustified` what stands behind such an answer.
* Keys are documented as sorted "lexicographically (code-point order)"
  (`src/lib/canonical.js:8-9`). JavaScript objects list array indices first, by
  value, so "10" and "2" come out as "2", "10"
  (`KeyOrder.IndicesComeOutByValue`, `KeyOrder.IndexPayload`); and the code compares
  16-bit units, so U+1F600 comes before U+FF5E (`KeyOrder.SurrogatesComeOutByUnit`).
  `KeyOrder.UnitOrderIff` and `KeyOrder.PointOrderOfMembers` are exact for one
  object: every array index must fit, and no two keys may be crossed, that is,
  differ first where the smaller unit is half of a surrogate pair and the larger is
  not. `KeyOrder.DocumentedIff` is exact for a whole payload.
* With `dropUndefined`, an undefined array item is printed as null, so two normal
  forms can share a text (`CanonicalText.DropUndefinedCollision`);
  `CanonicalText.EqualTextIff` is the exact condition for equal texts, and by
  `ParseBack.TextParsesBackIff` the normal form can be read back from the text
  exactly when no array of the payload holds an undefined item.
* Legacy normalization is not idempotent (`LegacyFixed.NestedWrapperIsRefusedLater`).
  `LegacyFixed.LegacyIdempotentIff` says for which payloads it is: those in which
  no member object, once unflattened, has a single member that is an array or itself
  an array wrapper.
* An operation that is queued is answered with the degraded policy:
  `Degradation.UnlistedQueueIsAnsweredAsDegraded` is answered as not queued and
  `Degradation.ListedQueueIsAnsweredTooSoon` with the wrong delay. By
  `Degradation.QueuedAnswerIff` the answer says "queued" exactly for a listed
  operation, and carries its own policy exactly when the dependency is degraded
  rather than unavailable. A handler that throws is answered `ok: true`
  (`Degradation.ThrowingHandlerIsAnsweredOk`), sometimes even as queued
  (`Degradation.ThrowingHandlerIsAnsweredQueued`); `Degradation.ThrowingAnswerIff`
  says when.
* A revoking chain state is meant to be copied onto the purchase record. In
  `Entitlement.AliasKeepsItsState` the record under an alias keeps its old state,
  and is served again when the chain is silent.
  `Entitlement.ObservedRevocationIsRecorded` says when the record found takes the
  state over: exactly when it is under the material's own id and the update does
  not fail. The revoked cache entry denies every later call for its own pair.

## Model

| member | source | states |
|---|---|---|
| `Spelling.NormalizeStringJoinsWords` | src/lib/canonical.js:60-70 | The four replacements amount to this: the words of the NFC text, joined by single spaces |
| `Spelling.SameSpellingIff` | src/lib/canonical.js:60-70 | Two strings normalize alike exactly when they hold the same words in the same order |
| `Spelling.NormalizeStringIdempotent` | src/lib/canonical.js:60-70 | Normalizing a normalized string changes nothing |
| `CanonicalCases.BlanksBecomeOneSpace` | src/lib/canonical.js:60-70 | Blanks of any of the 25 kinds around two words go, and those between them become one space |
| `Text.WhiteIff` | src/lib/canonical.js:68-69 | The blanks are exactly these 25 code points |
| `Text.TrimSplits` | src/lib/canonical.js:69 | Trimming takes away the blanks at the two ends, all of them and nothing else |
| `Spelling.FoldKeyIdempotent` | src/lib/canonical.js:170 | Trimming and lower-casing a folded key changes nothing |
| `CanonicalCases.NumbersBecome` | src/lib/canonical.js:80-104 | Numbers and bigints are kept up to 9007199254740991 in magnitude and refused beyond; -0 becomes 0; NaN and infinities are refused |
| `CanonicalCases.OthersBecome` | src/lib/canonical.js:132-163 | A valid Date is its ISO text; invalid Dates, functions, symbols and foreign objects are refused; undefined passes only when dropped |
| `CanonicalCases.KeysInAnyCase` | src/lib/canonical.js:166-185 | Objects whose keys agree once trimmed and lower-cased, with the same values, normalize alike |
| `CanonicalCases.ObjectAcceptedIff` | src/lib/canonical.js:166-184 | An object is accepted exactly when its values are and no two of its trimmed, lower-cased keys coincide |
| `CanonicalCases.RepeatedKeyIsRefused` | src/lib/canonical.js:170-173 | Two keys that coincide once trimmed and lower-cased are enough for a refusal, whatever else the object holds |
| `CanonicalCases.ObjectHolds` | src/lib/canonical.js:179-185 | An accepted object holds each defined member once, under its trimmed and lower-cased key, and nothing else |
| `CanonicalCases.NamesCollide` | src/lib/canonical.js:170-173 | "Name" and "name" cannot stand together |
| `CanonicalCases.LettersLowered` | src/lib/canonical.js:170 | A to Z are lowered one by one, every other ASCII unit stays |
| `CanonicalCases.NameComesOutLowered` | src/lib/canonical.js:212-214 | The canonical text of {"Name":1} is {"name":1}, under all options |
| `JsonText.EscapedUnit` | src/lib/canonical.js:213 | Seven units have short escapes, other controls and lone surrogates are \u and four digits, every other unit stands for itself |
| `JsonText.HexDigitIs` | src/lib/canonical.js:213 | The digits of an escape are lower case |
| `JsonText.PairIsKept` | src/lib/canonical.js:213 | A surrogate pair is not escaped |
| `JsonText.EscapeConcat` | src/lib/canonical.js:213 | Strings are escaped piece by piece, pairs apart |
| `JsonText.NoLeadingZero` | src/lib/canonical.js:213 | A number is printed without leading zeros |
| `JsonText.LiteralTexts` | src/lib/canonical.js:213 | null, true, false, the minus sign and the empty array and object are printed as themselves |
| `JsonText.NothingToPrint` | src/lib/canonical.js:213 | Undefined, functions and symbols leave no member and are null as items |
| `JsonText.IndexIff` | src/lib/canonical.js:179-185 | The keys listed first are exactly the decimal forms of 0 to 4294967294 |
| `Values.DecimalRoundTrip` | src/lib/canonical.js:212-214 | The decimal text of a number reads back as that number |
| `Values.StringRoundTrip` | src/lib/canonical.js:212-214 | Every string of 16-bit units, lone surrogates and control characters included, is recovered from its escaped form |
| `Values.RoundTrip` | src/lib/canonical.js:212-214 | Parsing the printed text of any JSON value, followed by anything that cannot continue a number, gives the value and leaves the rest |
| `Values.PrintInjective` | src/lib/canonical.js:212-214 | Equal printed texts come from equal values |
| `Canonical.ArrangeIgnoresOrder` | src/lib/canonical.js:166-185 | The members of the built object do not depend on the order in which they were given |
| `Canonical.ArrangedInOrder` | src/lib/canonical.js:177-185 | Members come out with array indices first, in numeric order, then the other keys in code-unit order |
| `Canonical.InOrderIff` | src/lib/canonical.js:177-185 | Members with distinct keys stay as they are exactly when they are in that order already |
| `KeyOrder.PointOrderIff` | src/lib/canonical.js:177 | Two texts compare by code points as they do by 16-bit units, exactly unless they are crossed |
| `KeyOrder.UnitOrderIff` | src/lib/canonical.js:177-185 | Members come out sorted by code units exactly when no key but a smaller index sorts before an array index |
| `KeyOrder.PointOrderOfMembers` | src/lib/canonical.js:8-9 | Members come out in the documented code-point order exactly when, besides, no two keys are crossed |
| `KeyOrder.DocumentedIff` | src/lib/canonical.js:8-9 | The text of an accepted payload keeps the documented order at every depth exactly when the folded keys of each of its objects fit in that sense |
| `KeyOrder.IndicesComeOutByValue` | src/lib/canonical.js:179-185 | The keys "10" and "2" come out as "2", "10", not in the documented order |
| `KeyOrder.IndexPayload` | src/lib/canonical.js:179-185 | An accepted payload whose text is not in the documented order |
| `KeyOrder.SurrogatesComeOutByUnit` | src/lib/canonical.js:177 | U+1F600 comes out before U+FF5E, sorted by units but not by code points |
| `Canonical.NormalizeGivesNormal` | src/lib/canonical.js:122-189 | An accepted payload becomes a normal form, described independently: folded distinct keys in order, collapsed strings, bounded integers, sorted arrays of primitives |
| `Canonical.NormalIsFixed` | src/lib/canonical.js:122-189 | Normalization accepts every normal form and leaves it as it is |
| `Canonical.NormalIff` | src/lib/canonical.js:117-189 | Normal forms are exactly the fixed points of normalization |
| `Canonical.Idempotent` | src/lib/canonical.js:117-120 | Under fixed options, normalizing twice is normalizing once |
| `CanonicalText.EqualTextIff` | src/lib/canonical.js:248-254 | For all options, payloads compare equal exactly when both are accepted and their normal forms agree once undefined array items are read as null |
| `CanonicalText.CanonicallyEqualIff` | src/lib/canonical.js:248-254 | Without `dropUndefined`, payloads compare equal exactly when both are accepted and have the same normal form |
| `CanonicalText.TextParsesBack` | src/lib/canonical.js:212-214 | Without `dropUndefined`, a JSON parser recovers the normal form from the canonical text |
| `ParseBack.TextParsesBackIff` | src/lib/canonical.js:212-214 | For all options the text parses, and back to the normal form exactly when no array of the payload holds an undefined item |
| `ParseBack.EqualWithoutUndefinedItems` | src/lib/canonical.js:248-254 | For all options, payloads without such items compare equal exactly when both are accepted and have the same normal form |
| `CanonicalText.DropUndefinedCollision` | src/lib/canonical.js:131-135 | With `dropUndefined`, `[undefined]` and `[null]` have different normal forms and one text |
| `AssertCanonical.AssertAcceptsNormal` | src/lib/canonical.js:268-283 | `assertCanonical` passes every normal form except the bare undefined |
| `AssertCanonical.AssertCanonicalIff` | src/lib/canonical.js:268-283 | For every value, `assertCanonical` passes exactly what is canonical as written: a normal form in which Dates, negative zero and, when they are dropped, undefined items and members may stand; members that stay have folded keys in order |
| `AssertCanonical.AssertCanonicalOnJson` | src/lib/canonical.js:268-283 | On JSON data it passes exactly the normal forms |
| `CanonicalText.NormalizePayload` | src/lib/canonical.js:117-189 | The recursive loops compute the specified normal form or reject exactly what it rejects |
| `CanonicalText.FoldEntries` | src/lib/canonical.js:166-176 | The first loop rejects exactly when two keys coincide once trimmed and lower-cased, and otherwise lists every member under that key |
| `CanonicalText.NormalizeSorted` | src/lib/canonical.js:179-184 | The second loop rejects exactly when some value is rejected, and otherwise keeps the normalized members that are not undefined |
| `CanonicalText.ObjectMembers` | src/lib/canonical.js:177-184 | Sorting first and normalizing afterwards rejects and keeps the same members as the specification |
| `CanonicalText.NormalizeObject` | src/lib/canonical.js:158-186 | The object branch as a whole agrees with the specification, which sorts last |
| `Respelling.ReorderedObject` | src/lib/canonical.js:166-186 | Any reordering of an object's members has the same outcome, rejection included |
| `Respelling.ReorderedArray` | src/lib/canonical.js:141-149 | With `sortArrays`, any reordering of an array of primitives has the same outcome |
| `Respelling.EditPreserved` | src/lib/canonical.js:122-189 | One edit at any depth (whitespace in a string, a key with the same trimmed lower-case form, member order, item order under `sortArrays`) leaves the outcome unchanged |
| `Respelling.RespellingInvariant` | src/lib/canonical.js:212-214 | Payloads linked by any chain of such edits have the same canonical text or are both refused |
| `Signing.SigningIsOneCanonicalization` | src/lib/signing.js:47-76 | The three normalizations of the signing path amount to one canonicalization of body, domain and version |
| `Signing.SigningTextIs` | src/lib/signing.js:47-76 | The text that is signed is the canonical text of an object with members named domain, version and body |
| `Signing.OtherBodiesAreRefused` | src/lib/signing.js:48-50 | A body that is no object, a list among them, is refused |
| `Signing.DomainSeparation` | src/lib/signing.js:43-76 | For all options, two signing texts coincide exactly when the bodies have one canonical text and domain and version hold the same words, so a signature does not carry over to another context |
| `Signing.SignatureMatches` | src/lib/signing.js:113-127 | The accumulating comparison answers exactly equality after trimming, removing whitespace and lower-casing |
| `Signing.SignatureUnits` | src/lib/signing.js:125-127 | A normalized signature is its units that are not blank, in lower case; the trimming makes no difference |
| `Receipt.StableIsPrint` | components/modals/CheckoutReceiptModal.jsx:81-92 | The hand-written printer gives what `JSON.stringify` gives for the value with all keys sorted |
| `Receipt.SortDeepIff` | components/modals/CheckoutReceiptModal.jsx:88-91 | Sorting all keys identifies exactly the values that are equal up to key order |
| `Receipt.StableStringifyIff` | components/modals/CheckoutReceiptModal.jsx:81-92 | Two values print alike exactly when they are equal up to key order at every depth |
| `Receipt.FallbackDigest` | components/modals/CheckoutReceiptModal.jsx:122-127 | The loop yields exactly eight hex digits spelling the base-31 polynomial of the text modulo 2^32 |
| `Legacy.SplitJoin` | src/lib/canonical.js:300 | Splitting at dots undoes joining when no part has a dot of its own |
| `Legacy.UnflattenDepth` | src/lib/canonical.js:288-334 | Unflattening never increases the dotted depth, the measure on which legacy normalization terminates although its argument may nest deeper |
| `Legacy.UnflattenDottedKeys` | src/lib/canonical.js:288-334 | The loop with its moving position builds the specified tree |
| `LegacyFixed.LegacyIsClean` | src/lib/canonical.js:343-386 | What legacy normalization returns has no dotted or repeated key, no boolean spelled as a string and no Date, at any depth |
| `LegacyFixed.CleanFixedIff` | src/lib/canonical.js:343-386 | A clean value is left alone exactly when no member of any of its objects is an object with a single array member |
| `LegacyFixed.HidesIff` | src/lib/canonical.js:357-385 | The first pass leaves a member that looks like a wrapper exactly when, somewhere in the payload, a member object unflattens to a single member that is an array or itself a wrapper |
| `LegacyFixed.LegacyIdempotentIff` | src/lib/canonical.js:343-386 | For every accepted payload, a second pass changes nothing exactly when the payload hides no wrapper in that sense |
| `LegacyFixed.NestedWrapperIsRefusedLater` | src/lib/canonical.js:365-378 | A family of payloads that the first pass accepts and the second refuses |
| `LegacyFixed.WrapperMeansItsArray` | src/lib/canonical.js:365-378 | A wrapper named `item` or by the singular of its parent is its array; under any other name the payload is refused |
| `LegacyCases.StringsBecome` | src/lib/canonical.js:346-351 | A string that reads "true" or "false", trimmed and lower-cased, becomes that boolean, and any other string stays |
| `LegacyCases.ScalarsBecome` | src/lib/canonical.js:344-361 | A Date becomes an empty object and every other scalar stays |
| `LegacyCases.WrapperByName` | src/lib/canonical.js:365-378 | A wrapper is its array when it is named "item" or its parent is its name with an s behind it; else the payload is refused |
| `LegacyCases.DottedKeyNests` | src/lib/canonical.js:299-318 | A key with one dot names a member of an object |
| `LegacyCases.StoredIsFound` | src/lib/canonical.js:299-319 | A scalar stored at a path is found there, whatever was in the way |
| `LegacyCases.OtherKeysStay` | src/lib/canonical.js:299-319 | Storing touches the first key of the path and no other |
| `LegacyCases.StoredUnderKey` | src/lib/canonical.js:310-331 | Two structures under one key are merged, anything else replaces what was there |
| `LegacyCases.ObjectsMerge` | src/lib/canonical.js:310-331 | Of two objects under one key the later members win and the others stay |
| `LegacyCases.ArraysOverlay` | src/lib/canonical.js:316 | Of two arrays under one key the later items win and the longer tail stays |
| `LegacyCases.ItemsBecomeMembers` | src/lib/canonical.js:316 | Items stored over an object become members named by their positions |
| `LegacyCases.IndexMembersReplace` | src/lib/canonical.js:316 | Members stored over an array replace the items they name |
| `LegacyFlatten.SetPathShape` | src/lib/canonical.js:299-319 | Storing at a free path puts the value there, makes branches above it and changes nothing at any other path |
| `LegacyFlatten.UnflattenHolds` | src/lib/canonical.js:292-334 | Unflattening adds exactly the leaves of the dotted entries to what is there |
| `LegacyFlatten.HoldsOwnLeaves` | src/lib/canonical.js:288-334 | A nested object holds exactly its own leaves |
| `LegacyFlatten.UnflattenFlatten` | src/lib/canonical.js:285-334 | Unflattening the dotted form of any nested object, in any key order, gives back what is found at every path |
| `LegacyText.SameTreeSameJson` | src/lib/canonical.js:288-334 | Trees that agree at every path are equal up to key order |
| `LegacyText.NormalizeRespectsOrder` | src/lib/canonical.js:122-189 | Values equal up to key order at every depth normalize alike |
| `LegacyText.LegacyRebuilds` | src/lib/canonical.js:343-386 | Legacy normalization of the dotted form, in any key order, rebuilds the object up to key order |
| `LegacyText.LegacyFormIsCanonical` | src/lib/canonical.js:391-394 | The dotted form canonicalizes, through the legacy path, to the object's own canonical text |
| `Entitlement.LookupMeans` | src/lib/entitlement.js:464-482 | The lookup finds the first record along the id, the merge target and the aliases, and reports none only when there is none |
| `Entitlement.AccessIffAllowing` | src/lib/entitlement.js:450-604 | A call grants access exactly when it answers FINALIZED or PROVISIONAL |
| `Entitlement.GrantIsJustified` | src/lib/entitlement.js:450-604 | A grant rests on a completed unrevoked purchase under the id or an alias, or on no purchase and an on-chain "true"; never on a suspended buyer or a revoked entry |
| `Entitlement.UnavailableIffFault` | src/lib/entitlement.js:450-604 | The answer is UNAVAILABLE exactly for a malformed request or a fault the call gets to; it then denies and stores nothing |
| `Entitlement.ServedFromCacheIff` | src/lib/entitlement.js:451-541 | The cache grants exactly past these guards: a valid request, no fault before, a buyer not suspended, a completed unrevoked purchase, no revoked entry, and a fresh allowing entry for the same purchase and binding |
| `Entitlement.UncachedDiffersIff` | src/lib/entitlement.js:531-599 | Cached and uncached resolution differ on access exactly when those guards pass while the chain revokes or the write would fail |
| `Entitlement.CacheIsTheReason` | src/lib/entitlement.js:446-448 | A purchase, an entry and a chain for which the cached call grants and the uncached one denies |
| `Entitlement.ObservedRevocationIsRecorded` | src/lib/entitlement.js:562-580 | A revoking chain answer always revokes the pair's entry; it reaches the record found exactly when that is under the own id and the update does not fail, and nothing else changes |
| `Entitlement.AliasKeepsItsState` | src/lib/entitlement.js:571-574 | A refund seen through a material leaves the record under its alias as it was, and the alias is still served when the chain is silent |
| `Entitlement.AuthorizeStatus` | src/lib/entitlement.js:691-723 | 200 exactly when allowed; past the bypasses, 503 exactly for a fault or an empty id, and a grant is justified |
| `EntitlementCases.BypassAllows` | src/lib/entitlement.js:669-705 | An owner address with the buyer's normal form, or free public material, gives 200 and FINALIZED and changes nothing, whatever the collections, the chain and the faults |
| `EntitlementCases.MissingIsRefused` | src/lib/entitlement.js:692-697 | A missing document gives 404 and a missing buyer 400, before anything else is looked at |
| `EntitlementCases.VerdictDecides` | src/lib/entitlement.js:707-722 | Past the bypasses the verdict on the document's id and content hash decides: 200 with access, 503 when unavailable, 403 for every other denial |
| `EntitlementCases.OwnRecordIsFound` | src/lib/entitlement.js:466 | The record under the id itself comes before all others |
| `EntitlementCases.MergedRecordIsFound` | src/lib/entitlement.js:468-477 | Next comes the record under the id the material was merged into |
| `EntitlementCases.AliasRecordIsFound` | src/lib/entitlement.js:473-477 | Then the first record along the aliases |
| `EntitlementCases.NoRecordIsFound` | src/lib/entitlement.js:466-478 | Without a record under any of these ids none is found |
| `EntitlementCases.LookupFailsIff` | src/lib/entitlement.js:465-482 | A failing read fails the lookup exactly when the lookup gets to it |
| `EntitlementCases.SameBuyer` | src/lib/entitlement.js:455 | Addresses that normalize alike get the same verdict and leave the same collections |
| `EntitlementCases.MalformedIsUnavailable` | src/lib/entitlement.js:451-453 | A request without an id or an address is UNAVAILABLE and changes nothing |
| `EntitlementCases.SuspendedIsDenied` | src/lib/entitlement.js:460-462 | A suspended buyer is denied |
| `EntitlementCases.UsersFaultDeniesNobody` | src/lib/entitlement.js:417-428 | A failing look at the users goes on as if no one were suspended |
| `EntitlementCases.PurchaseIdOf` | src/lib/entitlement.js:516 | The purchase asked for is the one named in the request unless empty, else the one on the record unless empty |
| `EntitlementCases.ChainAsked` | src/lib/entitlement.js:543-544 | The chain is asked exactly when there is a purchase id |
| `EntitlementCases.EndedRecordDenies` | src/lib/entitlement.js:522-529 | A record that is Refunded, Disputed or Expired denies, whatever the cache, the chain and the faults |
| `EntitlementCases.EndedRecordIsRevoked` | src/lib/entitlement.js:522-529 | Without faults it is answered REVOKED, naming the state |
| `EntitlementCases.RevokedEntryDenies` | src/lib/entitlement.js:486-489 | A revoked entry denies whatever the record and the chain say, with its own reason if it has one |
| `EntitlementCases.EndedChainRevokes` | src/lib/entitlement.js:560-579 | Refunded, Disputed or Expired on the chain denies and stores a REVOKED entry with that state |
| `EntitlementCases.OtherStatesGrant` | src/lib/entitlement.js:582-599 | Any other answer grants: FINALIZED with one, PROVISIONAL without; the entry stored says the same |
| `EntitlementCases.OpenStatesNeverDeny` | src/lib/entitlement.js:512-599 | Pending, Released, an unknown name or nothing at all never denies a completed purchase by itself |
| `EntitlementCases.UnrecordedCases` | src/lib/entitlement.js:491-510 | Without a record only an on-chain "true" grants, and it is stored as Released |
| `EntitlementCases.EntryServedIff` | src/lib/entitlement.js:315-332 | An entry is served exactly while it allows, is for this purchase, is younger than the TTL under no older cache version, and contradicts neither network, contract nor content hash |
| `EntitlementCases.CreationStores` | src/lib/entitlement.js:380-388 | A creation stores a PROVISIONAL, pending entry with the ids it is given unless they are empty |
| `EntitlementCases.InvalidationStores` | src/lib/entitlement.js:341-361 | An invalidation stores a REVOKED entry with its reason, and the next resolve denies |
| `EntitlementCases.RevocationIs` | src/lib/entitlement.js:413-415 | A revocation is an invalidation because of a refund |
| `EntitlementCases.FailedStepsChangeNothing` | src/lib/entitlement.js:341-375 | A creation or invalidation that is malformed or cannot write changes nothing |
| `EntitlementRuns.NextCache` | src/lib/entitlement.js:281-313 | A step changes the cache by its own write and nothing else |
| `EntitlementRuns.EntryWasWritten` | src/lib/entitlement.js:281-313 | On every run, every entry was stored by the last step that wrote its pair, or was there at the start and untouched since |
| `EntitlementRuns.AllowingWriteJustifies` | src/lib/entitlement.js:372-404 | An allowing entry was stored by a recorded purchase, an on-chain "true" without a record, or a completed record the chain did not revoke, and carries that step's binding and time |
| `EntitlementRuns.CachedAccessIsJustified` | src/lib/entitlement.js:315-332 | On every run, access served from the cache goes back to a justifying write for the same purchase id and binding, less than the TTL old and not overwritten since, or to an untouched, still fresh entry from before the run; and the purchase read now is completed and unrevoked |
| `EntitlementRuns.DisagreementIsBounded` | src/lib/entitlement.js:531-599 | Caching and never caching disagree on access only within one TTL of such a write or such an entry |
| `EntitlementRuns.RevocationStep` | src/lib/entitlement.js:484-489 | A step other than a creation for the pair keeps a revoked entry revoked and, if it resolves the pair, denies |
| `EntitlementRuns.RevocationIsSticky` | src/lib/entitlement.js:484-489 | Once revoked, a pair stays revoked and every resolve denies, whatever else happens, until a creation for the pair |
| `EntitlementRuns.RevokedByIff` | src/lib/entitlement.js:562-580 | An entry becomes revoked exactly by an invalidation that is written or by a resolve that saw and wrote a revoking chain state |
| `EntitlementService.Service.constructor` | src/lib/entitlement.js:457-458 | The service starts from the given collections |
| `EntitlementService.Service.LookUp` | src/lib/entitlement.js:464-482 | The reads, one by one and each able to fail, give the specified lookup |
| `EntitlementService.Service.WriteCacheEntry` | src/lib/entitlement.js:281-313 | A write replaces the pair's entry, or fails and changes nothing |
| `EntitlementService.Service.ResolveEntitlement` | src/lib/entitlement.js:450-604 | Answer and collections afterwards are those of the specification, on every path |
| `EntitlementService.Service.ResolveUnrecorded` | src/lib/entitlement.js:491-510 | Without a record, the answer and the stored entry are as specified |
| `EntitlementService.Service.ResolveRecorded` | src/lib/entitlement.js:512-599 | With a record, the answer, the stored entry and the mirrored state are as specified |
| `EntitlementService.Service.CreateEntitlement` | src/lib/entitlement.js:372-404 | Has the effect of the creation step of runs, stores the payment fields after the entry, and reports success exactly when both writes went through |
| `EntitlementService.Service.InvalidateEntitlement` | src/lib/entitlement.js:341-361 | Has the effect of the invalidation step of runs and reports success exactly when the entry was written |
| `EntitlementService.Service.RevokeEntitlement` | src/lib/entitlement.js:413-415 | Is an invalidation with reason and state "refunded" |
| `EntitlementService.Service.AuthorizeMaterialAccess` | src/lib/entitlement.js:691-723 | Decision and collections afterwards are those of the specification |
| `Quota.CallsStayGood` | src/lib/quotaManager.js:65-77 | Under every interleaving, a call past its seed has a counter to increment |
| `Quota.UsedIsCharged` | src/lib/quotaManager.js:57-96 | Under every interleaving, the counter is the sum of the amounts of successful consumes since the last reset |
| `Quota.RejectedIff` | src/lib/quotaManager.js:78-87 | A consume is refused exactly when used plus amount exceeds the limit it read, at the instant of its increment; refused, it changes nothing |
| `Quota.NeverExceeds` | src/lib/quotaManager.js:57-108 | With every limit of the run between 0 and m, no interleaving drives the counter above m |
| `Quota.FixedLimitHolds` | src/lib/quotaManager.js:57-88 | With a fixed limit, a counter that starts within it never exceeds it |
| `Quota.AssertPredictsConsume` | src/lib/quotaManager.js:35-88 | The check has the outcome an immediately following consume has, and the counter grows by the amount exactly then |
| `Quota.ConsumeAlone` | src/lib/quotaManager.js:57-88 | Run without interference, the three atomic steps have the effect and outcome of the whole call |
| `Quota.LimitReadIs` | src/lib/quotaManager.js:61-62 | On every run a call reads the limit of the last override before it, else the stored one, else the default: 500 MiB, 1000, 5000 or 100 |
| `Quota.CallWorksWith` | src/lib/quotaManager.js:57-80 | On every run each call under way works with its own key and amount and the limit in force when it read |
| `Quota.OverrideDecides` | src/lib/quotaManager.js:35-108 | After an override to L, check and consume are refused exactly when used plus amount exceeds L, and never for -1 |
| `Quota.DefaultDecides` | src/lib/quotaManager.js:41-43 | Without an override the default of the resource decides in the same way |
| `Quota.MalformedIsRefused` | src/lib/quotaManager.js:20-33 | Blank actors, unknown resources and amounts that are no positive safe integers are type errors; overrides range from -1 to the largest safe integer |
| `Quota.QuotaManager.AssertActorQuota` | src/lib/quotaManager.js:35-55 | Reports the specified outcome and changes nothing |
| `Quota.QuotaManager.ConsumeActorQuota` | src/lib/quotaManager.js:57-88 | Outcome and counters afterwards are those of the specification; limits are untouched |
| `Quota.QuotaManager.ResetActorQuota` | src/lib/quotaManager.js:90-96 | Zeroes an existing counter, creates none, and changes nothing for an invalid scope |
| `Quota.QuotaManager.SetActorQuotaOverride` | src/lib/quotaManager.js:98-108 | Stores a valid limit for that pair only, and refuses any other |
| `RateLimit.RunKeepsInv` | src/lib/rateLimit.js:19-46 | The stored list is always the log since one window before the last admission, and never longer than the limit |
| `RateLimit.PrunedDecidesLikeLog` | src/lib/rateLimit.js:22-45 | At every call the pruned list decides as the log of all admissions would, admits exactly when the window holds fewer than the limit, and `remaining` is what is left of it |
| `RateLimit.WindowFull` | src/lib/rateLimit.js:23-25 | The window never holds more than the limit |
| `RateLimit.AtMostLimitPerWindow` | src/lib/rateLimit.js:19-46 | Every half-open interval of one window's length holds at most `limit` admissions of the whole run, none for a limit below one |
| `RateLimit.DeniedUntilReset` | src/lib/rateLimit.js:25-35 | After a denial and without admissions, requests are denied before `resetAt`, which stays the same, and admitted from it on |
| `RateLimit.SeriesUntilReset` | src/lib/rateLimit.js:25-35 | Any series of requests before `resetAt` leaves no trace, and one at or after it is admitted |
| `RateLimit.RetryAfterReachesReset` | src/lib/rateLimit.js:25-35 | Waiting `retryAfter` seconds reaches `resetAt` with less than a second of excess; a denial has no such times exactly when its window is empty |
| `RateLimit.WindowIff` | src/lib/rateLimit.js:23 | The window holds each admission later than its start, as often as it was made |
| `RateLimit.DecisionSays` | src/lib/rateLimit.js:25-45 | A decision names the limit; an admission ends a window from now and is stored, a denial names the end of the window's first entry and stores nothing |
| `RateLimit.Limiter.SlidingWindowRateLimit` | src/lib/rateLimit.js:19-46 | Decision and stored lists are those of the specification; a denial stores nothing |
| `RateLimit.Limiter.ResetSlidingWindows` | src/lib/rateLimit.js:48-50 | Forgets every key |
| `Proxy.KeysAreInjective` | src/proxy.js:52 | Rule and address can be read back from the key, whatever the address contains |
| `Proxy.RunsAreIndependent` | src/proxy.js:45-55 | What is stored for, and let through under, one rule and address is what the limiter makes of that pair's requests alone |
| `Proxy.DecisionIsIndependent` | src/proxy.js:45-55 | The answer to a request depends only on that client's earlier requests under the same rule |
| `Proxy.ClientsStayWithinLimits` | src/proxy.js:16-55 | End to end, no client gets more than a rule's limit through in any window of the rule's length |
| `Proxy.RuleByPath` | src/proxy.js:16-35 | Catalog, upload and sign-in paths have their rules, and no other path is limited |
| `Proxy.AdmittedByNumber` | src/proxy.js:16-55 | A limited request is admitted exactly while its client has fewer than 100 admissions in a minute, 5 in an hour or 20 in a minute, by rule |
| `Proxy.KeyByName` | src/proxy.js:52 | The windows are kept under the label of the rule and the address |
| `Proxy.ApplyRateLimiting` | src/proxy.js:45-90 | The loop over the rules answers with the first that applies and stores for it alone |
| `Fallback.PushIsLast` | src/lib/fallback.js:89-104 | Appending and dropping the oldest keeps the end of the complete log |
| `Fallback.ReportRecords` | src/lib/fallback.js:61-104 | A change of state is recorded once in each buffer, with where it came from, where it went and why; a report of the current state leaves no trace |
| `Fallback.Registry.RegisterService` | src/lib/fallback.js:38-69 | A service starts healthy with one history entry and the others are untouched; an empty name is refused |
| `Fallback.Registry.ReportServiceState` | src/lib/fallback.js:71-107 | Only a change of state is recorded, in both bounded buffers; an unknown service is refused and nothing changes |
| `Breaker.RunClosedForm` | src/lib/degradationMatrix.js:583-603 | After any sequence of checks, state and counters are a closed form of the outcomes: a trailing failure run of 2F is unavailable, of F degraded, a trailing success run of R healthy, otherwise the state before the run |
| `Breaker.OutcomeAt` | src/lib/degradationMatrix.js:562-579 | A check with a probe finds what the probe says, an exception being a failure; one without repeats whether the service was healthy |
| `Breaker.ProbedRunClosedForm` | src/lib/degradationMatrix.js:562-603 | When every check has a probe, the probes' verdicts alone decide state and counters |
| `Breaker.FailingProbesBringDown` | src/lib/degradationMatrix.js:592-602 | 2F failing probes in a row make a service unavailable and F take it from healthy, whatever came before |
| `Breaker.SucceedingProbesRestore` | src/lib/degradationMatrix.js:583-591 | R succeeding probes in a row make it healthy, whatever came before |
| `Breaker.ReasonsRecorded` | src/lib/degradationMatrix.js:567-602 | Transitions and circuit carry the failure mode of the probe, or the reason that stands for its absence |
| `Breaker.CheckKeepsHistory` | src/lib/degradationMatrix.js:583-603 | A check keeps the history bounded, ending in the current state and gradual |
| `Breaker.HistoryIsGradual` | src/lib/degradationMatrix.js:592-603 | The recorded history of a probe-only run never steps from healthy straight to unavailable |
| `Breaker.HistoryIsLast` | src/lib/fallback.js:89-91 | The bounded history is the end of all transitions of the run |
| `Breaker.UnprobedNeverRecovers` | src/lib/degradationMatrix.js:570-574 | Checks without a probe never bring an unhealthy service back, and 2F of them make it unavailable |
| `Breaker.LongFailureIsDown` | src/lib/degradationMatrix.js:598-599 | 2F failures in a row mean unavailable, whatever came before |
| `Degradation.BlockedIff` | src/lib/degradationMatrix.js:439-493 | A policy blocks, and carries status 503, exactly when the dependency is unavailable and the operation critical |
| `Degradation.GateIff` | src/lib/degradationMatrix.js:639-673 | A call is answered `ok: false` exactly when blocked, and a handler runs exactly when the call is neither blocked nor queued |
| `Degradation.QueuedAnswerIff` | src/lib/degradationMatrix.js:648-654 | A queued call is answered as queued exactly when its operation is listed, and with the delay and advice of its own policy exactly when the dependency is degraded |
| `Degradation.UnlistedQueueIsAnsweredAsDegraded` | src/lib/degradationMatrix.js:648-654 | An unlisted operation on an unavailable database is queued and answered with the degraded code, `queued` false |
| `Degradation.ListedQueueIsAnsweredTooSoon` | src/lib/degradationMatrix.js:648-654 | A webhook to be retried after 300 seconds is answered with 30 |
| `Degradation.ThrowingAnswerIff` | src/lib/degradationMatrix.js:665-671 | A throwing handler is answered `ok: true` whenever it was run, and as queued exactly when a degraded dependency would have queued the call |
| `Degradation.ThrowingHandlerIsAnsweredOk` | src/lib/degradationMatrix.js:665-671 | A purchase that throws on a healthy chain is answered `ok: true` |
| `Degradation.ThrowingHandlerIsAnsweredQueued` | src/lib/degradationMatrix.js:665-671 | A payout that throws on a healthy chain is answered as queued |
| `Degradation.MonitorsAreIndependent` | src/lib/degradationMatrix.js:405-417 | A dependency's counters and state depend on its own checks alone |
| `Degradation.StateIsClosedForm` | src/lib/degradationMatrix.js:547-614 | In a mixed run the state an operation meets is the closed form of that dependency's outcomes |
| `Degradation.RefusedIff` | src/lib/degradationMatrix.js:639-646 | In any probe-only run an operation is refused exactly when it is critical and the outcomes say unavailable |
| `Degradation.CriticalOperationsStop` | src/lib/degradationMatrix.js:592-646 | From 2F failed checks in a row until the next success, no handler of a critical operation runs and every such call is answered `ok: false` |
| `DegradationCases.FailedProbesStopOperations` | src/lib/degradationMatrix.js:592-646 | After 4 failed probes of stellar, mongodb or email, or 6 of pinata or webhooks, none of the seven critical operations of the dependency runs and each is answered `ok: false` |
| `DegradationCases.GoodProbesRestoreOperations` | src/lib/degradationMatrix.js:583-664 | After 2 good probes of stellar or pinata, or 1 of the others, every handler runs and its value is the answer |
| `DegradationCases.FewerFailuresDoNotStop` | src/lib/degradationMatrix.js:598-602 | Fewer checks than that stop nothing, and fewer than half of them leave every handler running |
| `DegradationCases.OneGoodProbeIsNotEnough` | src/lib/degradationMatrix.js:589-591 | Where two are needed, one good probe after a failed one changes nothing |
| `DegradationCases.ActionByName` | src/lib/degradationMatrix.js:89-493 | Which operations run as usual, run in reduced form, are queued or are blocked, by dependency and state |
| `DegradationCases.StatusByName` | src/lib/degradationMatrix.js:89-493 | 503 for what is blocked, 202 for what is queued except by email, 200 otherwise |
| `DegradationCases.DelayByName` | src/lib/degradationMatrix.js:89-493 | The seconds to wait by operation, never longer while degraded than while unavailable |
| `DegradationCases.AdviceByName` | src/lib/degradationMatrix.js:89-493 | Clients are told to wait for what is queued and to disable what is blocked; the exceptions are named |
| `DegradationCases.BlockedAnswer` | src/lib/degradationMatrix.js:640-646 | What a blocked call is told |
| `DegradationCases.QueuedAndFailedAnswers` | src/lib/degradationMatrix.js:648-671 | A queued call and a call whose handler throws are told the same, as if the dependency were degraded |
| `DegradationCases.HandledAnswer` | src/lib/degradationMatrix.js:657-664 | A handler that returns gives its value, marked degraded exactly when run in reduced form |
| `DegradationCases.ResponseStatus` | src/lib/degradationMatrix.js:537-541 | A degraded response has the status of its policy |
| `DegradationCases.UnknownHasNoPolicy` | src/lib/degradationMatrix.js:440-441 | A dependency that is not in the matrix has no policy |
| `DegradationCases.BuffersAreBounded` | src/lib/fallback.js:91-104 | At most 100 transitions and 1000 events are kept |
| `Degradation.Matrix.constructor` | src/lib/degradationMatrix.js:422-434 | Every dependency of the matrix starts healthy with fresh counters |
| `Degradation.Matrix.RunDependencyCheck` | src/lib/degradationMatrix.js:547-614 | A check moves that dependency as specified and leaves the others alone; an unknown one is refused |
| `Degradation.Matrix.ExecuteWithDegradation` | src/lib/degradationMatrix.js:639-673 | The response is the specified one for the current state |
| `Incident.UniqueSortedMeans` | src/lib/incident-impact.js:58-60 | The listing is strictly ascending with exactly the given members |
| `Incident.TotalsMembers` | src/lib/incident-impact.js:153-165 | The sets hold exactly the incident's own identifiers and those of the events in the window |
| `Incident.TotalsSeverity` | src/lib/incident-impact.js:156-166 | The severity is the highest among the incident's and those of the events in the window |
| `Incident.ReportMeans` | src/lib/incident-impact.js:152-207 | The report lists exactly those identifiers, carries that severity raised to high by a sensitive operation, and lists and counts the events of the window in their order |
| `Incident.AffectedIff` | src/lib/incident-impact.js:152-187 | The lists hold exactly what the raw identifiers of the incident and of the events in its window trim to, empty ones aside |
| `Incident.EventMentions` | src/lib/incident-impact.js:127-136 | An event contributes its trimmed identifiers, from the list and the single field alike |
| `Incident.InWindowIff` | src/lib/incident-impact.js:117-122 | Both ends of the window belong to it; a missing end or time stamp excludes nothing |
| `Incident.HigherSeverityWins` | src/lib/incident-impact.js:86-90 | Of two severities the one further up none, low, medium, high, critical is taken |
| `Incident.SensitiveByName` | src/lib/incident-impact.js:29-36 | The six sensitive operations by name |
| `Incident.ListingSays` | src/lib/incident-impact.js:167-174 | An event is listed with its own id, time and severity and its identifiers sorted without repetition |
| `Incident.ReportShows` | src/lib/incident-impact.js:189-219 | Counts are sizes, and the shareable report shows the open fields and redacted identifiers in the same order |
| `Incident.RedactionShows` | src/lib/incident-impact.js:143-147 | A redacted identifier is its first four units, an ellipsis and the word redacted |
| `Incident.ShareableIgnoresEventOrder` | src/lib/incident-impact.js:152-220 | Permuting the events changes nothing in the shareable report |
| `Incident.RedactedListsAgreeIff` | src/lib/incident-impact.js:143-147 | Two identifier lists redact alike exactly when they correspond one to one with equal first four units |
| `Incident.ShareableAgreesIff` | src/lib/incident-impact.js:209-217 | Two shareable reports are equal exactly when what they show openly agrees and users and records correspond in that way: nothing else shows |
| `Incident.CalculateIncidentImpact` | src/lib/incident-impact.js:152-220 | The loops compute the specified report |
| `Incident.RaiseForSensitive` | src/lib/incident-impact.js:179-183 | The loop raises the severity to high exactly when a sensitive operation is among those given |
| `ApiClient.StepKeepsInv` | src/lib/api/apiClient.js:8-61 | Every step keeps: what is outstanding is in flight, and what a call saw of a refresh is that refresh's outcome |
| `ApiClient.RunKeepsInv` | src/lib/api/apiClient.js:8-61 | The same after every interleaving |
| `ApiClient.OneRefreshOutstanding` | src/lib/api/apiClient.js:1-21 | At most one refresh request is outstanding, and it is the one in flight |
| `ApiClient.JoinersAgree` | src/lib/api/apiClient.js:8-61 | All calls that joined a refresh see the same outcome and retry exactly when it succeeded |
| `ApiClient.CallsAreBounded` | src/lib/api/apiClient.js:51-61 | A call fetches its endpoint at most twice, waits for at most one refresh, and retries only after one |
| `ApiClient.RefreshesIff` | src/lib/api/apiClient.js:47-57 | On every run a call refreshes exactly when its first fetch came back 401 and its endpoint is not under /api/auth/ |
| `ApiClient.OutcomeIsTheAnswer` | src/lib/api/apiClient.js:10-15 | The outcome of a refresh is what came back for it |
| `ApiClient.OutcomesAreFinal` | src/lib/api/apiClient.js:10-18 | A refresh keeps its outcome for the rest of the run |
| `WalletBalances.DisplayFollowsLatest` | src/providers/WalletProvider.jsx:86-134 | Whatever the interleaving, the display is idle without a current fetch, loading until it settles, and then its own result |
| `WalletBalances.ShownResultIsLatest` | src/providers/WalletProvider.jsx:92-115 | A displayed result belongs to the most recently issued fetch and is what that fetch returned |
| `WalletBalances.DisconnectStaysIdle` | src/providers/WalletProvider.jsx:126-134 | After the disconnect effect the display stays idle, whatever is still pending, until the wallet connects again |
| `WalletBalances.StaleFetchIsIgnored` | src/providers/WalletProvider.jsx:96-110 | A fetch overtaken by another or by a disconnect settles without effect on the display |

## Left out

Canonical serialization, signing, receipts:

- Fractional numbers and IEEE-754 printing: numbers are integers, accepted up to ±(2^53 − 1); negative zero, non-finite values and bigints are modelled.
- Error messages and paths: every refusal is one outcome.
- Keys that fold to `__proto__` are treated like any other key, and arrays have no holes.
- The Unicode tables themselves: NFC and lower-casing are parameters with stated laws.
- `canonicalString`, `canonicalBytes`, `canonicalHash`, `createSigningDigest` and `normalizeLegacyRecord`: encodings and library digests of the texts modelled here.
- `canonicalizeReceiptPayload`: a fixed record handed to the printer; undefined fields, which the printer spells `undefined`, and the `fallback-` label in front of the digest are not modelled.
- Legacy.UnflattenDottedKeys: works on values, so that an array of the input is changed in place by a later key is not captured; an object copied onto an array replaces existing positions only.
- Legacy objects list their members in insertion order; the source would list array indices first, which the canonical text does not show.
- Objects in legacy input that are neither plain nor Dates are passed through as scalars.

Entitlements:

- XDR building, RPC calls and the Stellar SDK: the chain is what it answers in a call, if it answers.
- The MongoDB driver: one record per pair, collections as maps; calls are atomic, so a race between the cache read and the write of one resolve is not covered.
- `getOwnedMaterialIds`, `verifyEntitlement` and `requireEntitlement`: a bulk marker for search results, a projection and a route wrapper.
- The price and visibility arithmetic of the free-material bypass is one boolean, and the fallback from `materialId` to `_id` is taken as done.

Quotas and rate limits:

- `getActorQuotaUsage`, and database errors other than the insert race.
- Counters past 2^53 − 1.
- RateLimit.PrunedDecidesLikeLog: like the theorems on denials and `resetAt`, it is about limits of at least 1, as every rule of the proxy has; a lower limit admits nothing.
- Proxy.ApplyRateLimiting: gives the limiter's decision, from which the source builds the 429 or pass-through response; its body and headers are text.
- Reading the client address from headers, and the dashboard redirect of the proxy.

Degradation:

- Degradation.Matrix.ExecuteWithDegradation: leaves out user messages, the cleaned-up diagnostic and the `onQueue` callback.
- Fallback.Registry.RegisterService: leaves out the policy, operations, critical actions and metadata of an entry, which the matrix does not read back.
- Latency and time stamps of checks.
- `getAllServiceStates`, `resolveFallbackAction`, `withFallback` and the per-service fallback policies of the registry.
- State reports from outside the checks: run theorems are about runs of checks.
- Operation names that are members of `Object.prototype`.

Incidents, API client, wallet:

- Incident.CalculateIncidentImpact: leaves out the ISO spelling of the window's bounds; events that are not objects and identifiers that are not strings are not modelled.
- Headers, bodies and error objects of API responses.
- Connecting the wallet and persisting its session.
