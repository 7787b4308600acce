# Foundation kernel: what its promises rest on

A verification model of the deterministic core of the Enistere Foundation: a compiler of
versioned contracts. It takes a closed set of contracts through validation, closure, IR,
resolution and plan, and applies the plan to a workspace that people also edit. Every
promise below holds for all inputs, all runs or all permutations of a set.

The files follow the repository, one module per source file:

- `Json`, `JsonPointer`, `CanonicalJson`, `Refs`, `Identity`: JSON values, pointers
  (RFC 6901), canonical text (RFC 8785), references, keys and digests. `CanonicalForm`: the
  canonical text is the only one of its kind.
- `ChangeRequest`: what a list of changes makes of a document, framing, commutation and
  undo. `MutableJson`: the same changes made in place, on a tree of mutable arrays and
  objects on the heap, as the program makes them.
- `RequirementBaseline` (over `Graphs`): the depth-first cycle finder.
- `ContractSet`, `Closure`, `Facade`, `ProofChain`: validation of a set, the two worklists,
  compilation, export of a bundle and verification of one read from anywhere. `SetOrder`:
  when the report of a set depends on the order of its documents. `Samples`: documents with
  the envelope and the members that the published schemas require.
- `EffectiveContext`, `Policy`: layered rules with locks and waivers, and the policy
  evaluator that reads their traces. `DesignTokens`, `DesignSystem`: token trees and alias chains.
- `DomainContract`, `SystemDefinition` (module `Realization`), `ApiContract`: domain
  contracts and their IR, which components realize their items, and the projected OpenAPI
  documents with how they are read back. `SystemOrder`: when the System IR depends on the
  order a definition is written in; `DefinitionSamples`: definitions that validation accepts.
- `Catalog`, `Resolve`, `Plan`, `MaterializationPlan`: from the IR to what is applied.
- `Pipeline`, `Owners`: the stages put together as the compilation runs them, and what holds
  from an authored definition to its plan and to the work its teams keep.
- `Ownership`, `Adapter`, `Records`, `Materializer`, `Runs`, `Verify`: the materializer as a
  state machine, and what holds over whole runs. `Progress`: when a plan is applied or refused.
  `ArtifactPaths`: which texts are accepted as paths, and which files they name.
- `Wrappers`, `Text`, `Sets`, `Lists`, `Sorting`, `Checks`, `Timestamps`: text in UTF-16 order,
  stable sorts, lists, and the checks all kinds of contracts share.

What the program does step by step is a method here, with its loops and the fields or
containers it writes, proved against a specification function; the promises are lemmas
about these functions. `ChangeLaws`, `ContextLaws`, `SetLaws`, `ResolveLaws`, `PlanLaws`,
`ProofLaws`, `RecordLaws` and `IRLaws` state what the operations of `ChangeRequest`,
`EffectiveContext`, `ContractSet`, `Resolve`, `Plan`, `ProofChain`, `Records` and of the IRs
mean on their inputs alone, without the functions these are computed by.

Readings to know about:

- The hash is a function of the bytes under which distinct bytes have distinct digests
  (`Identity.Sha256`); nothing else about it is used.
- A JSON number is its ECMAScript text, which determines its value.
- JavaScript sorts compare UTF-16 code units; `Text.AtMost` is that order on well-formed text.
- `applyChanges` documents that it returns "the error of the first change that cannot apply";
  `ChangeRequest.FirstFailure` is that, and the document it returns on failure is none.
- Some promises of the repository hold only under a condition. Each is stated exactly, as an
  if-and-only-if, and has a concrete input that fails it:
  - the same bytes whatever the order of the documents: unless two readable documents differ
    under one key (`SetOrder.ForgetsOrderIffOnePerKey`, `Facade.OrderMayShow`);
  - a System IR independent of authoring order: unless something ties that is not the same,
    among edges, capabilities, data accesses, constraints and pins of a component
    (`SystemOrder.SystemIRForgetsOrderExactly`, `DefinitionSamples.TiesShowOrder`). Runtime
    preferences and the environments of the system keep their order by design (ir.ts:9 and
    ir.ts:107), and the plan always shows the written order through the digest of the closure
    (`Pipeline.StagesForgetOrder`);
  - a bundle that replays: unless a contract cites a record (`ProofChain.BundleReplays`,
    `ReviewedDoesNotReplay`); and verification also accepts bundles that compile to nothing
    (`EmptyBundleIsAccepted`, `AcceptedPlans`);
  - every invariant enforced by the providers of its domain: unless its types are named like
    operations (`Owners.InvariantIsOwned`, `NamesakeHidesInvariant`);
  - a validated Design System resolves: unless context overrides close an alias cycle
    (`DesignSystem.ValidContextResolves`, `AcceptedContextMayCycle`);
  - an accepted artifact path is the only one of its file, outside the records: unless it has a
    `.` segment (`ArtifactPaths.PlainPathsNameFiles`, `DotPathNamesSameFile`);
  - the record of a conflict, returned but never stored, obeys the record rules: unless a file
    would have been written (`Runs.ConflictRecordValidity`, `SomeConflictRecordIsInvalid`).
  Three more conditions need no counterexample: a domain type named `Problem` has the reserved
  schema (`ApiContracts.OwnSchemaUnlessReserved`), a record of an instant that is not real is
  applied although the rules refuse it (`Runs.AppliedRecordIsValid`), and the Domain IR of two
  orders of one contract differs by the digest it carries (`DomainContracts.DomainIRForgetsOrder`).

Run `dafny verify dfyconfig.toml` in this directory to check the whole project.

## Model

| member | source | states |
|---|---|---|
| MutableJson.ApplyChanges | kernel/contracts/src/contracts/change-request.ts:74-106 | On any document tree and any change list, whose values may alias the document or each other: the returned tree is new, holds exactly what the changes make of the document, or the error names the first change that cannot apply and why. No object that existed before the call is written (no `modifies` clause) |
| MutableJson.ApplyChange | kernel/contracts/src/contracts/change-request.ts:80-103 | One change made by splicing, assigning or deleting in a single container: the whole document becomes the edited one, stays a tree with the same root, and gains only new containers; when the change fails nothing is written |
| MutableJson.Descend | kernel/contracts/src/contracts/change-request.ts:81-87 | The loop over the segments reaches the container the route denotes, or the change fails for want of a container |
| MutableJson.EditArray | kernel/contracts/src/contracts/change-request.ts:88-97 | The three array branches: accepted positions, splice in, assign, splice out, and the invalid-index error that writes nothing |
| MutableJson.EditObject | kernel/contracts/src/contracts/change-request.ts:98-103 | The object branches: ADD only on a missing member, REPLACE and REMOVE only on an existing one, otherwise the error and no write |
| MutableJson.StructuredClone | kernel/contracts/src/contracts/change-request.ts:78-102 | The copy denotes the same JSON, is a tree, and shares no container with anything that existed before |
| MutableJson.HoldsWithPart | kernel/contracts/src/contracts/change-request.ts:80-103 | Frame: once one container holds a new part, every location of the document outside it still holds what it held |
| MutableJson.EditOfPart | kernel/contracts/src/contracts/change-request.ts:80-103 | Writing the container a pointer leads to has, on the whole document, exactly the effect of the change |
| ChangeRequest.Undo | kernel/contracts/src/contracts/change-request.ts:74-106 | Whenever a change list applies, the inverse changes, last first, apply to the result and give back the original document exactly |
| ChangeRequest.FirstFailure | kernel/contracts/src/contracts/change-request.ts:74-106 | A list fails at change i for a reason exactly when the changes before i apply and change i fails for that reason on what they give |
| ChangeRequest.ChangesCommute | kernel/contracts/src/contracts/change-request.ts:79-104 | Two changes whose pointers part, neither splicing the array they share there, give the same document in either order or fail in either order |
| ChangeRequest.SplicesDoNotCommute | kernel/contracts/src/contracts/change-request.ts:95-97 | A REMOVE in a shared array makes the order matter: a concrete pair of changes with two different results |
| ChangeRequest.Framing | kernel/contracts/src/contracts/change-request.ts:79-104 | A location that parts from the target, where nothing is spliced, keeps its value |
| ChangeRequest.Effect | kernel/contracts/src/contracts/change-request.ts:79-104 | The container that holds the target becomes exactly what the operation makes of it, and the change fails exactly as that operation fails or for want of a container |
| ChangeLaws.ArrayChange | kernel/contracts/src/contracts/change-request.ts:88-97 | For any route to an array: ADD at the text of n or at `-` puts the value at n (at the length), keeps the elements before and moves up those from n on; REPLACE and REMOVE change the element at n and keep or move down the others; nothing but the array changes |
| ChangeLaws.OtherPositionsFail | kernel/contracts/src/contracts/change-request.ts:88-97 | Every other last segment (another text of a number, a position out of range, `-` for REPLACE or REMOVE) fails with an invalid index |
| ChangeLaws.ObjectChange | kernel/contracts/src/contracts/change-request.ts:98-103 | For any route to an object: ADD gives a member that was not there, REPLACE and REMOVE change one that was, the others keep their values, and any other case is the error of that operation |
| ChangeLaws.NoContainerThere | kernel/contracts/src/contracts/change-request.ts:81-87 | A pointer whose container is missing, or is neither an array nor an object, fails for want of a container |
| ChangeRequest.ConsistencyIsExact | kernel/contracts/src/contracts/change-request.ts:109-119 | Comparing digests accepts a Change Request exactly when its changes apply and produce the proposed spec |
| JsonPointer.UnescapeEscape | kernel/contracts/src/contracts/change-request.ts:62-67 | Decoding a segment undoes its escaping (`~0` and `~1`, section 4 of RFC 6901) |
| JsonPointer.DecodeEncode | kernel/contracts/src/contracts/change-request.ts:62-67 | Every route, with any characters in its segments, can be written as a pointer that decodes back to it |
| CanonicalJson.RoundTrip | kernel/contracts/src/primitives/canonical-json.ts:33-61 | A reader inverts the canonical text of every JSON value, one that takes only lower-case escapes and increasing names included (sections 3.2.2 and 3.2.3 of RFC 8785) |
| CanonicalForm.CanonicalIsShortest | kernel/contracts/src/primitives/canonical-json.ts:33-61 | No text that reads back to a value, with or without tidy escapes and names, is shorter than its canonical text: no character is escaped that need not be, and none in a longer way (sections 3.2.2.2 and 3.2.3 of RFC 8785) |
| CanonicalForm.CanonicalIsUnique | kernel/contracts/src/primitives/canonical-json.ts:33-61 | A text is the canonical text of a value exactly when it reads back to it with lower-case hexadecimal escapes and names in increasing UTF-16 order, and is no longer |
| Text.AtMostIsUnitOrder | kernel/contracts/src/primitives/canonical-json.ts:48-53 | The order of names and keys is that of their UTF-16 code units, with supplementary characters written as two surrogates (section 3.2.3 of RFC 8785) |
| CanonicalJson.ReadSerialized | kernel/contracts/src/primitives/canonical-json.ts:33-56 | The reader takes the value off the front of any longer text and leaves the rest |
| CanonicalJson.PrefixFree | kernel/contracts/src/primitives/canonical-json.ts:33-56 | Two canonical texts followed by anything that cannot extend them are equal only if the values and the remaining texts are equal |
| CanonicalJson.OnlyNumbersExtend | kernel/contracts/src/primitives/canonical-json.ts:33-56 | No canonical text starts another one, numbers excepted, where `1` starts `12` |
| CanonicalJson.CanonicalEqualsIsEquality | kernel/contracts/src/primitives/canonical-json.ts:64-66 | Equality of canonical texts is equality of documents |
| Sorting.KeyOrderIsIrrelevant | kernel/contracts/src/primitives/canonical-json.ts:48-53 | Whatever order the members were inserted in, sorting the keys gives one and the same list |
| Sorting.FirstOfTies | kernel/compiler/src/ir.ts:101-101 | A stable sort shows which of two elements that tie came first: if either may come first with the same result, they are equal |
| Identity.DigestOfInjective | kernel/contracts/src/primitives/canonical-json.ts:59-66 | Under an injective hash, equal digests of JSON values mean equal values |
| Identity.DigestIdentifiesContent | kernel/contracts/src/identity.ts:15-23 | Equal contract digests mean equal documents, the lifecycle status excepted, and conversely |
| Identity.KeyTellsKind | kernel/contracts/src/primitives/refs.ts:38-41 | A revision key determines the kind of the document, whatever the ids contain |
| Refs.RefsAreExact | kernel/contracts/src/contract-set.ts:77-89 | Every reference-shaped object of a JSON tree is reported exactly once, and decoding its reported pointer leads back to it |
| Refs.ParseRefIsExact | kernel/contracts/src/primitives/refs.ts:32-57 | A text parses to a reference exactly when it is the written form of that reference and its id, revision and item match the pattern: parsing inverts writing and accepts nothing else |
| Refs.IdIsPattern | kernel/contracts/src/primitives/refs.ts:32-32 | Identifiers are lower-case letters and digits with single dashes or dots between them, a letter first |
| RequirementBaseline.DependencyCycles | kernel/contracts/src/contracts/requirement-baseline.ts:24-41 | On every finite graph, self-loops and repeated edges included: it ends, every reported cycle is a closed walk along dependencies, nothing is reported exactly when the graph is acyclic, and no cycle is missed: every closed walk takes the last dependency of a reported cycle |
| RequirementBaseline.CycleFinder.Visit | kernel/contracts/src/contracts/requirement-baseline.ts:28-38 | The depth-first visit with colours and trail keeps the search invariant, finishes the requirement unless the step to it closes a reported cycle, and never forgets what was finished or found |
| RequirementBaseline.CycleEdgesAreDeclared | kernel/contracts/src/contracts/requirement-baseline.ts:24-41 | Every edge of a reported cycle is declared by some requirement |
| ContractSet.IndexKeepsLast | kernel/contracts/src/contract-set.ts:57-69 | A document is the one filed under its key exactly when the last document of that key equals it |
| ContractSet.InForceShrinks | kernel/contracts/src/contract-set.ts:57-74 | A smaller set has no later revision in force |
| ContractSet.ValidateContractSet | kernel/contracts/src/contract-set.ts:226-287 | Drops the documents that fail their schema and keeps the first readable one of each key, by key; reports, in order, everything wrong with each document alone, repeated keys, mixed systems, and each kept document against the others; it reports nothing exactly when every document holds, no key is repeated and one system is named |
| ContractSet.CollectEntries | kernel/contracts/src/contract-set.ts:227-241 | The first loop reports and drops a document that fails its schema, keeps the first readable document of each key and reports every other one |
| ContractSet.EntriesAreFirst | kernel/contracts/src/contract-set.ts:229-241 | Of a list of readable documents, those kept have the keys of the list, each once, and are exactly those that no earlier document shares its key with |
| ContractSet.CheckDocument | kernel/contracts/src/contract-set.ts:261-287 | The references of one document, pins and items included, then its cross rules, each reported with where it is: nothing is reported exactly when all hold |
| SetLaws.RefErrorsAreExact | kernel/contracts/src/contract-set.ts:261-281 | The errors reported on the references of a document are exactly these: for each reference-shaped object anywhere in it, at its pointer, that no document has its key, that the document with its key has another digest than the pinned one, that it names no item of that document |
| SetLaws.StaleBaseIsExact | kernel/contracts/src/contract-set.ts:174-183 | A stale base is reported exactly when the change is a draft, proposed or accepted and the set holds a later revision, in force, of the contract it starts from |
| ContractSet.ClosedPartIsValid | kernel/contracts/src/contract-set.ts:226-287 | A part of a valid set is valid exactly when its references stay inside it |
| SetOrder.ForgetsOrderIffOnePerKey | kernel/contracts/src/contract-set.ts:226-287 | Every permutation of a set keeps the same entries and reports the same errors, each as often, exactly when no two readable documents of it differ under one key |
| SetOrder.ReportForgetsOrder | kernel/contracts/src/contract-set.ts:226-287 | With no two readable documents that differ under one key, a permutation keeps the same entries in the same order and reports the same errors, each as often |
| SetOrder.ConflictShowsOrder | kernel/contracts/src/contract-set.ts:229-281 | Of any set that starts with two readable documents that differ under one key: a kept document that pins the first of them, anywhere in it, is reported REF_DIGEST_MISMATCH at that place exactly when the other one comes first |
| SetOrder.DiagnosticsForgetOrder | kernel/contracts/src/primitives/diagnostics.ts:231-244 | Diagnostics without repetition and in their fixed order depend on which errors are reported only |
| Closure.BuildClosure | kernel/compiler/src/closure.ts:46-69 | Returns exactly the documents reachable through `spec` references, the definition left out, each once and by key; it fails exactly when a followed reference does not resolve |
| Closure.Search | kernel/compiler/src/closure.ts:46-61 | The worklist ends with nothing left to expand, or at a missing reference that breaks closedness |
| Closure.SearchIsExact | kernel/compiler/src/closure.ts:46-61 | When nothing is left to expand, what was reached is all that can be reached |
| Closure.ClosureDigestTells | kernel/compiler/src/closure.ts:61-68 | For given inputs and catalog, two definitions have one closure digest exactly when they are the same document, the status excepted |
| Facade.ClosedSetIsClosed | kernel/compiler/src/closure.ts:46-61 | On a validated set the closure search never meets a missing contract |
| Closure.ReferenceClosure | kernel/compiler/src/proof-chain.ts:68-83 | Returns only what the roots reach through any reference, closed under references; exactly that, when no two documents share a key |
| Facade.SelectedIsInForce | kernel/compiler/src/facade.ts:102-116 | A definition is selected exactly when it is the only candidate id and at its highest revision in force |
| Facade.Compile | kernel/compiler/src/facade.ts:132-184 | An invalid set or a refused catalog gives the sorted diagnostics and is never resolved; otherwise the result is the definition selected, its closure, what the later stages make of them, and their plan, absent when they report an error. The closure search cannot fail in it |
| Facade.PartCompilesTheSame | kernel/compiler/src/facade.ts:132-184 | Compiling any reference-closed part that keeps the selected definition gives the same compilation |
| Facade.OrderIsIrrelevant | kernel/compiler/src/facade.ts:132-184 | With no two readable documents that differ under one key, compiling a permutation of the set gives the same result: the same diagnostics for an invalid set, the same definition, closure, output and plan for a valid one |
| Facade.VerdictForgetsOrder | kernel/compiler/src/facade.ts:132-184 | Whatever the documents, a permutation is refused exactly when the set is, and gives the same result when it is not |
| Facade.ConflictIsCompiled | kernel/compiler/src/facade.ts:132-148 | Of any set that starts with two readable documents that differ under one key, one of which a kept document pins: compiling it gives another result when the two change places, against the promise of lines 15-16 |
| Facade.OrderMayShow | kernel/compiler/src/facade.ts:132-148 | A concrete such set, of three documents with the envelope and the members their schemas require: a baseline, the same revision rewritten, and decisions that pin one of them; for all rules that read the three, and all catalogs |
| ProofChain.ExportProofChain | kernel/compiler/src/proof-chain.ts:86-108 | A bundle is exported exactly for sets that compile to a plan; it holds the reference closure of the definition and the records, the digests of every stage, and the digest of its own content |
| ProofChain.BundleReplays | kernel/compiler/src/proof-chain.ts:86-135 | An exported bundle replays to the digests it records, for the definition it names, exactly when none of its contracts refers to a MaterializationRecord or an EvidenceRecord |
| ProofChain.ReviewedDoesNotReplay | kernel/compiler/src/proof-chain.ts:86-131 | A concrete set of five documents with the envelope and the members their schemas require, whose definition is derived from an EvidenceRecord by its provenance: under rules that admit the five it is valid and compiles, and no bundle exported of it replays |
| ProofChain.VerifyProofChain | kernel/compiler/src/proof-chain.ts:111-151 | On any bundle, members absent or of any value included: another format is malformed; otherwise each error is reported exactly when deserved (digest of the content, every error of the set of all documents, one per stage whose replayed and recorded digests differ, absent ones included, the definition, VALID records that describe another compilation, component evidence that cites no bundled record), and nothing exactly on accepted bundles |
| ProofChain.ExportedIsProof | kernel/compiler/src/proof-chain.ts:86-151 | An exported bundle is accepted exactly when no bundled contract refers to a record, the bundle is a valid set, and the records given describe the compilation and are linked |
| ProofLaws.ValidRecordsNameReplay | kernel/compiler/src/proof-chain.ts:133-140 | In an accepted bundle every VALID materialization names the plan, closure and definition digests of the replay, as far as it reached them |
| ProofLaws.OtherPlanIsReported | kernel/compiler/src/proof-chain.ts:133-140 | A VALID materialization that names another plan or closure digest than the bundle records is reported under its key |
| ProofLaws.ReportedRecordIsValid | kernel/compiler/src/proof-chain.ts:133-140 | A record mismatch under a key means that some materialization with that key is VALID: superseded records of earlier compilations are never reported |
| ProofLaws.EvidenceCites | kernel/compiler/src/proof-chain.ts:141-149 | In an accepted bundle every evidence about a component has, among its inputs, a reference to a materialization of the bundle |
| ProofLaws.UnlinkedIsReported | kernel/compiler/src/proof-chain.ts:141-149 | Evidence is reported as unlinked exactly when it is about a component and none of its inputs is a reference to a materialization of the bundle |
| ProofLaws.DigestSealsBundle | kernel/compiler/src/proof-chain.ts:113-122 | Two bundles whose digests hold and are equal are the same bundle in every member: nothing in it can be changed under its digest |
| ProofChain.EmptyBundleIsAccepted | kernel/compiler/src/proof-chain.ts:111-131 | Verification accepts a bundle without contracts, definition or stage digests, which compiles to nothing |
| ProofChain.AcceptedPlans | kernel/compiler/src/proof-chain.ts:123-131 | An accepted bundle compiles exactly when it records a definition digest, and to a plan exactly when it records a plan digest |
| ProofLaws.StageMismatchIsExact | kernel/compiler/src/proof-chain.ts:123-130 | A stage is reported exactly when the bundle records another digest than the replay reached, or records one where it reached none, or none where it reached one |
| ProofLaws.NothingRecorded | kernel/compiler/src/proof-chain.ts:123-130 | When the recorded digests are absent, null, false, zero or an empty text, every stage is reported |
| EffectiveContext.DeriveEffectiveRules | kernel/contracts/src/contracts/effective-organization-context.ts:47-124 | The loops compute the derivation by layers then waivers; nothing is reported exactly when precedences are distinct, categories agree and every waiver excepts a known rule |
| EffectiveContext.DerivationRefines | kernel/contracts/src/contracts/effective-organization-context.ts:62-124 | The value of a rule is that of its last waiver by id, else of its first locked definition in precedence order, else of its last definition |
| ContextLaws.PrecedenceDecides | kernel/contracts/src/contracts/effective-organization-context.ts:62-100 | With distinct precedences, no rule twice in a layer and no waiver of the rule: the effective value is that of the locked definition of least precedence or, when none is locked, of the definition of greatest precedence |
| ContextLaws.DefinedIsEffective | kernel/contracts/src/contracts/effective-organization-context.ts:62-124 | The effective rules are exactly those that some layer defines, waivers or not |
| ContextLaws.LastWaiverDecides | kernel/contracts/src/contracts/effective-organization-context.ts:101-117 | With distinct waiver ids, a waived rule that is defined has the value of the waiver whose id is greatest in text order |
| EffectiveContext.OneDecidingEntry | kernel/contracts/src/contracts/effective-organization-context.ts:69-117 | A trace has one entry per definition and waiver; exactly one is APPLIED or WAIVED, and it carries the effective value and source |
| EffectiveContext.OrderIsIrrelevant | kernel/contracts/src/contracts/effective-organization-context.ts:62-124 | With distinct precedences or ids, and distinct waiver ids, the input order changes nothing, traces included |
| EffectiveContext.BeforeWaiverIsUnwaived | kernel/compiler/src/policy.ts:113-118 | Reading the trace back gives the value the derivation without any waiver gives; for a rule no waiver decided, the value already is that one |
| EffectiveContext.ValidateContext | kernel/contracts/src/contracts/effective-organization-context.ts:134-166 | Reports nothing exactly when layer, waiver and rule ids are unique, every waiver ends at a real instant and was approved by a person, the derivation has nothing to report, and the recorded effective rules are the recomputed ones |
| EffectiveContext.AcceptedRuleIsDerived | kernel/contracts/src/contracts/effective-organization-context.ts:134-166 | Every effective rule of an accepted context is the one recomputed from its layers and waivers |
| Policy.WaivedExactly | kernel/compiler/src/policy.ts:122-166 | On an accepted context a subject is WAIVED exactly when it passes with the waivers and would fail with all of them removed; VIOLATED exactly when it fails; the waiver named is one of the context, for that rule |
| Policy.EvaluatePolicies | kernel/compiler/src/policy.ts:122-166 | The report is every evaluation of every rule, by rule and subject; a violation is reported exactly when one is in the report |
| Policy.ReportIsExact | kernel/compiler/src/policy.ts:122-166 | The report holds one verdict for each subject of each interpreted rule (not applicable exactly without a check, violated exactly when the check fails on the effective value, with the rule, category, expected and actual value of that subject), one entry for each rule the compiler does not interpret, and nothing else |
| Policy.ExpiredWaivers | kernel/compiler/src/policy.ts:169-173 | Returns exactly the WAIVED evaluations whose waiver ended before the instant; an instant that cannot be read is before and after none |
| Policy.NothingExpired | kernel/compiler/src/policy.ts:169-173 | Of the report on an accepted context, nothing has expired exactly when the instant cannot be read or every waiver relied on ends at it or later |
| DesignTokens.FlattenTokens | kernel/contracts/src/contracts/design-system.ts:34-46 | The loops flatten a group and its sub-groups, skipping reserved names; a path met twice keeps the last token |
| DesignTokens.FlattenIsExact | kernel/contracts/src/contracts/design-system.ts:34-46 | With names that are not empty, hold no dot and are not repeated in a group, the flattened paths are exactly the dotted routes to the tokens of the tree, each with its token |
| DesignSystem.ValidateDesignSystem | kernel/contracts/src/contracts/design-system.ts:89-108 | Reports nothing exactly when no context id is repeated, no token deserves an error, and every override is a literal of the type of a known token or an alias to a token of that type |
| DesignSystem.ValidateTokens | kernel/contracts/src/contracts/design-system.ts:54-83 | An error is reported exactly when it is deserved: a cycle for a token exactly when its alias walk never ends |
| DesignSystem.AliasIsExact | kernel/contracts/src/contracts/design-system.ts:48-48 | An alias is a non-empty path in braces, with no brace inside |
| DesignSystem.ResolveIsExact | kernel/contracts/src/contracts/design-system.ts:114-130 | Resolution with the depth guard succeeds exactly on chains that end at a literal, and gives that literal under the token’s own type |
| DesignSystem.ResolvableIffClosedAndFinite | kernel/contracts/src/contracts/design-system.ts:114-130 | Every token resolves exactly when the alias graph is closed and no alias walk goes on for ever |
| DesignSystem.ValidTokensResolve | kernel/contracts/src/contracts/design-system.ts:54-83 | Tokens with nothing to report all resolve |
| DesignSystem.ResolveDesignTokens | kernel/contracts/src/contracts/design-system.ts:114-130 | Gives every token its resolution after the overrides, or fails exactly when some token’s chain ends at no literal |
| DesignSystem.ValidContextResolves | kernel/contracts/src/contracts/design-system.ts:89-130 | On a validated Design System, a context resolves exactly when its overrides leave no alias walk that never ends |
| DesignSystem.AcceptedContextMayCycle | kernel/contracts/src/contracts/design-system.ts:101-104 | Overrides are not checked for cycles: a concrete accepted Design System whose context does not resolve |
| Catalog.ValidateCatalog | kernel/compiler/src/catalog.ts:83-130 | On any JSON value: accepts exactly two lists of well-shaped descriptors (known keys, identifier ids, SemVer versions, non-empty lists of distinct identifiers) in which no id and no coverage is declared twice, and returns the descriptors read |
| Catalog.SemVerIsRelease | kernel/compiler/src/catalog.ts:35-35 | The accepted versions are three numbers without leading zeros, then nothing or a dash and a text of letters, digits, dots and dashes |
| Catalog.CatalogReadsBack | kernel/compiler/src/catalog.ts:38-130 | A catalog written as JSON reads back as itself, and is accepted exactly when its descriptors are well-shaped and declare no id and no coverage twice |
| Catalog.LookupsForgetOrder | kernel/compiler/src/catalog.ts:105-126 | In a validated catalog, looking up an adapter or a provider does not depend on the order of the descriptors |
| Resolve.Choose | kernel/compiler/src/resolve.ts:66-88 | The first preference with an adapter for the kind is chosen; every preference before it has none, and none at all means that no preference has one |
| Resolve.ResolveOne | kernel/compiler/src/resolve.ts:66-114 | Tries the preferences in order: the first with an adapter decides, those skipped have none, and what is left out is listed |
| Resolve.ResolveSystem | kernel/compiler/src/resolve.ts:61-118 | The loops resolve every component, in order |
| ResolveLaws.ResolutionIsExact | kernel/compiler/src/resolve.ts:66-110 | Of the descriptors alone: a component is resolved exactly when some adapter of the catalog serves its kind on one of its preferences, on the first such one and by such an adapter; each capability is bound to a provider that offers it on that runtime, exactly when there is one |
| ResolveLaws.UnsupportedIsExact | kernel/compiler/src/resolve.ts:66-113 | The unsupported items are exactly the components without preference, those none of whose preferences is served, and the capabilities that no provider offers on the runtime of their component, each with that reason |
| Resolve.ResolutionForgetsOrder | kernel/compiler/src/resolve.ts:61-118 | Permuting the descriptors of a validated catalog leaves resolved components and unsupported items unchanged |
| Plan.PlanSystem | kernel/compiler/src/plan.ts:56-112 | The loops plan every resolved component with the contracts it provides, carry over what is unsupported, the input digests and the policy report, share the API contracts, and list the owner work and the requirements of planned components |
| Plan.StepsCarryDecisions | kernel/compiler/src/plan.ts:79-98 | The step of a resolved component names the adapter and runtime chosen for it, its own ownership and environments and the contracts it provides; EXTERNAL components are connected, all others materialized |
| PlanLaws.RealizeStepsAreIntended | kernel/compiler/src/plan.ts:79-98 | Every step that realizes a component names that component, its ownership and environments and exactly the API contracts it provides; it connects EXTERNAL components and materializes all others; it runs on the first of its preferences that the catalog serves, by an adapter that serves its kind there |
| PlanLaws.BindStepsAreIntended | kernel/compiler/src/plan.ts:79-98 | Every step that binds a capability is for a component that asks for it and names a provider of the catalog that offers it on the runtime of that component |
| PlanLaws.KeptIsExact | kernel/compiler/src/plan.ts:56-60 | The owner work keeps exactly the components that are not compiler-owned, each under its own class and team |
| Plan.ObligationsAreExact | kernel/compiler/src/plan.ts:79-98 | The proof obligations are exactly the requirements of the resolved components |
| Plan.IntentIsConserved | kernel/compiler/src/plan.ts:79-98 | Every component gives exactly one step that realizes it or one unsupported item; every capability of a resolved component one BIND step or one unsupported item per time it is asked for |
| Pipeline.RunStages | kernel/compiler/src/facade.ts:157-183 | Running IR, resolution, policies, API contracts and plan one after the other is one function of the definition and its closure, with no plan exactly when a policy is violated |
| Pipeline.DomainsAreOfClosure | kernel/compiler/src/facade.ts:158-162 | The domains of the IR are read from Domain Contracts of the closure and from nothing else |
| Pipeline.CompileSystem | kernel/compiler/src/facade.ts:132-184 | The whole compilation, from documents and a catalog read from data to the plan, is the compilation of the set with the stages of that catalog; an absent catalog is the empty one, a refused one refuses the set |
| Pipeline.AuthoredIntentIsConserved | kernel/compiler/src/facade.ts:132-184 | From the documents to the plan: when a set compiles to a plan, its definition is one of the set, no policy is violated, and every authored component gives exactly one step that realizes it or one unsupported item, and every capability it asks for one BIND step or one unsupported item as often as it is asked for, exactly when one of its preferences has an adapter |
| Pipeline.StagesForgetOrder | kernel/compiler/src/facade.ts:157-183 | Of the order a settled definition with distinct ids is written in, output and plan keep the digest of the closure and nothing else: the plans are equal up to it, and equal exactly when the documents are, their status excepted |
| Owners.OperationIsOwned | kernel/compiler/src/plan.ts:56-73 | An operation of a pinned contract is owner work of a component, for its team and under its API contract, exactly when the definition lets the component implement it |
| Owners.InvariantIsOwned | kernel/compiler/src/plan.ts:63-70 | An invariant of a pinned contract is owner work of a component exactly when the component implements an operation of the contract and one of the types the invariant applies to is not named like an operation that the component does not implement |
| Owners.NamesakeHidesInvariant | kernel/compiler/src/plan.ts:63-70 | A concrete accepted definition of a sound contract with a type and an operation of one name: its component implements another operation of the contract, and no plan of it asks for the invariant on that type to be enforced |
| Checks.UniqueIds | kernel/contracts/src/primitives/checks.ts:8-17 | Reports exactly the ids that occur twice |
| Checks.KnownIds | kernel/contracts/src/primitives/checks.ts:41-54 | Reports exactly the values outside the known set |
| Timestamps.RealIsMoment | kernel/contracts/src/primitives/checks.ts:20-33 | A timestamp is accepted exactly when `Date.parse` reads it and it starts with the text of an existing day and time of day |
| Timestamps.MonthsFillYears | kernel/contracts/src/primitives/checks.ts:25-29 | A month is as long as the day numbers of ECMA-262 say (sections Day Number, Year Number and Month Number) |
| DomainContracts.ValidateDomainContract | kernel/contracts/src/contracts/domain-contract.ts:30-89 | Reports nothing exactly when ids are unique, types have their shape, and every type expression, event, invariant, operation and facet target named is declared |
| DomainContracts.ItemTextInjective | kernel/contracts/src/primitives/refs.ts:38-46 | A pinned item reference determines its contract, revision and item, for contract ids without `@` |
| DomainContracts.IRListsDeclarations | kernel/compiler/src/domain-ir.ts:72-125 | The Domain IR lists exactly the types, operations, events and invariants declared, each normalized |
| DomainContracts.SoundIRIsResolved | kernel/compiler/src/domain-ir.ts:75-84 | In the IR of an accepted contract every type expression is resolved to a primitive or to a type of the IR |
| IRLaws.TypeRefIsExact | kernel/compiler/src/domain-ir.ts:75-84 | A type expression is resolved to the primitive it names, to the pinned reference of the type of the contract it names, and to a list exactly when it is written `list<...>` |
| DomainContracts.DomainIRForgetsOrder | kernel/compiler/src/domain-ir.ts:72-125 | Of the order of the declarations the Domain IR keeps the digest of the contract and nothing else: two orders give IRs that are equal up to that digest, and equal exactly when the digests are |
| ApiContracts.ProjectApiContract | kernel/compiler/src/api-contract.ts:136-164 | The loops project exactly the operations the provider implements; nothing when it implements none |
| ApiContracts.RefsResolve | kernel/compiler/src/api-contract.ts:80-164 | In the API document of an accepted contract, every `$ref` at any location names a schema of the document |
| ApiContracts.RefsResolveAsPointers | kernel/compiler/src/api-contract.ts:80-164 | With type names free of `/` and `~`, every `$ref` also resolves as a JSON Pointer into the document |
| ApiContracts.OwnSchemaUnlessReserved | kernel/compiler/src/api-contract.ts:86-100 | The document holds the own schema of a declared type exactly when the type is not named `Problem` |
| IRLaws.SchemaIsExact | kernel/compiler/src/api-contract.ts:86-98 | The schema of a type that is no enumeration is closed, has one property for each field, marked exactly when the field is sensitive, and requires exactly the required fields |
| ApiContracts.PathsInKeyOrder | kernel/compiler/src/api-contract.ts:141-145 | The paths are inserted in key order, so listing them by insertion and by key is the same |
| ApiContracts.PointerIsRoute | extensions/runtimes/nestjs/src/contract.ts:42-57 | The pointer text built for an operation decodes to the route of its input schema |
| ApiContracts.OperationsReadBack | extensions/runtimes/nestjs/src/contract.ts:50-65 | From the document of an accepted contract, the adapter reads exactly the implemented operations, each once and in order, with their method, schemas, roles and invariants, and a pointer that resolves to the input schema, or to nothing when there is none |
| ApiContracts.DeclaredOperationIsRead | extensions/runtimes/nestjs/src/contract.ts:50-65 | End to end: of an operation an accepted contract declares, the document of a component that implements it gives back exactly one, with its verb (GET exactly for a query without input), path, input and output schema, kind and roles; of one it does not implement, none |
| ApiContracts.ResponsesAreDeclared | kernel/compiler/src/api-contract.ts:111-121 | An operation answers 200 and 501, 400 exactly with an input, 422 exactly with declared errors; the 200 response has a body exactly with an output; every other response has a problem schema |
| ApiContracts.ProjectApiContracts | kernel/compiler/src/api-contract.ts:167-177 | The nested loops give every contract of every domain and provider, by id |
| ApiContracts.ContractsAreExact | kernel/compiler/src/api-contract.ts:167-177 | There is one API contract for each domain and component that implements one of its operations, and no other |
| ApiContracts.ContractTells | kernel/compiler/src/api-contract.ts:136-164 | A contract exists exactly when the provider implements an operation of the domain, and lists exactly those operations, and as consumers exactly the other components that consume one of them |
| ApiContracts.VersionIsRevision | kernel/compiler/src/api-contract.ts:148-148 | The version of the document is the revision of the contract |
| Realization.ParseItemIsExact | kernel/contracts/src/primitives/refs.ts:71-75 | A text parses to a contract and an item exactly when it is the two joined by `#`, both non-empty and the contract without `#` |
| Realization.PinnedDomains | kernel/contracts/src/contract-set.ts:142-148 | The loop keeps the last contract pinned under each id and reports a pin of another kind |
| Realization.ValidateSystemDefinition | kernel/contracts/src/contracts/system-definition.ts:23-68 | Reports nothing exactly when component, integration and environment ids are distinct, every component consumes other components of the definition only and names known stores, integrations and environments, and every data store has one owner |
| Realization.CrossValidateSystemDefinition | kernel/contracts/src/contracts/system-definition.ts:77-142 | Reports nothing exactly when components cite known requirements and decisions, name known items, consume only what the named provider implements, subscribe only to what is produced, and accepted functional requirements are allocated |
| IRLaws.ProducedIsExact | kernel/contracts/src/contracts/system-definition.ts:100-112 | With distinct operation ids, the events available to subscribers are exactly those some component declares and those emitted by an operation it implements |
| IRLaws.EnvironmentsAreExact | kernel/compiler/src/ir.ts:89-108 | A component runs in every environment of the system, or in those of them it names |
| IRLaws.ComponentIsSorted | kernel/compiler/src/ir.ts:96-105 | In the IR the edges of a component are in text order of target, then interaction, its capabilities by id and its data accesses by store |
| Realization.DomainsArePinned | kernel/compiler/src/ir.ts:78-86 | The contract validation looks an id up in is the revision the IR pins that id to |
| Realization.TextNamesItem | kernel/compiler/src/ir.ts:78-86 | A known text is translated to the pinned item of a contract exactly when it names that item of the contract in force |
| Realization.NormalizedUses | kernel/compiler/src/ir.ts:88-113 | A normalized component implements, publishes, subscribes to and consumes exactly the translations of what it declares |
| Realization.ImplementationIsPinned | kernel/compiler/src/ir.ts:88-123 | In the IR a component implements an item exactly when its definition names it |
| Realization.UnimplementedIsExact | kernel/compiler/src/ir.ts:115-144 | An item is listed IR_OPERATION_UNIMPLEMENTED exactly when it is an operation of a pinned contract that no component implements |
| Realization.UnpublishedIsExact | kernel/compiler/src/ir.ts:115-144 | An item is listed IR_EVENT_UNPUBLISHED exactly when it is an event that no component publishes, directly or through an operation that emits it |
| Realization.UnimplementedIsUnconsumed | kernel/compiler/src/ir.ts:115-173 | In an accepted definition, an operation listed as unimplemented is consumed by no component |
| Realization.UnpublishedIsUnsubscribed | kernel/compiler/src/ir.ts:115-173 | In an accepted definition, an event listed as unpublished is subscribed to by no component |
| SystemOrder.SystemIRForgetsOrderExactly | kernel/compiler/src/ir.ts:5-9 | With distinct component and integration ids and items written as the schema asks, the System IR does not depend on the order of components, pins, integrations and the lists of a component exactly when, in every component, edges to one target under one interaction name the same operations, capabilities of one id name one version, accesses to one store are one, constraints are all the same, and the pins of a contract that an item belongs to are one |
| SystemOrder.SystemIRForgetsOrder | kernel/compiler/src/ir.ts:88-173 | Two definitions that differ by the order of components, pins, integrations and the lists of a component have the same System IR, when what ties is the same |
| DefinitionSamples.TiesShowOrder | kernel/compiler/src/ir.ts:78-105 | Five concrete definitions that validation accepts, one for each tie (two calls of one component, two versions of one capability, two accesses to one store, two constraints, two pins of one contract), whose System IR depends on the order they are written in |
| DefinitionSamples.ShopIsAccepted | kernel/contracts/src/contracts/system-definition.ts:23-142 | Such a definition passes every rule on one definition, its pins resolve, and it is coherent with what it pins |
| Adapter.PlanArtifacts | kernel/extensions/src/adapter.ts:99-117 | Accepts exactly outputs with safe, distinct paths and known ownership; the plan lists them by path, with their digests, and only seeds an OWNER_MANAGED component |
| Adapter.PlanListsOutput | kernel/extensions/src/adapter.ts:99-117 | A plan lists each artifact of the output once and nothing else, by path in text order, with the digest of its content; it is OWNER_SEEDED exactly when the component is OWNER_MANAGED or the adapter says so |
| ArtifactPaths.SafeIsPattern | kernel/contracts/src/primitives/paths.ts:8-12 | Accepted are exactly the texts of the pattern: not empty, of the allowed characters, no slash at either end, no two slashes in a row, no `..` segment, not under `.foundation/` |
| ArtifactPaths.PlainPathsNameFiles | kernel/contracts/src/primitives/paths.ts:1-12 | Following the segments of an accepted path never leaves the component directory; without `.` segments, distinct accepted paths name distinct files, none of them among the records |
| ArtifactPaths.DotPathNamesSameFile | kernel/contracts/src/primitives/paths.ts:1-12 | With them neither holds, against lines 3-4: `./` before any path of the pattern is accepted and names the same file, one below `.foundation/` included |
| MaterializationPlan.PlanMaterialization | engine/materializer/src/materialize.ts:52-88 | Everything planned can be applied; there is one plan for each MATERIALIZE step whose adapter is loaded, accepts the component and keeps the protocol, in order, and it is the plan of what that adapter produces for the component of the step; nothing is reported exactly when no step is refused |
| MaterializationPlan.PlannedOnce | engine/materializer/src/materialize.ts:52-88 | The plan of a system materializes no component twice |
| Materializer.Workspace.LatestRecord | engine/materializer/src/materialize.ts:94-106 | Going through the store finds the record with the highest revision |
| Materializer.Workspace.MaterializeComponent | engine/materializer/src/materialize.ts:179-212 | The engine, decision by decision and write by write, takes the workspace to the specified next state and returns the specified record |
| Materializer.Workspace.Materialize | engine/materializer/src/materialize.ts:158-214 | With an expired waiver nothing changes; otherwise the components are applied in order, one record each |
| Runs.StepWritesSafely | engine/materializer/src/materialize.ts:179-212 | No silent overwrite: a step deletes nothing; what it creates or changes gets the planned content; a file it changes is compiler-owned and held the very bytes the latest record lists |
| Runs.OwnerFilesStay | kernel/extensions/src/ownership.ts:21-30 | An existing seeded file, and any existing file of an OWNER_MANAGED component, keeps its bytes in every step |
| Runs.StepIsAllOrNothing | engine/materializer/src/materialize.ts:200-211 | A conflict leaves the whole workspace untouched; an applied step puts every artifact in place |
| Progress.DecisionsAreExact | kernel/extensions/src/ownership.ts:21-30 | A record has one entry for each artifact of the plan, with its ownership and the digest of its content, and the decision that the bytes of its file and those the latest record lists call for: created, kept for its owner, unchanged, updated or in conflict |
| Progress.ConflictIsExact | kernel/extensions/src/ownership.ts:21-30 | A step is refused exactly when the plan gives some compiler-owned file other bytes than it holds and the latest record does not list the bytes it holds |
| Progress.UneditedIsUpdated | engine/materializer/src/materialize.ts:158-212 | Over any run: when the compiler-owned files of a component are as its latest record lists them and no other file lies where the next plan puts one, that plan is applied, whatever it changes, and each of these files then holds its planned content |
| Progress.NextPlanIsApplied | engine/materializer/src/materialize.ts:158-212 | Over any run, two plans one after the other without an edit between: the second is applied over what the first put in place |
| Runs.EngineContinuesRun | engine/materializer/src/materialize.ts:158-214 | A call of the engine continues a run by one materialization per planned component |
| Runs.OwnerBytesSurvive | engine/materializer/src/materialize.ts:179-212 | Over any run mixing materializations of any plans with any owner edits: bytes that a step replaces were planned, for that file, by an earlier applied step |
| Runs.RecordsListPlanned | engine/materializer/src/materialize.ts:118-150 | Over any run, stored records list only content planned by an applied step of the run |
| Runs.RunKeepsChains | engine/materializer/src/materialize.ts:200-210 | Over any run, the revisions of a component are exactly 1..n, only n is VALID, each supersedes the one before by a digest that stays correct when its status is rewritten, and each passes the record rules |
| RecordLaws.LastAppliedIsInForce | engine/materializer/src/materialize.ts:118-150 | Over any run: in a contract set that holds the records of a component, the revision in force is that of the last materialization applied; superseded records never count |
| Records.StatusIsNotIdentity | kernel/contracts/src/identity.ts:15-30 | Superseding a record does not change the reference that pins it |
| RecordLaws.RecordTells | kernel/contracts/src/identity.ts:15-30 | A reference to a record pins everything the record says, its status excepted: two records have one digest exactly when they agree on every file, decision, outcome, instant as written and superseded record |
| RecordLaws.RecordSays | engine/materializer/src/materialize.ts:118-150 | The document of a record says whether it was applied and, of each file in order, its path, digest and ownership as an adapter writes it |
| Records.ValidateMaterializationRecord | kernel/contracts/src/contracts/materialization-record.ts:18-40 | Reports nothing exactly on records of a real instant with safe, distinct paths, no decision against an owner’s file, and an outcome that agrees with the decisions |
| Runs.AppliedRecordIsValid | kernel/contracts/src/contracts/materialization-record.ts:18-40 | The record of an applied step passes the rules on files and outcome, and all of them exactly when the instant given for the run is real, which the engine does not check |
| Runs.ConflictRecordValidity | kernel/contracts/src/contracts/materialization-record.ts:33-38 | The record of a conflict, which is returned but not stored, passes them exactly when no file would have been written |
| Runs.SomeConflictRecordIsInvalid | kernel/contracts/src/contracts/materialization-record.ts:33-35 | A concrete plan with one edited and one absent file: the record of the conflict breaks the rules |
| Verify.Structural | engine/materializer/src/verify.ts:71-84 | Reports nothing exactly when every listed file is as the record says, seeded files only having to exist |
| Runs.IntactIffOnlyKeeps | engine/materializer/src/verify.ts:71-84 | The structural check passes against a record of a plan exactly when the next run of that plan only keeps files |
| Runs.KeepingWritesNothing | engine/materializer/src/materialize.ts:179-212 | A run that only keeps files is applied and writes none |
| Runs.AppliedIsIntact | engine/materializer/src/materialize.ts:158-212 | After an applied step with no edit the structural check passes, and the same plan writes no file again |

## Left out

- Lone surrogates and other ill-formed UTF-16 text; values that are not JSON and that `canonicalize` rejects (undefined, functions, non-finite numbers, class instances).
- JavaScript coercions in `applyChanges`: non-canonical intermediate indices (`Number(segment)` of `01` or of the empty text), inherited members such as `__proto__`, and an ADD or REPLACE without a value. Documents and values are trees, as parsed JSON is: a container shared inside one document is excluded.
- Removing `/spec` itself, which the schema of a Change Request excludes.
- Schema validation (with migration) and the semantic rules of each kind of document are parameters of the contract-set model (`ContractSet.Rules`): a document that fails its schema is reported and dropped. Inputs that are no document at all (no object, no canonical JSON, an unknown kind) are dropped in the same way and not modelled; the rules of domain contracts, system definitions, design systems, contexts, records and requirement cycles are modelled in their own modules. The only warning among the cross rules, stale evidence, does not affect validity and is not modelled.
- The stages after the closure are a parameter of the compilation (`Facade.Stages`), because its invariance needs only that they read the definition, the closure and the catalog; `Pipeline.StagesOf` is the instance. Reading the spec of a document as a definition, a Domain Contract or a context is a parameter there (`Pipeline.Reading`): the program reads fields of the same object.
- Of the System IR, design bindings (sorted by component, one for each) and the digest, which is a parameter (`Pipeline.Reading`); of the Domain IR, acceptance scenarios, statements of invariants and the content of facets.
- `crossValidateDomainContract`, change impact rules and `verifyChangeBase`: each is settled by reading one function.
- Plan.PlanSystem: does not model the design bindings of the plan, because the System IR modelled has none; the digest of the plan is a parameter of the export (`ProofChain.Recorder`).
- The rule catalog of the policy evaluator and the value rules of design tokens are parameters (regular expressions over component names and token values).
- Files, directories, processes, HTTP probes, the clock, the host and the command line. The workspace is a map from component and path to bytes; an instant is what `Date.parse` reads in a text, if anything.
- Two artifact paths that name one file (`ArtifactPaths.DotPathNamesSameFile`): the workspace is keyed by the text of the path, which is the file for paths without `.` segments; owner edits inside `.foundation/`, that is, of the records themselves; several systems in one workspace.
- A plan that holds a file `a` and a file `a/b`, or a file named `.foundation`: `planArtifacts` accepts both, and on disk the second write, or the directory of the records, fails half-way. In a map of paths every write succeeds, so that `Runs.StepIsAllOrNothing` speaks of plans without such paths.
- Adapter.PlanArtifacts: does not state which of several protocol violations is reported, because the caller reports any of them in the same way.
- ProofChain.VerifyProofChain: does not model a value that is no object or lacks one of the three lists, which is refused as malformed at once, nor list elements that have not the shape of a contract document; a recorded `ref` that is an array is coerced to text by the program and read as absent here. The digests of the compiled stages are a parameter (`ProofChain.Recorder`).
- The content of a MaterializationRecord that no rule reads (definition, closure, plan, adapter and actor) is one opaque value, and its JSON text is not written out.
- The toolchain half of the verification (commands, probes, evidence records).
- Source text generated by the NestJS adapter, diagnostic messages, details, and the codes of the rules of single documents and of cross rules (one code each here).
