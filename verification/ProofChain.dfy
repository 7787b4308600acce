/** Export of a self-contained bundle, and when replaying its contracts gives what was recorded. */
module ProofChain {
  import opened Wrappers
  import Text
  import JsonPointer
  import opened Json
  import opened Graphs
  import opened Refs
  import opened Identity
  import opened ContractSet
  import opened Closure
  import opened SetOrder
  import opened Samples
  import opened Facade

  /** MaterializationRecords and EvidenceRecords are carried apart from the contracts. */
  predicate IsRecord(d: Document) {
    d.kind.MaterializationRecord? || d.kind.EvidenceRecord?
  }

  /** The reference names a record by its kind. */
  predicate CitesRecord(ref: Json)
    requires IsRef(ref)
  {
    ref.members["kind"].text in {KindName(MaterializationRecord), KindName(EvidenceRecord)}
  }

  function ContractsOf(reached: Index): Index {
    map k | k in reached && !IsRecord(reached[k]) :: reached[k]
  }

  // ---- The bundle ----

  const FORMAT := "foundation.enistere.com/proof-chain/v1"

  /** The members of a bundle other than its lists and its digest. */
  type Members = m: map<string, Json> | m.Keys !! {"contracts", "materializations", "evidence", "digest"} witness map[]

  /** A bundle read from anywhere: any member may be absent or be any JSON value. */
  datatype Bundle = Bundle(
    members: Members,
    contracts: seq<Document>,
    materializations: seq<Document>,
    evidence: seq<Document>,
    digest: Option<Json>
  )

  function Listed(documents: seq<Document>): Json {
    Array(seq(|documents|, i requires 0 <= i < |documents| => ToJson(documents[i])))
  }

  /** Everything of the bundle but its digest. */
  function ContentOf(bundle: Bundle): Json {
    Object(bundle.members + map["contracts" := Listed(bundle.contracts), "materializations" := Listed(bundle.materializations),
      "evidence" := Listed(bundle.evidence)])
  }

  function TopMember(bundle: Bundle, key: string): Option<Json> {
    Member(Object(bundle.members), key)
  }

  /** A member of a member. */
  function Inner(bundle: Bundle, key: string, inner: string): Option<Json> {
    match TopMember(bundle, key)
    case None => None
    case Some(value) => Member(value, inner)
  }

  /** `!!value`. */
  predicate IsTruthy(value: Option<Json>) {
    match value
    case None => false
    case Some(Null) => false
    case Some(Bool(b)) => b
    case Some(Number(digits)) => digits != "0"
    case Some(Str(text)) => text != ""
    case Some(_) => true
  }

  /** `a === b` on values of two different parses: containers are never the same. */
  predicate AreSame(a: Option<Json>, b: Option<Json>) {
    a == b && (a.Some? ==> !IsContainer(a.value))
  }

  /** The digest recorded for a stage. */
  function Recorded(bundle: Bundle, stage: string): Option<Json> {
    Inner(bundle, "compilation", stage)
  }

  function RecordedDefinition(bundle: Bundle): Option<Json> {
    Inner(bundle, "definition", "digest")
  }

  /** The id in the text of the recorded definition; none when it cannot be read. */
  function RecordedId(bundle: Bundle): Option<string> {
    match Inner(bundle, "definition", "ref")
    case Some(Str(text)) => if ParseRef(text).Some? then Some(ParseRef(text).value.id) else None
    case _ => None
  }

  // ---- What a compilation is recorded by ----

  datatype Recorder<!R, !P> = Recorder(
    system: R -> string,
    closure: (Document, seq<Document>, R) -> Digest,
    ir: R -> Digest,
    resolved: R -> Digest,
    plan: P -> Digest
  )

  /** The stages of a catalog value; an absent one is the empty catalog. */
  type Catalogs<!R, !P> = Option<Json> -> CatalogStages<R, P>

  const STAGES := ["closure", "ir", "resolved", "plan"]

  /** The digests of the stages a compilation reached. */
  function StageDigests<R, P>(c: Compilation<R, P>, recorder: Recorder<R, P>): map<string, Digest> {
    if !c.Compiled? then map[] else
    var reached := map["closure" := recorder.closure(c.definition, c.closure, c.output), "ir" := recorder.ir(c.output), "resolved" := recorder.resolved(c.output)];
    if c.plan.Some? then reached["plan" := recorder.plan(c.plan.value)] else reached
  }

  function DefinitionDigest<R, P>(c: Compilation<R, P>): Option<Digest> {
    if c.Compiled? then Some(ContractDigest(c.definition)) else None
  }

  // ---- Export ----

  ghost predicate AreRecords(materializations: seq<Document>, evidence: seq<Document>) {
    (forall r | r in materializations :: r.kind.MaterializationRecord?) && forall r | r in evidence :: r.kind.EvidenceRecord?
  }

  /** The reference and the digest of the definition. */
  function DefinitionEntry(definition: Document): Json {
    Object(map["ref" := Str(DocumentKey(definition)), "digest" := Str(ContractDigest(definition))])
  }

  function StagesEntry<R, P>(definition: Document, closure: seq<Document>, output: R, plan: P, recorder: Recorder<R, P>): Json {
    Object(map["closure" := Str(recorder.closure(definition, closure, output)), "ir" := Str(recorder.ir(output)),
      "resolved" := Str(recorder.resolved(output)), "plan" := Str(recorder.plan(plan))])
  }

  /** The members that identify what was compiled. */
  function MembersOf<R, P>(definition: Document, closure: seq<Document>, output: R, plan: P, catalog: Json, recorder: Recorder<R, P>): Members {
    FiveMembers(Str(recorder.system(output)), DefinitionEntry(definition), catalog, StagesEntry(definition, closure, output, plan, recorder))
  }

  function FiveMembers(system: Json, definition: Json, catalog: Json, compilation: Json): (m: Members)
    ensures m.Keys == {"format", "system", "definition", "catalog", "compilation"}
    ensures m["format"] == Str(FORMAT) && m["definition"] == definition && m["catalog"] == catalog && m["compilation"] == compilation
  {
    var m := map["format" := Str(FORMAT), "system" := system, "definition" := definition, "catalog" := catalog, "compilation" := compilation];
    assert m.Keys == {"format", "system", "definition", "catalog", "compilation"};
    m
  }

  /** Builds the bundle of a compilation, or nothing when it gives no plan. */
  method ExportProofChain<R, P>(documents: seq<Document>, wanted: Option<string>, rules: Rules, catalog: Json, catalogs: Catalogs<R, P>, recorder: Recorder<R, P>,
                                materializations: seq<Document>, evidence: seq<Document>)
    returns (bundle: Option<Bundle>)
    requires AreRecords(materializations, evidence)
    ensures var c := CompilationOf(documents, wanted, rules, catalogs(Some(catalog)));
            if c.Compiled? && c.plan.Some? then bundle.Some? && IsBundle(bundle.value, documents, c, catalog, recorder, materializations, evidence) else bundle.None?
  {
    hide CompilationOf, IsReferenceClosure, DocumentsByKey, IndexContracts, ContentOf;
    var c := Compile(documents, wanted, rules, catalogs(Some(catalog)));
    if !c.Compiled? || c.plan.None? {
      return None;
    }
    var records := materializations + evidence;
    var reached := ReferenceClosure([c.definition] + records, documents + records);
    var draft := Bundle(MembersOf(c.definition, c.closure, c.output, c.plan.value, catalog, recorder),
                        DocumentsByKey(ContractsOf(reached)), Sorting.Sort(materializations, ByKey), Sorting.Sort(evidence, ByKey), None);
    DigestIsNoContent(draft);
    bundle := Some(draft.(digest := Some(Str(DigestOf(ContentOf(draft))))));
  }

  lemma DigestIsNoContent(bundle: Bundle)
    ensures forall digest :: ContentOf(bundle.(digest := digest)) == ContentOf(bundle)
  {}

  /** What the bundle of a planned compilation is. */
  ghost predicate IsBundle<R, P>(bundle: Bundle, documents: seq<Document>, c: Compilation<R, P>, catalog: Json, recorder: Recorder<R, P>,
                                 materializations: seq<Document>, evidence: seq<Document>) {
    && c.Compiled? && c.plan.Some?
    && bundle.members == MembersOf(c.definition, c.closure, c.output, c.plan.value, catalog, recorder)
    && bundle.digest == Some(Str(DigestOf(ContentOf(bundle))))
    && bundle.materializations == Sorting.Sort(materializations, ByKey) && bundle.evidence == Sorting.Sort(evidence, ByKey)
    && exists reached ::
         IsReferenceClosure([c.definition] + (materializations + evidence), IndexContracts(documents + (materializations + evidence)), reached) &&
         bundle.contracts == DocumentsByKey(ContractsOf(reached))
  }

  // ---- Replay ----

  /** The replay of verification: the bundled contracts alone, with the bundled catalog, for the recorded definition. */
  ghost function ReplayOf<R, P>(bundle: Bundle, rules: Rules, catalogs: Catalogs<R, P>): Compilation<R, P> {
    CompilationOf(bundle.contracts, RecordedId(bundle), rules, catalogs(TopMember(bundle, "catalog")))
  }

  predicate StageAgrees(bundle: Bundle, stage: string, digests: map<string, Digest>) {
    IsTruthy(TopMember(bundle, "compilation")) &&
    Recorded(bundle, stage) == if stage in digests then Some(Str(digests[stage])) else None
  }

  predicate DefinitionAgrees(bundle: Bundle, replayed: Option<Digest>) {
    RecordedDefinition(bundle) == if replayed.Some? then Some(Str(replayed.value)) else None
  }

  /** The replay gives what is recorded, and nothing where nothing is. */
  predicate ReplayAgrees<R, P>(bundle: Bundle, c: Compilation<R, P>, recorder: Recorder<R, P>) {
    (forall stage | stage in STAGES :: StageAgrees(bundle, stage, StageDigests(c, recorder))) && DefinitionAgrees(bundle, DefinitionDigest(c))
  }

  ghost predicate Replays<R, P>(bundle: Bundle, rules: Rules, catalogs: Catalogs<R, P>, recorder: Recorder<R, P>) {
    ReplayAgrees(bundle, ReplayOf(bundle, rules, catalogs), recorder)
  }

  // ---- References to records ----

  ghost predicate NoContractCitesRecord(contracts: seq<Document>) {
    forall c, r | c in contracts && r in AllRefs(c) :: !CitesRecord(r)
  }

  lemma RefTellsKind(ref: Json, d: Document)
    requires IsRef(ref) && RefKey(ref) == DocumentKey(d)
    ensures ref.members["kind"].text == KindName(d.kind)
    ensures CitesRecord(ref) <==> IsRecord(d)
  {
    hide Text.Decimal, KindName;
    var name := ref.members["kind"].text;
    var kind: Kind :| KindName(kind) == name;
    var x := ref.members["id"].text + "@" + ref.members["revision"].digits;
    var y := d.id + "@" + Text.Decimal(d.revision);
    assert RefKey(ref) == KindName(kind) + ['/'] + x;
    assert DocumentKey(d) == KindName(d.kind) + ['/'] + y;
    KindHasNoSlash(kind);
    KindHasNoSlash(d.kind);
    Text.FirstPartAgrees(name, KindName(d.kind), x, y, '/');
    KindNameInjective(kind, d.kind);
    KindNameInjective(d.kind, MaterializationRecord);
    KindNameInjective(d.kind, EvidenceRecord);
  }

  // ---- What the bundle holds ----

  /** The valid set, the records given, and what was reached from the definition and the records. */
  ghost predicate Exporting(documents: seq<Document>, definition: Document, records: seq<Document>, reached: Index) {
    && OneDocumentPerKey(documents) && IsClosedUnderRefs(documents)
    && definition in documents && definition.kind.SystemDefinition?
    && (forall r | r in records :: IsRecord(r))
    && IsReferenceClosure([definition] + records, IndexContracts(documents + records), reached)
  }

  /** Anything given that is filed under the key of a contract of the set is that contract. */
  lemma GivenContract(documents: seq<Document>, definition: Document, records: seq<Document>, reached: Index, d: Document, x: Document)
    requires Exporting(documents, definition, records, reached)
    requires d in documents && !IsRecord(d) && DocumentKey(x) == DocumentKey(d)
    requires x in documents || x in records
    ensures x == d
  {
    hide DocumentKey, IsReferenceClosure, IsClosedUnderRefs;
    KeyTellsKind(x, d);
  }

  lemma ReachedIsGiven(documents: seq<Document>, definition: Document, records: seq<Document>, reached: Index, k: Key)
    requires Exporting(documents, definition, records, reached) && k in reached
    ensures reached[k] in documents || reached[k] in records
  {
    hide DocumentKey, IndexContracts, IsClosedUnderRefs, FromRoots, OneDocumentPerKey;
    FromRootsIsGiven([definition] + records, documents + records, reached[k]);
  }

  lemma BundledAreDocuments(documents: seq<Document>, definition: Document, records: seq<Document>, reached: Index)
    requires Exporting(documents, definition, records, reached)
    ensures IsFiled(ContractsOf(reached))
    ensures forall d | d in DocumentsByKey(ContractsOf(reached)) :: d in documents && !IsRecord(d)
    ensures forall k | k in reached && !IsRecord(reached[k]) :: reached[k] in DocumentsByKey(ContractsOf(reached))
    ensures definition in DocumentsByKey(ContractsOf(reached))
    ensures IsPartOf(DocumentsByKey(ContractsOf(reached)), documents)
  {
    hide DocumentKey, IndexContracts, IsClosedUnderRefs, FromRoots, DocumentsByKey, OneDocumentPerKey, AllTargets;
    DocumentsByKeyList(ContractsOf(reached));
    forall k | k in reached { ReachedIsGiven(documents, definition, records, reached, k); }
    var key := DocumentKey(definition);
    assert definition in [definition] + records;
    GivenHasDefinitionKind(documents, definition, records, reached);
    ListingHasNoRepeatedKey(ContractsOf(reached));
  }

  lemma GivenHasDefinitionKind(documents: seq<Document>, definition: Document, records: seq<Document>, reached: Index)
    requires Exporting(documents, definition, records, reached)
    ensures DocumentKey(definition) in reached && reached[DocumentKey(definition)] == definition
  {
    hide DocumentKey, IndexContracts, IsClosedUnderRefs, FromRoots, OneDocumentPerKey, AllTargets;
    assert definition in [definition] + records;
    ReachedIsGiven(documents, definition, records, reached, DocumentKey(definition));
    GivenContract(documents, definition, records, reached, definition, reached[DocumentKey(definition)]);
  }

  lemma ListingHasNoRepeatedKey(filed: Index)
    requires IsFiled(filed)
    ensures NoRepeatedKey(DocumentsByKey(filed))
  {
    hide DocumentKey, Sorting.SortedKeys;
    DocumentsByKeyList(filed);
    var all := DocumentsByKey(filed);
    forall i, j | 0 <= i < j < |all|
      ensures DocumentKey(all[i]) != DocumentKey(all[j])
    {
      assert all[i] in all && all[j] in all;
    }
  }

  /** A reference of a bundled contract to another contract is followed into the bundle. */
  lemma CitedContractIsBundled(documents: seq<Document>, definition: Document, records: seq<Document>, reached: Index, c: Document, ref: Json)
    requires Exporting(documents, definition, records, reached)
    requires c in DocumentsByKey(ContractsOf(reached)) && ref in AllRefs(c) && !CitesRecord(ref)
    ensures RefKey(ref) in IndexContracts(DocumentsByKey(ContractsOf(reached)))
  {
    hide DocumentKey, IndexContracts, FromRoots, DocumentsByKey, RefKey, CitesRecord, AllRefs;
    BundledAreDocuments(documents, definition, records, reached);
    DocumentsByKeyList(ContractsOf(reached));
    var all := documents + records;
    var key := RefKey(ref);
    var target := IndexContracts(documents)[key];
    RefTellsKind(ref, target);
    assert target in all;
    var found := IndexContracts(all)[key];
    GivenContract(documents, definition, records, reached, target, found);
    TargetIsFollowed(c, ref, IndexContracts(all));
    assert DocumentKey(target) in reached;
    ReachedIsGiven(documents, definition, records, reached, key);
    GivenContract(documents, definition, records, reached, target, reached[key]);
    assert reached[key] in DocumentsByKey(ContractsOf(reached));
  }

  lemma TargetIsFollowed(c: Document, ref: Json, index: Index)
    requires ref in AllRefs(c) && RefKey(ref) in index
    ensures index[RefKey(ref)] in AllTargets(index)(c)
  {
    hide RefKey, ToJson, CollectRefs;
    var i :| 0 <= i < |AllRefs(c)| && AllRefs(c)[i] == ref;
    assert DocumentKeys(c)[i] == RefKey(ref);
  }

  lemma CitedIsBundledUnlessRecord(documents: seq<Document>, definition: Document, records: seq<Document>, reached: Index, c: Document, ref: Json)
    requires Exporting(documents, definition, records, reached)
    requires c in DocumentsByKey(ContractsOf(reached)) && ref in AllRefs(c)
    ensures RefKey(ref) in IndexContracts(DocumentsByKey(ContractsOf(reached))) <==> !CitesRecord(ref)
  {
    hide DocumentKey, IndexContracts, Exporting, DocumentsByKey, RefKey, CitesRecord, AllRefs;
    BundledAreDocuments(documents, definition, records, reached);
    var contracts := DocumentsByKey(ContractsOf(reached));
    if CitesRecord(ref) && RefKey(ref) in IndexContracts(contracts) {
      RefTellsKind(ref, IndexContracts(contracts)[RefKey(ref)]);
    } else if !CitesRecord(ref) {
      CitedContractIsBundled(documents, definition, records, reached, c, ref);
    }
  }

  lemma ClosedUnlessRecords(contracts: seq<Document>)
    ensures (forall c, r | c in contracts && r in AllRefs(c) :: RefKey(r) in IndexContracts(contracts) <==> !CitesRecord(r)) ==>
            (IsClosedUnderRefs(contracts) <==> NoContractCitesRecord(contracts))
  {
    hide IndexContracts, RefKey, CitesRecord, AllRefs, IsRef, DocumentKey;
  }

  /** The bundled contracts keep their references exactly when none of them cites a record. */
  lemma BundleIsClosed(documents: seq<Document>, definition: Document, records: seq<Document>, reached: Index)
    requires Exporting(documents, definition, records, reached)
    ensures var contracts := DocumentsByKey(ContractsOf(reached));
            IsClosedUnderRefs(contracts) <==> NoContractCitesRecord(contracts)
  {
    hide IndexContracts, Exporting, DocumentsByKey, ContractsOf, RefKey, CitesRecord, AllRefs, IsClosedUnderRefs, NoContractCitesRecord;
    var contracts := DocumentsByKey(ContractsOf(reached));
    ClosedUnlessRecords(contracts);
    forall c, r | c in contracts && r in AllRefs(c)
      ensures RefKey(r) in IndexContracts(contracts) <==> !CitesRecord(r)
    {
      CitedIsBundledUnlessRecord(documents, definition, records, reached, c, r);
    }
  }

  lemma CompiledIsExporting<R, P>(documents: seq<Document>, wanted: Option<string>, rules: Rules, stages: CatalogStages<R, P>, records: seq<Document>, reached: Index)
    requires CompilationOf(documents, wanted, rules, stages).Compiled?
    requires forall r | r in records :: IsRecord(r)
    requires IsReferenceClosure([CompilationOf(documents, wanted, rules, stages).definition] + records, IndexContracts(documents + records), reached)
    ensures Exporting(documents, CompilationOf(documents, wanted, rules, stages).definition, records, reached)
  {
    hide DocumentKey, IndexContracts, IsReferenceClosure, SelectDefinition, DocumentHolds, ClosureOf, IsClosedUnderRefs, NoRepeatedKey, OneDocumentPerKey, Sorting.Sort, ReportOf;
    SortedSet(documents);
    SelectedIsInForce(Sorting.Sort(documents, ByKey), wanted, CompilationOf(documents, wanted, rules, stages).definition);
    ValidIsClosedUnderRefs(documents, rules);
  }

  // ---- Exported bundles ----

  /** The ids and revisions that the envelope schema admits, which every document rule checks. */
  ghost predicate ChecksEnvelope(rules: Rules) {
    forall d | rules.documentOk(d) :: IsId(d.id) && d.revision > 0
  }

  /** The text of a document's reference reads back as its id. */
  lemma KeyNamesId(d: Document)
    requires IsId(d.id) && d.revision > 0
    ensures ParseRef(DocumentKey(d)).Some? && ParseRef(DocumentKey(d)).value.id == d.id
  {
    hide ParseRef, Text.Decimal, KindName;
    ParseRefIsExact(DocumentKey(d), ContractRef(d.kind, d.id, d.revision, None));
  }

  /** What verification reads back from an exported bundle. */
  lemma ExportedMembers<R, P>(bundle: Bundle, c: Compilation<R, P>, catalog: Json, recorder: Recorder<R, P>)
    requires c.Compiled? && c.plan.Some? && bundle.members == MembersOf(c.definition, c.closure, c.output, c.plan.value, catalog, recorder)
    ensures TopMember(bundle, "catalog") == Some(catalog) && TopMember(bundle, "format") == Some(Str(FORMAT))
    ensures IsTruthy(TopMember(bundle, "compilation"))
    ensures forall stage | stage in STAGES :: stage in StageDigests(c, recorder) && Recorded(bundle, stage) == Some(Str(StageDigests(c, recorder)[stage]))
    ensures RecordedDefinition(bundle) == Some(Str(ContractDigest(c.definition)))
    ensures Inner(bundle, "definition", "ref") == Some(Str(DocumentKey(c.definition)))
  {
    hide DocumentKey, ContractDigest, FiveMembers;
  }

  /** An exported bundle is replayed for the definition it was compiled for. */
  lemma ExportedNamesDefinition<R, P>(bundle: Bundle, documents: seq<Document>, wanted: Option<string>, rules: Rules, stages: CatalogStages<R, P>, catalog: Json, recorder: Recorder<R, P>)
    requires ChecksEnvelope(rules)
    requires var c := CompilationOf(documents, wanted, rules, stages);
             c.Compiled? && c.plan.Some? && bundle.members == MembersOf(c.definition, c.closure, c.output, c.plan.value, catalog, recorder)
    ensures RecordedId(bundle) == Some(CompilationOf(documents, wanted, rules, stages).definition.id)
  {
    hide ParseRef, DocumentKey, CompilationOf, IsId, MembersOf, TopMember, Inner, NoRepeatedKey, OneSystem;
    var c := CompilationOf(documents, wanted, rules, stages);
    ExportedMembers(bundle, c, catalog, recorder);
    CompiledIsDocument(documents, wanted, rules, stages);
    HoldsAlone(c.definition, documents, rules);
    KeyNamesId(c.definition);
  }

  lemma SameAgrees<R, P>(bundle: Bundle, c: Compilation<R, P>, catalog: Json, recorder: Recorder<R, P>)
    requires c.Compiled? && c.plan.Some? && bundle.members == MembersOf(c.definition, c.closure, c.output, c.plan.value, catalog, recorder)
    ensures ReplayAgrees(bundle, c, recorder)
  {
    hide DocumentKey, ContractDigest, MembersOf, TopMember, Recorded, RecordedDefinition, StageDigests;
    ExportedMembers(bundle, c, catalog, recorder);
  }

  lemma RefusedDisagrees<R, P>(bundle: Bundle, c: Compilation<R, P>, catalog: Json, recorder: Recorder<R, P>, replayed: Compilation<R, P>)
    requires c.Compiled? && c.plan.Some? && bundle.members == MembersOf(c.definition, c.closure, c.output, c.plan.value, catalog, recorder)
    requires !replayed.Compiled?
    ensures !ReplayAgrees(bundle, replayed, recorder)
  {
    hide DocumentKey, ContractDigest, MembersOf, TopMember, Recorded, RecordedDefinition;
    ExportedMembers(bundle, c, catalog, recorder);
    assert STAGES[0] in STAGES;
    assert !StageAgrees(bundle, "closure", StageDigests(replayed, recorder));
  }

  /**
   * An exported bundle replays to the digests it records exactly when none of its
   * contracts cites a MaterializationRecord or an EvidenceRecord.
   */
  lemma BundleReplays<R, P>(bundle: Bundle, documents: seq<Document>, wanted: Option<string>, rules: Rules, catalog: Json, catalogs: Catalogs<R, P>,
                            recorder: Recorder<R, P>, materializations: seq<Document>, evidence: seq<Document>)
    requires AreRecords(materializations, evidence) && ChecksEnvelope(rules)
    requires IsBundle(bundle, documents, CompilationOf(documents, wanted, rules, catalogs(Some(catalog))), catalog, recorder, materializations, evidence)
    ensures Replays(bundle, rules, catalogs, recorder) <==> NoContractCitesRecord(bundle.contracts)
  {
    hide DocumentKey, IndexContracts, IsReferenceClosure, CompilationOf, IsClosedUnderRefs, NoRepeatedKey, DocumentsByKey, NoContractCitesRecord, OneSystem, Sorting.Sort, MembersOf, TopMember, RecordedId, ReplayAgrees, ChecksEnvelope, IsValidSet, IsPartOf;
    var stages := catalogs(Some(catalog));
    var c, records := CompilationOf(documents, wanted, rules, stages), materializations + evidence;
    var reached :| IsReferenceClosure([c.definition] + records, IndexContracts(documents + records), reached) &&
                   bundle.contracts == DocumentsByKey(ContractsOf(reached));
    CompiledIsExporting(documents, wanted, rules, stages, records, reached);
    BundleIsClosed(documents, c.definition, records, reached);
    BundledAreDocuments(documents, c.definition, records, reached);
    ExportedMembers(bundle, c, catalog, recorder);
    ExportedNamesDefinition(bundle, documents, wanted, rules, stages, catalog, recorder);
    CompiledIsDocument(documents, wanted, rules, stages);
    ClosedPartIsValid(bundle.contracts, documents, rules);
    if NoContractCitesRecord(bundle.contracts) {
      PartCompilesTheSame(documents, bundle.contracts, wanted, Some(c.definition.id), rules, stages);
      SameAgrees(bundle, c, catalog, recorder);
    } else {
      InvalidIsRefused(bundle.contracts, RecordedId(bundle), rules, stages);
      RefusedDisagrees(bundle, c, catalog, recorder, ReplayOf(bundle, rules, catalogs));
    }
  }

  lemma InvalidIsRefused<R, P>(documents: seq<Document>, wanted: Option<string>, rules: Rules, stages: CatalogStages<R, P>)
    requires !IsValidSet(documents, rules)
    ensures CompilationOf(documents, wanted, rules, stages).Refused?
  {
    hide IsValidSet, ReportOf;
  }

  // ---- Verification of a bundle read from anywhere ----

  datatype ProofError =
    | Malformed
    | DigestMismatch
    | SetBroken(error: SetError)
    | ReplayMismatch(stage: string)
    | DefinitionMismatch
    | RecordMismatch(record: Key)
    | EvidenceUnlinked(record: Key)

  predicate IsBundleFormat(bundle: Bundle) {
    TopMember(bundle, "format") == Some(Str(FORMAT))
  }

  predicate DigestHolds(bundle: Bundle) {
    bundle.digest == Some(Str(DigestOf(ContentOf(bundle))))
  }

  function AllDocuments(bundle: Bundle): seq<Document> {
    bundle.contracts + bundle.materializations + bundle.evidence
  }

  /** The record describes the recorded compilation; a superseded one may describe an earlier one. */
  predicate Describes(record: Document, bundle: Bundle) {
    record.status == "VALID" ==>
      && AreSame(Child(record.spec, "plan"), Recorded(bundle, "plan"))
      && AreSame(Child(record.spec, "closure"), Recorded(bundle, "closure"))
      && AreSame(Lookup(record.spec, ["subject", "contract", "digest"]), RecordedDefinition(bundle))
  }

  predicate CitesOneOf(input: Json, keys: set<Key>) {
    IsRef(input) && input.members["kind"].text == KindName(MaterializationRecord) && RefKey(input) in keys
  }

  /** Evidence about a component cites a materialization of the bundle. */
  predicate IsLinked(record: Document, keys: set<Key>) {
    Lookup(record.spec, ["subject", "component"]).Some? ==>
      match Child(record.spec, "inputs")
      case Some(Array(inputs)) => exists i :: 0 <= i < |inputs| && CitesOneOf(inputs[i], keys)
      case _ => false
  }

  function KeysOf(documents: seq<Document>): set<Key> {
    set d | d in documents :: DocumentKey(d)
  }

  /** The bundles that verification accepts. */
  ghost predicate IsProof<R, P>(bundle: Bundle, rules: Rules, catalogs: Catalogs<R, P>, recorder: Recorder<R, P>) {
    && IsBundleFormat(bundle) && DigestHolds(bundle)
    && IsValidSet(AllDocuments(bundle), rules)
    && Replays(bundle, rules, catalogs, recorder)
    && (forall r | r in bundle.materializations :: Describes(r, bundle))
    && (forall r | r in bundle.evidence :: IsLinked(r, KeysOf(bundle.materializations)))
  }

  /** What verification reports: each error exactly when the bundle deserves it. */
  ghost predicate Deserves<R, P>(bundle: Bundle, e: ProofError, rules: Rules, replay: Compilation<R, P>, recorder: Recorder<R, P>) {
    match e
    case Malformed => !IsBundleFormat(bundle)
    case DigestMismatch => !DigestHolds(bundle)
    case SetBroken(error) => error in ReportOf(AllDocuments(bundle), rules)
    case ReplayMismatch(stage) => stage in STAGES && !StageAgrees(bundle, stage, StageDigests(replay, recorder))
    case DefinitionMismatch => !DefinitionAgrees(bundle, DefinitionDigest(replay))
    case RecordMismatch(key) => exists r :: r in bundle.materializations && !Describes(r, bundle) && DocumentKey(r) == key
    case EvidenceUnlinked(key) => exists r :: r in bundle.evidence && !IsLinked(r, KeysOf(bundle.materializations)) && DocumentKey(r) == key
  }

  /** One error for each stage whose digest differs. */
  method CompareStages(bundle: Bundle, digests: map<string, Digest>) returns (found: seq<ProofError>)
    ensures forall e :: e in found <==> e.ReplayMismatch? && e.stage in STAGES && !StageAgrees(bundle, e.stage, digests)
  {
    hide StageAgrees;
    found := [];
    for i := 0 to |STAGES|
      invariant forall e :: e in found <==> e.ReplayMismatch? && e.stage in STAGES[..i] && !StageAgrees(bundle, e.stage, digests)
    {
      assert STAGES[..i + 1] == STAGES[..i] + [STAGES[i]];
      if !StageAgrees(bundle, STAGES[i], digests) {
        found := found + [ReplayMismatch(STAGES[i])];
      }
    }
    assert STAGES[..|STAGES|] == STAGES;
  }

  method CheckMaterializations(bundle: Bundle) returns (found: seq<ProofError>)
    ensures forall e :: e in found <==> e.RecordMismatch? && exists r :: r in bundle.materializations && !Describes(r, bundle) && DocumentKey(r) == e.record
  {
    hide Describes, DocumentKey;
    found := [];
    var all := bundle.materializations;
    for i := 0 to |all|
      invariant forall e :: e in found <==> e.RecordMismatch? && exists r :: r in all[..i] && !Describes(r, bundle) && DocumentKey(r) == e.record
    {
      assert all[..i + 1] == all[..i] + [all[i]];
      if !Describes(all[i], bundle) {
        found := found + [RecordMismatch(DocumentKey(all[i]))];
      }
    }
    assert all[..|all|] == all;
  }

  method CheckEvidence(bundle: Bundle) returns (found: seq<ProofError>)
    ensures forall e :: e in found <==>
                        e.EvidenceUnlinked? && exists r :: r in bundle.evidence && !IsLinked(r, KeysOf(bundle.materializations)) && DocumentKey(r) == e.record
  {
    hide IsLinked, DocumentKey, KeysOf;
    found := [];
    var all, keys := bundle.evidence, KeysOf(bundle.materializations);
    for i := 0 to |all|
      invariant forall e :: e in found <==> e.EvidenceUnlinked? && exists r :: r in all[..i] && !IsLinked(r, keys) && DocumentKey(r) == e.record
    {
      assert all[..i + 1] == all[..i] + [all[i]];
      if !IsLinked(all[i], keys) {
        found := found + [EvidenceUnlinked(DocumentKey(all[i]))];
      }
    }
    assert all[..|all|] == all;
  }

  /**
   * Checks the format and the digest, validates everything bundled, replays the compilation
   * of the contracts, and checks what the records describe and cite.
   */
  method VerifyProofChain<R, P>(bundle: Bundle, rules: Rules, catalogs: Catalogs<R, P>, recorder: Recorder<R, P>) returns (found: seq<ProofError>)
    ensures !IsBundleFormat(bundle) ==> found == [Malformed]
    ensures IsBundleFormat(bundle) ==> forall e :: e in found <==> Deserves(bundle, e, rules, ReplayOf(bundle, rules, catalogs), recorder)
    ensures found == [] <==> IsProof(bundle, rules, catalogs, recorder)
  {
    hide CompilationOf, Describes, IsLinked, ReportOf, StageAgrees, DefinitionAgrees, StageDigests, IsBundleFormat, DigestHolds, IsProof, DocumentKey, KeysOf, IsValidSet, Sorting.Sort, Entries, TopMember, RecordedId, DefinitionDigest;
    if !IsBundleFormat(bundle) {
      UnformattedIsNoProof(bundle, rules, catalogs, recorder);
      return [Malformed];
    }
    var broken := if DigestHolds(bundle) then [] else [DigestMismatch];
    var entries, errors := ValidateContractSet(AllDocuments(bundle), rules);
    var set_ := seq(|errors|, i requires 0 <= i < |errors| => SetBroken(errors[i]));
    var replay := Compile(bundle.contracts, RecordedId(bundle), rules, catalogs(TopMember(bundle, "catalog")));
    var stages := CompareStages(bundle, StageDigests(replay, recorder));
    var definition := if DefinitionAgrees(bundle, DefinitionDigest(replay)) then [] else [DefinitionMismatch];
    var described := CheckMaterializations(bundle);
    var linked := CheckEvidence(bundle);
    found := broken + set_ + stages + definition + described + linked;
    forall e
      ensures e in found <==> Deserves(bundle, e, rules, replay, recorder)
    {
      SetErrorsAreListed(errors, set_, e);
    }
    NothingDeserved(bundle, rules, catalogs, recorder);
    if found != [] { assert found[0] in found; }
  }

  lemma SetErrorsAreListed(errors: seq<SetError>, listed: seq<ProofError>, e: ProofError)
    requires |listed| == |errors| && forall i | 0 <= i < |errors| :: listed[i] == SetBroken(errors[i])
    ensures e in listed <==> e.SetBroken? && e.error in errors
  {
    if e.SetBroken? && e.error in errors {
      var i :| 0 <= i < |errors| && errors[i] == e.error;
      assert listed[i] == e;
    }
  }

  lemma UnformattedIsNoProof<R, P>(bundle: Bundle, rules: Rules, catalogs: Catalogs<R, P>, recorder: Recorder<R, P>)
    requires !IsBundleFormat(bundle)
    ensures !IsProof(bundle, rules, catalogs, recorder)
  {}

  /** A bundle is accepted exactly when it deserves no error. */
  lemma NothingDeserved<R, P>(bundle: Bundle, rules: Rules, catalogs: Catalogs<R, P>, recorder: Recorder<R, P>)
    ensures IsProof(bundle, rules, catalogs, recorder) <==> forall e :: !Deserves(bundle, e, rules, ReplayOf(bundle, rules, catalogs), recorder)
  {
    hide CompilationOf, Describes, IsLinked, ReportOf, StageAgrees, DefinitionAgrees, StageDigests, IsBundleFormat, DigestHolds, IsValidSet, DocumentKey, KeysOf, ReplayOf, AllDocuments;
    var replay := ReplayOf(bundle, rules, catalogs);
    var errors := ReportOf(AllDocuments(bundle), rules);
    ReportDecides(AllDocuments(bundle), rules);
    assert errors != [] ==> Deserves(bundle, SetBroken(errors[0]), rules, replay, recorder);
    if forall e :: !Deserves(bundle, e, rules, replay, recorder) {
      assert !Deserves(bundle, Malformed, rules, replay, recorder) && !Deserves(bundle, DigestMismatch, rules, replay, recorder);
      assert !Deserves(bundle, DefinitionMismatch, rules, replay, recorder);
      forall stage | stage in STAGES ensures StageAgrees(bundle, stage, StageDigests(replay, recorder)) {
        assert !Deserves(bundle, ReplayMismatch(stage), rules, replay, recorder);
      }
      forall r | r in bundle.materializations ensures Describes(r, bundle) {
        assert !Deserves(bundle, RecordMismatch(DocumentKey(r)), rules, replay, recorder);
      }
      forall r | r in bundle.evidence ensures IsLinked(r, KeysOf(bundle.materializations)) {
        assert !Deserves(bundle, EvidenceUnlinked(DocumentKey(r)), rules, replay, recorder);
      }
    }
  }

  // ---- What is accepted ----

  /** An accepted bundle compiles exactly when it records a definition digest, and to a plan exactly when it records a plan digest. */
  lemma AcceptedPlans<R, P>(bundle: Bundle, rules: Rules, catalogs: Catalogs<R, P>, recorder: Recorder<R, P>)
    requires IsProof(bundle, rules, catalogs, recorder)
    ensures ReplayOf(bundle, rules, catalogs).Compiled? <==> RecordedDefinition(bundle).Some?
    ensures ReplayOf(bundle, rules, catalogs).Compiled? && ReplayOf(bundle, rules, catalogs).plan.Some? <==> Recorded(bundle, "plan").Some?
  {
    hide CompilationOf, Describes, IsLinked, ContentOf, IsValidSet, ContractDigest, ReplayOf;
    assert STAGES[3] in STAGES;
    assert StageAgrees(bundle, "plan", StageDigests(ReplayOf(bundle, rules, catalogs), recorder));
  }

  function TwoMembers(): (m: Members)
    ensures m.Keys == {"format", "compilation"} && m["format"] == Str(FORMAT) && m["compilation"] == Object(map[])
  {
    var m := map["format" := Str(FORMAT), "compilation" := Object(map[])];
    assert m.Keys == {"format", "compilation"};
    m
  }

  /** A bundle without documents, definition or digests of stages. */
  function EmptyBundle(): Bundle {
    var draft := Bundle(TwoMembers(), [], [], [], None);
    draft.(digest := Some(Str(DigestOf(ContentOf(draft)))))
  }

  lemma EmptyMembers()
    ensures var bundle := EmptyBundle();
            IsBundleFormat(bundle) && DigestHolds(bundle) && IsTruthy(TopMember(bundle, "compilation")) && RecordedDefinition(bundle).None? &&
            bundle.contracts == [] && bundle.materializations == [] && bundle.evidence == [] && forall stage :: Recorded(bundle, stage).None?
  {
    hide DigestOf, TwoMembers;
    assert ContentOf(EmptyBundle()) == ContentOf(EmptyBundle().(digest := None));
  }

  /** Verification accepts the empty bundle, which compiles to nothing. */
  lemma EmptyBundleIsAccepted<R, P>(rules: Rules, catalogs: Catalogs<R, P>, recorder: Recorder<R, P>)
    ensures IsProof(EmptyBundle(), rules, catalogs, recorder)
    ensures !ReplayOf(EmptyBundle(), rules, catalogs).Compiled?
  {
    hide EmptyBundle, DigestHolds, IsBundleFormat, IsTruthy, TopMember, Recorded, RecordedDefinition, RecordedId, ReportOf, ReplayOf, CompilationOf, Describes, IsLinked, KeysOf, DocumentHolds;
    var bundle := EmptyBundle();
    EmptyMembers();
    NothingCompiles(RecordedId(bundle), rules, catalogs(TopMember(bundle, "catalog")));
    ReplayIs(bundle, rules, catalogs);
  }

  lemma ReplayIs<R, P>(bundle: Bundle, rules: Rules, catalogs: Catalogs<R, P>)
    ensures ReplayOf(bundle, rules, catalogs) == CompilationOf(bundle.contracts, RecordedId(bundle), rules, catalogs(TopMember(bundle, "catalog")))
  {
    hide CompilationOf;
  }

  lemma NothingCompiles<R, P>(wanted: Option<string>, rules: Rules, stages: CatalogStages<R, P>)
    ensures !CompilationOf([], wanted, rules, stages).Compiled?
  {
    hide ReportOf;
    assert CandidateIds([], wanted) == {};
  }

  /**
   * An exported bundle is accepted exactly when none of its contracts cites a record, what
   * it holds is a valid set, its valid records describe the compilation and its evidence is linked.
   */
  lemma ExportedIsProof<R, P>(bundle: Bundle, documents: seq<Document>, wanted: Option<string>, rules: Rules, catalog: Json, catalogs: Catalogs<R, P>,
                              recorder: Recorder<R, P>, materializations: seq<Document>, evidence: seq<Document>)
    requires AreRecords(materializations, evidence) && ChecksEnvelope(rules)
    requires IsBundle(bundle, documents, CompilationOf(documents, wanted, rules, catalogs(Some(catalog))), catalog, recorder, materializations, evidence)
    ensures IsProof(bundle, rules, catalogs, recorder) <==>
            NoContractCitesRecord(bundle.contracts) && IsValidSet(AllDocuments(bundle), rules) &&
            (forall r | r in materializations :: Describes(r, bundle)) && (forall r | r in evidence :: IsLinked(r, KeysOf(materializations)))
  {
    hide IsValidSet, CompilationOf, Describes, IsLinked, Sorting.Sort, Replays, NoContractCitesRecord, KeysOf, TopMember, MembersOf, ContentOf, DigestOf, AllDocuments, IsReferenceClosure, IndexContracts, DocumentsByKey, ContractsOf, ChecksEnvelope, AreRecords, Recorded, RecordedDefinition, StageDigests, DocumentKey, ContractDigest, IsTruthy, FiveMembers;
    BundleReplays(bundle, documents, wanted, rules, catalog, catalogs, recorder, materializations, evidence);
    ExportedMembers(bundle, CompilationOf(documents, wanted, rules, catalogs(Some(catalog))), catalog, recorder);
    SortedRecords(bundle, materializations, evidence);
  }

  lemma SortedRecords(bundle: Bundle, materializations: seq<Document>, evidence: seq<Document>)
    requires bundle.materializations == Sorting.Sort(materializations, ByKey) && bundle.evidence == Sorting.Sort(evidence, ByKey)
    ensures KeysOf(bundle.materializations) == KeysOf(materializations)
    ensures (forall r | r in bundle.materializations :: Describes(r, bundle)) <==> forall r | r in materializations :: Describes(r, bundle)
    ensures (forall r | r in bundle.evidence :: IsLinked(r, KeysOf(materializations))) <==> forall r | r in evidence :: IsLinked(r, KeysOf(materializations))
  {
    hide Describes, IsLinked, Sorting.Sort, DocumentKey;
    Sorting.SortPermutes(materializations, ByKey);
    Sorting.SortPermutes(evidence, ByKey);
    Sorting.SameElements(bundle.materializations, materializations);
    Sorting.SameElements(bundle.evidence, evidence);
  }

  // ---- A definition derived from evidence ----

  /** The rules have nothing against the documents of the set. */
  ghost predicate AdmitsReviewed(rules: Rules) {
    forall d | d in REVIEWED_SET :: rules.documentOk(d) && rules.crossOk(d, Targets(AllRefs(d), IndexContracts(REVIEWED_SET)))
  }

  lemma PinHolds(d: Document, index: Index, rules: Rules)
    requires DocumentKey(d) in index && index[DocumentKey(d)] == d
    ensures IsRef(PinnedTo(d)) && RefOk(PinnedTo(d), index, rules)
  {
    hide DocumentKey, ContractDigest, IsRef, RefKey, PinnedTo;
    PinIsRef(d);
  }

  lemma DistinctKinds(all: seq<Document>)
    requires forall i, j | 0 <= i < j < |all| :: all[i].kind != all[j].kind
    ensures NoRepeatedKey(all)
  {
    hide DocumentKey;
    forall i, j | 0 <= i < j < |all| ensures DocumentKey(all[i]) != DocumentKey(all[j]) { OtherKind(all[i], all[j]); }
  }

  lemma NamesSystem(d: Document, system: string)
    requires d.spec.Object? && "system" in d.spec.members && d.spec.members["system"] == Str(system)
    ensures SystemOf(d) == Some(system)
  {}

  lemma NamesShop()
    ensures forall d | d in REVIEWED_SET :: SystemOf(d) == Some("shop")
  {
    hide PinnedTo, Accepted, Produced, Actor, Provenance, SystemOf, RequirementJson, OptionJson, DefinitionSpec;
    DefinitionNamesShop();
    NamesSystem(BASELINE, "shop");
    NamesSystem(DECISIONS, "shop");
    NamesSystem(CONTEXT, "shop");
    NamesSystem(REVIEW, "shop");
  }

  lemma SpecNamesShop(inputs: Json)
    ensures Child(DefinitionSpec(inputs), "system") == Some(Str("shop"))
  {}

  lemma DefinitionNamesShop()
    ensures SystemOf(REVIEWED) == Some("shop")
  {
    hide PinnedTo, Accepted, DefinitionSpec, InputsJson, Child;
    SpecNamesShop(INPUTS);
  }

  lemma ReviewedKinds()
    ensures NoRepeatedKey(REVIEWED_SET) && OneSystem(REVIEWED_SET)
  {
    hide NoRepeatedKey, PinnedTo, Accepted, Produced, Actor, Provenance, DefinitionSpec, SystemOf;
    NamesShop();
    DistinctKinds(REVIEWED_SET);
  }

  /** What the documents of the set refer to. */
  lemma ReviewedRefs(d: Document)
    requires d in REVIEWED_SET
    ensures forall r | r in AllRefs(d) :: r in PINS
  {
    hide AllRefs, PinnedTo, Accepted, Produced, DefinitionSpec, RequirementJson;
    BaselineHoldsNone("Every call is authenticated.");
    DecisionsPinBaseline();
    ContextHoldsNone();
    ReviewPinsBaseline();
    DefinitionPins();
  }

  lemma PinsHold(documents: seq<Document>, rules: Rules)
    requires OneDocumentPerKey(documents)
    ensures forall d | d in documents :: IsRef(PinnedTo(d)) && RefOk(PinnedTo(d), IndexContracts(documents), rules)
  {
    hide IndexContracts, DocumentKey, PinnedTo, RefOk, OneDocumentPerKey;
    forall d | d in documents
      ensures IsRef(PinnedTo(d)) && RefOk(PinnedTo(d), IndexContracts(documents), rules)
    {
      IndexFinds(documents, d);
      PinHolds(d, IndexContracts(documents), rules);
    }
  }

  lemma PinsAreOfSet(r: Json)
    requires r in PINS
    ensures exists d :: d in REVIEWED_SET && r == PinnedTo(d)
  {
    hide PinnedTo, Accepted, Produced, DefinitionSpec, BaselineOf, Provenance;
    assert BASELINE in REVIEWED_SET && DECISIONS in REVIEWED_SET && CONTEXT in REVIEWED_SET && REVIEW in REVIEWED_SET;
  }

  lemma ReviewedPinsHold(rules: Rules)
    ensures forall r | r in PINS :: IsRef(r) && RefOk(r, IndexContracts(REVIEWED_SET), rules)
  {
    hide IndexContracts, PinnedTo, RefOk, NoRepeatedKey, OneSystem, OneDocumentPerKey, IsRef, DefinitionSpec, BaselineOf, Accepted, Produced;
    ReviewedKinds();
    ValidHasOnePerKey(REVIEWED_SET);
    PinsHold(REVIEWED_SET, rules);
    forall r | r in PINS ensures IsRef(r) && RefOk(r, IndexContracts(REVIEWED_SET), rules) { PinsAreOfSet(r); }
  }

  /** A set whose references all hold, and that the rules have nothing against. */
  lemma ValidByRefs(documents: seq<Document>, allowed: set<Json>, rules: Rules)
    requires NoRepeatedKey(documents) && OneSystem(documents)
    requires forall d | d in documents :: !d.kind.ChangeRequest? && rules.documentOk(d) && rules.crossOk(d, Targets(AllRefs(d), IndexContracts(documents)))
    requires forall d, r | d in documents && r in AllRefs(d) :: r in allowed
    requires forall r | r in allowed :: IsRef(r) && RefOk(r, IndexContracts(documents), rules)
    ensures IsValidSet(documents, rules)
  {
    hide AllRefs, IndexContracts, RefOk, IsRef, NoRepeatedKey, OneSystem;
  }

  lemma ReviewedSetIsValid(rules: Rules)
    requires AdmitsReviewed(rules)
    ensures IsValidSet(REVIEWED_SET, rules)
  {
    hide AllRefs, IndexContracts, RefOk, IsRef, NoRepeatedKey, OneSystem, PinnedTo, Accepted, Produced, DefinitionSpec, BaselineOf, Provenance, IsValidSet;
    ReviewedKinds();
    ReviewedPinsHold(rules);
    forall d | d in REVIEWED_SET ensures !d.kind.ChangeRequest? { NoChange(d); }
    forall d, r | d in REVIEWED_SET && r in AllRefs(d) ensures r in PINS { ReviewedRefs(d); }
    ValidByRefs(REVIEWED_SET, PINS, rules);
  }

  lemma NoChange(d: Document)
    requires d in REVIEWED_SET
    ensures !d.kind.ChangeRequest?
  {
    hide PinnedTo, Accepted, Produced, DefinitionSpec, RequirementJson, Provenance;
  }

  lemma ReviewedIsSelected(documents: seq<Document>)
    requires OneDocumentPerKey(documents) && forall d :: d in documents <==> d in REVIEWED_SET
    ensures SelectDefinition(documents, None) == Success(REVIEWED)
  {
    hide SelectDefinition, InForceRevision, DocumentKey, OneDocumentPerKey, PinnedTo, DefinitionSpec, Accepted, Produced, BaselineOf;
    assert REVIEWED in REVIEWED_SET;
    InForceIsHighest(documents, DEFINITION, "shop");
    assert IsInForceOf(REVIEWED, DEFINITION, "shop");
    DefinitionIsAlone(documents);
    SelectedIsInForce(documents, None, REVIEWED);
  }

  lemma DefinitionIsAlone(documents: seq<Document>)
    requires forall d :: d in documents <==> d in REVIEWED_SET
    requires InForceRevision(documents, DEFINITION, "shop").Some?
    ensures CandidateIds(documents, None) == {"shop"}
    ensures forall d | d in documents && KindName(d.kind) == DEFINITION :: d == REVIEWED
  {
    hide InForceRevision, PinnedTo, DefinitionSpec, Accepted, Produced, RequirementJson;
    assert REVIEWED in REVIEWED_SET;
    assert BaselineOf("Every call is authenticated.").kind.RequirementBaseline?;
    forall d | d in documents && KindName(d.kind) == DEFINITION ensures d == REVIEWED {
      KindNameInjective(d.kind, SystemDefinition);
    }
  }

  /**
   * A definition whose provenance names evidence: the set is valid and compiles, and no
   * bundle exported of it replays, whatever the stages and the records.
   */
  lemma ReviewedDoesNotReplay<R, P>(bundle: Bundle, rules: Rules, catalog: Json, catalogs: Catalogs<R, P>, recorder: Recorder<R, P>,
                                    materializations: seq<Document>, evidence: seq<Document>)
    requires AdmitsReviewed(rules) && ChecksEnvelope(rules) && AreRecords(materializations, evidence) && catalogs(Some(catalog)).Some?
    ensures var c := CompilationOf(REVIEWED_SET, None, rules, catalogs(Some(catalog)));
            c.Compiled? && c.definition == REVIEWED &&
            (IsBundle(bundle, REVIEWED_SET, c, catalog, recorder, materializations, evidence) ==> !Replays(bundle, rules, catalogs, recorder))
  {
    hide AllRefs, IndexContracts, DocumentKey, IsValidSet, SelectDefinition, ReportOf, Sorting.Sort, Replays, ChecksEnvelope, AdmitsReviewed, MembersOf, ContentOf, IsReferenceClosure, DocumentsByKey, ContractsOf, NoRepeatedKey, OneDocumentPerKey,
      PinnedTo, DefinitionSpec, Accepted, Produced, BaselineOf, OneSystem, CitesRecord;
    var c := CompilationOf(REVIEWED_SET, None, rules, catalogs(Some(catalog)));
    ReviewedSetIsValid(rules);
    ReviewedKinds();
    SortedSet(REVIEWED_SET);
    ReviewedIsSelected(Sorting.Sort(REVIEWED_SET, ByKey));
    if IsBundle(bundle, REVIEWED_SET, c, catalog, recorder, materializations, evidence) {
      BundleReplays(bundle, REVIEWED_SET, None, rules, catalog, catalogs, recorder, materializations, evidence);
      DefinitionIsBundled(bundle, REVIEWED_SET, None, rules, catalog, catalogs, recorder, materializations, evidence);
      ReviewIsCited();
      assert !NoContractCitesRecord(bundle.contracts);
    }
  }

  lemma FoundIsRef(d: Document, found: FoundRef)
    requires found in FoundRefs(d)
    ensures found.ref in AllRefs(d)
  {
    hide FoundRefs, AllRefs;
    var i :| 0 <= i < |FoundRefs(d)| && FoundRefs(d)[i] == found;
    assert AllRefs(d)[i] == found.ref;
  }

  lemma PinOfRecord(d: Document)
    requires IsRecord(d)
    ensures IsRef(PinnedTo(d)) && CitesRecord(PinnedTo(d))
  {
    hide ContractDigest, Text.Decimal;
    PinIsRef(d);
  }

  lemma ReviewIsCited()
    ensures PinnedTo(REVIEW) in AllRefs(REVIEWED) && IsRef(PinnedTo(REVIEW)) && CitesRecord(PinnedTo(REVIEW))
  {
    hide FoundRefs, ToJson, Lookup, IsRef, JsonPointer.Encode, PinnedTo, AllRefs, CitesRecord, DefinitionSpec, Accepted, Produced, Provenance, BaselineOf;
    var route := ["metadata", "provenance", "derivedFrom", "0"];
    ReviewAt();
    PinOfRecord(REVIEW);
    FoundAt(REVIEWED, route, PinnedTo(REVIEW));
    FoundIsRef(REVIEWED, FoundRef(PinnedTo(REVIEW), JsonPointer.Encode(route)));
  }

  /** What provenance derives from is below the metadata. */
  lemma DerivedFromAt(d: Document, provenance: map<string, Json>, v: Json)
    requires "provenance" in d.metadata && d.metadata["provenance"] == Object(provenance)
    requires "derivedFrom" in provenance && provenance["derivedFrom"] == Array([v])
    ensures Lookup(ToJson(d), ["metadata", "provenance", "derivedFrom", "0"]) == Some(v)
  {
    hide Lookup, ToJson, Text.Decimal;
    var metadata := d.metadata + map["id" := Str(d.id), "revision" := NumberOf(d.revision), "status" := Str(d.status)];
    MetadataOf(d);
    Descend(ToJson(d).members, "metadata", ["provenance", "derivedFrom", "0"]);
    Descend(metadata, "provenance", ["derivedFrom", "0"]);
    Descend(provenance, "derivedFrom", ["0"]);
    FirstItem(v);
    assert ["metadata"] + ["provenance", "derivedFrom", "0"] == ["metadata", "provenance", "derivedFrom", "0"];
    assert ["provenance"] + ["derivedFrom", "0"] == ["provenance", "derivedFrom", "0"] && ["derivedFrom"] + ["0"] == ["derivedFrom", "0"];
  }

  lemma ReviewAt()
    ensures Lookup(ToJson(REVIEWED), ["metadata", "provenance", "derivedFrom", "0"]) == Some(PinnedTo(REVIEW))
  {
    hide PinnedTo, DefinitionSpec, Actor, Lookup, ToJson;
    DerivedFromAt(REVIEWED, FROM_REVIEW.members, PinnedTo(REVIEW));
  }

  lemma MetadataOf(d: Document)
    ensures ToJson(d).Object? && "metadata" in ToJson(d).members
    ensures ToJson(d).members["metadata"] == Object(d.metadata + map["id" := Str(d.id), "revision" := NumberOf(d.revision), "status" := Str(d.status)])
  {
    hide KindName, Text.Decimal;
  }

  lemma FirstItem(v: Json)
    ensures Lookup(Array([v]), ["0"]) == Some(v)
  {
    Text.IndexTextsAgree("0", 0);
    assert Child(Array([v]), "0") == Some(v);
    assert ["0"][1..] == [];
  }

  lemma DefinitionIsBundled<R, P>(bundle: Bundle, documents: seq<Document>, wanted: Option<string>, rules: Rules, catalog: Json, catalogs: Catalogs<R, P>,
                                  recorder: Recorder<R, P>, materializations: seq<Document>, evidence: seq<Document>)
    requires AreRecords(materializations, evidence)
    requires IsBundle(bundle, documents, CompilationOf(documents, wanted, rules, catalogs(Some(catalog))), catalog, recorder, materializations, evidence)
    ensures CompilationOf(documents, wanted, rules, catalogs(Some(catalog))).definition in bundle.contracts
  {
    hide DocumentKey, IndexContracts, IsReferenceClosure, CompilationOf, IsClosedUnderRefs, DocumentsByKey, Sorting.Sort, MembersOf, IsPartOf;
    var stages := catalogs(Some(catalog));
    var c, records := CompilationOf(documents, wanted, rules, stages), materializations + evidence;
    var reached :| IsReferenceClosure([c.definition] + records, IndexContracts(documents + records), reached) &&
                   bundle.contracts == DocumentsByKey(ContractsOf(reached));
    CompiledIsExporting(documents, wanted, rules, stages, records, reached);
    BundledAreDocuments(documents, c.definition, records, reached);
  }
}
