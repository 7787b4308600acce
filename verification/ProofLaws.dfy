/**
 * What an accepted proof bundle means, read off its JSON: what its records say of the
 * compilation, what its evidence cites, and what its digest seals.
 */
module ProofLaws {
  import opened Wrappers
  import opened Text
  import opened Json
  import opened Refs
  import opened Identity
  import opened ContractSet
  import opened Facade
  import opened ProofChain

  // ---- Records ----

  /** The record names the plan, the closure and the definition of the compilation, as far as it reached them. */
  ghost predicate NamesCompilation<R, P>(record: Document, c: Compilation<R, P>, recorder: Recorder<R, P>) {
    && Lookup(record.spec, ["plan"]) == (if c.Compiled? && c.plan.Some? then Some(Str(recorder.plan(c.plan.value))) else None)
    && Lookup(record.spec, ["closure"]) == (if c.Compiled? then Some(Str(recorder.closure(c.definition, c.closure, c.output))) else None)
    && Lookup(record.spec, ["subject", "contract", "digest"]) == (if c.Compiled? then Some(Str(ContractDigest(c.definition))) else None)
  }

  lemma OneSegment(v: Json, segment: string)
    ensures Lookup(v, [segment]) == Child(v, segment)
  {}

  /** Of a replay that agrees, what is recorded is what it reached. */
  lemma RecordedIsReached<R, P>(bundle: Bundle, c: Compilation<R, P>, recorder: Recorder<R, P>)
    requires ReplayAgrees(bundle, c, recorder)
    ensures Recorded(bundle, "plan") == if c.Compiled? && c.plan.Some? then Some(Str(recorder.plan(c.plan.value))) else None
    ensures Recorded(bundle, "closure") == if c.Compiled? then Some(Str(recorder.closure(c.definition, c.closure, c.output))) else None
    ensures Recorded(bundle, "ir") == if c.Compiled? then Some(Str(recorder.ir(c.output))) else None
    ensures Recorded(bundle, "resolved") == if c.Compiled? then Some(Str(recorder.resolved(c.output))) else None
    ensures RecordedDefinition(bundle) == if c.Compiled? then Some(Str(ContractDigest(c.definition))) else None
  {
    hide Recorded, RecordedDefinition, ContractDigest, IsTruthy;
    assert STAGES[0] in STAGES && STAGES[1] in STAGES && STAGES[2] in STAGES && STAGES[3] in STAGES;
    assert StageAgrees(bundle, "closure", StageDigests(c, recorder)) && StageAgrees(bundle, "ir", StageDigests(c, recorder));
    assert StageAgrees(bundle, "resolved", StageDigests(c, recorder)) && StageAgrees(bundle, "plan", StageDigests(c, recorder));
  }

  /** In an accepted bundle every VALID record names what the replay reached. */
  lemma ValidRecordsNameReplay<R, P>(bundle: Bundle, rules: Rules, catalogs: Catalogs<R, P>, recorder: Recorder<R, P>, record: Document)
    requires IsProof(bundle, rules, catalogs, recorder) && record in bundle.materializations && record.status == "VALID"
    ensures NamesCompilation(record, ReplayOf(bundle, rules, catalogs), recorder)
  {
    hide Recorded, RecordedDefinition, ContractDigest, CompilationOf, ReplayOf, IsValidSet, DigestHolds, IsLinked, ReplayAgrees, Lookup, Child;
    RecordedIsReached(bundle, ReplayOf(bundle, rules, catalogs), recorder);
    OneSegment(record.spec, "plan");
    OneSegment(record.spec, "closure");
  }

  /** The digest recorded for a stage, in the bundle as JSON. */
  function StageInBundle(bundle: Bundle, stage: string): Option<Json> {
    Lookup(Object(bundle.members), ["compilation", stage])
  }

  lemma StageIsRecorded(bundle: Bundle, stage: string)
    requires "compilation" in bundle.members && bundle.members["compilation"].Object?
    ensures StageInBundle(bundle, stage) == Recorded(bundle, stage)
  {
    hide Lookup;
    Descend(bundle.members, "compilation", [stage]);
    OneSegment(bundle.members["compilation"], stage);
    assert ["compilation"] + [stage] == ["compilation", stage];
  }

  /** A VALID record of another plan or closure than the recorded one is reported by its key. */
  lemma OtherPlanIsReported<R, P>(bundle: Bundle, rules: Rules, replay: Compilation<R, P>, recorder: Recorder<R, P>, record: Document, stage: string)
    requires "compilation" in bundle.members && bundle.members["compilation"].Object?
    requires record in bundle.materializations && record.status == "VALID" && stage in {"plan", "closure"}
    requires Lookup(record.spec, [stage]) != StageInBundle(bundle, stage)
    ensures Deserves(bundle, RecordMismatch(DocumentKey(record)), rules, replay, recorder)
  {
    hide DocumentKey, Recorded, RecordedDefinition, Lookup, Child, StageInBundle;
    StageIsRecorded(bundle, stage);
    OneSegment(record.spec, stage);
  }

  /** What the replay reached of a stage. */
  ghost function Reached<R, P>(c: Compilation<R, P>, stage: string, recorder: Recorder<R, P>): Option<Json> {
    if !c.Compiled? then None else
    if stage == "closure" then Some(Str(recorder.closure(c.definition, c.closure, c.output))) else
    if stage == "ir" then Some(Str(recorder.ir(c.output))) else
    if stage == "resolved" then Some(Str(recorder.resolved(c.output))) else
    if c.plan.Some? then Some(Str(recorder.plan(c.plan.value))) else None
  }

  /** A stage is reported exactly when the bundle records another digest than the replay reached, or none where it reached one, or one where it did not. */
  lemma StageMismatchIsExact<R, P>(bundle: Bundle, rules: Rules, replay: Compilation<R, P>, recorder: Recorder<R, P>, stage: string)
    requires stage in {"closure", "ir", "resolved", "plan"}
    requires "compilation" in bundle.members && bundle.members["compilation"].Object?
    ensures Deserves(bundle, ReplayMismatch(stage), rules, replay, recorder) <==> StageInBundle(bundle, stage) != Reached(replay, stage, recorder)
  {
    hide Recorded, Lookup, StageInBundle;
    StageIsRecorded(bundle, stage);
    assert STAGES[0] in STAGES && STAGES[1] in STAGES && STAGES[2] in STAGES && STAGES[3] in STAGES;
  }

  /** Without recorded digests every stage is reported: when the member is absent, null, false, zero or an empty text. */
  lemma NothingRecorded<R, P>(bundle: Bundle, rules: Rules, replay: Compilation<R, P>, recorder: Recorder<R, P>, stage: string)
    requires stage in {"closure", "ir", "resolved", "plan"}
    requires "compilation" in bundle.members ==> bundle.members["compilation"] in {Null, Bool(false), NumberOf(0), Str("")}
    ensures Deserves(bundle, ReplayMismatch(stage), rules, replay, recorder)
  {
    hide Recorded, StageDigests;
    assert STAGES[0] in STAGES && STAGES[1] in STAGES && STAGES[2] in STAGES && STAGES[3] in STAGES;
    assert NumberOf(0) == Number("0");
  }

  /** Nothing is reported of records that are not VALID. */
  lemma ReportedRecordIsValid<R, P>(bundle: Bundle, rules: Rules, replay: Compilation<R, P>, recorder: Recorder<R, P>, key: Key)
    requires Deserves(bundle, RecordMismatch(key), rules, replay, recorder)
    ensures exists record :: record in bundle.materializations && DocumentKey(record) == key && record.status == "VALID"
  {
    hide DocumentKey, Recorded, RecordedDefinition;
  }

  // ---- Evidence ----

  /** One of the inputs is a reference to a materialization of the bundle. */
  ghost predicate CitesMaterialization(bundle: Bundle, record: Document) {
    exists inputs, i, m ::
      Lookup(record.spec, ["inputs"]) == Some(Array(inputs)) && 0 <= i < |inputs| && m in bundle.materializations && IsReferenceTo(inputs[i], m)
  }

  /** A MaterializationRecord reference whose text is the key of the document. */
  ghost predicate IsReferenceTo(ref: Json, m: Document) {
    && ref.Object? && Lookup(ref, ["kind"]) == Some(Str("MaterializationRecord"))
    && Lookup(ref, ["id"]).Some? && Lookup(ref, ["id"]).value.Str? && Lookup(ref, ["revision"]).Some? && Lookup(ref, ["revision"]).value.Number?
    && DocumentKey(m) == "MaterializationRecord/" + Lookup(ref, ["id"]).value.text + "@" + Lookup(ref, ["revision"]).value.digits
  }

  lemma MaterializationName()
    ensures KindName(MaterializationRecord) == "MaterializationRecord" && IsKindName("MaterializationRecord")
  {}

  lemma CitedIsReference(input: Json, keys: set<Key>, m: Document)
    requires DocumentKey(m) in keys
    ensures IsReferenceTo(input, m) ==> CitesOneOf(input, keys)
    ensures CitesOneOf(input, keys) && RefKey(input) == DocumentKey(m) ==> IsReferenceTo(input, m)
  {
    hide DocumentKey, Lookup;
    MaterializationName();
    assert "MaterializationRecord" + "/" == "MaterializationRecord/";
    OneSegment(input, "kind");
    OneSegment(input, "id");
    OneSegment(input, "revision");
  }

  /** Evidence is linked exactly when it is about no component, or cites a materialization of the bundle. */
  lemma LinkIsCitation(bundle: Bundle, record: Document)
    ensures IsLinked(record, KeysOf(bundle.materializations)) <==>
            Lookup(record.spec, ["subject", "component"]).None? || CitesMaterialization(bundle, record)
  {
    hide DocumentKey, CitesOneOf, IsReferenceTo, Lookup, Child;
    var keys := KeysOf(bundle.materializations);
    OneSegment(record.spec, "inputs");
    if CitesMaterialization(bundle, record) {
      var inputs, i, m :| Lookup(record.spec, ["inputs"]) == Some(Array(inputs)) && 0 <= i < |inputs| && m in bundle.materializations && IsReferenceTo(inputs[i], m);
      CitedIsReference(inputs[i], keys, m);
    }
    if Child(record.spec, "inputs").Some? && Child(record.spec, "inputs").value.Array? {
      var inputs := Child(record.spec, "inputs").value.items;
      forall i | 0 <= i < |inputs| && CitesOneOf(inputs[i], keys)
        ensures CitesMaterialization(bundle, record)
      {
        var m := CitedDocument(bundle.materializations, inputs[i]);
        CitedIsReference(inputs[i], keys, m);
      }
    }
  }

  lemma CitedDocument(documents: seq<Document>, input: Json) returns (m: Document)
    requires CitesOneOf(input, KeysOf(documents))
    ensures IsRef(input) && m in documents && DocumentKey(m) == RefKey(input)
  {
    m :| m in documents && DocumentKey(m) == RefKey(input);
  }

  /** In an accepted bundle, evidence about a component cites a materialization of the bundle. */
  lemma EvidenceCites<R, P>(bundle: Bundle, rules: Rules, catalogs: Catalogs<R, P>, recorder: Recorder<R, P>, record: Document)
    requires IsProof(bundle, rules, catalogs, recorder) && record in bundle.evidence
    ensures Lookup(record.spec, ["subject", "component"]).Some? ==> CitesMaterialization(bundle, record)
  {
    hide IsLinked, Replays, IsValidSet, Describes, DigestHolds, CitesMaterialization, Lookup, KeysOf;
    LinkIsCitation(bundle, record);
  }

  /** Evidence is reported exactly when it is about a component and cites none. */
  lemma UnlinkedIsReported<R, P>(bundle: Bundle, rules: Rules, replay: Compilation<R, P>, recorder: Recorder<R, P>, key: Key)
    ensures Deserves(bundle, EvidenceUnlinked(key), rules, replay, recorder) <==>
            exists record :: record in bundle.evidence && DocumentKey(record) == key &&
                             Lookup(record.spec, ["subject", "component"]).Some? && !CitesMaterialization(bundle, record)
  {
    hide IsLinked, DocumentKey, CitesMaterialization, Lookup, KeysOf;
    forall record { LinkIsCitation(bundle, record); }
  }

  // ---- The digest ----

  lemma ToJsonInjective(a: Document, b: Document)
    ensures ToJson(a) == ToJson(b) <==> a == b
  {
    hide KindName;
    if ToJson(a) == ToJson(b) {
      var m, n := ToJson(a).members, ToJson(b).members;
      assert m["apiVersion"] == n["apiVersion"] && m["kind"] == n["kind"] && m["metadata"] == n["metadata"] && m["spec"] == n["spec"];
      KindNameInjective(a.kind, b.kind);
      SameEnvelope(a, b);
    }
  }

  lemma SameEnvelope(a: Document, b: Document)
    requires a.metadata + map["id" := Str(a.id), "revision" := NumberOf(a.revision), "status" := Str(a.status)] ==
             b.metadata + map["id" := Str(b.id), "revision" := NumberOf(b.revision), "status" := Str(b.status)]
    ensures a.metadata == b.metadata && a.id == b.id && a.revision == b.revision && a.status == b.status
  {
    hide Decimal;
    var m := a.metadata + map["id" := Str(a.id), "revision" := NumberOf(a.revision), "status" := Str(a.status)];
    assert m["id"] == Str(a.id) == Str(b.id) && m["revision"] == NumberOf(a.revision) == NumberOf(b.revision) && m["status"] == Str(a.status) == Str(b.status);
    DecimalInjective(a.revision, b.revision);
    assert a.metadata == m - {"id", "revision", "status"} && b.metadata == m - {"id", "revision", "status"};
  }

  lemma ListedInjective(a: seq<Document>, b: seq<Document>)
    ensures Listed(a) == Listed(b) <==> a == b
  {
    hide ToJson;
    if Listed(a) == Listed(b) {
      assert |a| == |Listed(a).items| == |b|;
      forall i | 0 <= i < |a| ensures a[i] == b[i] {
        assert Listed(a).items[i] == ToJson(a[i]) && Listed(b).items[i] == ToJson(b[i]);
        ToJsonInjective(a[i], b[i]);
      }
    }
  }

  /** Two bundles whose digests hold and are equal are one bundle: nothing in it can be changed under its digest. */
  lemma DigestSealsBundle(a: Bundle, b: Bundle)
    requires DigestHolds(a) && DigestHolds(b) && a.digest == b.digest
    ensures a == b
  {
    hide Listed, DigestOf;
    DigestOfInjective(ProofChain.ContentOf(a), ProofChain.ContentOf(b));
    var m, n := ProofChain.ContentOf(a).members, ProofChain.ContentOf(b).members;
    assert m["contracts"] == n["contracts"] && m["materializations"] == n["materializations"] && m["evidence"] == n["evidence"];
    ListedInjective(a.contracts, b.contracts);
    ListedInjective(a.materializations, b.materializations);
    ListedInjective(a.evidence, b.evidence);
    assert a.members == m - {"contracts", "materializations", "evidence"} && b.members == n - {"contracts", "materializations", "evidence"};
  }
}
