/** MaterializationRecords: what was decided for each file of a component, and the rules a record obeys. */
module Records {
  import opened Wrappers
  import opened Text
  import opened Json
  import opened Refs
  import opened Identity
  import opened Checks
  import opened Ownership
  import opened Adapter

  datatype Status = Valid | Superseded

  datatype RunOutcome = Applied | Conflicted

  datatype FileEntry = FileEntry(path: string, ownership: ArtifactOwnership, digest: Digest, decision: WriteDecision)

  datatype Pinned = Pinned(id: string, revision: nat, digest: Digest)

  /** `context` holds what no rule below reads: definition, closure, plan, adapter and actor. */
  datatype Record = Record(
    system: string,
    component: string,
    revision: nat,
    status: Status,
    supersedes: Option<Pinned>,
    outcome: RunOutcome,
    executedAt: Timestamp,
    files: seq<FileEntry>,
    context: Json
  )

  function RecordId(r: Record): string {
    r.system + "-" + r.component + "-materialization"
  }

  function OwnershipText(o: ArtifactOwnership): string {
    if o.CompilerOwned? then "COMPILER_OWNED" else "OWNER_SEEDED"
  }

  function DecisionText(d: WriteDecision): string {
    match d
    case Create => "CREATE"
    case Update => "UPDATE"
    case Unchanged => "UNCHANGED"
    case KeepOwner => "KEEP_OWNER"
    case Conflict => "CONFLICT"
  }

  function FileJson(f: FileEntry): Json {
    Object(map["path" := Str(f.path), "ownership" := Str(OwnershipText(f.ownership)), "digest" := Str(f.digest), "decision" := Str(DecisionText(f.decision))])
  }

  function PinnedJson(p: Pinned): Json {
    Object(map["kind" := Str(KindName(MaterializationRecord)), "id" := Str(p.id), "revision" := NumberOf(p.revision), "digest" := Str(p.digest)])
  }

  /** The record as a contract document. */
  function RecordDocument(r: Record): Document {
    Document("foundation.enistere.com/v1alpha1", MaterializationRecord, RecordId(r), r.revision,
             if r.status.Valid? then "VALID" else "SUPERSEDED",
             if r.supersedes.Some? then map["supersedes" := PinnedJson(r.supersedes.value)] else map[],
             Object(map["system" := Str(r.system), "component" := Str(r.component), "context" := r.context,
               "executedAt" := Str(r.executedAt.text), "outcome" := Str(if r.outcome.Applied? then "APPLIED" else "CONFLICT"),
               "files" := Array(seq(|r.files|, i requires 0 <= i < |r.files| => FileJson(r.files[i])))]))
  }

  function RecordDigest(r: Record): Digest {
    ContractDigest(RecordDocument(r))
  }

  function PinnedRef(r: Record): Pinned {
    Pinned(RecordId(r), r.revision, RecordDigest(r))
  }

  /** Superseding a record changes its status, not its identity. */
  lemma StatusIsNotIdentity(r: Record, status: Status)
    ensures PinnedRef(r.(status := status)) == PinnedRef(r)
  {
    DigestIdentifiesContent(RecordDocument(r.(status := status)), RecordDocument(r));
  }

  // ---- Semantic rules ----

  datatype RecordError = UnrealInstant | UnsafeFile(path: string) | DuplicateFile(path: string) | OutcomeInconsistent

  predicate IsSeededBreach(f: FileEntry) {
    f.ownership.OwnerSeeded? && (f.decision.Update? || f.decision.Conflict?)
  }

  ghost predicate DistinctFiles(files: seq<FileEntry>) {
    forall i, j | 0 <= i < j < |files| :: files[i].path != files[j].path
  }

  /** A conflicted materialization wrote nothing; an applied one met no conflict. */
  ghost predicate OutcomeAgrees(r: Record) {
    match r.outcome
    case Conflicted => (exists f :: f in r.files && f.decision.Conflict?) && forall f | f in r.files :: !f.decision.Create? && !f.decision.Update?
    case Applied => forall f | f in r.files :: !f.decision.Conflict?
  }

  ghost predicate IsValidRecord(r: Record) {
    && DistinctFiles(r.files)
    && (forall f | f in r.files :: IsSafeArtifactPath(f.path))
    && (forall f | f in r.files && f.ownership.OwnerSeeded? :: !f.decision.Update? && !f.decision.Conflict?)
    && OutcomeAgrees(r)
  }

  /** A valid record of a real instant. */
  ghost predicate IsAcceptedRecord(r: Record) {
    IsRealTimestamp(r.executedAt) && IsValidRecord(r)
  }

  /** Reports nothing exactly on valid records of a real instant. */
  method ValidateMaterializationRecord(r: Record) returns (found: seq<RecordError>)
    ensures found == [] <==> IsAcceptedRecord(r)
  {
    hide IsSafeArtifactPath, IsRealTimestamp;
    found := if IsRealTimestamp(r.executedAt) then [] else [UnrealInstant];
    var seen: set<string> := {};
    var conflicts, writes := 0, 0;
    for i := 0 to |r.files|
      invariant forall p :: p in seen <==> exists j :: 0 <= j < i && r.files[j].path == p
      invariant found == [] <==> IsRealTimestamp(r.executedAt) && DistinctFiles(r.files[..i]) && forall j | 0 <= j < i :: IsSafeArtifactPath(r.files[j].path) && !IsSeededBreach(r.files[j])
      invariant conflicts > 0 <==> exists j :: 0 <= j < i && r.files[j].decision.Conflict?
      invariant writes > 0 <==> exists j :: 0 <= j < i && Writes(r.files[j].decision)
      invariant conflicts >= 0 && writes >= 0
    {
      var f := r.files[i];
      DistinctFilesStep(r.files, i);
      if !IsSafeArtifactPath(f.path) { found := found + [UnsafeFile(f.path)]; }
      if f.path in seen { found := found + [DuplicateFile(f.path)]; }
      seen := seen + {f.path};
      if IsSeededBreach(f) { found := found + [OutcomeInconsistent]; }
      if f.decision.Conflict? { conflicts := conflicts + 1; }
      if Writes(f.decision) { writes := writes + 1; }
    }
    assert r.files[..|r.files|] == r.files;
    if r.outcome.Conflicted? && (conflicts == 0 || writes > 0) { found := found + [OutcomeInconsistent]; }
    if r.outcome.Applied? && conflicts > 0 { found := found + [OutcomeInconsistent]; }
  }

  lemma DistinctFilesStep(files: seq<FileEntry>, i: nat)
    requires i < |files|
    ensures DistinctFiles(files[..i + 1]) <==> DistinctFiles(files[..i]) && forall j | 0 <= j < i :: files[j].path != files[i].path
  {
    var next := files[..i + 1];
    assert next[..i] == files[..i] && next[i] == files[i];
    if DistinctFiles(next) {
      forall j | 0 <= j < i ensures files[j].path != files[i].path { assert next[j] == files[j]; }
      assert forall a, b | 0 <= a < b < i :: files[..i][a] == next[a] && files[..i][b] == next[b];
    }
  }
}
