/**
 * When a plan is applied: the engine refuses exactly the plans that would overwrite an edit,
 * and carries out every other one. Stated on the bytes in the workspace and on what the
 * latest record lists, whatever the engine decides file by file.
 */
module Progress {
  import opened Wrappers
  import opened Identity
  import opened Ownership
  import opened Adapter
  import opened Records
  import opened Materializer
  import opened Runs

  /** The record with the highest revision, if there is any. */
  ghost predicate IsLatestOf(store: Store, latest: Option<Record>) {
    match latest
    case None => store == map[]
    case Some(r) => exists n :: n in store && store[n] == r && forall m | m in store :: m <= n
  }

  /** The last entry of the record for the path lists these bytes. */
  ghost predicate Lists(latest: Option<Record>, path: string, bytes: string) {
    latest.Some? && exists i :: 0 <= i < |latest.value.files| && latest.value.files[i].path == path && latest.value.files[i].digest == Sha256(bytes) &&
                                forall j | i < j < |latest.value.files| :: latest.value.files[j].path != path
  }

  /** Somebody else wrote the file that the plan would overwrite. */
  ghost predicate IsEdited(files: Files, p: Planned, latest: Option<Record>, a: PlannedArtifact)
    requires a.path in p.plan.contents
  {
    var k := (p.component, a.path);
    a.ownership.CompilerOwned? && k in files && files[k] != p.plan.contents[a.path] && !Lists(latest, a.path, files[k])
  }

  lemma LatestIsPrevious(s: State, p: Planned, latest: Option<Record>)
    requires IsLatestOf(StoreOf(s.records, p.component), latest)
    ensures Previous(s, p) == latest
  {
    var store := StoreOf(s.records, p.component);
    if latest.Some? {
      var n :| n in store && store[n] == latest.value && forall m | m in store :: m <= n;
      assert n in store.Keys;
      var h := Highest(store.Keys);
      assert h == n;
    }
  }

  lemma {:induction false} ListedIsLast(entries: seq<FileEntry>, path: string)
    ensures match ListedDigest(entries, path)
            case None => forall i | 0 <= i < |entries| :: entries[i].path != path
            case Some(digest) => exists i :: 0 <= i < |entries| && entries[i].path == path && entries[i].digest == digest &&
                                             forall j | i < j < |entries| :: entries[j].path != path
  {
    if |entries| > 0 && entries[|entries| - 1].path != path {
      ListedIsLast(entries[..|entries| - 1], path);
    }
  }

  lemma WrittenIsListed(latest: Option<Record>, path: string, bytes: string)
    ensures LastWritten(latest, path) == Some(FileDigest(bytes)) <==> Lists(latest, path, bytes)
  {
    if latest.Some? {
      ListedIsLast(latest.value.files, path);
    }
  }

  lemma ConflictIsEdit(s: State, p: Planned, i: nat)
    requires IsPlanned(p) && i < |p.plan.artifacts|
    ensures p.plan.artifacts[i].path in p.plan.contents
    ensures DecisionAt(s, p, i) == Conflict <==> IsEdited(s.files, p, Previous(s, p), p.plan.artifacts[i])
  {
    hide IsSafeArtifactPath, LastWritten, Latest, Lists;
    var a := p.plan.artifacts[i];
    var k := (p.component, a.path);
    assert a in p.plan.artifacts;
    if k in s.files {
      WrittenIsListed(Previous(s, p), a.path, s.files[k]);
      Sha256Injective(s.files[k], p.plan.contents[a.path]);
    }
  }

  lemma ArtifactsHaveContents(p: Planned)
    requires IsPlanned(p)
    ensures forall a | a in p.plan.artifacts :: a.path in p.plan.contents
  {
    hide IsSafeArtifactPath;
  }

  /**
   * A step is refused exactly when the plan gives a compiler-owned file other bytes than it
   * holds and the latest record does not list the bytes it holds.
   */
  lemma ConflictIsExact(s: State, job: Job, p: Planned, latest: Option<Record>)
    requires IsPlanned(p) && IsLatestOf(StoreOf(s.records, p.component), latest)
    ensures forall a | a in p.plan.artifacts :: a.path in p.plan.contents
    ensures RecordFor(s, job, p).outcome.Conflicted? <==> exists a :: a in p.plan.artifacts && IsEdited(s.files, p, latest, a)
  {
    hide IsPlanned, RecordFor, DecisionAt, IsEdited, IsLatestOf, Previous;
    ArtifactsHaveContents(p);
    LatestIsPrevious(s, p, latest);
    RecordEntries(s, job, p);
    forall i | 0 <= i < |p.plan.artifacts| { ConflictIsEdit(s, p, i); }
    if a :| a in p.plan.artifacts && IsEdited(s.files, p, latest, a) {
      var i :| 0 <= i < |p.plan.artifacts| && p.plan.artifacts[i] == a;
    }
  }

  /** What is decided for an artifact, on the bytes of its file and those the latest record lists. */
  ghost predicate IsDecided(files: Files, p: Planned, latest: Option<Record>, a: PlannedArtifact, decision: WriteDecision)
    requires a.path in p.plan.contents
  {
    var k, content := (p.component, a.path), p.plan.contents[a.path];
    match decision
    case Create => k !in files
    case KeepOwner => k in files && a.ownership.OwnerSeeded?
    case Unchanged => k in files && a.ownership.CompilerOwned? && files[k] == content
    case Update => k in files && a.ownership.CompilerOwned? && files[k] != content && Lists(latest, a.path, files[k])
    case Conflict => k in files && a.ownership.CompilerOwned? && files[k] != content && !Lists(latest, a.path, files[k])
  }

  /** The record has one entry for each artifact of the plan, in order, with the decision its file calls for. */
  lemma DecisionsAreExact(s: State, job: Job, p: Planned, latest: Option<Record>, i: nat)
    requires IsPlanned(p) && IsLatestOf(StoreOf(s.records, p.component), latest) && i < |p.plan.artifacts|
    ensures |RecordFor(s, job, p).files| == |p.plan.artifacts|
    ensures var a, f := p.plan.artifacts[i], RecordFor(s, job, p).files[i];
            a.path in p.plan.contents && f.path == a.path && f.ownership == a.ownership && f.digest == Sha256(p.plan.contents[a.path]) &&
            IsDecided(s.files, p, latest, a, f.decision)
  {
    hide IsSafeArtifactPath, LastWritten, Latest, Lists, IsLatestOf;
    LatestIsPrevious(s, p, latest);
    var a := p.plan.artifacts[i];
    var k := (p.component, a.path);
    assert a in p.plan.artifacts;
    if k in s.files {
      WrittenIsListed(Previous(s, p), a.path, s.files[k]);
      Sha256Injective(s.files[k], p.plan.contents[a.path]);
    }
  }

  /** The compiler-owned files the plan holds have its contents. */
  ghost predicate HoldsContents(files: Files, p: Planned) {
    forall a | a in p.plan.artifacts && a.ownership.CompilerOwned? ::
      a.path in p.plan.contents && (p.component, a.path) in files && files[(p.component, a.path)] == p.plan.contents[a.path]
  }

  lemma AppliedHoldsContents(s: State, job: Job, p: Planned)
    requires IsPlanned(p) && RecordFor(s, job, p).outcome.Applied?
    ensures HoldsContents(Step(s, job, p).files, p)
  {
    hide IsPlanned, RecordFor, Step;
    ArtifactsHaveContents(p);
    StepIsAllOrNothing(s, job, p);
    forall a | a in p.plan.artifacts && a.ownership.CompilerOwned?
      ensures (p.component, a.path) in Step(s, job, p).files && Step(s, job, p).files[(p.component, a.path)] == p.plan.contents[a.path]
    {
      var i :| 0 <= i < |p.plan.artifacts| && p.plan.artifacts[i] == a;
    }
  }

  /** The compiler-owned files of the component that are there hold what the record lists. */
  ghost predicate IsUnedited(files: Files, component: string, latest: Option<Record>) {
    latest.Some? ==> forall f | f in latest.value.files && f.ownership.CompilerOwned? && (component, f.path) in files :: f.digest == Sha256(files[(component, f.path)])
  }

  /** No other file lies where the plan puts a compiler-owned one. */
  ghost predicate IsVacant(files: Files, p: Planned, latest: Option<Record>) {
    forall a | a in p.plan.artifacts && a.ownership.CompilerOwned? && (p.component, a.path) in files ::
      latest.Some? && exists f :: f in latest.value.files && f.path == a.path && f.ownership.CompilerOwned?
  }

  lemma UneditedIsListed(files: Files, component: string, latest: Option<Record>, f: FileEntry)
    requires latest.Some? && DistinctFiles(latest.value.files) && IsUnedited(files, component, latest)
    requires f in latest.value.files && f.ownership.CompilerOwned? && (component, f.path) in files
    ensures Lists(latest, f.path, files[(component, f.path)])
  {
    var i :| 0 <= i < |latest.value.files| && latest.value.files[i] == f;
  }

  /**
   * Over any run: when the compiler-owned files of a component are as its latest record lists
   * them, and no other file lies where the next plan puts one, the next plan is applied,
   * whatever it changes, and each of its compiler-owned files then holds its planned content.
   */
  lemma UneditedIsUpdated(files: Files, events: seq<Event>, job: Job, p: Planned, latest: Option<Record>)
    requires IsRun(events) && IsPlanned(p)
    requires var s := Run(files, events);
             IsLatestOf(StoreOf(s.records, p.component), latest) && IsUnedited(s.files, p.component, latest) && IsVacant(s.files, p, latest)
    ensures RecordFor(Run(files, events), job, p).outcome.Applied?
    ensures HoldsContents(Step(Run(files, events), job, p).files, p)
  {
    hide IsPlanned, RecordFor, Step, Run, IsLatestOf, IsUnedited, Lists;
    var s := Run(files, events);
    ConflictIsExact(s, job, p, latest);
    LatestHasDistinctFiles(files, events, p.component, latest);
    forall a | a in p.plan.artifacts ensures !IsEdited(s.files, p, latest, a) {
      if a.ownership.CompilerOwned? && (p.component, a.path) in s.files {
        var f :| f in latest.value.files && f.path == a.path && f.ownership.CompilerOwned?;
        UneditedIsListed(s.files, p.component, latest, f);
      }
    }
    AppliedHoldsContents(s, job, p);
  }

  lemma LatestHasDistinctFiles(files: Files, events: seq<Event>, component: string, latest: Option<Record>)
    requires IsRun(events) && IsLatestOf(StoreOf(Run(files, events).records, component), latest)
    ensures latest.Some? ==> DistinctFiles(latest.value.files)
  {
    hide Run, IsRun, OutcomeAgrees, IsSafeArtifactPath, PinnedRef;
    RunKeepsChains(files, events);
    var store := StoreOf(Run(files, events).records, component);
    if latest.Some? {
      var n :| n in store && store[n] == latest.value && forall m | m in store :: m <= n;
      assert IsChain(store) && IsLink(store, n);
    }
  }

  lemma AppliedIsLatest(s: State, job: Job, p: Planned)
    requires IsPlanned(p) && RecordFor(s, job, p).outcome.Applied? && forall n | n in StoreOf(s.records, p.component) :: StoreOf(s.records, p.component)[n].revision == n
    ensures IsLatestOf(StoreOf(Step(s, job, p).records, p.component), Some(RecordFor(s, job, p)))
  {
    hide IsPlanned, FilesAfter, EntriesOf, PinnedRef;
    var store, r := StoreOf(s.records, p.component), RecordFor(s, job, p);
    var after := StoreOf(Step(s, job, p).records, p.component);
    assert r.revision in after && after[r.revision] == r;
    forall m | m in after ensures m <= r.revision {
      if m != r.revision { assert m in store.Keys; }
    }
  }

  /** Two plans one after the other with no edit between: the second is applied over what the first put in place. */
  lemma NextPlanIsApplied(files: Files, events: seq<Event>, first: Job, p: Planned, second: Job, q: Planned)
    requires IsRun(events) && IsPlanned(p) && IsPlanned(q) && p.component == q.component
    requires RecordFor(Run(files, events), first, p).outcome.Applied?
    requires var after := Step(Run(files, events), first, p).files;
             forall b | b in q.plan.artifacts && b.ownership.CompilerOwned? && (q.component, b.path) in after ::
               exists a :: a in p.plan.artifacts && a.path == b.path && a.ownership.CompilerOwned?
    ensures RecordFor(Step(Run(files, events), first, p), second, q).outcome.Applied?
    ensures HoldsContents(Step(Step(Run(files, events), first, p), second, q).files, q)
  {
    hide IsPlanned, RecordFor, Step, Run, Lists, IsLatestOf, IsRun;
    var s, r := Run(files, events), RecordFor(Run(files, events), first, p);
    var more := events + [Materialized(first, p)];
    assert IsRun(more) && Run(files, more) == Step(s, first, p) by { OneMore(files, events, first, p); }
    assert IsLatestOf(StoreOf(Step(s, first, p).records, p.component), Some(r)) by {
      RevisionsAreKeys(files, events, p.component);
      AppliedIsLatest(s, first, p);
    }
    AppliedHoldsContents(s, first, p);
    RecordDescribes(s, first, p);
    ArtifactDigests(p);
    forall f | f in r.files && f.ownership.CompilerOwned?
      ensures (p.component, f.path) in Step(s, first, p).files && f.digest == Sha256(Step(s, first, p).files[(p.component, f.path)])
    {
      var i :| 0 <= i < |r.files| && r.files[i] == f;
      assert p.plan.artifacts[i] in p.plan.artifacts;
    }
    forall b | b in q.plan.artifacts && b.ownership.CompilerOwned? && (q.component, b.path) in Step(s, first, p).files
      ensures exists f :: f in r.files && f.path == b.path && f.ownership.CompilerOwned?
    {
      var a :| a in p.plan.artifacts && a.path == b.path && a.ownership.CompilerOwned?;
      var i :| 0 <= i < |p.plan.artifacts| && p.plan.artifacts[i] == a;
      assert r.files[i] in r.files;
    }
    UneditedIsUpdated(files, more, second, q, Some(r));
  }

  lemma ArtifactDigests(p: Planned)
    requires IsPlanned(p)
    ensures forall a | a in p.plan.artifacts :: a.path in p.plan.contents && a.digest == Sha256(p.plan.contents[a.path])
  {
    hide IsSafeArtifactPath;
  }

  lemma OneMore(files: Files, events: seq<Event>, job: Job, p: Planned)
    requires IsRun(events) && IsPlanned(p)
    ensures IsRun(events + [Materialized(job, p)]) && Run(files, events + [Materialized(job, p)]) == Step(Run(files, events), job, p)
  {
    hide IsPlanned, Step;
    var more := events + [Materialized(job, p)];
    assert more[..|more| - 1] == events;
  }

  lemma RevisionsAreKeys(files: Files, events: seq<Event>, component: string)
    requires IsRun(events)
    ensures var store := StoreOf(Run(files, events).records, component); forall n | n in store :: store[n].revision == n
  {
    hide Run, IsRun, IsValidRecord, PinnedRef;
    RunKeepsChains(files, events);
    var store := StoreOf(Run(files, events).records, component);
    assert IsChain(store);
    forall n | n in store ensures store[n].revision == n { assert IsLink(store, n); }
  }
}
