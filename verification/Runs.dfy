/**
 * What every materialization guarantees, and what holds over whole runs that mix
 * materializations of any plans with any edits of the owners.
 */
module Runs {
  import opened Wrappers
  import opened Identity
  import opened Checks
  import opened Ownership
  import opened Adapter
  import opened Records
  import opened Materializer
  import opened Verify

  // ---- One step ----

  /** Whether a key is written is decided by the entry of its path. */
  lemma WrittenKey(p: Planned, entries: seq<FileEntry>, k: (string, string))
    requires forall e | e in entries :: e.path in p.plan.contents
    ensures k in Written(p.component, entries) <==> k.0 == p.component && exists e :: e in entries && Writes(e.decision) && e.path == k.1
    ensures k in Written(p.component, entries) ==> k.1 in p.plan.contents
  {
    if k.0 == p.component && exists e :: e in entries && Writes(e.decision) && e.path == k.1 {
      var e :| e in entries && Writes(e.decision) && e.path == k.1;
      assert k == (p.component, e.path);
    }
  }

  function Previous(s: State, p: Planned): Option<Record> {
    Latest(StoreOf(s.records, p.component))
  }

  /** The decision made for the artifact at `i`. */
  function DecisionAt(s: State, p: Planned, i: nat): WriteDecision
    requires i < |p.plan.artifacts|
  {
    EntryOf(s.files, p.component, Previous(s, p), p.plan.artifacts[i]).decision
  }

  lemma RecordEntries(s: State, job: Job, p: Planned)
    ensures RecordFor(s, job, p).files == EntriesOf(s.files, p, Previous(s, p))
    ensures RecordFor(s, job, p).outcome.Conflicted? <==> exists i :: 0 <= i < |p.plan.artifacts| && DecisionAt(s, p, i) == Conflict
  {
    var entries := EntriesOf(s.files, p, Previous(s, p));
    if i :| 0 <= i < |p.plan.artifacts| && DecisionAt(s, p, i) == Conflict {
      assert entries[i] in entries;
    }
    if e :| e in entries && e.decision == Conflict {
      var i :| 0 <= i < |entries| && entries[i] == e;
      assert DecisionAt(s, p, i) == Conflict;
    }
  }

  /** The file at `k` after an applied step: the planned content where the plan writes, the old file elsewhere. */
  lemma FileAfter(s: State, job: Job, p: Planned, k: (string, string))
    requires IsPlanned(p) && RecordFor(s, job, p).outcome.Applied?
    ensures var after := Step(s, job, p).files;
            if k.0 == p.component && exists i :: 0 <= i < |p.plan.artifacts| && p.plan.artifacts[i].path == k.1 && Writes(DecisionAt(s, p, i))
            then k in after && k.1 in p.plan.contents && after[k] == p.plan.contents[k.1]
            else (k in after <==> k in s.files) && (k in after ==> after[k] == s.files[k])
  {
    hide IsPlanned;
    RecordEntries(s, job, p);
    var entries := EntriesOf(s.files, p, Previous(s, p));
    EntriesHaveContents(s.files, p, Previous(s, p));
    WrittenKey(p, entries, k);
    if i :| 0 <= i < |p.plan.artifacts| && p.plan.artifacts[i].path == k.1 && Writes(DecisionAt(s, p, i)) {
      assert entries[i] in entries && entries[i].path == k.1;
    }
    if e :| e in entries && Writes(e.decision) && e.path == k.1 {
      var i :| 0 <= i < |entries| && entries[i] == e;
      assert p.plan.artifacts[i].path == k.1 && Writes(DecisionAt(s, p, i));
    }
  }

  /** A planned compiler-owned file whose current bytes are those the latest record lists. */
  ghost predicate MayUpdate(s: State, p: Planned, k: (string, string)) {
    k in s.files && LastWritten(Previous(s, p), k.1) == Some(FileDigest(s.files[k])) &&
    exists i :: 0 <= i < |p.plan.artifacts| && p.plan.artifacts[i].path == k.1 && p.plan.artifacts[i].ownership.CompilerOwned?
  }

  /**
   * No silent overwrite. A step deletes nothing; a file it creates or changes belongs to
   * its component and gets the planned content; a file it changes is compiler-owned in the
   * plan and held the very bytes the latest record lists for it.
   */
  lemma StepWritesSafely(s: State, job: Job, p: Planned, k: (string, string))
    requires IsPlanned(p)
    ensures k in s.files ==> k in Step(s, job, p).files
    ensures k in Step(s, job, p).files && (k !in s.files || Step(s, job, p).files[k] != s.files[k]) ==>
              k.0 == p.component && k.1 in p.plan.contents && Step(s, job, p).files[k] == p.plan.contents[k.1] &&
              (k in s.files ==> MayUpdate(s, p, k))
  {
    hide IsPlanned, LastWritten, Latest, EntriesOf, FilesAfter, PinnedRef;
    if RecordFor(s, job, p).outcome.Applied? {
      FileAfter(s, job, p, k);
    }
  }

  /** The plan may only seed the file at `k`. */
  ghost predicate IsOwnersFile(p: Planned, k: (string, string)) {
    k.0 == p.component ==>
      p.ownershipClass == "OWNER_MANAGED" ||
      exists i :: 0 <= i < |p.plan.artifacts| && p.plan.artifacts[i].path == k.1 && p.plan.artifacts[i].ownership.OwnerSeeded?
  }

  lemma OnlySeeded(p: Planned, k: (string, string))
    requires IsPlanned(p) && IsOwnersFile(p, k) && k.0 == p.component
    ensures forall i | 0 <= i < |p.plan.artifacts| && p.plan.artifacts[i].path == k.1 :: p.plan.artifacts[i].ownership.OwnerSeeded?
  {
    hide IsSafeArtifactPath;
    forall i | 0 <= i < |p.plan.artifacts| && p.plan.artifacts[i].path == k.1
      ensures p.plan.artifacts[i].ownership.OwnerSeeded?
    {
      assert p.plan.artifacts[i] in p.plan.artifacts;
    }
  }

  /** What the owner may rely on: seeded files that exist never change, nor any file of an OWNER_MANAGED component. */
  lemma OwnerFilesStay(s: State, job: Job, p: Planned, k: (string, string))
    requires IsPlanned(p) && k in s.files && IsOwnersFile(p, k)
    ensures k in Step(s, job, p).files && Step(s, job, p).files[k] == s.files[k]
  {
    hide Step, LastWritten, Latest, IsPlanned, IsOwnersFile;
    StepWritesSafely(s, job, p, k);
    if k.0 == p.component {
      OnlySeeded(p, k);
    }
  }

  /** All or nothing: a conflict leaves the whole workspace as it was, and every other step puts every artifact in place. */
  lemma StepIsAllOrNothing(s: State, job: Job, p: Planned)
    requires IsPlanned(p)
    ensures RecordFor(s, job, p).outcome.Conflicted? ==> Step(s, job, p) == s
    ensures RecordFor(s, job, p).outcome.Applied? ==>
              forall i | 0 <= i < |p.plan.artifacts| ::
                var a, k := p.plan.artifacts[i], (p.component, p.plan.artifacts[i].path);
                k in Step(s, job, p).files &&
                (a.ownership.CompilerOwned? ==> Step(s, job, p).files[k] == p.plan.contents[a.path])
  {
    hide IsSafeArtifactPath;
    if RecordFor(s, job, p).outcome.Applied? {
      RecordEntries(s, job, p);
      forall i | 0 <= i < |p.plan.artifacts|
        ensures (p.component, p.plan.artifacts[i].path) in Step(s, job, p).files
        ensures p.plan.artifacts[i].ownership.CompilerOwned? ==>
                  Step(s, job, p).files[(p.component, p.plan.artifacts[i].path)] == p.plan.contents[p.plan.artifacts[i].path]
      {
        var a := p.plan.artifacts[i];
        var k := (p.component, a.path);
        assert a in p.plan.artifacts;
        FileAfter(s, job, p, k);
        if k in s.files && DecisionAt(s, p, i) == Unchanged {
          Sha256Injective(s.files[k], p.plan.contents[a.path]);
        }
      }
    }
  }

  // ---- Materialize and verify agree ----

  /** The record lists the artifacts of the plan. */
  ghost predicate Describes(r: Record, p: Planned) {
    |r.files| == |p.plan.artifacts| &&
    forall i | 0 <= i < |r.files| ::
      r.files[i].path == p.plan.artifacts[i].path && r.files[i].ownership == p.plan.artifacts[i].ownership && r.files[i].digest == p.plan.artifacts[i].digest
  }

  /** The next run of the plan keeps every file. */
  ghost predicate OnlyKeeps(s: State, p: Planned) {
    forall i | 0 <= i < |p.plan.artifacts| :: DecisionAt(s, p, i) == Unchanged || DecisionAt(s, p, i) == KeepOwner
  }

  /** The structural check passes against a record of a plan exactly when the next run of that plan keeps every file. */
  lemma IntactIffOnlyKeeps(s: State, r: Record, p: Planned)
    requires Describes(r, p)
    ensures IsIntact(s.files, p.component, r) <==> OnlyKeeps(s, p)
  {
    hide LastWritten, Latest;
    forall i | 0 <= i < |p.plan.artifacts|
      ensures Matches(s.files, p.component, r.files[i]) <==> DecisionAt(s, p, i) == Unchanged || DecisionAt(s, p, i) == KeepOwner
    {}
    if IsIntact(s.files, p.component, r) {
      forall i | 0 <= i < |r.files| ensures Matches(s.files, p.component, r.files[i]) { assert r.files[i] in r.files; }
    }
  }

  /** A run that only keeps files writes none. */
  lemma KeepingWritesNothing(s: State, job: Job, p: Planned)
    requires IsPlanned(p) && OnlyKeeps(s, p)
    ensures RecordFor(s, job, p).outcome.Applied? && Step(s, job, p).files == s.files
  {
    hide IsPlanned, LastWritten, Latest, DecisionAt, Step, RecordFor;
    RecordEntries(s, job, p);
    forall k
      ensures k in Step(s, job, p).files <==> k in s.files
      ensures k in s.files ==> Step(s, job, p).files[k] == s.files[k]
    {
      FileAfter(s, job, p, k);
    }
  }

  lemma RecordDescribes(s: State, job: Job, p: Planned)
    ensures Describes(RecordFor(s, job, p), p)
  {
    RecordEntries(s, job, p);
  }

  /** After an applied step with no edit, the structural check passes and the same plan writes nothing more. */
  lemma AppliedIsIntact(s: State, job: Job, p: Planned, again: Job)
    requires IsPlanned(p) && RecordFor(s, job, p).outcome.Applied?
    ensures IsIntact(Step(s, job, p).files, p.component, RecordFor(s, job, p))
    ensures Step(Step(s, job, p), again, p).files == Step(s, job, p).files
  {
    hide IsSafeArtifactPath, Step, RecordFor, LastWritten, Latest;
    var s', r := Step(s, job, p), RecordFor(s, job, p);
    StepIsAllOrNothing(s, job, p);
    RecordDescribes(s, job, p);
    forall i | 0 <= i < |r.files|
      ensures Matches(s'.files, p.component, r.files[i])
    {
      assert p.plan.artifacts[i] in p.plan.artifacts;
      assert r.files[i].path == p.plan.artifacts[i].path;
    }
    IntactIffOnlyKeeps(s', r, p);
    KeepingWritesNothing(s', again, p);
  }

  // ---- The record chain ----

  /** What a chain says of the record at one revision. */
  ghost predicate IsLink(store: Store, n: nat)
    requires n in store
  {
    && store[n].revision == n
    && (store[n].status.Valid? <==> n == |store|)
    && IsValidRecord(store[n])
    && (n == 1 || n - 1 in store)
    && store[n].supersedes == (if n == 1 then None else Some(PinnedRef(store[n - 1])))
  }

  /** Revisions 1..n, only n VALID, each superseding the one before by its digest, all valid. */
  ghost predicate IsChain(store: Store) {
    (forall n :: n in store <==> 1 <= n <= |store|) && forall n | n in store :: IsLink(store, n)
  }

  /** An applied step produces a valid record. */
  lemma AppliedRecordIsValid(s: State, job: Job, p: Planned)
    requires IsPlanned(p) && RecordFor(s, job, p).outcome.Applied?
    ensures IsValidRecord(RecordFor(s, job, p))
    ensures IsAcceptedRecord(RecordFor(s, job, p)) <==> IsRealTimestamp(job.executedAt)
  {
    hide IsRealTimestamp, IsSafeArtifactPath;
    RecordEntries(s, job, p);
    var r := RecordFor(s, job, p);
    forall f | f in r.files
      ensures IsSafeArtifactPath(f.path) && (f.ownership.OwnerSeeded? ==> !f.decision.Update?) && !f.decision.Conflict?
    {
      var i :| 0 <= i < |r.files| && r.files[i] == f;
      assert p.plan.artifacts[i] in p.plan.artifacts && f.decision == DecisionAt(s, p, i);
    }
    assert forall i | 0 <= i < |r.files| :: r.files[i].path == p.plan.artifacts[i].path;
  }

  /** The record of a conflict, which is returned but not stored, breaks the rules exactly when some file would have been written. */
  lemma ConflictRecordValidity(s: State, job: Job, p: Planned)
    requires IsPlanned(p) && RecordFor(s, job, p).outcome.Conflicted?
    ensures IsValidRecord(RecordFor(s, job, p)) <==> forall i | 0 <= i < |p.plan.artifacts| :: !Writes(DecisionAt(s, p, i))
  {
    hide IsSafeArtifactPath, RecordFor, LastWritten, Latest;
    RecordEntries(s, job, p);
    var r := RecordFor(s, job, p);
    forall i | 0 <= i < |r.files|
      ensures r.files[i] in r.files && r.files[i].decision == DecisionAt(s, p, i)
      ensures IsSafeArtifactPath(r.files[i].path) && (r.files[i].ownership.OwnerSeeded? ==> !r.files[i].decision.Update? && !r.files[i].decision.Conflict?)
    {
      assert p.plan.artifacts[i] in p.plan.artifacts;
    }
    assert forall i | 0 <= i < |r.files| :: r.files[i].path == p.plan.artifacts[i].path;
    var c :| 0 <= c < |p.plan.artifacts| && DecisionAt(s, p, c) == Conflict;
    assert r.files[c].decision.Conflict?;
  }

  const EDITED := State(map[("web", "a") := "edited"], map[])

  const PLANNED_A := PlannedArtifact("a", CompilerOwned, FileDigest("x"))

  const PLANNED_B := PlannedArtifact("b", CompilerOwned, FileDigest("y"))

  const TWO_FILES := Planned("web", "COMPILER_OWNED", ComponentPlan([PLANNED_A, PLANNED_B], map["a" := "x", "b" := "y"]))

  lemma ShortNamesAreSafe()
    ensures IsSafeArtifactPath("a") && IsSafeArtifactPath("b")
  {}

  lemma TwoFilesArePlanned()
    ensures IsPlanned(TWO_FILES)
  {
    hide IsSafeArtifactPath, FileDigest;
    ShortNamesAreSafe();
  }

  lemma EditedDecisions()
    ensures DecisionAt(EDITED, TWO_FILES, 0) == Conflict && DecisionAt(EDITED, TWO_FILES, 1) == Create
  {
    Sha256Injective("edited", "x");
    assert StoreOf(map[], "web") == map[];
  }

  /** One file edited, one absent: the record of the conflict breaks the rules. */
  lemma SomeConflictRecordIsInvalid(job: Job)
    ensures IsPlanned(TWO_FILES)
    ensures RecordFor(EDITED, job, TWO_FILES).outcome.Conflicted? && !IsValidRecord(RecordFor(EDITED, job, TWO_FILES))
  {
    hide RecordFor, IsValidRecord, IsPlanned, DecisionAt, EntriesOf;
    TwoFilesArePlanned();
    EditedDecisions();
    RecordEntries(EDITED, job, TWO_FILES);
    ConflictRecordValidity(EDITED, job, TWO_FILES);
  }

  lemma LatestOfChain(store: Store)
    requires IsChain(store) && store != map[]
    ensures |store| in store && Latest(store) == Some(store[|store|])
  {
    hide IsValidRecord, PinnedRef;
    assert |store.Keys| == |store| && store.Keys != {};
    assert |store| in store.Keys && Highest(store.Keys) in store;
  }

  lemma AddedKeys(store: Store, n: nat, last: Record, record: Record)
    requires n in store && n + 1 !in store && |store| == n
    ensures |store[n := last][n + 1 := record]| == n + 1
    ensures forall m :: m in store[n := last][n + 1 := record] <==> m in store || m == n + 1
  {
    var after := store[n := last][n + 1 := record];
    assert after.Keys == store.Keys + {n + 1};
    assert |after.Keys| == |store.Keys| + 1;
  }

  /** Storing the first record starts a chain; storing the next one, its predecessor superseded, continues it. */
  lemma StoreKeepsChain(store: Store, record: Record)
    requires IsChain(store) && (store != map[] ==> |store| in store) && IsValidRecord(record)
    requires record.revision == |store| + 1 && record.status.Valid?
    requires record.supersedes == if store == map[] then None else Some(PinnedRef(store[|store|]))
    ensures IsChain(StoreAfter(store, if store == map[] then None else Some(store[|store|]), record))
  {
    hide IsValidRecord, PinnedRef, StoreAfter, IsChain, IsLink;
    if store == map[] {
      assert |store| == 0;
      FirstLink(record);
    } else {
      NextKeys(store, record);
      var after := StoreAfter(store, Some(store[|store|]), record);
      forall m | m in after { NextLink(store, record, m); }
      assert IsChain(after) by { KeysAndLinks(after); }
    }
  }

  lemma KeysAndLinks(store: Store)
    requires forall n :: n in store <==> 1 <= n <= |store|
    requires forall n | n in store :: IsLink(store, n)
    ensures IsChain(store)
  {
    hide IsLink;
  }

  lemma FirstLink(record: Record)
    requires IsValidRecord(record) && record.revision == 1 && record.status.Valid? && record.supersedes == None
    ensures IsChain(StoreAfter(map[], None, record))
  {
    hide IsValidRecord, PinnedRef;
    assert StoreAfter(map[], None, record) == map[1 := record];
    assert |map[1 := record]| == 1;
  }

  lemma NextKeys(store: Store, record: Record)
    requires IsChain(store) && store != map[] && record.revision == |store| + 1
    ensures |store| in store
    ensures var after := StoreAfter(store, Some(store[|store|]), record);
            |after| == |store| + 1 && forall m :: m in after <==> 1 <= m <= |after|
  {
    hide IsValidRecord, PinnedRef;
    var n := |store|;
    assert n in store && n + 1 !in store;
    AddedKeys(store, n, store[n].(status := Superseded), record);
  }

  lemma NextLink(store: Store, record: Record, m: nat)
    requires IsChain(store) && store != map[] && IsValidRecord(record)
    requires record.revision == |store| + 1 && record.status.Valid?
    requires |store| in store && record.supersedes == Some(PinnedRef(store[|store|]))
    requires m in StoreAfter(store, Some(store[|store|]), record)
    ensures IsLink(StoreAfter(store, Some(store[|store|]), record), m)
  {
    hide IsValidRecord, PinnedRef;
    var n := |store|;
    NextKeys(store, record);
    StatusIsNotIdentity(store[n], Superseded);
    SupersededIsValid(store[n]);
    var after := StoreAfter(store, Some(store[n]), record);
    assert m <= n ==> m in store;
    assert m > 1 ==> m - 1 in store && after[m - 1] == if m - 1 == n then store[n].(status := Superseded) else store[m - 1];
  }

  lemma SupersededIsValid(r: Record)
    requires IsValidRecord(r)
    ensures IsValidRecord(r.(status := Superseded))
  {}

  lemma StepKeepsChains(s: State, job: Job, p: Planned)
    requires IsPlanned(p) && forall c :: IsChain(StoreOf(s.records, c))
    ensures forall c :: IsChain(StoreOf(Step(s, job, p).records, c))
  {
    hide IsPlanned, IsValidRecord, PinnedRef, IsChain, FilesAfter, Latest;
    var store := StoreOf(s.records, p.component);
    var record := RecordFor(s, job, p);
    if record.outcome.Applied? {
      AppliedRecordIsValid(s, job, p);
      assert IsChain(store);
      ChainEnd(store);
      StoreKeepsChain(store, record);
      forall c
        ensures IsChain(StoreOf(Step(s, job, p).records, c))
      {
        assert c != p.component ==> StoreOf(Step(s, job, p).records, c) == StoreOf(s.records, c);
        assert IsChain(StoreOf(s.records, c));
      }
    } else {
      assert Step(s, job, p) == s;
    }
  }

  lemma ChainEnd(store: Store)
    requires IsChain(store)
    ensures store == map[] ==> Latest(store) == None && |store| == 0
    ensures store != map[] ==> |store| in store && Latest(store) == Some(store[|store|]) && store[|store|].revision == |store|
  {
    if store != map[] {
      LatestOfChain(store);
    }
  }

  // ---- Whole runs ----

  /** A materialization of one component, or an edit by an owner: new bytes, or deletion. */
  datatype Event =
    | Materialized(job: Job, planned: Planned)
    | Edited(key: (string, string), content: Option<string>)

  ghost predicate IsRun(events: seq<Event>) {
    forall e | e in events :: e.Materialized? ==> IsPlanned(e.planned)
  }

  function Edit(s: State, key: (string, string), content: Option<string>): State {
    s.(files := if content.Some? then s.files[key := content.value] else s.files - {key})
  }

  ghost function After(s: State, e: Event): State
    requires e.Materialized? ==> IsPlanned(e.planned)
  {
    match e
    case Materialized(job, planned) => Step(s, job, planned)
    case Edited(key, content) => Edit(s, key, content)
  }

  /** The workspace after a run that starts from nothing recorded. */
  ghost function Run(files: Files, events: seq<Event>): State
    requires IsRun(events)
  {
    if |events| == 0 then State(files, map[]) else
    After(Run(files, events[..|events| - 1]), events[|events| - 1])
  }

  /** What one call of the engine adds to the run: its components, in order. */
  function EventsOf(job: Job, plans: seq<Planned>): (r: seq<Event>)
    ensures |r| == |plans| && forall i | 0 <= i < |r| :: r[i] == Materialized(job, plans[i])
  {
    seq(|plans|, i requires 0 <= i < |plans| => Materialized(job, plans[i]))
  }

  /** A call of the engine continues a run by the events of its plans. */
  lemma {:induction false} EngineContinuesRun(files: Files, events: seq<Event>, job: Job, plans: seq<Planned>)
    requires IsRun(events) && forall p | p in plans :: IsPlanned(p)
    ensures IsRun(events + EventsOf(job, plans))
    ensures Steps(Run(files, events), job, plans) == Run(files, events + EventsOf(job, plans))
    decreases |plans|
  {
    hide IsPlanned, Step;
    var all := events + EventsOf(job, plans);
    forall i | 0 <= i < |all| && all[i].Materialized? ensures IsPlanned(all[i].planned) {
      if i >= |events| { assert plans[i - |events|] in plans; }
    }
    if |plans| > 0 {
      EngineContinuesRun(files, events, job, plans[..|plans| - 1]);
      assert all[..|all| - 1] == events + EventsOf(job, plans[..|plans| - 1]);
    } else {
      assert all == events;
    }
  }

  /** Over any run, every component's records form a chain. */
  lemma {:induction false} RunKeepsChains(files: Files, events: seq<Event>)
    requires IsRun(events)
    ensures forall c :: IsChain(StoreOf(Run(files, events).records, c))
  {
    hide IsPlanned, Step;
    if |events| == 0 {
      NoRecordsIsChain();
    } else {
      var front, last := events[..|events| - 1], events[|events| - 1];
      RunKeepsChains(files, front);
      if last.Materialized? {
        StepKeepsChains(Run(files, front), last.job, last.planned);
      }
    }
  }

  lemma NoRecordsIsChain()
    ensures IsChain(map[])
  {}

  /** An applied step of the run planned these bytes for this file. */
  ghost predicate WasPlanned(files: Files, events: seq<Event>, key: (string, string), bytes: string)
    requires IsRun(events)
  {
    exists i :: 0 <= i < |events| && PlannedAt(files, events, i, key, bytes)
  }

  ghost predicate PlannedAt(files: Files, events: seq<Event>, i: nat, key: (string, string), bytes: string)
    requires IsRun(events) && i < |events|
  {
    && events[i].Materialized?
    && events[i].planned.component == key.0
    && key.1 in events[i].planned.plan.contents && events[i].planned.plan.contents[key.1] == bytes
    && RecordFor(Run(files, events[..i]), events[i].job, events[i].planned).outcome.Applied?
  }

  /** Everything a stored record lists was planned by an applied step of the run. */
  ghost predicate ListsOnlyPlanned(files: Files, events: seq<Event>, component: string, r: Record)
    requires IsRun(events)
  {
    forall f | f in r.files :: exists bytes :: f.digest == FileDigest(bytes) && WasPlanned(files, events, (component, f.path), bytes)
  }

  lemma LongerRun(files: Files, events: seq<Event>, e: Event, component: string, r: Record)
    requires IsRun(events) && IsRun(events + [e]) && ListsOnlyPlanned(files, events, component, r)
    ensures ListsOnlyPlanned(files, events + [e], component, r)
  {
    hide IsPlanned, Run, RecordFor;
    var more := events + [e];
    forall f | f in r.files
      ensures exists bytes :: f.digest == FileDigest(bytes) && WasPlanned(files, more, (component, f.path), bytes)
    {
      var bytes :| f.digest == FileDigest(bytes) && WasPlanned(files, events, (component, f.path), bytes);
      var i :| 0 <= i < |events| && PlannedAt(files, events, i, (component, f.path), bytes);
      assert more[..i] == events[..i] && PlannedAt(files, more, i, (component, f.path), bytes);
    }
  }

  lemma NewRecordListsPlanned(files: Files, events: seq<Event>, e: Event)
    requires IsRun(events) && IsRun(events + [e]) && e.Materialized?
    requires RecordFor(Run(files, events), e.job, e.planned).outcome.Applied?
    ensures ListsOnlyPlanned(files, events + [e], e.planned.component, RecordFor(Run(files, events), e.job, e.planned))
  {
    hide Run, RecordFor, IsSafeArtifactPath;
    var more, n := events + [e], |events|;
    assert more[..n] == events && more[n] == e;
    var s, p := Run(files, events), e.planned;
    var r := RecordFor(s, e.job, p);
    RecordDescribes(s, e.job, p);
    assert e in more;
    forall f | f in r.files
      ensures exists bytes :: f.digest == FileDigest(bytes) && WasPlanned(files, more, (p.component, f.path), bytes)
    {
      var i :| 0 <= i < |r.files| && r.files[i] == f;
      assert p.plan.artifacts[i] in p.plan.artifacts;
      var bytes := p.plan.contents[f.path];
      assert PlannedAt(files, more, n, (p.component, f.path), bytes);
    }
  }

  /** Over any run, records list planned content only. */
  lemma {:induction false} RecordsListPlanned(files: Files, events: seq<Event>)
    requires IsRun(events)
    ensures forall c, n | n in StoreOf(Run(files, events).records, c) ::
              ListsOnlyPlanned(files, events, c, StoreOf(Run(files, events).records, c)[n])
  {
    hide IsPlanned, ListsOnlyPlanned;
    if |events| > 0 {
      var front, e := events[..|events| - 1], events[|events| - 1];
      assert events == front + [e];
      RecordsListPlanned(files, front);
      forall c, n | n in StoreOf(Run(files, events).records, c)
        ensures ListsOnlyPlanned(files, events, c, StoreOf(Run(files, events).records, c)[n])
      {
        RecordAfter(files, front, e, c, n);
      }
    }
  }

  lemma RecordAfter(files: Files, front: seq<Event>, e: Event, c: string, n: nat)
    requires IsRun(front) && IsRun(front + [e])
    requires n in StoreOf(Run(files, front + [e]).records, c)
    requires forall m | m in StoreOf(Run(files, front).records, c) ::
               ListsOnlyPlanned(files, front, c, StoreOf(Run(files, front).records, c)[m])
    ensures ListsOnlyPlanned(files, front + [e], c, StoreOf(Run(files, front + [e]).records, c)[n])
  {
    hide IsPlanned, ListsOnlyPlanned;
    var events := front + [e];
    assert events[..|front|] == front && events[|front|] == e && e in events;
    var s := Run(files, front);
    var r := StoreOf(Run(files, events).records, c)[n];
    if n in StoreOf(s.records, c) && r == StoreOf(s.records, c)[n] {
      LongerRun(files, front, e, c, r);
    } else {
      RecordIsNewOrSuperseded(s, e, c, n);
      if r == RecordFor(s, e.job, e.planned) {
        NewRecordListsPlanned(files, front, e);
      } else {
        var previous := Previous(s, e.planned).value;
        LongerRun(files, front, e, c, previous);
        SameFiles(files, events, c, previous, r);
      }
    }
  }

  lemma SameFiles(files: Files, events: seq<Event>, c: string, a: Record, b: Record)
    requires IsRun(events) && ListsOnlyPlanned(files, events, c, a) && a.files == b.files
    ensures ListsOnlyPlanned(files, events, c, b)
  {
    hide WasPlanned, IsPlanned;
  }

  /** A stored record an event touches is the new one, or the previous one with its status changed. */
  lemma RecordIsNewOrSuperseded(s: State, e: Event, c: string, n: nat)
    requires e.Materialized? ==> IsPlanned(e.planned)
    requires n in StoreOf(After(s, e).records, c)
    requires !(n in StoreOf(s.records, c) && StoreOf(After(s, e).records, c)[n] == StoreOf(s.records, c)[n])
    ensures e.Materialized? && c == e.planned.component && RecordFor(s, e.job, e.planned).outcome.Applied?
    ensures var r := StoreOf(After(s, e).records, c)[n];
            r == RecordFor(s, e.job, e.planned) ||
            (Previous(s, e.planned).Some? && r.files == Previous(s, e.planned).value.files &&
             exists m :: m in StoreOf(s.records, c) && StoreOf(s.records, c)[m] == Previous(s, e.planned).value)
  {
    hide IsPlanned, FilesAfter, RecordFor;
  }

  /**
   * What an owner wrote is never overwritten nor deleted, over any run: when a
   * materialization changes the bytes of an existing file, an earlier applied
   * materialization of the run had planned exactly those bytes for that file.
   */
  lemma OwnerBytesSurvive(files: Files, events: seq<Event>, e: Event, key: (string, string))
    requires IsRun(events) && e.Materialized? && IsPlanned(e.planned)
    requires key in Run(files, events).files
    ensures key in After(Run(files, events), e).files
    ensures After(Run(files, events), e).files[key] != Run(files, events).files[key] ==>
              WasPlanned(files, events, key, Run(files, events).files[key])
  {
    hide IsPlanned, WasPlanned, Run, Step;
    var s := Run(files, events);
    StepWritesSafely(s, e.job, e.planned, key);
    if After(s, e).files[key] != s.files[key] {
      RecordsListPlanned(files, events);
      var r := Latest(StoreOf(s.records, key.0)).value;
      assert ListsOnlyPlanned(files, events, key.0, r);
      ListedIsEntry(r.files, key.1);
      var f :| f in r.files && f.path == key.1 && Some(f.digest) == ListedDigest(r.files, key.1);
      var bytes :| f.digest == FileDigest(bytes) && WasPlanned(files, events, (key.0, f.path), bytes);
      Sha256Injective(bytes, s.files[key]);
      assert (key.0, key.1) == key;
    }
  }

  lemma {:induction false} ListedIsEntry(entries: seq<FileEntry>, path: string)
    ensures ListedDigest(entries, path).Some? ==>
              exists f :: f in entries && f.path == path && Some(f.digest) == ListedDigest(entries, path)
  {
    if |entries| > 0 && entries[|entries| - 1].path != path {
      ListedIsEntry(entries[..|entries| - 1], path);
    }
  }
}
