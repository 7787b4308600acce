/**
 * Applying a plan to a workspace people also edit. The state is what the workspace holds:
 * the files of every component, and the MaterializationRecords of every component.
 *
 * `Step` says what applying one component does; the class below is the engine, which does
 * it decision by decision and write by write.
 */
module Materializer {
  import opened Wrappers
  import opened Text
  import opened Json
  import opened Refs
  import opened Identity
  import opened Ownership
  import opened Adapter
  import opened Records
  import opened Checks
  import Policy

  // ---- State ----

  type Files = map<(string, string), string>

  /** The records of a component by revision: the revision is part of the file name. */
  type Store = map<nat, Record>

  datatype State = State(files: Files, records: map<string, Store>)

  function StoreOf(records: map<string, Store>, component: string): Store {
    if component in records then records[component] else map[]
  }

  function Highest(revisions: set<nat>): (n: nat)
    requires revisions != {}
    ensures n in revisions && forall m | m in revisions :: m <= n
  {
    HighestExists(revisions);
    var n :| n in revisions && forall m | m in revisions :: m <= n;
    n
  }

  lemma {:induction false} HighestExists(revisions: set<nat>)
    requires revisions != {}
    ensures exists n :: n in revisions && forall m | m in revisions :: m <= n
  {
    var k :| k in revisions;
    if revisions != {k} {
      HighestExists(revisions - {k});
      var n :| n in revisions - {k} && forall m | m in revisions - {k} :: m <= n;
      var top := if k < n then n else k;
      forall m | m in revisions ensures m <= top { assert m == k || m in revisions - {k}; }
    }
  }

  /** The record with the highest revision: the ownership inventory of the component. */
  function Latest(store: Store): (r: Option<Record>)
    ensures r.None? <==> store == map[]
  {
    if store.Keys == {} then None else Some(store[Highest(store.Keys)])
  }

  // ---- One component ----

  /** What is compiled, besides the plans: the system, the instant of the run, and what records only carry. */
  datatype Job = Job(system: string, executedAt: Timestamp, context: Json)

  datatype Planned = Planned(component: string, ownershipClass: string, plan: ComponentPlan)

  ghost predicate IsPlanned(p: Planned) {
    IsWellFormed(p.plan, p.ownershipClass)
  }

  function Existing(files: Files, component: string, path: string): Option<Digest> {
    if (component, path) in files then Some(FileDigest(files[(component, path)])) else None
  }

  /** The digest the last entry of a record for a path lists. */
  function ListedDigest(entries: seq<FileEntry>, path: string): Option<Digest> {
    if |entries| == 0 then None else
    var n := |entries| - 1;
    if entries[n].path == path then Some(entries[n].digest) else ListedDigest(entries[..n], path)
  }

  function LastWritten(previous: Option<Record>, path: string): Option<Digest> {
    match previous
    case None => None
    case Some(r) => ListedDigest(r.files, path)
  }

  function EntryOf(files: Files, component: string, previous: Option<Record>, a: PlannedArtifact): FileEntry {
    FileEntry(a.path, a.ownership, a.digest, DecideWrite(a, Existing(files, component, a.path), LastWritten(previous, a.path)))
  }

  function EntriesOf(files: Files, p: Planned, previous: Option<Record>): (entries: seq<FileEntry>)
    ensures |entries| == |p.plan.artifacts|
    ensures forall i | 0 <= i < |entries| :: entries[i] == EntryOf(files, p.component, previous, p.plan.artifacts[i])
  {
    seq(|p.plan.artifacts|, i requires 0 <= i < |p.plan.artifacts| => EntryOf(files, p.component, previous, p.plan.artifacts[i]))
  }

  function RecordOf(job: Job, p: Planned, entries: seq<FileEntry>, previous: Option<Record>): Record {
    Record(job.system, p.component,
           (if previous.Some? then previous.value.revision else 0) + 1,
           Valid,
           if previous.Some? then Some(PinnedRef(previous.value)) else None,
           if exists e :: e in entries && e.decision == Conflict then Conflicted else Applied,
           job.executedAt, entries, job.context)
  }

  lemma RecordListsEntries(job: Job, p: Planned, entries: seq<FileEntry>, previous: Option<Record>)
    ensures RecordOf(job, p, entries, previous).files == entries
  {}

  /** The paths a list of decisions writes. */
  function Written(component: string, entries: seq<FileEntry>): set<(string, string)> {
    set e | e in entries && Writes(e.decision) :: (component, e.path)
  }

  function FilesAfter(files: Files, p: Planned, entries: seq<FileEntry>): Files
    requires forall e | e in entries :: e.path in p.plan.contents
  {
    files + map k | k in Written(p.component, entries) :: p.plan.contents[k.1]
  }

  lemma NothingWritten(files: Files, p: Planned)
    ensures FilesAfter(files, p, []) == files
  {}

  lemma FilesAfterOne(files: Files, p: Planned, entries: seq<FileEntry>, e: FileEntry)
    requires e.path in p.plan.contents && forall x | x in entries :: x.path in p.plan.contents
    ensures (forall x | x in entries + [e] :: x.path in p.plan.contents) &&
            FilesAfter(files, p, entries + [e]) ==
            if Writes(e.decision) then FilesAfter(files, p, entries)[(p.component, e.path) := p.plan.contents[e.path]]
            else FilesAfter(files, p, entries)
  {
    var key := (p.component, e.path);
    forall x | x in entries + [e] ensures x.path in p.plan.contents { assert x in entries || x == e; }
    assert Written(p.component, entries + [e]) == Written(p.component, entries) + (if Writes(e.decision) then {key} else {}) by {
      forall k | k in Written(p.component, entries) ensures k in Written(p.component, entries + [e]) {
        var x :| x in entries && Writes(x.decision) && k == (p.component, x.path);
        assert x in entries + [e];
      }
      assert Writes(e.decision) ==> e in entries + [e];
    }
  }

  function StoreAfter(store: Store, previous: Option<Record>, record: Record): Store {
    (if previous.Some? then store[previous.value.revision := previous.value.(status := Superseded)] else store)[record.revision := record]
  }

  lemma EntriesHaveContents(files: Files, p: Planned, previous: Option<Record>)
    requires IsPlanned(p)
    ensures forall e | e in EntriesOf(files, p, previous) :: e.path in p.plan.contents
  {
    forall e | e in EntriesOf(files, p, previous)
      ensures e.path in p.plan.contents
    {
      var i :| 0 <= i < |p.plan.artifacts| && EntriesOf(files, p, previous)[i] == e;
      assert p.plan.artifacts[i] in p.plan.artifacts;
    }
  }

  function RecordFor(s: State, job: Job, p: Planned): Record {
    var previous := Latest(StoreOf(s.records, p.component));
    RecordOf(job, p, EntriesOf(s.files, p, previous), previous)
  }

  /** What materializing one component makes of the workspace. */
  ghost function Step(s: State, job: Job, p: Planned): State
    requires IsPlanned(p)
  {
    var store := StoreOf(s.records, p.component);
    var previous := Latest(store);
    var record := RecordFor(s, job, p);
    EntriesHaveContents(s.files, p, previous);
    if record.outcome.Conflicted? then s
    else State(FilesAfter(s.files, p, record.files), s.records[p.component := StoreAfter(store, previous, record)])
  }

  /** Component after component. */
  ghost function Steps(s: State, job: Job, plans: seq<Planned>): State
    requires forall p | p in plans :: IsPlanned(p)
  {
    if |plans| == 0 then s else
    Step(Steps(s, job, plans[..|plans| - 1]), job, plans[|plans| - 1])
  }

  // ---- The engine ----

  class Workspace {
    var files: Files
    var records: map<string, Store>

    ghost function Snapshot(): State
      reads this
    {
      State(files, records)
    }

    /** The record with the highest revision, found by going through the store. */
    method LatestRecord(component: string) returns (latest: Option<Record>)
      ensures latest == Latest(StoreOf(records, component))
    {
      var store := StoreOf(records, component);
      latest := None;
      var best := 0;
      var left := store.Keys;
      while left != {}
        invariant left <= store.Keys
        invariant latest.None? <==> left == store.Keys
        invariant latest.Some? ==> best in store && latest.value == store[best] && forall m | m in store && m !in left :: m <= best
        decreases left
      {
        var revision :| revision in left;
        if latest.None? || revision > best {
          latest, best := Some(store[revision]), revision;
        }
        left := left - {revision};
      }
      if latest.Some? {
        assert best == Highest(store.Keys);
      }
    }

    /** One decision per artifact, before anything is written. */
    method DecideAll(p: Planned, previous: Option<Record>) returns (entries: seq<FileEntry>)
      ensures entries == EntriesOf(files, p, previous)
    {
      entries := [];
      for i := 0 to |p.plan.artifacts|
        invariant entries == EntriesOf(files, p, previous)[..i]
      {
        var a := p.plan.artifacts[i];
        var decision := DecideWrite(a, Existing(files, p.component, a.path), LastWritten(previous, a.path));
        entries := entries + [FileEntry(a.path, a.ownership, a.digest, decision)];
      }
    }

    /** The writes of an applied component. */
    method WriteAll(p: Planned, entries: seq<FileEntry>)
      requires forall e | e in entries :: e.path in p.plan.contents
      modifies this`files
      ensures files == FilesAfter(old(files), p, entries)
    {
      hide FilesAfter;
      NothingWritten(files, p);
      for i := 0 to |entries|
        invariant files == FilesAfter(old(files), p, entries[..i])
      {
        FilesAfterOne(old(files), p, entries[..i], entries[i]);
        assert entries[..i + 1] == entries[..i] + [entries[i]];
        if Writes(entries[i].decision) {
          files := files[(p.component, entries[i].path) := p.plan.contents[entries[i].path]];
        }
      }
      assert entries[..|entries|] == entries;
    }

    /** Applies one component, or leaves it untouched when any of its files conflicts. */
    method MaterializeComponent(job: Job, p: Planned) returns (record: Record)
      requires IsPlanned(p)
      modifies this
      ensures Snapshot() == Step(old(Snapshot()), job, p)
      ensures record == RecordFor(old(Snapshot()), job, p)
    {
      hide IsPlanned, FilesAfter, EntriesOf, RecordOf, Latest, PinnedRef;
      var previous := LatestRecord(p.component);
      var entries := DecideAll(p, previous);
      record := RecordOf(job, p, entries, previous);
      EntriesHaveContents(files, p, previous);
      RecordListsEntries(job, p, entries, previous);
      if record.outcome.Applied? {
        WriteAll(p, entries);
        var store := StoreOf(records, p.component);
        if previous.Some? {
          store := store[previous.value.revision := previous.value.(status := Superseded)];
        }
        records := records[p.component := store[record.revision := record]];
      }
    }

    /** Applies a plan: nothing when it relies on an expired waiver, else every component in order. */
    method Materialize(job: Job, plans: seq<Planned>, report: seq<Policy.PolicyEvaluation>)
      returns (written: seq<Record>, expired: seq<Policy.PolicyEvaluation>)
      requires forall p | p in plans :: IsPlanned(p)
      modifies this
      ensures expired == Policy.ExpiredWaivers(report, job.executedAt)
      ensures Snapshot() == if expired == [] then Steps(old(Snapshot()), job, plans) else old(Snapshot())
      ensures |written| == if expired == [] then |plans| else 0
      ensures forall i | 0 <= i < |written| :: written[i] == RecordFor(Steps(old(Snapshot()), job, plans[..i]), job, plans[i])
    {
      hide Step, IsPlanned, RecordFor;
      expired := Policy.ExpiredWaivers(report, job.executedAt);
      written := [];
      if expired != [] {
        return;
      }
      for i := 0 to |plans|
        invariant |written| == i
        invariant Snapshot() == Steps(old(Snapshot()), job, plans[..i])
        invariant forall k | 0 <= k < i :: written[k] == RecordFor(Steps(old(Snapshot()), job, plans[..k]), job, plans[k])
      {
        assert plans[..i + 1][..i] == plans[..i];
        var record := MaterializeComponent(job, plans[i]);
        written := written + [record];
      }
      assert plans[..|plans|] == plans;
    }
  }
}
