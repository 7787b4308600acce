/** What the stored records are as contract documents. */
module RecordLaws {
  import opened Wrappers
  import opened Text
  import opened Json
  import opened Refs
  import opened Identity
  import opened Checks
  import opened Ownership
  import opened Records
  import opened Materializer
  import opened Runs
  import Adapter
  import ContractSet

  /** The record with another status. */
  function WithStatus(r: Record, status: Status): Record { r.(status := status) }

  lemma FileTells(a: FileEntry, b: FileEntry)
    requires FileJson(a) == FileJson(b)
    ensures a == b
  {
    var m, n := FileJson(a).members, FileJson(b).members;
    assert m["path"] == n["path"] && m["ownership"] == n["ownership"] && m["digest"] == n["digest"] && m["decision"] == n["decision"];
  }

  lemma FilesTell(a: seq<FileEntry>, b: seq<FileEntry>)
    requires |a| == |b| && forall i | 0 <= i < |a| :: FileJson(a[i]) == FileJson(b[i])
    ensures a == b
  {
    hide FileJson;
    forall i | 0 <= i < |a|
      ensures a[i] == b[i]
    {
      FileTells(a[i], b[i]);
    }
  }

  lemma PinTells(a: Pinned, b: Pinned)
    requires PinnedJson(a) == PinnedJson(b)
    ensures a == b
  {
    var m, n := PinnedJson(a).members, PinnedJson(b).members;
    assert m["id"] == n["id"] && m["revision"] == n["revision"] && m["digest"] == n["digest"];
    DecimalInjective(a.revision, b.revision);
  }

  lemma SupersedesTells(a: Record, b: Record)
    requires RecordDocument(a).metadata == RecordDocument(b).metadata
    ensures a.supersedes == b.supersedes
  {
    hide PinnedJson;
    var m, n := RecordDocument(a).metadata, RecordDocument(b).metadata;
    assert a.supersedes.Some? <==> "supersedes" in m;
    assert b.supersedes.Some? <==> "supersedes" in n;
    if a.supersedes.Some? {
      assert m["supersedes"] == n["supersedes"];
      PinTells(a.supersedes.value, b.supersedes.value);
    }
  }

  lemma SpecTells(a: Record, b: Record)
    requires RecordDocument(a).spec == RecordDocument(b).spec
    ensures a.system == b.system && a.component == b.component && a.context == b.context
    ensures a.executedAt.text == b.executedAt.text && a.outcome == b.outcome && a.files == b.files
  {
    hide FileJson, PinnedJson;
    var m, n := RecordDocument(a).spec.members, RecordDocument(b).spec.members;
    assert m["system"] == n["system"] && m["component"] == n["component"] && m["context"] == n["context"];
    assert m["executedAt"] == n["executedAt"] && m["outcome"] == n["outcome"] && m["files"] == n["files"];
    var x, y := m["files"].items, n["files"].items;
    assert |x| == |a.files| && |y| == |b.files|;
    forall i | 0 <= i < |a.files|
      ensures FileJson(a.files[i]) == FileJson(b.files[i])
    {
      assert x[i] == FileJson(a.files[i]) && y[i] == FileJson(b.files[i]);
    }
    FilesTell(a.files, b.files);
  }

  lemma SameDocument(a: Record, b: Record)
    requires WithStatus(a, b.status).(executedAt := b.executedAt) == b && a.executedAt.text == b.executedAt.text
    ensures RecordDocument(a) == RecordDocument(b).(status := RecordDocument(a).status)
  {
    hide FileJson, PinnedJson;
    assert RecordId(a) == RecordId(b);
    assert RecordDocument(a).spec.members["files"] == RecordDocument(b).spec.members["files"];
    assert RecordDocument(a).spec.members == RecordDocument(b).spec.members;
  }

  /**
   * A reference to a record pins everything the record says, its status excepted: what was
   * decided for every file, the outcome, the instant as written and what it supersedes.
   */
  lemma RecordTells(a: Record, b: Record)
    ensures RecordDigest(a) == RecordDigest(b) <==>
            WithStatus(a, b.status).(executedAt := b.executedAt) == b && a.executedAt.text == b.executedAt.text
  {
    hide ContractDigest, RecordId, FileJson, PinnedJson;
    DigestIdentifiesContent(RecordDocument(a), RecordDocument(b));
    if RecordDigest(a) == RecordDigest(b) {
      assert RecordDocument(a).spec == RecordDocument(b).spec && RecordDocument(a).metadata == RecordDocument(b).metadata;
      assert RecordDocument(a).revision == RecordDocument(b).revision;
      SpecTells(a, b);
      SupersedesTells(a, b);
      assert a.revision == b.revision;
    }
    if WithStatus(a, b.status).(executedAt := b.executedAt) == b && a.executedAt.text == b.executedAt.text {
      SameDocument(a, b);
    }
  }

  lemma FileAt(r: Record, i: nat)
    requires i < |r.files|
    ensures Lookup(RecordDocument(r).spec, ["files", Decimal(i)]) == Some(FileJson(r.files[i]))
  {
    hide FileJson, PinnedJson, RecordId;
    var files := RecordDocument(r).spec.members["files"];
    ItemIsChild(files, i);
    assert Lookup(files, [Decimal(i)]) == Some(FileJson(r.files[i]));
    assert ["files", Decimal(i)][1..] == [Decimal(i)];
  }

  /** The document of a record says whether it was applied, and of each file, in order, its path, digest and ownership as an adapter writes it. */
  lemma RecordSays(r: Record, i: nat)
    requires i < |r.files|
    ensures Lookup(RecordDocument(r).spec, ["outcome"]) == Some(Str(if r.outcome.Conflicted? then "CONFLICT" else "APPLIED"))
    ensures var f := Lookup(RecordDocument(r).spec, ["files", Decimal(i)]);
            f.Some? && Member(f.value, "path") == Some(Str(r.files[i].path)) && Member(f.value, "digest") == Some(Str(r.files[i].digest)) &&
            exists text :: Member(f.value, "ownership") == Some(Str(text)) && Adapter.ParseOwnership(text) == Some(r.files[i].ownership)
  {
    hide PinnedJson, RecordId;
    FileAt(r, i);
    assert Member(FileJson(r.files[i]), "ownership") == Some(Str(OwnershipText(r.files[i].ownership)));
    assert Lookup(RecordDocument(r).spec, ["outcome"]) == Child(RecordDocument(r).spec, "outcome");
  }

  /** The documents of the kind and id are those of the records of one component. */
  ghost predicate HoldsRecords(documents: seq<Document>, store: Store, id: string) {
    && (forall n | n in store :: RecordDocument(store[n]) in documents && RecordId(store[n]) == id)
    && forall d | d in documents && d.kind.MaterializationRecord? && d.id == id :: exists n :: n in store && d == RecordDocument(store[n])
  }

  lemma ValidCounts(r: Record)
    ensures RecordDocument(r).revision == r.revision
    ensures ContractSet.IsInForceOf(RecordDocument(r), KindName(MaterializationRecord), RecordId(r)) <==> r.status.Valid?
  {
    hide KindName, PinnedJson, FileJson, RecordId;
  }

  lemma OnlyLastCounts(store: Store, n: nat, id: string)
    requires IsChain(store) && n in store && RecordId(store[n]) == id
    ensures ContractSet.IsInForceOf(RecordDocument(store[n]), KindName(MaterializationRecord), id) <==> n == |store|
    ensures RecordDocument(store[n]).revision == n
  {
    hide IsValidRecord, PinnedRef, RecordId, KindName, RecordDocument, ContractSet.IsInForceOf;
    assert IsLink(store, n);
    ValidCounts(store[n]);
  }

  lemma CountedIsLast(store: Store, documents: seq<Document>, id: string, d: Document)
    requires IsChain(store) && HoldsRecords(documents, store, id)
    requires d in documents && ContractSet.IsInForceOf(d, KindName(MaterializationRecord), id)
    ensures d.revision == |store| && |store| in store
  {
    hide IsValidRecord, IsChain, PinnedRef, RecordId, KindName, RecordDocument, ContractSet.InForce;
    KindNameInjective(d.kind, MaterializationRecord);
    var n :| n in store && d == RecordDocument(store[n]);
    OnlyLastCounts(store, n, id);
  }

  lemma LastIsStored(store: Store)
    requires IsChain(store) && store != map[]
    ensures |store| in store
  {
    hide IsLink;
    assert store.Keys != {};
    var n :| n in store;
  }

  /**
   * Over any run: in a contract set that holds the records of a component, the revision in
   * force is that of the last one applied. Superseded records never count.
   */
  lemma LastAppliedIsInForce(files: Files, events: seq<Event>, component: string, documents: seq<Document>, id: string)
    requires IsRun(events)
    requires HoldsRecords(documents, StoreOf(Run(files, events).records, component), id)
    ensures var store := StoreOf(Run(files, events).records, component);
            ContractSet.InForceRevision(documents, KindName(MaterializationRecord), id) == if store == map[] then None else Some(|store|)
  {
    hide IsChain, Run, RecordId, RecordDocument, KindName, ContractSet.InForceRevision, ContractSet.IsInForceOf;
    var store, kind := StoreOf(Run(files, events).records, component), KindName(MaterializationRecord);
    RunKeepsChains(files, events);
    ContractSet.InForceIsHighest(documents, kind, id);
    forall d | d in documents && ContractSet.IsInForceOf(d, kind, id)
      ensures d.revision == |store| && |store| in store
    {
      CountedIsLast(store, documents, id, d);
    }
    if store != map[] {
      LastIsStored(store);
      OnlyLastCounts(store, |store|, id);
      assert RecordDocument(store[|store|]) in documents;
    }
  }
}
