/**
 * The compilation of a contract set: validation, choice of the definition, closure, then
 * the later stages (IR, resolution, policy, plan), which see the definition, the documents
 * of its closure and the catalog only.
 */
module Facade {
  import opened Wrappers
  import opened Text
  import opened Json
  import opened JsonPointer
  import opened Sorting
  import opened Graphs
  import opened Refs
  import opened Identity
  import opened ContractSet
  import opened Closure
  import opened SetOrder
  import opened Samples

  datatype SelectError = NoDefinition | AmbiguousDefinition(ids: seq<string>)

  const DEFINITION := "SystemDefinition"

  /** The ids of the System Definitions in force, restricted to the wanted one. */
  function CandidateIds(documents: seq<Document>, wanted: Option<string>): set<string> {
    set d | d in documents && d.kind.SystemDefinition? && InForceRevision(documents, DEFINITION, d.id).Some? &&
            (wanted.None? || d.id == wanted.value) :: d.id
  }

  function SelectDefinition(documents: seq<Document>, wanted: Option<string>): Result<Document, SelectError> {
    var ids := SortedKeys(CandidateIds(documents, wanted));
    if |ids| == 0 then Failure(NoDefinition) else
    if |ids| > 1 then Failure(AmbiguousDefinition(ids)) else
    var revision := InForceRevision(documents, DEFINITION, ids[0]);
    assert ids[0] in CandidateIds(documents, wanted);
    var key := KeyText(DEFINITION, ids[0], Decimal(revision.value));
    match Find(IndexContracts(documents), key)
    case Some(d) => Success(d)
    case None => Failure(NoDefinition)
  }

  /** `d` is the definition in force under its id. */
  ghost predicate IsInForceDefinition(documents: seq<Document>, d: Document) {
    d in documents && d.kind.SystemDefinition? && InForceRevision(documents, DEFINITION, d.id) == Some(d.revision)
  }

  lemma IdsOfOne(ids: set<string>, id: string)
    requires SortedKeys(ids) == [id]
    ensures ids == {id}
  {
    assert forall k :: k in ids <==> k in [id];
  }

  lemma OneId(id: string)
    ensures SortedKeys({id}) == [id]
  {
    var s := SortedKeys({id});
    assert s[0] in s;
  }

  lemma InForceIsFound(documents: seq<Document>, id: string)
    requires OneDocumentPerKey(documents) && InForceRevision(documents, DEFINITION, id).Some?
    ensures var key := KeyText(DEFINITION, id, Decimal(InForceRevision(documents, DEFINITION, id).value));
            key in IndexContracts(documents) && IsInForceDefinition(documents, IndexContracts(documents)[key]) &&
            IndexContracts(documents)[key].id == id
  {
    hide InForceRevision, KeyText, Decimal, IndexContracts, OneDocumentPerKey;
    InForceIsHighest(documents, DEFINITION, id);
    var d :| d in documents && IsInForceOf(d, DEFINITION, id) && d.revision == InForceRevision(documents, DEFINITION, id).value;
    KindNameInjective(d.kind, SystemDefinition);
    IndexFinds(documents, d);
  }

  /** The definition chosen is the only candidate, at its highest revision in force. */
  lemma SelectedIsInForce(documents: seq<Document>, wanted: Option<string>, d: Document)
    requires OneDocumentPerKey(documents)
    ensures SelectDefinition(documents, wanted) == Success(d) <==>
            IsInForceDefinition(documents, d) && CandidateIds(documents, wanted) == {d.id}
  {
    hide InForceRevision, DocumentKey, KeyText, SortedKeys, CandidateIds, IndexContracts, IsInForceDefinition;
    var ids := SortedKeys(CandidateIds(documents, wanted));
    if |ids| == 1 {
      assert ids == [ids[0]];
      IdsOfOne(CandidateIds(documents, wanted), ids[0]);
      CandidateIsInForce(documents, wanted, ids[0]);
      InForceIsFound(documents, ids[0]);
    }
    if IsInForceDefinition(documents, d) && CandidateIds(documents, wanted) == {d.id} {
      OneId(d.id);
      InForceIsFound(documents, d.id);
      InForceDefinitionIsUnique(documents, d, IndexContracts(documents)[KeyText(DEFINITION, d.id, Decimal(InForceRevision(documents, DEFINITION, d.id).value))]);
    }
  }

  lemma CandidateIsInForce(documents: seq<Document>, wanted: Option<string>, id: string)
    requires id in CandidateIds(documents, wanted)
    ensures InForceRevision(documents, DEFINITION, id).Some?
  {}

  lemma InForceDefinitionIsUnique(documents: seq<Document>, a: Document, b: Document)
    requires OneDocumentPerKey(documents) && IsInForceDefinition(documents, a) && IsInForceDefinition(documents, b) && a.id == b.id
    ensures a == b
  {
    hide InForceRevision;
    assert DocumentKey(a) == DocumentKey(b);
  }

  // ---- A valid set is closed ----

  lemma SpecChild(d: Document)
    ensures Child(ToJson(d), "spec") == Some(d.spec)
  {}

  /** A reference found in a child is found in its parent, under a longer route. */
  lemma ChildRefIsRef(parent: Json, segment: string, child: Json, found: FoundRef)
    requires Child(parent, segment) == Some(child) && found in CollectRefs(child, "")
    ensures exists j :: 0 <= j < |CollectRefs(parent, "")| && CollectRefs(parent, "")[j].ref == found.ref
  {
    hide CollectRefs, Decode, Encode, IsRef, Child, IsRefAt, Lookup;
    RefsAreExact(child);
    RefsAreExact(parent);
    var route := [segment] + Decode(found.path);
    RefBelow(parent, segment, child, Decode(found.path));
    assert IsRefAt(parent, route);
  }

  lemma RefBelow(parent: Json, segment: string, child: Json, route: seq<string>)
    requires Child(parent, segment) == Some(child)
    requires Lookup(child, route).Some? && IsRef(Lookup(child, route).value)
    ensures Lookup(parent, [segment] + route) == Lookup(child, route) && IsRefAt(parent, [segment] + route)
  {
    hide Child, IsRef;
    assert ([segment] + route)[1..] == route;
  }

  /** A reference of the spec is a reference of the document. */
  lemma SpecRefsAreRefs(d: Document)
    ensures forall k | k in SpecKeys(d) :: exists r :: r in AllRefs(d) && RefKey(r) == k
  {
    hide CollectRefs, IsRef, RefKey, ToJson, Child;
    SpecChild(d);
    forall k | k in SpecKeys(d)
      ensures exists r :: r in AllRefs(d) && RefKey(r) == k
    {
      var i :| 0 <= i < |SpecKeys(d)| && SpecKeys(d)[i] == k;
      var found := CollectRefs(d.spec, "")[i];
      ChildRefIsRef(ToJson(d), "spec", d.spec, found);
      var j :| 0 <= j < |CollectRefs(ToJson(d), "")| && CollectRefs(ToJson(d), "")[j].ref == found.ref;
      assert AllRefs(d)[j] == found.ref;
    }
  }

  /** Following references from a document of a valid set stays in the set. */
  lemma ReachStaysInSet(documents: seq<Document>, definition: Document, d: Document)
    requires definition in documents && Reaches(SpecTargets(IndexContracts(documents)), definition, d)
    ensures d in documents
  {
    hide IndexContracts, SpecKeys;
    var all := set x | x in documents;
    assert forall x | x in all :: SpecTargets(IndexContracts(documents))(x) <= all;
    ReachesStays(SpecTargets(IndexContracts(documents)), all, definition, d);
  }

  /** On a closed set, the closure search never meets a missing contract. */
  lemma ClosedSetIsClosed(documents: seq<Document>, definition: Document)
    requires IsClosedUnderRefs(documents) && definition in documents
    ensures IsClosed(definition, IndexContracts(documents))
  {
    hide IndexContracts, SpecKeys, AllRefs;
    var index := IndexContracts(documents);
    forall d, k | Reaches(SpecTargets(index), definition, d) && k in SpecKeys(d)
      ensures k in index
    {
      ReachStaysInSet(documents, definition, d);
      SpecRefsAreRefs(d);
      var r :| r in AllRefs(d) && RefKey(r) == k;
    }
  }

  lemma ValidIsClosedUnderRefs(documents: seq<Document>, rules: Rules)
    requires IsValidSet(documents, rules)
    ensures IsClosedUnderRefs(documents)
  {
    hide IndexContracts, AllRefs, Targets, ChangeIsFresh, DocumentKey;
    forall d, r | d in documents && r in AllRefs(d)
      ensures RefKey(r) in IndexContracts(documents)
    {
      assert DocumentHolds(d, documents, rules);
      assert RefOk(r, IndexContracts(documents), rules);
    }
  }

  // ---- Compilation ----

  /** The stages after the closure: what they make, and the plan, which is absent when they report an error. */
  type Stages<!R, !P> = (Document, seq<Document>) -> (R, Option<P>)

  /** The stages of a catalog; none when the catalog is refused. */
  type CatalogStages<!R, !P> = Option<Stages<R, P>>

  datatype Compilation<R, P> =
    | Refused(diagnostics: seq<SetError>, catalogRefused: bool)
    | Unselected(error: SelectError)
    | Compiled(definition: Document, closure: seq<Document>, output: R, plan: Option<P>)

  ghost function CompileEntries<R, P>(entries: seq<Document>, wanted: Option<string>, stages: Stages<R, P>): Compilation<R, P> {
    match SelectDefinition(entries, wanted)
    case Failure(e) => Unselected(e)
    case Success(d) =>
      var closure := ClosureOf(d, IndexContracts(entries));
      Compiled(d, closure, stages(d, closure).0, stages(d, closure).1)
  }

  /** What compiling a set gives: an invalid set or a refused catalog is never resolved. */
  ghost function CompilationOf<R, P>(documents: seq<Document>, wanted: Option<string>, rules: Rules, stages: CatalogStages<R, P>): Compilation<R, P> {
    if IsValidSet(documents, rules) && stages.Some? then CompileEntries(Sort(documents, ByKey), wanted, stages.value)
    else Refused(Diagnostics(ReportOf(documents, rules)), stages.None?)
  }

  /** Compiles a set; the closure search never fails on a valid one. */
  method Compile<R, P>(documents: seq<Document>, wanted: Option<string>, rules: Rules, stages: CatalogStages<R, P>) returns (r: Compilation<R, P>)
    ensures r == CompilationOf(documents, wanted, rules, stages)
  {
    hide IsValidSet, SelectDefinition, ClosureOf, IndexContracts, Sort, DocumentKey, IsClosed, ReportOf, EntriesOf, Diagnostics;
    var entries, found := ValidateContractSet(documents, rules);
    if found != [] || stages.None? {
      return Refused(Diagnostics(found), stages.None?);
    }
    EntriesOfValid(documents, rules);
    var selected := SelectDefinition(entries, wanted);
    if selected.Failure? {
      return Unselected(selected.error);
    }
    EntriesAreClosed(documents, rules, wanted, selected.value);
    IndexIsFiled(entries);
    var closure := BuildClosure(selected.value, IndexContracts(entries));
    var (output, plan) := stages.value(selected.value, closure.value);
    r := Compiled(selected.value, closure.value, output, plan);
  }

  lemma EntriesOfValid(documents: seq<Document>, rules: Rules)
    requires IsValidSet(documents, rules)
    ensures EntriesOf(documents, rules) == Sort(documents, ByKey)
  {
    hide EntriesOf, NoRepeatedKey, OneSystem, Sort, DocumentHolds;
    forall d | d in documents ensures rules.documentOk(d) { HoldsAlone(d, documents, rules); }
    ValidEntries(documents, rules);
  }

  lemma IndexIsFiled(documents: seq<Document>)
    ensures IsFiled(IndexContracts(documents))
  {}

  lemma SortedSet(documents: seq<Document>)
    requires NoRepeatedKey(documents)
    ensures var entries := Sort(documents, ByKey);
            (forall d :: d in documents <==> d in entries) && OneDocumentPerKey(documents) && OneDocumentPerKey(entries) &&
            IndexContracts(entries) == IndexContracts(documents)
  {
    hide DocumentKey, IndexContracts, Sort, NoRepeatedKey;
    ValidHasOnePerKey(documents);
    SortPermutes(documents, ByKey);
    SameElements(Sort(documents, ByKey), documents);
    ChecksForgetOrder(documents, Sort(documents, ByKey));
  }

  lemma EntriesAreClosed(documents: seq<Document>, rules: Rules, wanted: Option<string>, d: Document)
    requires IsValidSet(documents, rules) && SelectDefinition(Sort(documents, ByKey), wanted) == Success(d)
    ensures IsClosed(d, IndexContracts(Sort(documents, ByKey)))
  {
    hide DocumentKey, IndexContracts, Sort, SelectDefinition, DocumentHolds, NoRepeatedKey, AllRefs;
    SortedSet(documents);
    var entries := Sort(documents, ByKey);
    SelectedIsInForce(entries, wanted, d);
    ValidIsClosedUnderRefs(documents, rules);
    ClosedSetIsClosed(entries, d);
  }

  lemma CompiledIsDocument<R, P>(documents: seq<Document>, wanted: Option<string>, rules: Rules, stages: CatalogStages<R, P>)
    requires CompilationOf(documents, wanted, rules, stages).Compiled?
    ensures CompilationOf(documents, wanted, rules, stages).definition in documents && IsValidSet(documents, rules)
  {
    hide DocumentKey, IndexContracts, SelectDefinition, DocumentHolds, ClosureOf, NoRepeatedKey, OneDocumentPerKey, Sort, ReportOf;
    SortedSet(documents);
    SelectedIsInForce(Sort(documents, ByKey), wanted, CompilationOf(documents, wanted, rules, stages).definition);
  }

  // ---- Replay ----

  /** A part that keeps the references of its documents gives the definition the same closure. */
  lemma PartTargets(documents: seq<Document>, part: seq<Document>, d: Document)
    requires IsPartOf(part, documents) && OneDocumentPerKey(documents) && IsClosedUnderRefs(part) && d in part
    ensures SpecTargets(IndexContracts(part))(d) == SpecTargets(IndexContracts(documents))(d)
  {
    hide DocumentKey, IndexContracts, AllRefs, SpecKeys, OneDocumentPerKey;
    PartIndex(part, documents);
    SpecRefsAreRefs(d);
    forall k | k in SpecKeys(d)
      ensures k in IndexContracts(part)
    {
      var r :| r in AllRefs(d) && RefKey(r) == k;
    }
  }

  lemma PartReaches(documents: seq<Document>, part: seq<Document>, definition: Document, d: Document)
    requires IsPartOf(part, documents) && OneDocumentPerKey(documents) && IsClosedUnderRefs(part) && definition in part
    ensures Reaches(SpecTargets(IndexContracts(part)), definition, d) <==> Reaches(SpecTargets(IndexContracts(documents)), definition, d)
  {
    hide DocumentKey, IndexContracts, OneDocumentPerKey, IsClosedUnderRefs, SpecTargets, Reaches, IsPartOf;
    var inPart, inAll := SpecTargets(IndexContracts(part)), SpecTargets(IndexContracts(documents));
    forall x | Reaches(inPart, definition, x)
      ensures x in part && inPart(x) == inAll(x)
    {
      ReachStaysInSet(part, definition, x);
      PartTargets(documents, part, x);
    }
    if Reaches(inPart, definition, d) {
      ReachesAgrees(inPart, inAll, definition, d);
    }
    var all := set x | x in part;
    forall x | x in all
      ensures inAll(x) <= all
    {
      PartTargets(documents, part, x);
      TargetsAreListed(part, x);
    }
    forall x | Reaches(inAll, definition, x)
      ensures inPart(x) == inAll(x)
    {
      ReachesStays(inAll, all, definition, x);
      PartTargets(documents, part, x);
    }
    if Reaches(inAll, definition, d) {
      ReachesAgrees(inAll, inPart, definition, d);
    }
  }

  lemma TargetsAreListed(documents: seq<Document>, d: Document)
    ensures forall t | t in SpecTargets(IndexContracts(documents))(d) :: t in documents
  {
    hide SpecKeys, DocumentKey;
  }

  lemma PartClosure(documents: seq<Document>, part: seq<Document>, definition: Document)
    requires IsPartOf(part, documents) && OneDocumentPerKey(documents) && IsClosedUnderRefs(part) && definition in part
    ensures ClosureOf(definition, IndexContracts(part)) == ClosureOf(definition, IndexContracts(documents))
  {
    hide DocumentKey, InClosure, IsClosedUnderRefs, NoRepeatedKey, OneDocumentPerKey, DocumentsByKey, IndexContracts;
    var a, b := IndexContracts(part), IndexContracts(documents);
    PartIndex(part, documents);
    forall k | k in b && InClosure(definition, b, b[k])
      ensures k in a && InClosure(definition, a, a[k])
    {
      ClosureStaysInPart(documents, part, definition, b[k]);
    }
    forall k | k in a && InClosure(definition, a, a[k])
      ensures InClosure(definition, b, b[k])
    {
      PartInClosure(documents, part, definition, a[k]);
    }
    var x := map k | k in a && InClosure(definition, a, a[k]) :: a[k];
    var y := map k | k in b && InClosure(definition, b, b[k]) :: b[k];
    assert x == y;
  }

  lemma PartInClosure(documents: seq<Document>, part: seq<Document>, definition: Document, d: Document)
    requires IsPartOf(part, documents) && OneDocumentPerKey(documents) && IsClosedUnderRefs(part) && definition in part
    ensures InClosure(definition, IndexContracts(part), d) <==> InClosure(definition, IndexContracts(documents), d)
  {
    hide DocumentKey, Reaches, SpecTargets, IsClosedUnderRefs, IsPartOf, OneDocumentPerKey, IndexContracts;
    PartReaches(documents, part, definition, d);
  }

  lemma ClosureStaysInPart(documents: seq<Document>, part: seq<Document>, definition: Document, d: Document)
    requires IsPartOf(part, documents) && OneDocumentPerKey(documents) && IsClosedUnderRefs(part) && definition in part
    requires InClosure(definition, IndexContracts(documents), d)
    ensures DocumentKey(d) in IndexContracts(part) && InClosure(definition, IndexContracts(part), d)
  {
    hide DocumentKey, Reaches, SpecTargets, IsClosedUnderRefs, IsPartOf, OneDocumentPerKey, IndexContracts;
    PartInClosure(documents, part, definition, d);
    ReachStaysInSet(part, definition, d);
  }

  lemma PartSelection(documents: seq<Document>, part: seq<Document>, wanted: Option<string>, again: Option<string>, d: Document)
    requires OneDocumentPerKey(documents) && OneDocumentPerKey(part) && forall x | x in part :: x in documents
    requires SelectDefinition(documents, wanted) == Success(d) && d in part
    requires again == wanted || again == Some(d.id)
    ensures SelectDefinition(part, again) == Success(d)
  {
    hide DocumentKey, InForceRevision, SelectDefinition, OneDocumentPerKey;
    SelectedIsInForce(documents, wanted, d);
    PartKeepsDefinition(documents, part, d);
    forall id | id in CandidateIds(part, again)
      ensures id == d.id
    {
      InForceShrinks(documents, part, DEFINITION, id);
      if again == wanted {
        assert id in CandidateIds(documents, wanted);
      }
    }
    assert d.id in CandidateIds(documents, wanted);
    assert d.id in CandidateIds(part, again);
    SelectedIsInForce(part, again, d);
  }

  lemma PartKeepsDefinition(documents: seq<Document>, part: seq<Document>, d: Document)
    requires OneDocumentPerKey(documents) && forall x | x in part :: x in documents
    requires IsInForceDefinition(documents, d) && d in part
    ensures IsInForceDefinition(part, d)
  {
    hide InForceRevision, InForce;
    InForceIsHighest(documents, DEFINITION, d.id);
    var x :| x in documents && IsInForceOf(x, DEFINITION, d.id) && x.revision == d.revision;
    KindNameInjective(x.kind, SystemDefinition);
    assert DocumentKey(x) == DocumentKey(d);
    InForceIsHighest(part, DEFINITION, d.id);
    assert IsInForceOf(d, DEFINITION, d.id);
    InForceShrinks(documents, part, DEFINITION, d.id);
  }

  /**
   * Compiling any part of a set that keeps the chosen definition and the references of its
   * documents stays valid and gives the same definition, closure and later stages.
   */
  lemma PartCompilesTheSame<R, P>(documents: seq<Document>, part: seq<Document>, wanted: Option<string>, again: Option<string>,
                               rules: Rules, stages: CatalogStages<R, P>)
    requires CompilationOf(documents, wanted, rules, stages).Compiled?
    requires IsPartOf(part, documents) && IsClosedUnderRefs(part)
    requires CompilationOf(documents, wanted, rules, stages).definition in part
    requires again == wanted || again == Some(CompilationOf(documents, wanted, rules, stages).definition.id)
    ensures CompilationOf(part, again, rules, stages) == CompilationOf(documents, wanted, rules, stages)
  {
    hide DocumentKey, InForceRevision, SelectDefinition, ClosureOf, IndexContracts, Sort, DocumentHolds, IsClosedUnderRefs, NoRepeatedKey, OneDocumentPerKey, OneSystem;
    var d := CompilationOf(documents, wanted, rules, stages).definition;
    ClosedPartIsValid(part, documents, rules);
    SortedSet(documents);
    SortedSet(part);
    PartSelection(Sort(documents, ByKey), Sort(part, ByKey), wanted, again, d);
    PartClosure(documents, part, d);
  }

  // ---- Order of the documents ----

  lemma {:induction false} KeySetSize(documents: seq<Document>)
    ensures |KeySet(documents)| <= |documents|
    ensures |KeySet(documents)| == |documents| <==> NoRepeatedKey(documents)
  {
    hide DocumentKey;
    if |documents| > 0 {
      var n := |documents| - 1;
      var front, last := documents[..n], DocumentKey(documents[n]);
      KeySetSize(front);
      NoRepeatedKeyStep(documents, n);
      assert documents[..n + 1] == documents;
      assert documents == front + [documents[n]];
      assert KeySet(documents) == KeySet(front) + {last};
      if last !in KeySet(front) {
        assert forall j | 0 <= j < n :: documents[j] in front;
      } else {
        var x :| x in front && DocumentKey(x) == last;
        assert KeySet(documents) == KeySet(front);
      }
    }
  }

  lemma PermutedSetIsValid(a: seq<Document>, b: seq<Document>, rules: Rules)
    requires multiset(a) == multiset(b) && IsValidSet(a, rules)
    ensures IsValidSet(b, rules)
  {
    hide DocumentKey, IndexContracts, DocumentHolds, InForceRevision, NoRepeatedKey, OneDocumentPerKey, OneSystem;
    SameElements(a, b);
    assert |multiset(a)| == |a| && |multiset(b)| == |b|;
    KeySetSize(a);
    KeySetSize(b);
    assert KeySet(a) == KeySet(b);
    ValidHasOnePerKey(a);
    ChecksForgetOrder(a, b);
    forall d | d in b { HoldsForgetsOrder(a, b, d, rules); }
  }

  /**
   * Unless two readable documents differ under one key, the order of the documents changes nothing:
   * not the diagnostics of an invalid set, not the result of a valid one.
   */
  lemma OrderIsIrrelevant<R, P>(a: seq<Document>, b: seq<Document>, wanted: Option<string>, rules: Rules, stages: CatalogStages<R, P>)
    requires multiset(a) == multiset(b) && OneDocumentPerKey(Readable(a, rules))
    ensures CompilationOf(a, wanted, rules, stages) == CompilationOf(b, wanted, rules, stages)
  {
    hide DocumentKey, DocumentHolds, NoRepeatedKey, OneSystem, SelectDefinition, ClosureOf, IndexContracts, Sort, OneDocumentPerKey, IsValidSet, ReportOf, Diagnostics, EntriesOf, Readable;
    VerdictForgetsOrder(a, b, wanted, rules, stages);
    ReportForgetsOrder(a, b, rules);
    SameElements(ReportOf(a, rules), ReportOf(b, rules));
    DiagnosticsForgetOrder(ReportOf(a, rules), ReportOf(b, rules));
  }

  /** Whatever the documents, their order does not change whether they compile, nor what they compile to. */
  lemma VerdictForgetsOrder<R, P>(a: seq<Document>, b: seq<Document>, wanted: Option<string>, rules: Rules, stages: CatalogStages<R, P>)
    requires multiset(a) == multiset(b)
    ensures IsValidSet(a, rules) <==> IsValidSet(b, rules)
    ensures CompilationOf(a, wanted, rules, stages).Refused? <==> CompilationOf(b, wanted, rules, stages).Refused?
    ensures !CompilationOf(a, wanted, rules, stages).Refused? ==> CompilationOf(a, wanted, rules, stages) == CompilationOf(b, wanted, rules, stages)
  {
    hide DocumentKey, DocumentHolds, NoRepeatedKey, OneSystem, SelectDefinition, ClosureOf, Sort, OneDocumentPerKey, IsValidSet, ReportOf, Diagnostics;
    if IsValidSet(a, rules) {
      PermutedSetIsValid(a, b, rules);
      ValidSortForgetsOrder(a, b, rules);
    } else if IsValidSet(b, rules) {
      PermutedSetIsValid(b, a, rules);
    }
  }

  lemma ThirdIsKept(first: Document, second: Document, third: Document, rules: Rules)
    requires rules.readable(first) && rules.readable(second) && rules.readable(third)
    requires DocumentKey(first) != DocumentKey(third) && DocumentKey(second) != DocumentKey(third)
    ensures third in EntriesOf([first, second] + [third], rules)
  {
    hide DocumentKey, Entries, Readable, EntriesOf, NoRepeatedKey;
    var all := [first, second] + [third];
    ReadablePair(first, second, [third], rules);
    ReadableFirst(third, [], rules);
    NothingToRead(rules);
    assert [third] + [] == [third];
    assert Readable(all, rules) == all;
    KeptOfSet(all, rules);
    EntriesAreFirst(all);
    assert all[2] == third && IsFirstOfKey(all, 2);
  }

  /**
   * Two readable documents that differ under one key, and a third one that pins the first of
   * them: compiling the set gives different diagnostics when they change places.
   */
  lemma ConflictIsCompiled<R, P>(first: Document, second: Document, rest: seq<Document>, citing: Document, found: FoundRef,
                                 wanted: Option<string>, rules: Rules, stages: CatalogStages<R, P>)
    requires rules.readable(first) && rules.readable(second)
    requires DocumentKey(first) == DocumentKey(second) != DocumentKey(citing) && ContractDigest(first) != ContractDigest(second)
    requires citing in EntriesOf([first, second] + rest, rules) && IsPinOf(citing, found, first)
    ensures CompilationOf([first, second] + rest, wanted, rules, stages) != CompilationOf([second, first] + rest, wanted, rules, stages)
  {
    hide DocumentKey, ContractDigest, IsValidSet, CompileEntries, ReportOf, Diagnostics, Sort, EntriesOf, FoundRefs, IsPinOf;
    var a, b := [first, second] + rest, [second, first] + rest;
    ConflictShowsOrder(first, second, rest, citing, found, rules);
    assert multiset(a) == multiset(b);
    ReportDecides(b, rules);
    VerdictForgetsOrder(a, b, wanted, rules, stages);
    DiagnosticsList(ReportOf(a, rules));
    DiagnosticsList(ReportOf(b, rules));
    assert PinError(citing, found, first) in Diagnostics(ReportOf(b, rules)) && PinError(citing, found, first) !in Diagnostics(ReportOf(a, rules));
  }

  /** A set of readable documents given in two orders whose diagnostics differ: decisions on a baseline, which is given twice. */
  lemma OrderMayShow<R, P>(wanted: Option<string>, rules: Rules, stages: CatalogStages<R, P>)
    requires rules.readable(BASELINE) && rules.readable(REWRITTEN) && rules.readable(DECISIONS)
    ensures CompilationOf([BASELINE, REWRITTEN] + [DECISIONS], wanted, rules, stages) != CompilationOf([REWRITTEN, BASELINE] + [DECISIONS], wanted, rules, stages)
  {
    hide DocumentKey, ContractDigest, CompilationOf, EntriesOf, PinnedTo, BaselineOf, Accepted, Provenance, BaselinePin, IsPinOf;
    BaselinesDiffer();
    ThirdIsKept(BASELINE, REWRITTEN, DECISIONS, rules);
    BaselineIsPinned();
    ConflictIsCompiled(BASELINE, REWRITTEN, [DECISIONS], DECISIONS, BaselinePin(), wanted, rules, stages);
  }

  lemma BaselineIsPinned()
    ensures IsPinOf(DECISIONS, BaselinePin(), BASELINE)
  {
    hide PinnedTo, BaselineOf, FoundRefs, DocumentKey, ContractDigest, Encode, IsRef;
    BaselinePinIsFound();
    PinIsRef(BASELINE);
  }

  lemma ValidSortForgetsOrder(a: seq<Document>, b: seq<Document>, rules: Rules)
    requires multiset(a) == multiset(b) && IsValidSet(a, rules)
    ensures Sort(a, ByKey) == Sort(b, ByKey)
  {
    hide DocumentKey, DocumentHolds, NoRepeatedKey, OneSystem, Sort, OneDocumentPerKey, IsOrder, Separates;
    ValidHasOnePerKey(a);
    ByKeyIsOrder();
    ByKeySeparates(a);
    SortForgetsOrder(a, b, ByKey);
  }
}
