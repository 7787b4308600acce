/** The two worklists that follow references: the System Closure and the closure of a proof bundle. */
module Closure {
  import opened Wrappers
  import opened Text
  import opened Json
  import opened Sorting
  import opened Graphs
  import opened Refs
  import opened Identity
  import opened CanonicalJson
  import opened ContractSet

  /** The documents a list of keys leads to. */
  function TargetsOf(keys: seq<Key>, index: Index): set<Document> {
    set k | k in keys && k in index :: index[k]
  }

  /** The keys referred to by the spec of a document. */
  function SpecKeys(d: Document): seq<Key> {
    RefKeys(d.spec)
  }

  /** The keys referred to anywhere in a document. */
  function DocumentKeys(d: Document): seq<Key> {
    RefKeys(ToJson(d))
  }

  function SpecTargets(index: Index): Document -> set<Document> {
    d => TargetsOf(SpecKeys(d), index)
  }

  function AllTargets(index: Index): Document -> set<Document> {
    d => TargetsOf(DocumentKeys(d), index)
  }

  /** Every document is filed under its own key. */
  ghost predicate IsFiled(index: Index) {
    forall k | k in index :: DocumentKey(index[k]) == k
  }

  // ---- System Closure ----

  /** Every reference followed from the definition resolves. */
  ghost predicate IsClosed(definition: Document, index: Index) {
    forall d, k | Reaches(SpecTargets(index), definition, d) && k in SpecKeys(d) :: k in index
  }

  /** The documents reached through `spec` references, the definition itself left out. */
  ghost predicate InClosure(definition: Document, index: Index, d: Document) {
    Reaches(SpecTargets(index), definition, d) && d != definition
  }

  const COMPILER := Object(map["id" := Str("foundation-kernel-compiler"), "version" := Str("0.1.0")])

  function EntryJson(d: Document): Json {
    Object(map["ref" := Str(DocumentKey(d)), "digest" := Str(ContractDigest(d))])
  }

  function EntriesJson(documents: seq<Document>): (r: seq<Json>)
    ensures |r| == |documents| && forall i | 0 <= i < |r| :: r[i] == EntryJson(documents[i])
  {
    seq(|documents|, i requires 0 <= i < |documents| => EntryJson(documents[i]))
  }

  /** What the digest of a closure covers. */
  function ClosureContent(definition: Document, documents: seq<Document>, catalog: Digest): Json {
    Object(map["system" := if SystemOf(definition).Some? then Str(SystemOf(definition).value) else Null,
      "definition" := EntryJson(definition), "entries" := Array(EntriesJson(documents)), "compiler" := COMPILER,
      "catalog" := Object(map["digest" := Str(catalog)])])
  }

  function ClosureDigest(definition: Document, documents: seq<Document>, catalog: Digest): Digest {
    DigestOf(ClosureContent(definition, documents, catalog))
  }

  /** For given inputs, the digest of the closure tells the content of the definition, and nothing else of it. */
  lemma ClosureDigestTells(a: Document, b: Document, documents: seq<Document>, catalog: Digest)
    ensures ClosureDigest(a, documents, catalog) == ClosureDigest(b, documents, catalog) <==> a == b.(status := a.status)
  {
    hide ContractDigest, DocumentKey, EntriesJson, SystemOf, Canonicalize;
    var x, y := ClosureContent(a, documents, catalog), ClosureContent(b, documents, catalog);
    DigestOfInjective(x, y);
    DigestIdentifiesContent(a, b);
    if x == y {
      assert x.members["definition"] == y.members["definition"];
      assert EntryJson(a).members["digest"] == EntryJson(b).members["digest"];
    }
    if a == b.(status := a.status) { StatusIsNotRead(a, b); }
  }

  lemma StatusIsNotRead(a: Document, b: Document)
    requires a == b.(status := a.status)
    ensures DocumentKey(a) == DocumentKey(b) && SystemOf(a) == SystemOf(b)
  {}

  /** No repetition, in key order. */
  ghost predicate IsListing(documents: seq<Document>) {
    (forall i, j | 0 <= i < j < |documents| :: documents[i] != documents[j]) && Sorted(documents, ByKey)
  }

  /** The documents reached, by key. */
  ghost function ClosureOf(definition: Document, index: Index): seq<Document> {
    DocumentsByKey(map k | k in index && InClosure(definition, index, index[k]) :: index[k])
  }

  /** The state of the search: what has been reached, and what is still to be expanded. */
  ghost predicate Searching(definition: Document, index: Index, reached: Index, pending: seq<Document>) {
    && (forall k | k in reached :: k in index && reached[k] == index[k] && InClosure(definition, index, reached[k]))
    && (forall d | d in pending :: d == definition || (DocumentKey(d) in reached && reached[DocumentKey(d)] == d))
  }

  /** A document whose references have all been followed. */
  ghost predicate Expanded(definition: Document, index: Index, reached: Index, d: Document) {
    forall k | k in SpecKeys(d) :: k in index && (index[k] == definition || k in reached)
  }

  ghost predicate AllExpandedBut(definition: Document, index: Index, reached: Index, pending: seq<Document>) {
    && (definition in pending || Expanded(definition, index, reached, definition))
    && (forall k | k in reached :: reached[k] in pending || Expanded(definition, index, reached, reached[k]))
  }

  lemma ReachesTarget(definition: Document, index: Index, d: Document, key: Key)
    requires d == definition || InClosure(definition, index, d)
    requires key in SpecKeys(d) && key in index
    ensures Reaches(SpecTargets(index), definition, index[key])
  {
    hide DocumentKey, SpecKeys;
    ReachesSelf(SpecTargets(index), definition);
    assert index[key] in SpecTargets(index)(d);
    ReachesNext(SpecTargets(index), definition, d, index[key]);
  }

  /** Follows the references of one document. */
  method Expand(current: Document, definition: Document, index: Index, reached0: Index, pending0: seq<Document>)
    returns (missing: Option<Key>, reached: Index, pending: seq<Document>)
    requires IsFiled(index) && Searching(definition, index, reached0, pending0)
    requires current == definition || InClosure(definition, index, current)
    requires AllExpandedBut(definition, index, reached0, pending0 + [current])
    ensures missing.Some? ==> missing.value in SpecKeys(current) && missing.value !in index
    ensures missing.None? ==> Searching(definition, index, reached, pending) && AllExpandedBut(definition, index, reached, pending)
    ensures reached0.Keys <= reached.Keys <= index.Keys
    ensures reached.Keys == reached0.Keys ==> pending == pending0
  {
    hide InClosure, SpecKeys, DocumentKey, Searching, AllExpandedBut;
    var keys := SpecKeys(current);
    missing, reached, pending := None, reached0, pending0;
    SearchingStaysInIndex(definition, index, reached, pending);
    for i := 0 to |keys|
      invariant Searching(definition, index, reached, pending) && reached.Keys <= index.Keys
      invariant Grown(reached0, pending0, reached, pending)
      invariant reached.Keys == reached0.Keys ==> pending == pending0
      invariant forall j | 0 <= j < i :: keys[j] in index && (index[keys[j]] == definition || keys[j] in reached)
    {
      if keys[i] !in index {
        missing := Some(keys[i]);
        return;
      }
      var target := index[keys[i]];
      assert DocumentKey(target) == keys[i];
      if target == definition || keys[i] in reached {
        continue;
      }
      TargetIsInClosure(definition, index, current, keys[i]);
      ReachIsSafe(definition, index, reached, pending, keys[i]);
      reached := reached[keys[i] := target];
      pending := pending + [target];
    }
    AllExpandedButNew(definition, index, reached0, pending0, current, reached, pending);
  }

  /** Nothing reached or waiting is dropped, and whatever is newly reached waits. */
  ghost predicate Grown(reached0: Index, pending0: seq<Document>, reached: Index, pending: seq<Document>) {
    && (forall k | k in reached0 :: k in reached && reached[k] == reached0[k])
    && (forall d | d in pending0 :: d in pending)
    && (forall k | k in reached && k !in reached0 :: reached[k] in pending)
  }

  lemma SearchingStaysInIndex(definition: Document, index: Index, reached: Index, pending: seq<Document>)
    requires Searching(definition, index, reached, pending)
    ensures reached.Keys <= index.Keys
  {}

  lemma ReachIsSafe(definition: Document, index: Index, reached: Index, pending: seq<Document>, key: Key)
    requires IsFiled(index) && Searching(definition, index, reached, pending)
    requires key in index && key !in reached && InClosure(definition, index, index[key])
    ensures Searching(definition, index, reached[key := index[key]], pending + [index[key]])
  {
    hide InClosure, DocumentKey;
  }

  lemma AllExpandedButNew(definition: Document, index: Index, reached0: Index, pending0: seq<Document>, current: Document, reached: Index, pending: seq<Document>)
    requires AllExpandedBut(definition, index, reached0, pending0 + [current])
    requires Grown(reached0, pending0, reached, pending) && Expanded(definition, index, reached, current)
    ensures AllExpandedBut(definition, index, reached, pending)
  {
    hide SpecKeys;
    forall d | Expanded(definition, index, reached0, d) ensures Expanded(definition, index, reached, d) {}
    assert forall d | d in pending0 + [current] :: d in pending0 || d == current;
  }

  lemma TargetIsInClosure(definition: Document, index: Index, d: Document, key: Key)
    requires d == definition || InClosure(definition, index, d)
    requires key in SpecKeys(d) && key in index && index[key] != definition
    ensures InClosure(definition, index, index[key])
  {
    ReachesTarget(definition, index, d, key);
  }

  /** The worklist: expands what is pending until nothing is left or a reference is missing. */
  method Search(definition: Document, index: Index) returns (missing: Option<Key>, reached: Index)
    requires IsFiled(index)
    ensures missing.Some? ==> !IsClosed(definition, index)
    ensures missing.None? ==> Searching(definition, index, reached, []) && AllExpandedBut(definition, index, reached, [])
  {
    hide InClosure, DocumentKey, SpecKeys, Searching, AllExpandedBut, IsClosed, IsFiled, SpecTargets;
    missing, reached := None, map[];
    var pending := [definition];
    StartSearch(definition, index);
    while |pending| > 0
      invariant missing.None?
      invariant Searching(definition, index, reached, pending)
      invariant AllExpandedBut(definition, index, reached, pending)
      invariant reached.Keys <= index.Keys
      decreases index.Keys - reached.Keys, |pending|
    {
      var current := pending[|pending| - 1];
      var rest := pending[..|pending| - 1];
      assert pending == rest + [current];
      PopSearch(definition, index, reached, rest, current);
      ghost var before := reached.Keys;
      missing, reached, pending := Expand(current, definition, index, reached, rest);
      if missing.Some? {
        MissingBreaksClosure(definition, index, current, missing.value);
        return;
      }
      assert index.Keys - reached.Keys <= index.Keys - before;
      assert reached.Keys != before ==> index.Keys - reached.Keys != index.Keys - before;
    }
  }

  /**
   * The closure of a definition: it fails exactly when a reference it follows does not
   * resolve, and otherwise lists exactly the documents reached, by key.
   */
  method BuildClosure(definition: Document, index: Index) returns (r: Option<seq<Document>>)
    requires IsFiled(index)
    ensures r == if IsClosed(definition, index) then Some(ClosureOf(definition, index)) else None
    ensures r.Some? ==> IsListing(r.value) && forall d :: d in r.value <==> InClosure(definition, index, d)
  {
    hide InClosure, DocumentKey, Searching, AllExpandedBut, IsClosed, DocumentsByKey, IsListing;
    var missing, reached := Search(definition, index);
    if missing.Some? {
      return None;
    }
    SearchIsExact(definition, index, reached);
    DocumentsByKeyList(reached);
    r := Some(DocumentsByKey(reached));
  }

  lemma StartSearch(definition: Document, index: Index)
    ensures Searching(definition, index, map[], [definition]) && AllExpandedBut(definition, index, map[], [definition])
  {}

  lemma PopSearch(definition: Document, index: Index, reached: Index, rest: seq<Document>, current: Document)
    requires Searching(definition, index, reached, rest + [current])
    ensures current == definition || InClosure(definition, index, current)
    ensures Searching(definition, index, reached, rest)
  {
    hide InClosure, DocumentKey;
    assert (rest + [current])[|rest|] == current && current in rest + [current];
    assert forall d | d in rest :: d in rest + [current];
  }

  lemma MissingBreaksClosure(definition: Document, index: Index, d: Document, key: Key)
    requires d == definition || InClosure(definition, index, d)
    requires key in SpecKeys(d) && key !in index
    ensures !IsClosed(definition, index)
  {
    ReachesSelf(SpecTargets(index), definition);
  }

  /** When nothing is left to expand, everything reachable has been reached. */
  lemma SearchIsExact(definition: Document, index: Index, reached: Index)
    requires IsFiled(index) && Searching(definition, index, reached, []) && AllExpandedBut(definition, index, reached, [])
    ensures IsClosed(definition, index) && IsFiled(reached)
    ensures reached == map k | k in index && InClosure(definition, index, index[k]) :: index[k]
    ensures forall d :: InClosure(definition, index, d) <==> DocumentKey(d) in reached && reached[DocumentKey(d)] == d
  {
    hide DocumentKey, SpecKeys;
    var all := reached.Values + {definition};
    var next := SpecTargets(index);
    forall x | x in all
      ensures next(x) <= all && forall k | k in SpecKeys(x) :: k in index
    {
      assert Expanded(definition, index, reached, x) by {
        if x != definition { var k :| k in reached && reached[k] == x; }
      }
      forall k | k in SpecKeys(x) && k in index
        ensures index[k] in all
      {
        if k in reached { assert reached[k] in reached.Values; }
      }
    }
    forall d | Reaches(next, definition, d)
      ensures d in all
    {
      ReachesStays(next, all, definition, d);
    }
    forall d | InClosure(definition, index, d)
      ensures DocumentKey(d) in reached && reached[DocumentKey(d)] == d
    {
      var k :| k in reached && reached[k] == d;
      assert index[k] == d;
    }
    forall k | k in index && InClosure(definition, index, index[k])
      ensures k in reached
    {
      assert DocumentKey(index[k]) == k;
    }
  }

  /** `[...reached.values()]` sorted by key. */
  function DocumentsByKey(reached: Index): seq<Document> {
    var keys := SortedKeys(reached.Keys);
    seq(|keys|, i requires 0 <= i < |keys| => reached[keys[i]])
  }

  lemma DocumentsByKeyList(reached: Index)
    requires IsFiled(reached)
    ensures IsListing(DocumentsByKey(reached))
    ensures forall d :: d in DocumentsByKey(reached) <==> DocumentKey(d) in reached && reached[DocumentKey(d)] == d
  {
    hide DocumentKey, SortedKeys, IsListing;
    var keys, documents := SortedKeys(reached.Keys), DocumentsByKey(reached);
    ListedByKey(keys, documents);
    forall d | DocumentKey(d) in reached && reached[DocumentKey(d)] == d
      ensures d in documents
    {
      var i :| 0 <= i < |keys| && keys[i] == DocumentKey(d);
      assert documents[i] == d;
    }
  }

  lemma ListedByKey(keys: seq<Key>, documents: seq<Document>)
    requires |documents| == |keys| && forall i | 0 <= i < |keys| :: DocumentKey(documents[i]) == keys[i]
    requires Sorted(keys, AtMost) && forall i, j | 0 <= i < j < |keys| :: keys[i] != keys[j]
    ensures IsListing(documents)
  {
    hide DocumentKey;
    forall i, j | 0 <= i < j < |documents|
      ensures ByKey(documents[i], documents[j]) && documents[i] != documents[j]
    {
      assert AtMost(keys[i], keys[j]);
    }
  }

  // ---- Closure of a proof bundle ----

  /** Reached from one of the roots, through any reference. */
  ghost predicate FromRoots(roots: seq<Document>, index: Index, d: Document) {
    exists root :: root in roots && Reaches(AllTargets(index), root, d)
  }

  /** Everything met so far is reached from the roots and filed under its key. */
  ghost predicate Following(roots: seq<Document>, index: Index, reached: Index, pending: seq<Document>) {
    && IsFiled(reached)
    && (forall k | k in reached :: FromRoots(roots, index, reached[k]))
    && (forall d | d in pending :: FromRoots(roots, index, d))
  }

  /** A document under this key has been reached, or is waiting. */
  ghost predicate Met(reached: Index, pending: seq<Document>, d: Document) {
    DocumentKey(d) in reached || d in pending
  }

  ghost predicate NoneForgotten(roots: seq<Document>, index: Index, reached: Index, pending: seq<Document>) {
    && (forall d | d in roots :: Met(reached, pending, d))
    && (forall k, d | k in reached && d in AllTargets(index)(reached[k]) :: Met(reached, pending, d))
  }

  /** Queues the targets of a document just reached. */
  method Follow(current: Document, roots: seq<Document>, index: Index, reached: Index, rest: seq<Document>) returns (pending: seq<Document>)
    requires Following(roots, index, reached, rest) && FromRoots(roots, index, current)
    ensures Following(roots, index, reached, pending)
    ensures forall d | d in rest :: d in pending
    ensures forall d | d in AllTargets(index)(current) :: Met(reached, pending, d)
    ensures forall d | d in pending :: d in rest || d in AllTargets(index)(current)
  {
    hide DocumentKeys, DocumentKey, FromRoots, IsFiled;
    var keys := DocumentKeys(current);
    pending := rest;
    for i := 0 to |keys|
      invariant forall d | d in rest :: d in pending
      invariant forall d | d in pending :: d in rest || d in AllTargets(index)(current)
      invariant forall j | 0 <= j < i && keys[j] in index :: Met(reached, pending, index[keys[j]])
    {
      if keys[i] in index && DocumentKey(index[keys[i]]) !in reached {
        pending := pending + [index[keys[i]]];
      }
    }
    forall d | d in AllTargets(index)(current)
      ensures FromRoots(roots, index, d)
    {
      TargetIsFromRoots(roots, index, current, d);
    }
  }

  lemma TargetIsFromRoots(roots: seq<Document>, index: Index, d: Document, target: Document)
    requires FromRoots(roots, index, d) && target in AllTargets(index)(d)
    ensures FromRoots(roots, index, target)
  {
    hide DocumentKeys, AllTargets;
    var root :| root in roots && Reaches(AllTargets(index), root, d);
    ReachesNext(AllTargets(index), root, d, target);
  }

  /** Files a document popped from the stack and queues its targets. */
  lemma FileIsSafe(roots: seq<Document>, index: Index, reached: Index, rest: seq<Document>, current: Document)
    requires Following(roots, index, reached, rest + [current]) && DocumentKey(current) !in reached
    ensures Following(roots, index, reached[DocumentKey(current) := current], rest) && FromRoots(roots, index, current)
  {
    hide DocumentKey, FromRoots;
    assert current in rest + [current] && forall d | d in rest :: d in rest + [current];
  }

  lemma FileForgetsNone(roots: seq<Document>, index: Index, reached: Index, rest: seq<Document>, current: Document, pending: seq<Document>)
    requires NoneForgotten(roots, index, reached, rest + [current]) && DocumentKey(current) !in reached
    requires forall d | d in rest :: d in pending
    requires forall d | d in AllTargets(index)(current) :: Met(reached[DocumentKey(current) := current], pending, d)
    ensures NoneForgotten(roots, index, reached[DocumentKey(current) := current], pending)
  {
    hide DocumentKey, AllTargets;
    var reached' := reached[DocumentKey(current) := current];
    forall d | Met(reached, rest + [current], d)
      ensures Met(reached', pending, d)
    {}
    forall k, d | k in reached' && d in AllTargets(index)(reached'[k])
      ensures Met(reached', pending, d)
    {
      if k in reached { assert Met(reached, rest + [current], d); }
    }
  }

  lemma SkipIsSafe(roots: seq<Document>, index: Index, reached: Index, rest: seq<Document>, current: Document)
    requires Following(roots, index, reached, rest + [current]) && NoneForgotten(roots, index, reached, rest + [current])
    requires DocumentKey(current) in reached
    ensures Following(roots, index, reached, rest) && NoneForgotten(roots, index, reached, rest)
  {
    hide DocumentKey, FromRoots, AllTargets;
    assert forall d | d in rest :: d in rest + [current];
    forall d | Met(reached, rest + [current], d)
      ensures Met(reached, rest, d)
    {}
  }

  lemma StartFollowing(roots: seq<Document>, index: Index)
    ensures Following(roots, index, map[], roots) && NoneForgotten(roots, index, map[], roots)
  {
    forall d | d in roots
      ensures FromRoots(roots, index, d)
    {
      ReachesSelf(AllTargets(index), d);
    }
  }

  /** Every key a document met can be filed under. */
  function Universe(roots: seq<Document>, index: Index): set<Key> {
    (set d | d in roots :: DocumentKey(d)) + (set d | d in index.Values :: DocumentKey(d))
  }

  /** Only what the roots reach, with the key of every root and of every target of what is there. */
  ghost predicate IsReferenceClosure(roots: seq<Document>, index: Index, reached: Index) {
    && IsFiled(reached)
    && (forall k | k in reached :: FromRoots(roots, index, reached[k]))
    && (forall d | d in roots :: DocumentKey(d) in reached)
    && (forall k, d | k in reached && d in AllTargets(index)(reached[k]) :: DocumentKey(d) in reached)
  }

  /**
   * The given roots plus every revision they reference, transitively, metadata included:
   * exactly what is reachable, when no two documents share a key.
   */
  method ReferenceClosure(roots: seq<Document>, available: seq<Document>) returns (reached: Index)
    ensures IsReferenceClosure(roots, IndexContracts(available), reached)
    ensures OneDocumentPerKey(roots + available) ==>
              forall d :: FromRoots(roots, IndexContracts(available), d) <==> DocumentKey(d) in reached && reached[DocumentKey(d)] == d
  {
    hide DocumentKey, Following, NoneForgotten, FromRoots, IndexContracts, AllTargets, OneDocumentPerKey;
    var index := IndexContracts(available);
    reached := map[];
    var pending := roots;
    StartFollowing(roots, index);
    ghost var universe := Universe(roots, index);
    while |pending| > 0
      invariant Following(roots, index, reached, pending)
      invariant NoneForgotten(roots, index, reached, pending)
      invariant forall d | d in pending :: DocumentKey(d) in universe
      decreases universe - reached.Keys, |pending|
    {
      var current := pending[|pending| - 1];
      var rest := pending[..|pending| - 1];
      assert pending == rest + [current];
      var key := DocumentKey(current);
      if key in reached {
        SkipIsSafe(roots, index, reached, rest, current);
        pending := rest;
        continue;
      }
      ghost var before := reached;
      FileIsSafe(roots, index, reached, rest, current);
      reached := reached[key := current];
      pending := Follow(current, roots, index, reached, rest);
      FileForgetsNone(roots, index, before, rest, current, pending);
      TargetsAreInUniverse(roots, index, current);
      assert key in universe - before.Keys && universe - reached.Keys <= universe - before.Keys;
    }
    FollowingIsSound(roots, index, reached);
    if OneDocumentPerKey(roots + available) {
      FollowingIsExact(roots, available, reached);
    }
  }

  lemma FollowingIsSound(roots: seq<Document>, index: Index, reached: Index)
    requires Following(roots, index, reached, [])
    requires NoneForgotten(roots, index, reached, [])
    ensures IsReferenceClosure(roots, index, reached)
  {
    hide DocumentKey, FromRoots, AllTargets;
    forall d | Met(reached, [], d) ensures DocumentKey(d) in reached {}
  }

  lemma TargetsAreInUniverse(roots: seq<Document>, index: Index, d: Document)
    ensures forall t | t in AllTargets(index)(d) :: DocumentKey(t) in Universe(roots, index)
  {
    hide DocumentKey, DocumentKeys;
  }

  /** Whatever is reached was given. */
  lemma FromRootsIsGiven(roots: seq<Document>, available: seq<Document>, d: Document)
    requires FromRoots(roots, IndexContracts(available), d)
    ensures d in roots + available
  {
    hide DocumentKey, DocumentKeys;
    var index := IndexContracts(available);
    var root :| root in roots && Reaches(AllTargets(index), root, d);
    var given := (set x | x in roots + available);
    forall x | x in given
      ensures AllTargets(index)(x) <= given
    {
      assert AllTargets(index)(x) <= index.Values;
    }
    ReachesStays(AllTargets(index), given, root, d);
  }

  /** Under one document per key, a document met when nothing is waiting has been reached itself. */
  lemma MetIsReached(roots: seq<Document>, available: seq<Document>, reached: Index, d: Document)
    requires OneDocumentPerKey(roots + available)
    requires Following(roots, IndexContracts(available), reached, [])
    requires Met(reached, [], d) && FromRoots(roots, IndexContracts(available), d)
    ensures DocumentKey(d) in reached && reached[DocumentKey(d)] == d
  {
    hide DocumentKey, FromRoots, IndexContracts;
    FromRootsIsGiven(roots, available, d);
    FromRootsIsGiven(roots, available, reached[DocumentKey(d)]);
  }

  lemma FollowingIsExact(roots: seq<Document>, available: seq<Document>, reached: Index)
    requires OneDocumentPerKey(roots + available)
    requires Following(roots, IndexContracts(available), reached, [])
    requires NoneForgotten(roots, IndexContracts(available), reached, [])
    ensures forall d :: FromRoots(roots, IndexContracts(available), d) <==> DocumentKey(d) in reached && reached[DocumentKey(d)] == d
  {
    hide DocumentKey, AllTargets, IndexContracts, OneDocumentPerKey;
    var index := IndexContracts(available);
    forall x | x in reached.Values
      ensures AllTargets(index)(x) <= reached.Values
    {
      var k :| k in reached && reached[k] == x;
      forall y | y in AllTargets(index)(x)
        ensures y in reached.Values
      {
        TargetIsFromRoots(roots, index, x, y);
        MetIsReached(roots, available, reached, y);
        assert reached[DocumentKey(y)] in reached.Values;
      }
    }
    forall d | FromRoots(roots, index, d)
      ensures DocumentKey(d) in reached && reached[DocumentKey(d)] == d
    {
      var root :| root in roots && Reaches(AllTargets(index), root, d);
      ReachesSelf(AllTargets(index), root);
      assert FromRoots(roots, index, root);
      MetIsReached(roots, available, reached, root);
      assert reached[DocumentKey(root)] in reached.Values;
      ReachesStays(AllTargets(index), reached.Values, root, d);
      var k :| k in reached && reached[k] == d;
    }
  }
}
