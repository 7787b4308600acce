/** A closed set of contracts: index, references, revisions in force and validity. */
module ContractSet {
  import opened Wrappers
  import opened Text
  import opened Json
  import opened Sets
  import opened Sorting
  import opened Lists
  import opened Refs
  import opened Identity

  type Index = map<Key, Document>

  /** No later document has the key of this one. */
  ghost predicate IsLastOfKey(documents: seq<Document>, i: nat)
    requires i < |documents|
  {
    forall j | i < j < |documents| :: DocumentKey(documents[j]) != DocumentKey(documents[i])
  }

  /** The documents by key; the last of several under one key wins. */
  function IndexContracts(documents: seq<Document>): (index: Index)
    ensures forall d | d in documents :: DocumentKey(d) in index
    ensures forall k | k in index :: index[k] in documents && DocumentKey(index[k]) == k
  {
    if |documents| == 0 then map[] else
    var last := documents[|documents| - 1];
    IndexContracts(documents[..|documents| - 1])[DocumentKey(last) := last]
  }

  /** Of the documents under one key, the last is the one filed. */
  lemma {:induction false} IndexKeepsLast(documents: seq<Document>, i: nat)
    requires i < |documents|
    ensures IndexContracts(documents)[DocumentKey(documents[i])] == documents[i] <==>
            exists j :: i <= j < |documents| && documents[j] == documents[i] && IsLastOfKey(documents, j)
  {
    hide DocumentKey;
    var j := LastOfKey(documents, i);
    FiledIsLast(documents, j);
    forall k | i <= k < |documents| && documents[k] == documents[i] && IsLastOfKey(documents, k)
      ensures k == j
    {}
  }

  /** Where the last document with the key of the i-th is. */
  lemma {:induction false} LastOfKey(documents: seq<Document>, i: nat) returns (j: nat)
    requires i < |documents|
    ensures i <= j < |documents| && DocumentKey(documents[j]) == DocumentKey(documents[i]) && IsLastOfKey(documents, j)
    decreases |documents| - i
  {
    hide DocumentKey;
    j := i;
    if k :| i < k < |documents| && DocumentKey(documents[k]) == DocumentKey(documents[i]) {
      j := LastOfKey(documents, k);
    }
  }

  lemma LastOfPrefix(documents: seq<Document>, i: nat)
    requires i < |documents| - 1 && IsLastOfKey(documents, i)
    ensures IsLastOfKey(documents[..|documents| - 1], i) && DocumentKey(documents[|documents| - 1]) != DocumentKey(documents[i])
  {
    hide DocumentKey;
  }

  lemma {:induction false} FiledIsLast(documents: seq<Document>, i: nat)
    requires i < |documents| && IsLastOfKey(documents, i)
    ensures IndexContracts(documents)[DocumentKey(documents[i])] == documents[i]
  {
    hide DocumentKey, IsLastOfKey;
    if i < |documents| - 1 {
      LastOfPrefix(documents, i);
      FiledIsLast(documents[..|documents| - 1], i);
    }
  }

  ghost predicate OneDocumentPerKey(documents: seq<Document>) {
    forall a, b | a in documents && b in documents && DocumentKey(a) == DocumentKey(b) :: a == b
  }

  lemma IndexFinds(documents: seq<Document>, d: Document)
    requires OneDocumentPerKey(documents) && d in documents
    ensures IndexContracts(documents)[DocumentKey(d)] == d
  {}

  /** The statuses in which a revision is the one in force. */
  predicate InForce(d: Document) {
    match d.kind
    case EffectiveOrganizationContext => d.status == "CURRENT"
    case ChangeRequest => d.status == "ACCEPTED" || d.status == "APPLIED"
    case EvidenceRecord => d.status == "VALID"
    case MaterializationRecord => d.status == "VALID"
    case _ => d.status == "ACCEPTED"
  }

  predicate IsInForceOf(d: Document, kind: string, id: string) {
    KindName(d.kind) == kind && d.id == id && InForce(d)
  }

  /** The highest revision of a contract that is in force. */
  function InForceRevision(documents: seq<Document>, kind: string, id: string): Option<nat> {
    if |documents| == 0 then None else
    var front := InForceRevision(documents[..|documents| - 1], kind, id);
    var last := documents[|documents| - 1];
    if IsInForceOf(last, kind, id) && (front.None? || last.revision > front.value) then Some(last.revision) else front
  }

  ghost predicate IsHighestInForce(documents: seq<Document>, kind: string, id: string, r: Option<nat>) {
    && (forall d | d in documents && IsInForceOf(d, kind, id) :: r.Some? && d.revision <= r.value)
    && (r.Some? ==> exists d :: d in documents && IsInForceOf(d, kind, id) && d.revision == r.value)
  }

  lemma {:induction false} InForceIsHighest(documents: seq<Document>, kind: string, id: string)
    ensures IsHighestInForce(documents, kind, id, InForceRevision(documents, kind, id))
  {
    hide IsInForceOf;
    if |documents| != 0 {
      var front, last := documents[..|documents| - 1], documents[|documents| - 1];
      InForceIsHighest(front, kind, id);
      assert documents == front + [last];
    }
  }

  /** A smaller set has no later revision in force. */
  lemma InForceShrinks(documents: seq<Document>, part: seq<Document>, kind: string, id: string)
    requires forall d | d in part :: d in documents
    ensures InForceRevision(part, kind, id).Some? ==>
              InForceRevision(documents, kind, id).Some? &&
              InForceRevision(part, kind, id).value <= InForceRevision(documents, kind, id).value
  {
    hide IsInForceOf, InForceRevision;
    InForceIsHighest(documents, kind, id);
    InForceIsHighest(part, kind, id);
  }

  /** The system a document belongs to, if it names one. */
  function SystemOf(d: Document): Option<string> {
    match Child(d.spec, "system")
    case Some(Str(system)) => Some(system)
    case _ => None
  }

  /** The kind, id and revision a Change Request starts from. */
  function BaseOf(d: Document): Option<(string, string, nat)> {
    match Child(d.spec, "base")
    case Some(ref) =>
      if IsRef(ref) && IsIndex(ref.members["revision"].digits) then
        Some((ref.members["kind"].text, ref.members["id"].text, IndexValue(ref.members["revision"].digits)))
      else None
    case None => None
  }

  /** An undecided or accepted change does not start from a revision that was superseded. */
  predicate ChangeIsFresh(d: Document, documents: seq<Document>) {
    d.kind.ChangeRequest? && d.status in {"DRAFT", "PROPOSED", "ACCEPTED"} && BaseOf(d).Some? ==>
      var (kind, id, revision) := BaseOf(d).value;
      var current := InForceRevision(documents, kind, id);
      current.Some? ==> current.value <= revision
  }

  /** What a rule finds, and where. */
  datatype Finding = Finding(path: string, message: string)

  /**
   * What is checked of a document alone (its schema, then, if it passes, the semantic rules of
   * its kind), the items it declares, and what is checked of it against the contracts it
   * refers to. A document that fails its schema cannot be read: it is reported and dropped.
   */
  datatype Rules = Rules(
    schemaFindings: Document -> seq<Finding>,
    documentFindings: Document -> seq<Finding>,
    items: Document -> set<string>,
    crossFindings: (Document, seq<Option<Document>>) -> seq<Finding>
  ) {
    predicate readable(d: Document) { schemaFindings(d) == [] }

    function aloneFindings(d: Document): seq<Finding> { if readable(d) then documentFindings(d) else schemaFindings(d) }

    predicate documentOk(d: Document) { readable(d) && documentFindings(d) == [] }

    predicate crossOk(d: Document, targets: seq<Option<Document>>) { crossFindings(d, targets) == [] }
  }

  datatype Code =
    | InvalidContract
    | DuplicateContract
    | SystemMismatch
    | RefUnresolved
    | RefDigestMismatch
    | RefItemUnresolved
    | CrossRuleBroken
    | ChangeBaseStale

  datatype SetError = SetError(code: Code, owner: Key, path: string, message: string)

  function Findings(code: Code, owner: Key, findings: seq<Finding>): (errors: seq<SetError>)
    ensures |errors| == |findings|
  {
    seq(|findings|, i requires 0 <= i < |findings| => SetError(code, owner, findings[i].path, findings[i].message))
  }

  /** What is wrong with one reference of `owner`. */
  function RefErrors(ref: Json, path: string, owner: Key, index: Index, rules: Rules): seq<SetError>
    requires IsRef(ref)
  {
    if RefKey(ref) !in index then [SetError(RefUnresolved, owner, path, RefKey(ref))] else
    var target := index[RefKey(ref)];
    (if "digest" in ref.members && ref.members["digest"] != Str(ContractDigest(target))
     then [SetError(RefDigestMismatch, owner, path + "/digest", RefKey(ref))] else []) +
    (if "item" in ref.members && !(ref.members["item"].Str? && ref.members["item"].text in rules.items(target))
     then [SetError(RefItemUnresolved, owner, path + "/item", RefKey(ref))] else [])
  }

  /** The reference resolves, to the content it pins, and to an item that exists. */
  predicate RefOk(ref: Json, index: Index, rules: Rules)
    requires IsRef(ref)
  {
    RefErrors(ref, "", "", index, rules) == []
  }

  /** The references of a whole document, metadata included. */
  function AllRefs(d: Document): (refs: seq<Json>)
    ensures forall r | r in refs :: IsRef(r)
  {
    RefList(ToJson(d))
  }

  function Find(index: Index, key: Key): Option<Document> {
    if key in index then Some(index[key]) else None
  }

  function Targets(refs: seq<Json>, index: Index): (targets: seq<Option<Document>>)
    requires forall r | r in refs :: IsRef(r)
  {
    seq(|refs|, i requires 0 <= i < |refs| => Find(index, RefKey(refs[i])))
  }

  /** Everything checked of one document of a set. */
  predicate DocumentHolds(d: Document, documents: seq<Document>, rules: Rules) {
    var index := IndexContracts(documents);
    && rules.documentOk(d)
    && (forall r | r in AllRefs(d) :: RefOk(r, index, rules))
    && rules.crossOk(d, Targets(AllRefs(d), index))
    && ChangeIsFresh(d, documents)
  }

  ghost predicate NoRepeatedKey(documents: seq<Document>) {
    forall i, j | 0 <= i < j < |documents| :: DocumentKey(documents[i]) != DocumentKey(documents[j])
  }

  ghost predicate OneSystem(documents: seq<Document>) {
    forall a, b | a in documents && b in documents && SystemOf(a).Some? && SystemOf(b).Some? :: SystemOf(a) == SystemOf(b)
  }

  /** A set without any error. */
  ghost predicate IsValidSet(documents: seq<Document>, rules: Rules) {
    && NoRepeatedKey(documents)
    && OneSystem(documents)
    && forall d | d in documents :: DocumentHolds(d, documents, rules)
  }

  lemma ValidHasOnePerKey(documents: seq<Document>)
    requires NoRepeatedKey(documents)
    ensures OneDocumentPerKey(documents)
  {
    forall a, b | a in documents && b in documents && DocumentKey(a) == DocumentKey(b)
      ensures a == b
    {
      var i :| 0 <= i < |documents| && documents[i] == a;
      var j :| 0 <= j < |documents| && documents[j] == b;
    }
  }

  predicate ByKey(a: Document, b: Document) {
    AtMost(DocumentKey(a), DocumentKey(b))
  }

  lemma ByKeyIsOrder()
    ensures IsOrder(ByKey)
  {
    forall x, y ensures ByKey(x, y) || ByKey(y, x) { AtMostTotal(DocumentKey(x), DocumentKey(y)); }
    forall x, y, z | ByKey(x, y) && ByKey(y, z) ensures ByKey(x, z) {
      AtMostTransitive(DocumentKey(x), DocumentKey(y), DocumentKey(z));
    }
  }

  lemma ByKeySeparates(documents: seq<Document>)
    requires OneDocumentPerKey(documents)
    ensures Separates(documents, ByKey)
  {
    hide DocumentKey;
    forall x, y | x in documents && y in documents && ByKey(x, y) && ByKey(y, x)
      ensures x == y
    {
      AtMostAntisymmetric(DocumentKey(x), DocumentKey(y));
    }
  }

  /** The checks see the documents of a set, not their order. */
  lemma ChecksForgetOrder(a: seq<Document>, b: seq<Document>)
    requires OneDocumentPerKey(a) && forall d :: d in a <==> d in b
    ensures IndexContracts(a) == IndexContracts(b)
    ensures forall kind, id :: InForceRevision(a, kind, id) == InForceRevision(b, kind, id)
    ensures OneSystem(a) <==> OneSystem(b)
  {
    hide DocumentKey, IndexContracts, InForceRevision, SystemOf, InForce;
    var x, y := IndexContracts(a), IndexContracts(b);
    forall k | k in x
      ensures k in y && x[k] == y[k]
    {
      assert x[k] in b && y[k] in a;
    }
    forall k | k in y ensures k in x { assert y[k] in a; }
    forall kind, id
      ensures InForceRevision(a, kind, id) == InForceRevision(b, kind, id)
    {
      InForceShrinks(a, b, kind, id);
      InForceShrinks(b, a, kind, id);
    }
  }

  lemma HoldsForgetsOrder(a: seq<Document>, b: seq<Document>, d: Document, rules: Rules)
    requires OneDocumentPerKey(a) && forall d :: d in a <==> d in b
    ensures DocumentHolds(d, a, rules) <==> DocumentHolds(d, b, rules)
  {
    hide DocumentKey, IndexContracts, InForceRevision, SystemOf, InForce, RefOk, AllRefs, Targets, BaseOf;
    ChecksForgetOrder(a, b);
    if BaseOf(d).Some? {
      var (kind, id, _) := BaseOf(d).value;
      assert InForceRevision(a, kind, id) == InForceRevision(b, kind, id);
    }
  }

  lemma RefErrorsAreOk(ref: Json, path: string, owner: Key, index: Index, rules: Rules)
    requires IsRef(ref)
    ensures RefErrors(ref, path, owner, index, rules) == [] <==> RefOk(ref, index, rules)
  {}

  // ---- The report ----

  /** The references of a whole document and where they are. */
  function FoundRefs(d: Document): (all: seq<FoundRef>)
    ensures |all| == |AllRefs(d)| && forall i | 0 <= i < |all| :: all[i].ref == AllRefs(d)[i] && IsRef(all[i].ref)
  {
    RefListFollows(ToJson(d));
    CollectRefs(ToJson(d), "")
  }

  lemma RefListFollows(v: Json)
    ensures |CollectRefs(v, "")| == |RefList(v)|
    ensures forall i | 0 <= i < |RefList(v)| :: CollectRefs(v, "")[i].ref == RefList(v)[i] && IsRef(RefList(v)[i])
  {
    hide CollectRefs, IsRef;
    var refs := RefList(v);
    forall i | 0 <= i < |refs|
      ensures IsRef(refs[i])
    {
      assert refs[i] in refs;
    }
  }

  function RefReport(refs: seq<FoundRef>, owner: Key, index: Index, rules: Rules): seq<SetError>
    requires forall i | 0 <= i < |refs| :: IsRef(refs[i].ref)
  {
    if |refs| == 0 then [] else
    var n := |refs| - 1;
    RefReport(refs[..n], owner, index, rules) + RefErrors(refs[n].ref, refs[n].path, owner, index, rules)
  }

  /** The references of one document, then its cross rules. */
  function DocumentReport(d: Document, documents: seq<Document>, rules: Rules): seq<SetError> {
    var index, owner := IndexContracts(documents), DocumentKey(d);
    RefReport(FoundRefs(d), owner, index, rules) +
    Findings(CrossRuleBroken, owner, rules.crossFindings(d, Targets(AllRefs(d), index))) +
    if ChangeIsFresh(d, documents) then [] else [SetError(ChangeBaseStale, owner, "/spec/base", "")]
  }

  function DocumentReports(some: seq<Document>, documents: seq<Document>, rules: Rules): seq<SetError> {
    if |some| == 0 then [] else
    DocumentReports(some[..|some| - 1], documents, rules) + DocumentReport(some[|some| - 1], documents, rules)
  }

  method CheckDocument(d: Document, documents: seq<Document>, rules: Rules) returns (found: seq<SetError>)
    ensures found == DocumentReport(d, documents, rules)
    ensures found == [] && rules.documentOk(d) <==> DocumentHolds(d, documents, rules)
  {
    hide DocumentKey, IndexContracts, InForceRevision, RefErrors, AllRefs, Targets, ChangeIsFresh, RefOk, FoundRefs, DocumentHolds, DocumentReport;
    found := [];
    var index := IndexContracts(documents);
    var owner := DocumentKey(d);
    var refs := FoundRefs(d);
    for i := 0 to |refs|
      invariant found == RefReport(refs[..i], owner, index, rules)
    {
      assert refs[..i + 1][..i] == refs[..i];
      found := found + RefErrors(refs[i].ref, refs[i].path, owner, index, rules);
    }
    assert refs[..|refs|] == refs;
    found := found + Findings(CrossRuleBroken, owner, rules.crossFindings(d, Targets(AllRefs(d), index)));
    if !ChangeIsFresh(d, documents) {
      found := found + [SetError(ChangeBaseStale, owner, "/spec/base", "")];
    }
    assert found == DocumentReport(d, documents, rules) by { DocumentReportParts(d, documents, rules); }
    DocumentReportDecides(d, documents, rules);
  }

  lemma DocumentReportParts(d: Document, documents: seq<Document>, rules: Rules)
    ensures DocumentReport(d, documents, rules) ==
            RefReport(FoundRefs(d), DocumentKey(d), IndexContracts(documents), rules) +
            Findings(CrossRuleBroken, DocumentKey(d), rules.crossFindings(d, Targets(AllRefs(d), IndexContracts(documents)))) +
            if ChangeIsFresh(d, documents) then [] else [SetError(ChangeBaseStale, DocumentKey(d), "/spec/base", "")]
  {
    hide RefReport, Findings, ChangeIsFresh, IndexContracts, DocumentKey, FoundRefs, Targets, AllRefs;
  }

  lemma {:induction false} RefReportDecides(refs: seq<FoundRef>, owner: Key, index: Index, rules: Rules)
    requires forall i | 0 <= i < |refs| :: IsRef(refs[i].ref)
    ensures RefReport(refs, owner, index, rules) == [] <==> forall i | 0 <= i < |refs| :: RefOk(refs[i].ref, index, rules)
  {
    hide RefErrors, RefOk;
    if |refs| > 0 {
      var n := |refs| - 1;
      RefReportDecides(refs[..n], owner, index, rules);
      RefErrorsAreOk(refs[n].ref, refs[n].path, owner, index, rules);
    }
  }

  lemma DocumentReportDecides(d: Document, documents: seq<Document>, rules: Rules)
    ensures DocumentReport(d, documents, rules) == [] && rules.documentOk(d) <==> DocumentHolds(d, documents, rules)
  {
    hide DocumentKey, IndexContracts, RefErrors, AllRefs, Targets, ChangeIsFresh, RefOk, FoundRefs, RefReport;
    var refs := FoundRefs(d);
    RefReportDecides(refs, DocumentKey(d), IndexContracts(documents), rules);
    forall r | r in AllRefs(d)
      ensures exists i :: 0 <= i < |refs| && refs[i].ref == r
    {
      var i :| 0 <= i < |AllRefs(d)| && AllRefs(d)[i] == r;
      assert refs[i].ref == r;
    }
  }

  function Systems(documents: seq<Document>): set<string> {
    set d | d in documents && SystemOf(d).Some? :: SystemOf(d).value
  }

  lemma SystemsAreOne(documents: seq<Document>)
    ensures |Systems(documents)| <= 1 <==> OneSystem(documents)
  {
    var all := Systems(documents);
    if |all| <= 1 {
      forall x, y | x in all && y in all
        ensures x == y
      {
        assert {x} <= all;
        if x != y {
          assert {x, y} <= all && |{x, y}| == 2;
          SubsetIsSmaller({x, y}, all);
        }
      }
      forall a, b | a in documents && b in documents && SystemOf(a).Some? && SystemOf(b).Some?
        ensures SystemOf(a) == SystemOf(b)
      {
        assert SystemOf(a).value in all && SystemOf(b).value in all;
      }
    } else {
      var x :| x in all;
      assert all != {x};
      var y :| y in all && y != x;
    }
  }

  function KeySet(documents: seq<Document>): set<Key> {
    set d | d in documents :: DocumentKey(d)
  }

  function IsReadable(rules: Rules): Document -> bool {
    (d: Document) => rules.readable(d)
  }

  /** The documents that can be read. */
  function Readable(inputs: seq<Document>, rules: Rules): (r: seq<Document>)
    ensures forall d :: d in r <==> d in inputs && rules.readable(d)
  {
    Filter(IsReadable(rules), inputs)
  }

  lemma ReadableStep(front: seq<Document>, last: Document, rules: Rules)
    ensures Readable(front + [last], rules) == if rules.readable(last) then Readable(front, rules) + [last] else Readable(front, rules)
  {
    hide Filter;
    FilterStep(IsReadable(rules), front, last);
  }

  /** The first document of each key, in order. */
  function Entries(inputs: seq<Document>): seq<Document> {
    if |inputs| == 0 then [] else
    var n := |inputs| - 1;
    Entries(inputs[..n]) + if DocumentKey(inputs[n]) in KeySet(inputs[..n]) then [] else [inputs[n]]
  }

  /** No earlier document has the key of this one. */
  ghost predicate IsFirstOfKey(documents: seq<Document>, i: nat)
    requires i < |documents|
  {
    forall j | 0 <= j < i :: DocumentKey(documents[j]) != DocumentKey(documents[i])
  }

  lemma KeySetStep(front: seq<Document>, last: Document)
    ensures KeySet(front + [last]) == KeySet(front) + {DocumentKey(last)}
  {
    hide DocumentKey;
  }

  lemma NoRepeatedKeySnoc(front: seq<Document>, last: Document)
    requires NoRepeatedKey(front) && DocumentKey(last) !in KeySet(front)
    ensures NoRepeatedKey(front + [last])
  {
    hide DocumentKey;
    forall k | 0 <= k < |front| ensures DocumentKey(front[k]) in KeySet(front) {}
  }

  /** The entries have the keys of the inputs, each once, and are exactly the first documents of these keys. */
  lemma {:induction false} EntriesAreFirst(inputs: seq<Document>)
    ensures NoRepeatedKey(Entries(inputs)) && KeySet(Entries(inputs)) == KeySet(inputs)
    ensures forall d :: d in Entries(inputs) <==> exists i :: 0 <= i < |inputs| && inputs[i] == d && IsFirstOfKey(inputs, i)
  {
    hide DocumentKey, NoRepeatedKey, IsFirstOfKey, KeySet;
    if |inputs| > 0 {
      var n := |inputs| - 1;
      var front, last := inputs[..n], inputs[n];
      EntriesAreFirst(front);
      assert inputs == front + [last];
      KeySetStep(front, last);
      KeySetStep(Entries(front), last);
      LastKeyIsNew(inputs);
      forall i | 0 <= i < n ensures IsFirstOfKey(inputs, i) <==> IsFirstOfKey(front, i) { FirstOfPrefix(inputs, i); }
      FirstIsNew(inputs);
      if DocumentKey(last) !in KeySet(front) {
        NoRepeatedKeySnoc(Entries(front), last);
      } else {
        assert Entries(inputs) == Entries(front) && KeySet(inputs) == KeySet(front);
      }
      forall d
        ensures d in Entries(inputs) <==> exists i :: 0 <= i < |inputs| && inputs[i] == d && IsFirstOfKey(inputs, i)
      {
        if d in Entries(front) {
          var i :| 0 <= i < |front| && front[i] == d && IsFirstOfKey(front, i);
          assert inputs[i] == d && IsFirstOfKey(inputs, i);
        }
        if i :| 0 <= i < |inputs| && inputs[i] == d && IsFirstOfKey(inputs, i) && i < n {
          assert front[i] == d && IsFirstOfKey(front, i);
        }
      }
    } else {
      NothingRepeats(inputs);
    }
  }

  lemma FirstOfPrefix(inputs: seq<Document>, i: nat)
    requires i < |inputs| - 1
    ensures IsFirstOfKey(inputs, i) <==> IsFirstOfKey(inputs[..|inputs| - 1], i)
  {
    hide DocumentKey;
  }

  lemma FirstIsNew(inputs: seq<Document>)
    requires |inputs| > 0
    ensures IsFirstOfKey(inputs, |inputs| - 1) <==> DocumentKey(inputs[|inputs| - 1]) !in KeySet(inputs[..|inputs| - 1])
  {
    hide DocumentKey;
    LastKeyIsNew(inputs);
  }

  function DuplicateError(key: Key): SetError {
    SetError(DuplicateContract, key, "", "")
  }

  /** What the documents alone, and their keys, have wrong. */
  function EntryReport(inputs: seq<Document>, rules: Rules): seq<SetError> {
    if |inputs| == 0 then [] else
    var n := |inputs| - 1;
    var key := DocumentKey(inputs[n]);
    EntryReport(inputs[..n], rules) + Findings(InvalidContract, key, rules.aloneFindings(inputs[n])) +
    if rules.readable(inputs[n]) && key in KeySet(Readable(inputs[..n], rules)) then [DuplicateError(key)] else []
  }

  /** Keeps the first readable document of each key; reports the others, and what each document alone has wrong. */
  method CollectEntries(inputs: seq<Document>, rules: Rules) returns (entries: seq<Document>, found: seq<SetError>)
    ensures entries == Entries(Readable(inputs, rules)) && found == EntryReport(inputs, rules)
  {
    hide DocumentKey, NoRepeatedKey, IsFirstOfKey, Entries, Readable, EntryReport, KeySet, Findings;
    found, entries := [], [];
    var seen: set<Key> := {};
    NothingToRead(rules);
    for i := 0 to |inputs|
      invariant seen == KeySet(Readable(inputs[..i], rules))
      invariant entries == Entries(Readable(inputs[..i], rules)) && found == EntryReport(inputs[..i], rules)
    {
      var key := DocumentKey(inputs[i]);
      assert inputs[..i + 1] == inputs[..i] + [inputs[i]];
      EntryReportSnoc(inputs[..i], inputs[i], rules);
      ReadableStep(inputs[..i], inputs[i], rules);
      found := found + Findings(InvalidContract, key, rules.aloneFindings(inputs[i]));
      if !rules.readable(inputs[i]) {
        continue;
      }
      EntriesStep(Readable(inputs[..i], rules), inputs[i]);
      KeySetStep(Readable(inputs[..i], rules), inputs[i]);
      if key in seen {
        found := found + [DuplicateError(key)];
        continue;
      }
      seen := seen + {key};
      entries := entries + [inputs[i]];
    }
    assert inputs[..|inputs|] == inputs;
  }

  lemma NothingToRead(rules: Rules)
    ensures Readable([], rules) == [] && Entries([]) == [] && EntryReport([], rules) == [] && KeySet([]) == {}
  {}

  lemma EntryReportSnoc(front: seq<Document>, last: Document, rules: Rules)
    ensures EntryReport(front + [last], rules) ==
            EntryReport(front, rules) + Findings(InvalidContract, DocumentKey(last), rules.aloneFindings(last)) +
            if rules.readable(last) && DocumentKey(last) in KeySet(Readable(front, rules)) then [DuplicateError(DocumentKey(last))] else []
  {
    hide DocumentKey, KeySet, Readable, Findings;
    assert (front + [last])[..|front|] == front;
  }

  lemma EntriesStep(front: seq<Document>, last: Document)
    ensures Entries(front + [last]) == Entries(front) + if DocumentKey(last) in KeySet(front) then [] else [last]
  {
    hide DocumentKey, KeySet;
    assert (front + [last])[..|front|] == front;
  }

  /** Every document of a set that mixes systems is reported. */
  function SystemReport(entries: seq<Document>): seq<SetError> {
    if |Systems(entries)| <= 1 then [] else
    seq(|entries|, i requires 0 <= i < |entries| => SetError(SystemMismatch, DocumentKey(entries[i]), "/spec/system", ""))
  }

  lemma NothingReported(entries: seq<Document>, rules: Rules)
    ensures DocumentReports([], entries, rules) == []
  {}

  lemma ReportedStep(entries: seq<Document>, i: nat, rules: Rules)
    requires i < |entries|
    ensures DocumentReports(entries[..i + 1], entries, rules) == DocumentReports(entries[..i], entries, rules) + DocumentReport(entries[i], entries, rules)
  {
    hide DocumentReport;
    assert entries[..i + 1][..i] == entries[..i];
  }

  /** One system. */
  method CheckSystems(entries: seq<Document>) returns (found: seq<SetError>)
    ensures found == SystemReport(entries)
  {
    hide Systems, DocumentKey;
    found := [];
    if |Systems(entries)| > 1 {
      for i := 0 to |entries|
        invariant found == SystemReport(entries)[..i]
      {
        found := found + [SetError(SystemMismatch, DocumentKey(entries[i]), "/spec/system", "")];
      }
    }
  }

  /** One system, then every document against the others. */
  method CheckEntries(entries: seq<Document>, rules: Rules) returns (found: seq<SetError>)
    ensures found == SystemReport(entries) + DocumentReports(entries, entries, rules)
  {
    hide DocumentHolds, SystemReport, DocumentReport, DocumentReports, DocumentKey;
    found := CheckSystems(entries);
    NothingReported(entries, rules);
    for i := 0 to |entries|
      invariant found == SystemReport(entries) + DocumentReports(entries[..i], entries, rules)
    {
      ReportedStep(entries, i, rules);
      var more := CheckDocument(entries[i], entries, rules);
      found := found + more;
    }
    assert entries[..|entries|] == entries;
  }

  /** The entries of a set: the first readable document of each key, by key. */
  function EntriesOf(inputs: seq<Document>, rules: Rules): seq<Document> {
    Sort(Entries(Readable(inputs, rules)), ByKey)
  }

  /** Everything reported of a set, in the order it is found. */
  function ReportOf(inputs: seq<Document>, rules: Rules): seq<SetError> {
    var entries := EntriesOf(inputs, rules);
    EntryReport(inputs, rules) + (SystemReport(entries) + DocumentReports(entries, entries, rules))
  }

  /** Validates a set: it keeps the first readable document of each key, by key, and reports nothing exactly when the set is valid. */
  method ValidateContractSet(inputs: seq<Document>, rules: Rules) returns (entries: seq<Document>, found: seq<SetError>)
    ensures entries == EntriesOf(inputs, rules) && found == ReportOf(inputs, rules)
    ensures found == [] <==> IsValidSet(inputs, rules)
  {
    hide EntryReport, SystemReport, DocumentReports, Sort, IsValidSet, Entries, Readable;
    entries, found := CollectEntries(inputs, rules);
    entries := Sort(entries, ByKey);
    var more := CheckEntries(entries, rules);
    found := found + more;
    ReportDecides(inputs, rules);
  }

  lemma {:induction false} EntriesOfDistinct(inputs: seq<Document>)
    requires NoRepeatedKey(inputs)
    ensures Entries(inputs) == inputs
  {
    hide DocumentKey, NoRepeatedKey, KeySet;
    if |inputs| > 0 {
      var n := |inputs| - 1;
      NoRepeatedKeyStep(inputs, n);
      assert inputs[..n + 1] == inputs && inputs == inputs[..n] + [inputs[n]];
      EntriesOfDistinct(inputs[..n]);
      LastKeyIsNew(inputs);
    }
  }

  lemma AllReadable(inputs: seq<Document>, rules: Rules)
    requires forall d | d in inputs :: rules.documentOk(d)
    ensures Readable(inputs, rules) == inputs
  {
    FilterAll(IsReadable(rules), inputs);
  }

  lemma {:induction false} EntryReportDecides(inputs: seq<Document>, rules: Rules)
    ensures EntryReport(inputs, rules) == [] <==> NoRepeatedKey(inputs) && forall d | d in inputs :: rules.documentOk(d)
  {
    hide DocumentKey, NoRepeatedKey, KeySet, Readable, EntryReport;
    if |inputs| > 0 {
      var n := |inputs| - 1;
      var front := inputs[..n];
      EntryReportDecides(front, rules);
      NoRepeatedKeyStep(inputs, n);
      assert inputs[..n + 1] == inputs && inputs == front + [inputs[n]];
      LastKeyIsNew(inputs);
      EntryReportStep(inputs, rules);
      if forall d | d in front :: rules.documentOk(d) { AllReadable(front, rules); }
    } else {
      NothingToRead(rules);
      assert inputs == [];
      NothingRepeats(inputs);
    }
  }

  lemma EntryReportStep(inputs: seq<Document>, rules: Rules)
    requires |inputs| > 0
    ensures var n := |inputs| - 1;
            EntryReport(inputs, rules) == [] <==>
            EntryReport(inputs[..n], rules) == [] && rules.documentOk(inputs[n]) && DocumentKey(inputs[n]) !in KeySet(Readable(inputs[..n], rules))
  {
    hide DocumentKey, KeySet, Readable;
  }

  lemma NothingRepeats(inputs: seq<Document>)
    requires |inputs| == 0
    ensures NoRepeatedKey(inputs)
  {}

  lemma LastKeyIsNew(inputs: seq<Document>)
    requires |inputs| > 0
    ensures var n := |inputs| - 1;
            DocumentKey(inputs[n]) !in KeySet(inputs[..n]) <==> forall j | 0 <= j < n :: DocumentKey(inputs[j]) != DocumentKey(inputs[n])
  {
    hide DocumentKey;
    var n := |inputs| - 1;
    forall j | 0 <= j < n ensures DocumentKey(inputs[j]) in KeySet(inputs[..n]) { assert inputs[..n][j] in inputs[..n]; }
  }

  lemma NoRepeatedKeyStep(inputs: seq<Document>, i: nat)
    requires i < |inputs|
    ensures NoRepeatedKey(inputs[..i + 1]) <==>
            NoRepeatedKey(inputs[..i]) && forall j | 0 <= j < i :: DocumentKey(inputs[j]) != DocumentKey(inputs[i])
  {
    hide DocumentKey;
    var next := inputs[..i + 1];
    assert next[..i] == inputs[..i] && next[i] == inputs[i];
    if NoRepeatedKey(next) {
      forall j | 0 <= j < i ensures DocumentKey(inputs[j]) != DocumentKey(inputs[i]) { assert next[j] == inputs[j]; }
      assert forall a, b | 0 <= a < b < i :: inputs[..i][a] == next[a] && inputs[..i][b] == next[b];
    }
  }

  lemma {:induction false} DocumentReportsDecide(some: seq<Document>, documents: seq<Document>, rules: Rules)
    ensures DocumentReports(some, documents, rules) == [] && (forall d | d in some :: rules.documentOk(d)) <==>
            forall d | d in some :: DocumentHolds(d, documents, rules)
  {
    hide DocumentReport, DocumentHolds;
    if |some| > 0 {
      var front, last := some[..|some| - 1], some[|some| - 1];
      assert some == front + [last];
      DocumentReportsDecide(front, documents, rules);
      DocumentReportDecides(last, documents, rules);
    }
  }

  /** Sorting the entries changes no verdict. */
  lemma SortedEntriesAgree(inputs: seq<Document>, entries: seq<Document>, rules: Rules)
    requires OneDocumentPerKey(inputs) && entries == Sort(inputs, ByKey)
    ensures forall d :: d in inputs <==> d in entries
    ensures OneSystem(inputs) <==> OneSystem(entries)
    ensures forall d :: DocumentHolds(d, inputs, rules) <==> DocumentHolds(d, entries, rules)
  {
    hide DocumentHolds, OneSystem, OneDocumentPerKey, Sort;
    SortLists(inputs, ByKey);
    ChecksForgetOrder(inputs, entries);
    forall d { HoldsForgetsOrder(inputs, entries, d, rules); }
  }

  lemma SystemReportDecides(entries: seq<Document>)
    ensures SystemReport(entries) == [] <==> OneSystem(entries)
  {
    hide OneSystem, DocumentKey;
    SystemsAreOne(entries);
    if |entries| == 0 { assert Systems(entries) == {}; }
  }

  lemma ValidEntries(inputs: seq<Document>, rules: Rules)
    requires NoRepeatedKey(inputs) && forall d | d in inputs :: rules.documentOk(d)
    ensures EntriesOf(inputs, rules) == Sort(inputs, ByKey)
  {
    hide Sort, Entries, Readable, NoRepeatedKey;
    AllReadable(inputs, rules);
    EntriesOfDistinct(inputs);
  }

  /** Nothing is reported exactly of valid sets. */
  lemma ReportDecides(inputs: seq<Document>, rules: Rules)
    ensures ReportOf(inputs, rules) == [] <==> IsValidSet(inputs, rules)
  {
    hide EntryReport, SystemReport, DocumentReports, Sort, EntriesOf, DocumentHolds, OneSystem, NoRepeatedKey, DocumentKey;
    var entries := EntriesOf(inputs, rules);
    EntryReportDecides(inputs, rules);
    SystemReportDecides(entries);
    DocumentReportsDecide(entries, entries, rules);
    if NoRepeatedKey(inputs) && forall d | d in inputs :: rules.documentOk(d) {
      ValidEntries(inputs, rules);
      ValidHasOnePerKey(inputs);
      SortedEntriesAgree(inputs, entries, rules);
    }
    forall d | DocumentHolds(d, inputs, rules) ensures rules.documentOk(d) { HoldsAlone(d, inputs, rules); }
  }

  lemma HoldsAlone(d: Document, documents: seq<Document>, rules: Rules)
    requires DocumentHolds(d, documents, rules)
    ensures rules.documentOk(d)
  {}

  // ---- Parts of a valid set ----

  /** Every reference of a document of `part` leads to a document of `part`. */
  ghost predicate IsClosedUnderRefs(part: seq<Document>) {
    forall d, r | d in part && r in AllRefs(d) :: RefKey(r) in IndexContracts(part)
  }

  ghost predicate IsPartOf(part: seq<Document>, documents: seq<Document>) {
    NoRepeatedKey(part) && forall d | d in part :: d in documents
  }

  /** A part resolves a reference to the same document, or not at all. */
  lemma PartIndex(part: seq<Document>, documents: seq<Document>)
    requires IsPartOf(part, documents) && OneDocumentPerKey(documents)
    ensures forall k | k in IndexContracts(part) :: k in IndexContracts(documents) && IndexContracts(part)[k] == IndexContracts(documents)[k]
  {
    hide DocumentKey, IndexContracts;
    forall k | k in IndexContracts(part)
      ensures k in IndexContracts(documents) && IndexContracts(part)[k] == IndexContracts(documents)[k]
    {
      IndexFinds(documents, IndexContracts(part)[k]);
    }
  }

  lemma RefErrorsAgree(ref: Json, path: string, owner: Key, a: Index, b: Index, rules: Rules)
    requires IsRef(ref) && Find(a, RefKey(ref)) == Find(b, RefKey(ref))
    ensures RefErrors(ref, path, owner, a, rules) == RefErrors(ref, path, owner, b, rules)
  {}

  lemma PartHolds(part: seq<Document>, documents: seq<Document>, d: Document, rules: Rules)
    requires IsPartOf(part, documents) && OneDocumentPerKey(documents)
    requires DocumentHolds(d, documents, rules)
    requires forall r | r in AllRefs(d) :: RefKey(r) in IndexContracts(part)
    ensures DocumentHolds(d, part, rules)
  {
    hide DocumentKey, InForceRevision, IndexContracts, RefErrors, AllRefs;
    PartIndex(part, documents);
    var refs := AllRefs(d);
    forall r | r in refs { RefErrorsAgree(r, "", "", IndexContracts(part), IndexContracts(documents), rules); }
    assert Targets(refs, IndexContracts(part)) == Targets(refs, IndexContracts(documents));
    if BaseOf(d).Some? {
      var (kind, id, revision) := BaseOf(d).value;
      InForceShrinks(documents, part, kind, id);
    }
  }

  /** Within a valid set, a part is valid exactly when its references stay inside it. */
  lemma ClosedPartIsValid(part: seq<Document>, documents: seq<Document>, rules: Rules)
    requires IsPartOf(part, documents) && IsValidSet(documents, rules)
    ensures IsValidSet(part, rules) <==> IsClosedUnderRefs(part)
  {
    hide DocumentKey, InForceRevision, IndexContracts, AllRefs, Targets, ChangeIsFresh;
    ValidHasOnePerKey(documents);
    if IsClosedUnderRefs(part) {
      forall d | d in part
        ensures DocumentHolds(d, part, rules)
      {
        PartHolds(part, documents, d, rules);
      }
    } else {
      var d, r :| d in part && r in AllRefs(d) && RefKey(r) !in IndexContracts(part);
      assert !RefOk(r, IndexContracts(part), rules);
    }
  }
}
