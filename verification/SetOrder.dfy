/** What the report of a contract set owes to the order of its documents: nothing, unless two documents differ under one key. */
module SetOrder {
  import opened Wrappers
  import opened Text
  import opened Json
  import opened JsonPointer
  import opened Sorting
  import opened Lists
  import opened Refs
  import opened Identity
  import opened ContractSet

  // ---- The report and the order of the documents ----

  function DocumentFindings(rules: Rules): Document -> seq<SetError> {
    (d: Document) => Findings(InvalidContract, DocumentKey(d), rules.aloneFindings(d))
  }

  function KeyError(): Document -> SetError {
    (d: Document) => DuplicateError(DocumentKey(d))
  }

  /** One error for each document whose key an earlier one has. */
  function DuplicateReport(inputs: seq<Document>): seq<SetError> {
    if |inputs| == 0 then [] else
    var n := |inputs| - 1;
    DuplicateReport(inputs[..n]) + if DocumentKey(inputs[n]) in KeySet(inputs[..n]) then [DuplicateError(DocumentKey(inputs[n]))] else []
  }

  lemma {:induction false} EntryReportParts(inputs: seq<Document>, rules: Rules)
    ensures multiset(EntryReport(inputs, rules)) == multiset(FlatMap(DocumentFindings(rules), inputs)) + multiset(DuplicateReport(Readable(inputs, rules)))
  {
    hide DocumentKey, KeySet, Findings, Readable, DuplicateReport;
    if |inputs| > 0 {
      var front, last := inputs[..|inputs| - 1], inputs[|inputs| - 1];
      assert inputs == front + [last];
      EntryReportParts(front, rules);
      ReadableStep(front, last, rules);
      DuplicateStep(Readable(front, rules), last);
    } else {
      NothingToRead(rules);
      NoDuplicate();
    }
  }

  lemma DuplicateStep(front: seq<Document>, last: Document)
    ensures DuplicateReport(front + [last]) == DuplicateReport(front) + if DocumentKey(last) in KeySet(front) then [DuplicateError(DocumentKey(last))] else []
  {
    hide DocumentKey, KeySet;
    assert (front + [last])[..|front|] == front;
  }

  lemma NoDuplicate()
    ensures DuplicateReport([]) == []
  {}

  /** Of the documents under one key, all but one are reported. */
  lemma {:induction false} DuplicatesAreCounted(inputs: seq<Document>)
    ensures multiset(DuplicateReport(inputs)) + multiset(Map(KeyError(), Entries(inputs))) == multiset(Map(KeyError(), inputs))
  {
    hide DocumentKey, KeySet;
    if |inputs| > 0 {
      var n := |inputs| - 1;
      var front, last := inputs[..n], inputs[n];
      DuplicatesAreCounted(front);
      assert inputs == front + [last];
      assert Map(KeyError(), inputs) == Map(KeyError(), front) + [KeyError()(last)];
      if DocumentKey(last) in KeySet(front) {
        assert Entries(inputs) == Entries(front);
      } else {
        assert Map(KeyError(), Entries(front) + [last]) == Map(KeyError(), Entries(front)) + [KeyError()(last)];
      }
    }
  }

  /** What the entries have wrong as keys is determined by the keys. */
  lemma EntryKeysForgetOrder(a: seq<Document>, b: seq<Document>)
    requires multiset(a) == multiset(b)
    ensures multiset(Map(KeyError(), Entries(a))) == multiset(Map(KeyError(), Entries(b)))
  {
    hide DocumentKey, Entries;
    SameElements(a, b);
    assert KeySet(a) == KeySet(b);
    var keys := set k | k in KeySet(a) :: DuplicateError(k);
    KeyErrorsAreDistinct(a, keys);
    KeyErrorsAreDistinct(b, keys);
  }

  lemma KeyErrorsAreDistinct(inputs: seq<Document>, keys: set<SetError>)
    requires keys == set k | k in KeySet(inputs) :: DuplicateError(k)
    ensures multiset(Map(KeyError(), Entries(inputs))) == multiset(keys)
  {
    hide DocumentKey, Entries;
    EntriesAreFirst(inputs);
    var entries := Entries(inputs);
    var errors := Map(KeyError(), entries);
    forall e | e in keys
      ensures e in errors
    {
      var d :| d in entries && DuplicateError(DocumentKey(d)) == e;
      var i :| 0 <= i < |entries| && entries[i] == d;
      assert errors[i] == e;
    }
    NoRepeats(errors, keys);
  }

  lemma ReadablePermutes(a: seq<Document>, b: seq<Document>, rules: Rules)
    requires multiset(a) == multiset(b)
    ensures multiset(Readable(a, rules)) == multiset(Readable(b, rules))
  {
    hide Filter;
    FilterPermutes(IsReadable(rules), a, b);
  }

  lemma DuplicatesForgetOrder(a: seq<Document>, b: seq<Document>)
    requires multiset(a) == multiset(b)
    ensures multiset(DuplicateReport(a)) == multiset(DuplicateReport(b))
  {
    hide DuplicateReport, Entries, Map;
    DuplicatesAreCounted(a);
    DuplicatesAreCounted(b);
    EntryKeysForgetOrder(a, b);
    MapPermutes(KeyError(), a, b);
    assert multiset(DuplicateReport(a)) == multiset(Map(KeyError(), a)) - multiset(Map(KeyError(), Entries(a)));
    assert multiset(DuplicateReport(b)) == multiset(Map(KeyError(), b)) - multiset(Map(KeyError(), Entries(b)));
  }

  /** What the first phase reports does not depend on the order, whatever the documents. */
  lemma EntryReportForgetsOrder(a: seq<Document>, b: seq<Document>, rules: Rules)
    requires multiset(a) == multiset(b)
    ensures multiset(EntryReport(a, rules)) == multiset(EntryReport(b, rules))
  {
    hide EntryReport, DuplicateReport, Readable, FlatMap;
    EntryReportParts(a, rules);
    EntryReportParts(b, rules);
    FlatMapPermutes(DocumentFindings(rules), a, b);
    ReadablePermutes(a, b, rules);
    DuplicatesForgetOrder(Readable(a, rules), Readable(b, rules));
  }

  lemma EntriesOfOnePerKey(inputs: seq<Document>)
    requires OneDocumentPerKey(inputs)
    ensures forall d :: d in Entries(inputs) <==> d in inputs
    ensures NoRepeat(Entries(inputs)) && OneDocumentPerKey(Entries(inputs))
  {
    hide DocumentKey, Entries, IsFirstOfKey, KeySet;
    EntriesAreFirst(inputs);
    var entries := Entries(inputs);
    forall d | d in inputs
      ensures d in entries
    {
      assert DocumentKey(d) in KeySet(entries) by { KeyIsListed(inputs, d); }
      var e := SomeWithKey(entries, DocumentKey(d));
    }
    forall i, j | 0 <= i < j < |entries| ensures entries[i] != entries[j] {}
    ValidHasOnePerKey(entries);
  }

  lemma KeyIsListed(documents: seq<Document>, d: Document)
    requires d in documents
    ensures DocumentKey(d) in KeySet(documents)
  {}

  lemma SomeWithKey(documents: seq<Document>, key: Key) returns (d: Document)
    requires key in KeySet(documents)
    ensures d in documents && DocumentKey(d) == key
  {
    d :| d in documents && DocumentKey(d) == key;
  }

  lemma SortedEntriesForgetOrder(a: seq<Document>, b: seq<Document>)
    requires multiset(a) == multiset(b) && OneDocumentPerKey(a)
    ensures Sort(Entries(a), ByKey) == Sort(Entries(b), ByKey)
  {
    hide DocumentKey, Entries, Sort, OneDocumentPerKey, IsOrder, Separates;
    SameElements(a, b);
    assert OneDocumentPerKey(b) by { OnePerKeyForgetsOrder(a, b); }
    EntriesOfOnePerKey(a);
    EntriesOfOnePerKey(b);
    var all := set d | d in a;
    NoRepeats(Entries(a), all);
    NoRepeats(Entries(b), all);
    ByKeyIsOrder();
    ByKeySeparates(Entries(a));
    SortForgetsOrder(Entries(a), Entries(b), ByKey);
  }

  lemma OnePerKeyForgetsOrder(a: seq<Document>, b: seq<Document>)
    requires OneDocumentPerKey(a) && forall d :: d in a <==> d in b
    ensures OneDocumentPerKey(b)
  {
    hide DocumentKey;
  }

  /** When no two readable documents differ under one key, a permutation of the set keeps the same entries and reports the same errors. */
  lemma ReportForgetsOrder(a: seq<Document>, b: seq<Document>, rules: Rules)
    requires multiset(a) == multiset(b) && OneDocumentPerKey(Readable(a, rules))
    ensures EntriesOf(a, rules) == EntriesOf(b, rules)
    ensures multiset(ReportOf(a, rules)) == multiset(ReportOf(b, rules))
  {
    hide EntryReport, SystemReport, DocumentReports, Sort, Entries, OneDocumentPerKey, Readable;
    EntryReportForgetsOrder(a, b, rules);
    ReadablePermutes(a, b, rules);
    SortedEntriesForgetOrder(Readable(a, rules), Readable(b, rules));
  }

  /** The entries and the errors do not depend on the order of the documents. */
  ghost predicate ForgetsOrder(a: seq<Document>, rules: Rules) {
    forall b | multiset(b) == multiset(a) ::
      EntriesOf(b, rules) == EntriesOf(a, rules) && multiset(ReportOf(b, rules)) == multiset(ReportOf(a, rules))
  }

  lemma FirstIsKept(first: Document, rest: seq<Document>)
    ensures first in Entries([first] + rest)
  {
    hide DocumentKey, Entries, NoRepeatedKey;
    EntriesAreFirst([first] + rest);
    assert ([first] + rest)[0] == first && IsFirstOfKey([first] + rest, 0);
  }

  /** The documents kept of a set. */
  lemma KeptOfSet(inputs: seq<Document>, rules: Rules)
    ensures forall d :: d in EntriesOf(inputs, rules) <==> d in Entries(Readable(inputs, rules))
    ensures OneDocumentPerKey(EntriesOf(inputs, rules))
  {
    hide DocumentKey, Entries, Readable, Sort;
    EntriesAreFirst(Readable(inputs, rules));
    SortLists(Entries(Readable(inputs, rules)), ByKey);
    ValidHasOnePerKey(Entries(Readable(inputs, rules)));
  }

  lemma MayComeFirst(a: seq<Document>, x: Document, rules: Rules)
    requires ForgetsOrder(a, rules) && x in a && rules.readable(x)
    ensures x in EntriesOf(a, rules)
  {
    hide Entries, Sort, ReportOf, Readable, Filter, EntriesOf;
    var front, tail := TakeOut(a, x);
    var b := [x] + (front + tail);
    assert multiset(b) == multiset{x} + multiset(front + tail) == multiset(a);
    ReadableFirst(x, front + tail, rules);
    FirstIsKept(x, Readable(front + tail, rules));
    KeptOfSet(b, rules);
  }

  lemma ReadableFirst(first: Document, rest: seq<Document>, rules: Rules)
    requires rules.readable(first)
    ensures Readable([first] + rest, rules) == [first] + Readable(rest, rules)
  {
    FilterConcat(IsReadable(rules), [first], rest);
    assert [first][..0] == [];
  }

  /** Validation does not depend on the order of the documents exactly when no two readable ones differ under one key. */
  lemma ForgetsOrderIffOnePerKey(a: seq<Document>, rules: Rules)
    ensures ForgetsOrder(a, rules) <==> OneDocumentPerKey(Readable(a, rules))
  {
    hide DocumentKey, EntriesOf, ReportOf, ForgetsOrder;
    if OneDocumentPerKey(Readable(a, rules)) {
      OnePerKeyForgets(a, rules);
    }
    if ForgetsOrder(a, rules) {
      KeptOfSet(a, rules);
      forall x, y | x in Readable(a, rules) && y in Readable(a, rules) && DocumentKey(x) == DocumentKey(y)
        ensures x == y
      {
        MayComeFirst(a, x, rules);
        MayComeFirst(a, y, rules);
      }
    }
  }

  lemma OnePerKeyForgets(a: seq<Document>, rules: Rules)
    requires OneDocumentPerKey(Readable(a, rules))
    ensures ForgetsOrder(a, rules)
  {
    hide EntriesOf, ReportOf, OneDocumentPerKey, Readable;
    forall b | multiset(b) == multiset(a) { ReportForgetsOrder(a, b, rules); }
  }

  // ---- Diagnostics: the report without repetition, in a fixed order ----

  function CodeText(code: Code): string {
    match code
    case InvalidContract => "CONTRACT"
    case DuplicateContract => "REF_DUPLICATE_CONTRACT"
    case SystemMismatch => "REF_SYSTEM_MISMATCH"
    case RefUnresolved => "REF_UNRESOLVED"
    case RefDigestMismatch => "REF_DIGEST_MISMATCH"
    case RefItemUnresolved => "REF_ITEM_UNRESOLVED"
    case CrossRuleBroken => "REF_RULE"
    case ChangeBaseStale => "CHANGE_BASE_STALE"
  }

  function ErrorTexts(e: SetError): seq<string> {
    [e.owner, e.path, CodeText(e.code), e.message]
  }

  /** By contract, path, code and message. */
  predicate ByError(a: SetError, b: SetError) {
    AtMostTexts(ErrorTexts(a), ErrorTexts(b))
  }

  /** The first of several equal errors is kept. */
  function Unique(errors: seq<SetError>): seq<SetError> {
    if |errors| == 0 then [] else
    var n := |errors| - 1;
    Unique(errors[..n]) + if errors[n] in errors[..n] then [] else [errors[n]]
  }

  function Diagnostics(errors: seq<SetError>): seq<SetError> {
    Sort(Unique(errors), ByError)
  }

  lemma {:induction false} UniqueKeeps(errors: seq<SetError>)
    ensures NoRepeat(Unique(errors)) && forall e :: e in Unique(errors) <==> e in errors
  {
    if |errors| > 0 {
      var n := |errors| - 1;
      UniqueKeeps(errors[..n]);
      assert errors == errors[..n] + [errors[n]];
      NoRepeatStep(Unique(errors[..n]), errors[n]);
    }
  }

  lemma ErrorsAreOrdered(errors: seq<SetError>)
    ensures IsOrder(ByError) && Separates(errors, ByError)
  {
    hide AtMostTexts, CodeText;
    forall x, y ensures ByError(x, y) || ByError(y, x) { TextsTotal(ErrorTexts(x), ErrorTexts(y)); }
    forall x, y, z | ByError(x, y) && ByError(y, z) ensures ByError(x, z) { TextsTransitive(ErrorTexts(x), ErrorTexts(y), ErrorTexts(z)); }
    forall x, y | ByError(x, y) && ByError(y, x)
      ensures x == y
    {
      TextsAntisymmetric(ErrorTexts(x), ErrorTexts(y));
      assert ErrorTexts(x)[0] == ErrorTexts(y)[0] && ErrorTexts(x)[1] == ErrorTexts(y)[1];
      assert ErrorTexts(x)[2] == ErrorTexts(y)[2] && ErrorTexts(x)[3] == ErrorTexts(y)[3];
      CodeTextInjective(x.code, y.code);
    }
  }

  lemma CodeTextInjective(a: Code, b: Code)
    ensures CodeText(a) == CodeText(b) <==> a == b
  {}

  /** The diagnostics depend on which errors are reported, not on how often nor in which order. */
  lemma DiagnosticsForgetOrder(a: seq<SetError>, b: seq<SetError>)
    requires forall e :: e in a <==> e in b
    ensures Diagnostics(a) == Diagnostics(b)
  {
    hide ByError, Unique, Sort, IsOrder, Separates;
    UniqueKeeps(a);
    UniqueKeeps(b);
    var all := set e | e in a;
    NoRepeats(Unique(a), all);
    NoRepeats(Unique(b), all);
    ErrorsAreOrdered(Unique(a));
    SortForgetsOrder(Unique(a), Unique(b), ByError);
  }

  lemma DiagnosticsList(errors: seq<SetError>)
    ensures forall e :: e in Diagnostics(errors) <==> e in errors
  {
    hide Sort;
    UniqueKeeps(errors);
    SortLists(Unique(errors), ByError);
  }

  // ---- Two documents under one key ----

  /** The reference pins the content of the target. */
  ghost predicate IsPinOf(citing: Document, found: FoundRef, target: Document) {
    found in FoundRefs(citing) && RefKey(found.ref) == DocumentKey(target) &&
    "digest" in found.ref.members && found.ref.members["digest"] == Str(ContractDigest(target))
  }

  function PinError(citing: Document, found: FoundRef, target: Document): SetError {
    SetError(RefDigestMismatch, DocumentKey(citing), found.path + "/digest", DocumentKey(target))
  }

  lemma {:induction false} InRefReport(refs: seq<FoundRef>, owner: Key, index: Index, rules: Rules, e: SetError)
    requires forall i | 0 <= i < |refs| :: IsRef(refs[i].ref)
    ensures e in RefReport(refs, owner, index, rules) <==> exists i :: 0 <= i < |refs| && e in RefErrors(refs[i].ref, refs[i].path, owner, index, rules)
  {
    hide RefErrors;
    if |refs| > 0 {
      InRefReport(refs[..|refs| - 1], owner, index, rules, e);
    }
  }

  lemma {:induction false} InDocumentReports(some: seq<Document>, documents: seq<Document>, rules: Rules, e: SetError)
    ensures e in DocumentReports(some, documents, rules) <==> exists i :: 0 <= i < |some| && e in DocumentReport(some[i], documents, rules)
  {
    hide DocumentReport;
    if |some| > 0 {
      InDocumentReports(some[..|some| - 1], documents, rules, e);
    }
  }

  lemma DigestErrors(ref: Json, path: string, owner: Key, index: Index, rules: Rules, e: SetError)
    requires IsRef(ref) && e.code == RefDigestMismatch
    ensures e in RefErrors(ref, path, owner, index, rules) <==>
            RefKey(ref) in index && "digest" in ref.members && ref.members["digest"] != Str(ContractDigest(index[RefKey(ref)])) &&
            e == SetError(RefDigestMismatch, owner, path + "/digest", RefKey(ref))
  {
    hide ContractDigest, RefKey, IsRef;
  }

  lemma FoundOnce(citing: Document, found: FoundRef, other: FoundRef)
    requires found in FoundRefs(citing) && other in FoundRefs(citing) && found.path + "/digest" == other.path + "/digest"
    ensures found == other
  {
    hide CollectRefs, Lookup, IsRef;
    RefsAreExact(ToJson(citing));
    assert (found.path + "/digest")[..|found.path|] == found.path && (other.path + "/digest")[..|other.path|] == other.path;
  }

  lemma InReport(citing: Document, documents: seq<Document>, rules: Rules, e: SetError)
    requires e.code == RefDigestMismatch
    ensures e in DocumentReport(citing, documents, rules) <==> e in RefReport(FoundRefs(citing), DocumentKey(citing), IndexContracts(documents), rules)
  {
    hide IndexContracts, AllRefs, FoundRefs, DocumentKey, ChangeIsFresh, Targets, RefReport;
  }

  /** The pin is reported exactly when the document filed under the key has another content. */
  lemma PinIsChecked(citing: Document, found: FoundRef, target: Document, documents: seq<Document>, rules: Rules)
    requires IsPinOf(citing, found, target) && DocumentKey(target) in IndexContracts(documents)
    ensures PinError(citing, found, target) in DocumentReport(citing, documents, rules) <==>
            ContractDigest(IndexContracts(documents)[DocumentKey(target)]) != ContractDigest(target)
  {
    hide IndexContracts, FoundRefs, DocumentKey, ContractDigest, RefErrors, RefReport, DocumentReport, RefKey, IsRef;
    var index, owner, refs, e := IndexContracts(documents), DocumentKey(citing), FoundRefs(citing), PinError(citing, found, target);
    InReport(citing, documents, rules, e);
    InRefReport(refs, owner, index, rules, e);
    var k :| 0 <= k < |refs| && refs[k] == found;
    DigestErrors(found.ref, found.path, owner, index, rules, e);
    if e in RefReport(refs, owner, index, rules) {
      var i :| 0 <= i < |refs| && e in RefErrors(refs[i].ref, refs[i].path, owner, index, rules);
      DigestErrors(refs[i].ref, refs[i].path, owner, index, rules, e);
      FoundOnce(citing, found, refs[i]);
    }
  }

  /** Errors of one document name it. */
  lemma OwnersAreDocuments(d: Document, documents: seq<Document>, rules: Rules, e: SetError)
    requires e in DocumentReport(d, documents, rules)
    ensures e.owner == DocumentKey(d)
  {
    hide IndexContracts, AllRefs, FoundRefs, DocumentKey, ChangeIsFresh, Targets, RefErrors, RefReport;
    var index, owner, refs := IndexContracts(documents), DocumentKey(d), FoundRefs(d);
    if e in RefReport(refs, owner, index, rules) {
      InRefReport(refs, owner, index, rules, e);
      var i :| 0 <= i < |refs| && e in RefErrors(refs[i].ref, refs[i].path, owner, index, rules);
      RefErrorsNameOwner(refs[i].ref, refs[i].path, owner, index, rules, e);
    }
  }

  lemma RefErrorsNameOwner(ref: Json, path: string, owner: Key, index: Index, rules: Rules, e: SetError)
    requires IsRef(ref) && e in RefErrors(ref, path, owner, index, rules)
    ensures e.owner == owner
  {
    hide ContractDigest;
  }

  lemma {:induction false} FirstPhaseCodes(inputs: seq<Document>, rules: Rules, e: SetError)
    requires e in EntryReport(inputs, rules)
    ensures e.code == InvalidContract || e.code == DuplicateContract
  {
    hide DocumentKey, KeySet;
    if e in EntryReport(inputs[..|inputs| - 1], rules) {
      FirstPhaseCodes(inputs[..|inputs| - 1], rules, e);
    }
  }

  /** The set reports a mismatch of the citing document exactly when checking that document against the entries does. */
  lemma MismatchOfSet(inputs: seq<Document>, rules: Rules, citing: Document, e: SetError)
    requires citing in EntriesOf(inputs, rules) && e.code == RefDigestMismatch && e.owner == DocumentKey(citing)
    ensures e in ReportOf(inputs, rules) <==> e in DocumentReport(citing, EntriesOf(inputs, rules), rules)
  {
    hide EntryReport, DocumentReport, DocumentReports, EntriesOf, DocumentKey, Systems;
    var entries := EntriesOf(inputs, rules);
    KeptOfSet(inputs, rules);
    InDocumentReports(entries, entries, rules, e);
    if e in ReportOf(inputs, rules) {
      if e in EntryReport(inputs, rules) { FirstPhaseCodes(inputs, rules, e); }
      var i :| 0 <= i < |entries| && e in DocumentReport(entries[i], entries, rules);
      OwnersAreDocuments(entries[i], entries, rules, e);
      assert entries[i] in entries;
    }
    if e in DocumentReport(citing, entries, rules) {
      var i :| 0 <= i < |entries| && entries[i] == citing;
    }
  }

  lemma ReadablePair(first: Document, second: Document, rest: seq<Document>, rules: Rules)
    requires rules.readable(first) && rules.readable(second)
    ensures Readable([first, second] + rest, rules) == [first, second] + Readable(rest, rules)
  {
    hide Readable;
    assert [first, second] + rest == [first] + ([second] + rest);
    ReadableFirst(first, [second] + rest, rules);
    ReadableFirst(second, rest, rules);
  }

  /** Of two documents under one key that come first, the first is kept, and what else is kept does not depend on which it is. */
  lemma PairIsKept(first: Document, second: Document, rest: seq<Document>, citing: Document)
    requires DocumentKey(first) == DocumentKey(second) != DocumentKey(citing) && citing in Entries([first, second] + rest)
    ensures first in Entries([first, second] + rest) && second in Entries([second, first] + rest) && citing in Entries([second, first] + rest)
  {
    hide DocumentKey, Entries, KeySet, NoRepeatedKey;
    var a, b := [first, second] + rest, [second, first] + rest;
    assert a == [first] + ([second] + rest) && b == [second] + ([first] + rest);
    FirstIsKept(first, [second] + rest);
    FirstIsKept(second, [first] + rest);
    EntriesAreFirst(a);
    EntriesAreFirst(b);
    var i :| 0 <= i < |a| && a[i] == citing && IsFirstOfKey(a, i);
    assert i >= 2 && b[i] == citing;
    forall j | 0 <= j < i ensures DocumentKey(b[j]) != DocumentKey(b[i]) {
      if j >= 2 { assert b[j] == a[j]; }
    }
    assert IsFirstOfKey(b, i);
  }

  /**
   * Two readable documents that differ under one key make the order show, whatever else is
   * in the set: a document that pins the first of them, anywhere in it, is reported exactly
   * when the other one comes first.
   */
  lemma ConflictShowsOrder(first: Document, second: Document, rest: seq<Document>, citing: Document, found: FoundRef, rules: Rules)
    requires rules.readable(first) && rules.readable(second)
    requires DocumentKey(first) == DocumentKey(second) != DocumentKey(citing) && ContractDigest(first) != ContractDigest(second)
    requires citing in EntriesOf([first, second] + rest, rules) && IsPinOf(citing, found, first)
    ensures PinError(citing, found, first) !in ReportOf([first, second] + rest, rules)
    ensures PinError(citing, found, first) in ReportOf([second, first] + rest, rules)
  {
    hide ReportOf, DocumentReport, DocumentKey, ContractDigest, EntriesOf, Entries, Readable, IsPinOf, IndexContracts;
    var a, b := [first, second] + rest, [second, first] + rest;
    ReadablePair(first, second, rest, rules);
    ReadablePair(second, first, rest, rules);
    KeptOfSet(a, rules);
    KeptOfSet(b, rules);
    PairIsKept(first, second, Readable(rest, rules), citing);
    MismatchByKept(a, first, first, citing, found, rules);
    MismatchByKept(b, second, first, citing, found, rules);
  }

  lemma MismatchByKept(inputs: seq<Document>, kept: Document, target: Document, citing: Document, found: FoundRef, rules: Rules)
    requires DocumentKey(kept) == DocumentKey(target) && kept in EntriesOf(inputs, rules) && citing in EntriesOf(inputs, rules)
    requires IsPinOf(citing, found, target)
    ensures PinError(citing, found, target) in ReportOf(inputs, rules) <==> ContractDigest(kept) != ContractDigest(target)
  {
    hide ReportOf, DocumentReport, DocumentKey, ContractDigest, EntriesOf, IsPinOf, IndexContracts;
    KeptOfSet(inputs, rules);
    IndexFinds(EntriesOf(inputs, rules), kept);
    MismatchOfSet(inputs, rules, citing, PinError(citing, found, target));
    PinIsChecked(citing, found, target, EntriesOf(inputs, rules), rules);
  }
}
