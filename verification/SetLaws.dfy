/** What the report on a set says of its references and change bases, on the documents alone. */
module SetLaws {
  import opened Wrappers
  import opened Text
  import opened Json
  import opened JsonPointer
  import opened Refs
  import opened Identity
  import opened ContractSet

  ghost predicate HasRef(d: Document, route: seq<string>, ref: Json) {
    IsRef(ref) && Lookup(ToJson(d), route) == Some(ref)
  }

  predicate IsRefCode(code: Code) {
    code.RefUnresolved? || code.RefDigestMismatch? || code.RefItemUnresolved?
  }

  /** What is wrong with the reference: no document of the set has its key, or that one has another digest or no such item. */
  ghost predicate IsBroken(code: Code, ref: Json, documents: seq<Document>, rules: Rules)
    requires IsRef(ref) && IsRefCode(code)
  {
    match code
    case RefUnresolved => forall t | t in documents :: DocumentKey(t) != RefKey(ref)
    case RefDigestMismatch =>
      exists t :: t in documents && DocumentKey(t) == RefKey(ref) && "digest" in ref.members && ref.members["digest"] != Str(ContractDigest(t))
    case RefItemUnresolved =>
      exists t :: t in documents && DocumentKey(t) == RefKey(ref) && "item" in ref.members && forall x | x in rules.items(t) :: ref.members["item"] != Str(x)
  }

  /** The member of the reference an error is reported at. */
  function Member(code: Code): string
    requires IsRefCode(code)
  {
    match code
    case RefUnresolved => ""
    case RefDigestMismatch => "/digest"
    case RefItemUnresolved => "/item"
  }

  lemma TargetIsDocument(documents: seq<Document>, key: Key)
    requires NoRepeatedKey(documents)
    ensures key in IndexContracts(documents) <==> exists t :: t in documents && DocumentKey(t) == key
    ensures forall t | t in documents && DocumentKey(t) == key :: key in IndexContracts(documents) && IndexContracts(documents)[key] == t
  {
    hide DocumentKey, IndexContracts;
    ValidHasOnePerKey(documents);
    forall t | t in documents && DocumentKey(t) == key
      ensures key in IndexContracts(documents) && IndexContracts(documents)[key] == t
    {
      IndexFinds(documents, t);
    }
  }

  lemma RefErrorsSay(ref: Json, path: string, owner: Key, documents: seq<Document>, rules: Rules, e: SetError)
    requires NoRepeatedKey(documents) && IsRef(ref)
    ensures e in RefErrors(ref, path, owner, IndexContracts(documents), rules) <==>
            IsRefCode(e.code) && IsBroken(e.code, ref, documents, rules) && e == SetError(e.code, owner, path + Member(e.code), RefKey(ref))
  {
    hide DocumentKey, IndexContracts, IsRef, RefKey, NoRepeatedKey, ContractDigest;
    TargetIsDocument(documents, RefKey(ref));
    assert path + "" == path;
  }

  lemma {:induction false} RefReportSays(refs: seq<FoundRef>, owner: Key, documents: seq<Document>, rules: Rules, e: SetError)
    requires NoRepeatedKey(documents) && forall i | 0 <= i < |refs| :: IsRef(refs[i].ref)
    ensures e in RefReport(refs, owner, IndexContracts(documents), rules) <==>
            exists f :: f in refs && e in RefErrors(f.ref, f.path, owner, IndexContracts(documents), rules)
  {
    hide RefErrors, IndexContracts, NoRepeatedKey, IsRef;
    if |refs| > 0 {
      var n := |refs| - 1;
      RefReportSays(refs[..n], owner, documents, rules, e);
      assert refs == refs[..n] + [refs[n]];
    }
  }

  lemma FoundIn(v: Json, f: FoundRef)
    ensures f in CollectRefs(v, "") <==> IsRef(f.ref) && exists route :: Lookup(v, route) == Some(f.ref) && f.path == Encode(route)
  {
    hide IsRef, CollectRefs, Encode, Lookup;
    CollectIsExact(v, "");
    var all := CollectRefs(v, "");
    if f in all {
      var route :| FoundAlong(v, "", f, route);
      assert "" + Encode(route) == Encode(route);
    }
    if IsRef(f.ref) {
      if route :| Lookup(v, route) == Some(f.ref) && f.path == Encode(route) {
        assert IsRefAt(v, route);
        assert "" + Encode(route) == f.path;
        assert FoundRef(Lookup(v, route).value, "" + Encode(route)) in all;
      }
    }
  }

  lemma RefsOfDocument(d: Document, f: FoundRef)
    ensures f in FoundRefs(d) <==> IsRef(f.ref) && exists route :: Lookup(ToJson(d), route) == Some(f.ref) && f.path == Encode(route)
  {
    hide IsRef, CollectRefs, Encode, Lookup, ToJson, AllRefs;
    FoundIn(ToJson(d), f);
  }

  /**
   * The errors about references are exactly these: for every reference-shaped object
   * anywhere in the document, that no document has its key, that the document with its key
   * has another digest than it pins, that it names no item of that document.
   */
  lemma RefErrorsAreExact(d: Document, documents: seq<Document>, rules: Rules, e: SetError)
    requires NoRepeatedKey(documents) && IsRefCode(e.code)
    ensures e in DocumentReport(d, documents, rules) <==>
            exists route, ref :: HasRef(d, route, ref) && IsBroken(e.code, ref, documents, rules) &&
                                 e == SetError(e.code, DocumentKey(d), Encode(route) + Member(e.code), RefKey(ref))
  {
    hide RefErrors, IndexContracts, NoRepeatedKey, IsRef, DocumentKey, RefKey, FoundRefs, AllRefs, Targets, ToJson, RefReport, ChangeIsFresh, IsBroken, Encode, Lookup;
    var refs, owner, index := FoundRefs(d), DocumentKey(d), IndexContracts(documents);
    DocumentReportParts(d, documents, rules);
    OtherFindings(d, documents, rules, e);
    RefReportSays(refs, owner, documents, rules, e);
    if e in DocumentReport(d, documents, rules) {
      var f :| f in refs && e in RefErrors(f.ref, f.path, owner, index, rules);
      RefsOfDocument(d, f);
      RefErrorsSay(f.ref, f.path, owner, documents, rules, e);
      var route :| Lookup(ToJson(d), route) == Some(f.ref) && f.path == Encode(route);
      assert HasRef(d, route, f.ref);
    }
    if route, ref :| HasRef(d, route, ref) && IsBroken(e.code, ref, documents, rules) &&
                     e == SetError(e.code, DocumentKey(d), Encode(route) + Member(e.code), RefKey(ref)) {
      var f := FoundRef(ref, Encode(route));
      RefIsFound(d, route, ref);
      RefErrorsSay(ref, f.path, owner, documents, rules, e);
      assert e in RefErrors(f.ref, f.path, owner, index, rules);
    }
  }

  lemma RefIsFound(d: Document, route: seq<string>, ref: Json)
    requires HasRef(d, route, ref)
    ensures FoundRef(ref, Encode(route)) in FoundRefs(d)
  {
    hide IsRef, Encode, FoundRefs, Lookup, ToJson;
    RefsOfDocument(d, FoundRef(ref, Encode(route)));
  }

  lemma OtherFindings(d: Document, documents: seq<Document>, rules: Rules, e: SetError)
    requires IsRefCode(e.code)
    ensures e !in Findings(CrossRuleBroken, DocumentKey(d), rules.crossFindings(d, Targets(AllRefs(d), IndexContracts(documents))))
    ensures e in DocumentReport(d, documents, rules) <==> e in RefReport(FoundRefs(d), DocumentKey(d), IndexContracts(documents), rules)
  {
    hide IndexContracts, DocumentKey, FoundRefs, AllRefs, Targets, RefReport, ChangeIsFresh;
    DocumentReportParts(d, documents, rules);
  }

  // ---- Change bases ----

  /** The revision of a contract that counts: the current context, valid records, changes accepted or applied, and all else accepted. */
  predicate Counts(t: Document) {
    if t.status == "CURRENT" then t.kind.EffectiveOrganizationContext?
    else if t.status == "VALID" then t.kind.EvidenceRecord? || t.kind.MaterializationRecord?
    else if t.status == "APPLIED" then t.kind.ChangeRequest?
    else t.status == "ACCEPTED" && !(t.kind.EffectiveOrganizationContext? || t.kind.EvidenceRecord? || t.kind.MaterializationRecord?)
  }

  /** The change starts from the given revision of a contract. */
  ghost predicate StartsFrom(d: Document, kind: string, id: string, revision: nat) {
    exists ref :: Child(d.spec, "base") == Some(ref) && IsRef(ref) &&
                  ref.members["kind"] == Str(kind) && ref.members["id"] == Str(id) && ref.members["revision"].digits == Decimal(revision)
  }

  /**
   * A stale base is reported exactly when the change is a draft, proposed or accepted and
   * the set holds a later revision of the contract it starts from that counts.
   */
  lemma StaleBaseIsExact(d: Document, documents: seq<Document>, rules: Rules)
    ensures (exists e :: e in DocumentReport(d, documents, rules) && e.code == ChangeBaseStale) <==>
            d.kind.ChangeRequest? && (d.status == "DRAFT" || d.status == "PROPOSED" || d.status == "ACCEPTED") &&
            exists t, revision :: t in documents && Counts(t) && StartsFrom(d, KindName(t.kind), t.id, revision) && t.revision > revision
  {
    hide DocumentReport, ChangeIsFresh, Counts, KindName, StartsFrom;
    NoOtherStale(d, documents, rules);
    if !ChangeIsFresh(d, documents) {
      StaleIsUndecided(d, documents);
      StaleHasLater(d, documents);
    }
    if d.kind.ChangeRequest? && (d.status == "DRAFT" || d.status == "PROPOSED" || d.status == "ACCEPTED") {
      if t, revision :| t in documents && Counts(t) && StartsFrom(d, KindName(t.kind), t.id, revision) && t.revision > revision {
        LaterIsStale(d, documents, t, revision);
      }
    }
  }

  lemma StaleIsUndecided(d: Document, documents: seq<Document>)
    requires !ChangeIsFresh(d, documents)
    ensures d.kind.ChangeRequest? && (d.status == "DRAFT" || d.status == "PROPOSED" || d.status == "ACCEPTED")
  {
    hide InForceRevision, BaseOf;
  }

  lemma LaterIsStale(d: Document, documents: seq<Document>, t: Document, revision: nat)
    requires d.kind.ChangeRequest? && (d.status == "DRAFT" || d.status == "PROPOSED" || d.status == "ACCEPTED")
    requires t in documents && Counts(t) && StartsFrom(d, KindName(t.kind), t.id, revision) && t.revision > revision
    ensures !ChangeIsFresh(d, documents)
  {
    hide InForceRevision, BaseOf, StartsFrom, KindName;
    BaseIsStart(d, KindName(t.kind), t.id, revision);
    InForceIsHighest(documents, KindName(t.kind), t.id);
    CountsIsInForce(t);
    assert IsInForceOf(t, KindName(t.kind), t.id);
  }

  lemma StaleHasLater(d: Document, documents: seq<Document>)
    requires !ChangeIsFresh(d, documents)
    ensures exists t, revision :: t in documents && Counts(t) && StartsFrom(d, KindName(t.kind), t.id, revision) && t.revision > revision
  {
    hide IndexContracts, DocumentKey, IsRef, InForceRevision, BaseOf, StartsFrom, KindName;
    var (kind, id, revision) := BaseOf(d).value;
    InForceIsHighest(documents, kind, id);
    var t :| t in documents && IsInForceOf(t, kind, id) && t.revision == InForceRevision(documents, kind, id).value;
    CountsIsInForce(t);
    BaseIsStart(d, kind, id, revision);
  }

  lemma CountsIsInForce(t: Document)
    ensures Counts(t) <==> InForce(t)
  {}

  lemma BaseIsStart(d: Document, kind: string, id: string, revision: nat)
    ensures StartsFrom(d, kind, id, revision) <==> BaseOf(d) == Some((kind, id, revision))
  {
    hide Decimal, IsIndex, IndexValue, IsKindName;
    var base := Child(d.spec, "base");
    if base.Some? && IsRef(base.value) {
      IndexTextsAgree(base.value.members["revision"].digits, revision);
    }
  }

  lemma {:induction false} OnlyRefCodes(refs: seq<FoundRef>, owner: Key, index: Index, rules: Rules, e: SetError)
    requires forall i | 0 <= i < |refs| :: IsRef(refs[i].ref)
    requires e in RefReport(refs, owner, index, rules)
    ensures IsRefCode(e.code)
  {
    hide IsRef, ContractDigest;
    var n := |refs| - 1;
    if e in RefReport(refs[..n], owner, index, rules) {
      OnlyRefCodes(refs[..n], owner, index, rules, e);
    }
  }

  lemma NoOtherStale(d: Document, documents: seq<Document>, rules: Rules)
    ensures (exists e :: e in DocumentReport(d, documents, rules) && e.code == ChangeBaseStale) <==> !ChangeIsFresh(d, documents)
  {
    hide IndexContracts, DocumentKey, FoundRefs, AllRefs, Targets, RefReport, ChangeIsFresh;
    DocumentReportParts(d, documents, rules);
    var refs := RefReport(FoundRefs(d), DocumentKey(d), IndexContracts(documents), rules);
    forall e | e in refs ensures IsRefCode(e.code) { OnlyRefCodes(FoundRefs(d), DocumentKey(d), IndexContracts(documents), rules, e); }
    var stale := SetError(ChangeBaseStale, DocumentKey(d), "/spec/base", "");
    assert !ChangeIsFresh(d, documents) ==> stale in DocumentReport(d, documents, rules);
  }
}
