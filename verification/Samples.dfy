/** Documents with the envelope and the members that the published schemas require, and the references they hold. */
module Samples {
  import opened Wrappers
  import opened Text
  import opened Json
  import opened JsonPointer
  import opened Refs
  import opened Identity
  import opened ContractSet

  const API_VERSION := "foundation.enistere.com/v1alpha1"

  // ---- Parts ----

  function Actor(kind: string, id: string): Json {
    Object(map["type" := Str(kind), "id" := Str(id)])
  }

  function Provenance(origin: string, actor: Json): Json {
    Object(map["origin" := Str(origin), "actor" := actor])
  }

  const OWNER := Actor("HUMAN", "ana")

  const ACCEPTANCE := Object(map["decision" := Str("ACCEPTED"), "authority" := Str("DECIDE"), "actor" := OWNER, "at" := Str("2026-01-05T09:00:00Z")])

  /** Metadata of a contract that a person wrote and accepted. */
  function Accepted(title: string, provenance: Json): Metadata {
    map["title" := Str(title), "provenance" := provenance, "acceptance" := ACCEPTANCE]
  }

  function Produced(title: string, provenance: Json): Metadata {
    map["title" := Str(title), "provenance" := provenance]
  }

  // ---- Documents ----

  function RequirementJson(statement: string): Json {
    Object(map["id" := Str("R-1"), "type" := Str("SECURITY"), "statement" := Str(statement), "priority" := Str("MUST"), "status" := Str("ACCEPTED")])
  }

  /** A requirement baseline with one requirement. */
  function BaselineOf(statement: string): Document {
    Document(API_VERSION, RequirementBaseline, "shop-requirements", 1, "ACCEPTED", Accepted("Shop requirements", Provenance("HUMAN", OWNER)),
             Object(map["system" := Str("shop"), "sources" := Array([]), "goals" := Array([]), "actors" := Array([]),
               "requirements" := Array([RequirementJson(statement)]), "ambiguities" := Array([])]))
  }

  const BASELINE := BaselineOf("Every call is authenticated.")

  const REWRITTEN := BaselineOf("Every write is authenticated.")

  function OptionJson(id: string, summary: string): Json {
    Object(map["id" := Str(id), "summary" := Str(summary)])
  }

  const DECISION := Object(map["id" := Str("D-1"), "title" := Str("Sign-in"), "category" := Str("SECURITY"), "status" := Str("ACCEPTED"),
    "context" := Str("Calls are authenticated."), "drivers" := Array([Str("R-1")]),
    "options" := Array([OptionJson("tokens", "Bearer tokens"), OptionJson("sessions", "Sessions")]),
    "chosenOption" := Str("tokens"), "rationale" := Str("No shared state.")])

  /** Decisions taken on a baseline, which they pin. */
  const DECISIONS := Document(API_VERSION, DecisionSet, "shop-decisions", 1, "ACCEPTED", Accepted("Shop decisions", Provenance("HUMAN", OWNER)),
                              Object(map["system" := Str("shop"), "requirementBaseline" := PinnedTo(BASELINE), "decisions" := Array([DECISION])]))

  const LAYER := Object(map["id" := Str("org"), "scope" := Str("ORGANIZATION"), "precedence" := NumberOf(0),
    "source" := Object(map["type" := Str("PolicyPack"), "id" := Str("org"), "version" := Str("1")]), "rules" := Array([])])

  const DERIVATION := Object(map["algorithm" := Str("foundation.effective-organization-context"), "version" := Str("1")])

  /** A context of one layer without rules. */
  const CONTEXT := Document(API_VERSION, EffectiveOrganizationContext, "shop-context", 1, "CURRENT",
                            Produced("Shop context", Provenance("COMPILER", Actor("COMPILER", "kernel"))),
                            Object(map["system" := Str("shop"), "derivation" := DERIVATION, "layers" := Array([LAYER]), "waivers" := Array([]), "effective" := Array([])]))

  const OBLIGATION := Object(map["id" := Str("O-1"), "statement" := Str("The baseline was reviewed."), "source" := PinnedTo(BASELINE)])

  const CHECKER := Object(map["id" := Str("review"), "version" := Str("1"), "mode" := Str("HUMAN_REVIEW")])

  const ENVIRONMENT := Object(map["id" := Str("office"), "kind" := Str("LOCAL")])

  /** Evidence that the baseline was reviewed. */
  const REVIEW := Document(API_VERSION, EvidenceRecord, "shop-review", 1, "VALID", Produced("Review of the requirements", Provenance("HUMAN", OWNER)),
                           Object(map["system" := Str("shop"), "subject" := Object(map["contract" := PinnedTo(BASELINE)]), "obligation" := OBLIGATION,
                             "checker" := CHECKER, "producedBy" := OWNER, "environment" := ENVIRONMENT, "result" := Str("PASS"),
                             "observedAt" := Str("2026-01-05T09:00:00Z"), "inputs" := Array([PinnedTo(BASELINE)]), "artifacts" := Array([])]))

  function InputsJson(baseline: Json, decisions: Json, context: Json): Json {
    Object(map["requirementBaseline" := baseline, "decisionSet" := decisions, "organizationContext" := context, "domainContracts" := Array([])])
  }

  const INPUTS := InputsJson(PinnedTo(BASELINE), PinnedTo(DECISIONS), PinnedTo(CONTEXT))

  const COMPONENT := Object(map["id" := Str("api"), "name" := Str("API"), "kind" := Str("api-service"), "responsibilities" := Array([Str("Serves the shop.")]),
    "ownership" := Object(map["class" := Str("COMPILER_OWNED"), "team" := Str("shop")])])

  const PRODUCTION := Object(map["id" := Str("production"), "kind" := Str("PRODUCTION"), "deploymentMode" := Str("SAAS")])

  function Derived(pin: Json): Json {
    Object(map["origin" := Str("HUMAN"), "actor" := OWNER, "derivedFrom" := Array([pin])])
  }

  const FROM_REVIEW := Derived(PinnedTo(REVIEW))

  function DefinitionSpec(inputs: Json): Json {
    Object(map["system" := Str("shop"), "purpose" := Str("Sells things."), "inputs" := inputs, "components" := Array([COMPONENT]),
      "integrations" := Array([]), "environments" := Array([PRODUCTION])])
  }

  /** A definition derived from the review, as its provenance says. */
  const REVIEWED := Document(API_VERSION, SystemDefinition, "shop", 1, "ACCEPTED", Accepted("Shop", FROM_REVIEW), DefinitionSpec(INPUTS))

  const REVIEWED_SET := [BASELINE, DECISIONS, CONTEXT, REVIEW, REVIEWED]

  // ---- References ----

  /** Every reference in the value is one of these. */
  ghost predicate RefsWithin(v: Json, allowed: set<Json>)
    decreases v
  {
    (IsRef(v) ==> v in allowed) &&
    match v
    case Array(items) => forall i | 0 <= i < |items| :: RefsWithin(items[i], allowed)
    case Object(members) => forall k | k in members :: RefsWithin(members[k], allowed)
    case _ => true
  }

  lemma {:induction false} FoundWithin(v: Json, allowed: set<Json>, route: seq<string>)
    requires RefsWithin(v, allowed) && IsRefAt(v, route)
    ensures Lookup(v, route).value in allowed
    decreases |route|
  {
    hide IsRef;
    if |route| > 0 {
      FoundWithin(Child(v, route[0]).value, allowed, route[1..]);
    }
  }

  lemma CollectedWithin(d: Document, allowed: set<Json>)
    requires RefsWithin(ToJson(d), allowed)
    ensures forall r | r in AllRefs(d) :: r in allowed
  {
    hide ToJson, CollectRefs, Lookup, IsRef, Decode, Encode, RefsWithin;
    RefsAreExact(ToJson(d));
    var all := CollectRefs(ToJson(d), "");
    forall k | 0 <= k < |all|
      ensures all[k].ref in allowed
    {
      assert all[k] in all;
      FoundWithin(ToJson(d), allowed, Decode(all[k].path));
    }
  }

  lemma PinWithin(d: Document, allowed: set<Json>)
    requires PinnedTo(d) in allowed
    ensures RefsWithin(PinnedTo(d), allowed)
  {
    hide KindName, Decimal, ContractDigest;
  }

  lemma LeafWithin(v: Json, allowed: set<Json>)
    requires !IsContainer(v)
    ensures RefsWithin(v, allowed)
  {
    hide IsKindName;
  }

  lemma ListWithin(items: seq<Json>, allowed: set<Json>)
    requires forall i | 0 <= i < |items| :: RefsWithin(items[i], allowed)
    ensures RefsWithin(Array(items), allowed)
  {
    hide IsKindName;
  }

  /** An object that lacks a member of references holds those of its members. */
  lemma ObjectWithin(members: map<string, Json>, allowed: set<Json>)
    requires "kind" !in members || "id" !in members || "revision" !in members
    requires forall k | k in members :: IsContainer(members[k]) ==> RefsWithin(members[k], allowed)
    ensures RefsWithin(Object(members), allowed)
  {
    hide IsKindName, RefsWithin;
    forall k | k in members
      ensures RefsWithin(members[k], allowed)
    {
      if !IsContainer(members[k]) { LeafWithin(members[k], allowed); }
    }
    assert RefsWithin(Object(members), allowed) by { MembersWithin(members, allowed); }
  }

  lemma MembersWithin(members: map<string, Json>, allowed: set<Json>)
    requires "kind" !in members || "id" !in members || "revision" !in members
    requires forall k | k in members :: RefsWithin(members[k], allowed)
    ensures RefsWithin(Object(members), allowed)
  {
    hide IsKindName;
  }

  lemma ActorWithin(kind: string, id: string, allowed: set<Json>)
    ensures RefsWithin(Actor(kind, id), allowed)
  {
    hide RefsWithin;
    ObjectWithin(Actor(kind, id).members, allowed);
  }

  lemma ProvenanceWithin(origin: string, kind: string, id: string, allowed: set<Json>)
    ensures RefsWithin(Provenance(origin, Actor(kind, id)), allowed)
  {
    hide RefsWithin, Actor;
    ActorWithin(kind, id, allowed);
    ObjectWithin(Provenance(origin, Actor(kind, id)).members, allowed);
  }

  lemma AcceptanceWithin(allowed: set<Json>)
    ensures RefsWithin(ACCEPTANCE, allowed)
  {
    hide RefsWithin, Actor;
    ActorWithin("HUMAN", "ana", allowed);
    ObjectWithin(ACCEPTANCE.members, allowed);
  }

  /** The references of a document are those of its spec and of its metadata. */
  lemma DocumentWithin(d: Document, allowed: set<Json>)
    requires "kind" !in d.metadata && RefsWithin(d.spec, allowed)
    requires forall k | k in d.metadata :: IsContainer(d.metadata[k]) ==> RefsWithin(d.metadata[k], allowed)
    ensures forall r | r in AllRefs(d) :: r in allowed
  {
    hide RefsWithin, KindName, Decimal, AllRefs;
    var metadata := d.metadata + map["id" := Str(d.id), "revision" := NumberOf(d.revision), "status" := Str(d.status)];
    ObjectWithin(metadata, allowed);
    ObjectWithin(ToJson(d).members, allowed);
    CollectedWithin(d, allowed);
  }

  lemma AcceptedWithin(title: string, provenance: Json, allowed: set<Json>)
    requires RefsWithin(provenance, allowed)
    ensures var m := Accepted(title, provenance); "kind" !in m && forall k | k in m :: IsContainer(m[k]) ==> RefsWithin(m[k], allowed)
  {
    hide RefsWithin;
    AcceptanceWithin(allowed);
  }

  lemma ProducedWithin(title: string, provenance: Json, allowed: set<Json>)
    requires RefsWithin(provenance, allowed)
    ensures var m := Produced(title, provenance); "kind" !in m && forall k | k in m :: IsContainer(m[k]) ==> RefsWithin(m[k], allowed)
  {
    hide RefsWithin;
  }

  lemma BaselineHoldsNone(statement: string)
    ensures AllRefs(BaselineOf(statement)) == []
  {
    hide RefsWithin, Actor, Provenance, Accepted, RequirementJson, AllRefs;
    var d := BaselineOf(statement);
    ProvenanceWithin("HUMAN", "HUMAN", "ana", {});
    AcceptedWithin("Shop requirements", Provenance("HUMAN", OWNER), {});
    RequirementWithin(statement);
    ListWithin([], {});
    ListWithin([RequirementJson(statement)], {});
    ObjectWithin(d.spec.members, {});
    DocumentWithin(d, {});
    if AllRefs(d) != [] { SomeRef(AllRefs(d)); }
  }

  lemma SomeRef(refs: seq<Json>)
    requires refs != []
    ensures exists r :: r in refs
  {
    assert refs[0] in refs;
  }

  lemma RequirementWithin(statement: string)
    ensures RefsWithin(RequirementJson(statement), {})
  {
    hide RefsWithin;
    ObjectWithin(RequirementJson(statement).members, {});
  }

  lemma DecisionWithin(allowed: set<Json>)
    ensures RefsWithin(DECISION, allowed)
  {
    hide RefsWithin;
    var options := [OptionJson("tokens", "Bearer tokens"), OptionJson("sessions", "Sessions")];
    ObjectWithin(options[0].members, allowed);
    ObjectWithin(options[1].members, allowed);
    ListWithin(options, allowed);
    LeafWithin(Str("R-1"), allowed);
    ListWithin([Str("R-1")], allowed);
    ObjectWithin(DECISION.members, allowed);
  }

  lemma DecisionsPinBaseline()
    ensures forall r | r in AllRefs(DECISIONS) :: r == PinnedTo(BASELINE)
  {
    hide RefsWithin, Actor, Provenance, Accepted, PinnedTo, BaselineOf, AllRefs;
    var allowed := {PinnedTo(BASELINE)};
    ProvenanceWithin("HUMAN", "HUMAN", "ana", allowed);
    AcceptedWithin("Shop decisions", Provenance("HUMAN", OWNER), allowed);
    PinWithin(BASELINE, allowed);
    DecisionWithin(allowed);
    ListWithin([DECISION], allowed);
    ObjectWithin(DECISIONS.spec.members, allowed);
    DocumentWithin(DECISIONS, allowed);
  }

  lemma ContextHoldsNone()
    ensures AllRefs(CONTEXT) == []
  {
    hide RefsWithin, Actor, Provenance, Produced, AllRefs, Decimal;
    ProvenanceWithin("COMPILER", "COMPILER", "kernel", {});
    ProducedWithin("Shop context", Provenance("COMPILER", Actor("COMPILER", "kernel")), {});
    ListWithin([], {});
    ObjectWithin(LAYER.members["source"].members, {});
    ObjectWithin(LAYER.members, {});
    ListWithin([LAYER], {});
    ObjectWithin(DERIVATION.members, {});
    ObjectWithin(CONTEXT.spec.members, {});
    DocumentWithin(CONTEXT, {});
    if AllRefs(CONTEXT) != [] { SomeRef(AllRefs(CONTEXT)); }
  }

  lemma ReviewPinsBaseline()
    ensures forall r | r in AllRefs(REVIEW) :: r == PinnedTo(BASELINE)
  {
    hide RefsWithin, Actor, Provenance, Produced, PinnedTo, BaselineOf, AllRefs;
    var allowed := {PinnedTo(BASELINE)};
    ProvenanceWithin("HUMAN", "HUMAN", "ana", allowed);
    ProducedWithin("Review of the requirements", Provenance("HUMAN", OWNER), allowed);
    PinWithin(BASELINE, allowed);
    ObjectWithin(map["contract" := PinnedTo(BASELINE)], allowed);
    ObjectWithin(OBLIGATION.members, allowed);
    ObjectWithin(CHECKER.members, allowed);
    ObjectWithin(ENVIRONMENT.members, allowed);
    ActorWithin("HUMAN", "ana", allowed);
    ListWithin([], allowed);
    ListWithin([PinnedTo(BASELINE)], allowed);
    ObjectWithin(REVIEW.spec.members, allowed);
    DocumentWithin(REVIEW, allowed);
  }

  const PINS := {PinnedTo(BASELINE), PinnedTo(DECISIONS), PinnedTo(CONTEXT), PinnedTo(REVIEW)}

  lemma ComponentWithin(allowed: set<Json>)
    ensures RefsWithin(COMPONENT, allowed)
  {
    hide RefsWithin;
    LeafWithin(Str("Serves the shop."), allowed);
    ListWithin([Str("Serves the shop.")], allowed);
    ObjectWithin(COMPONENT.members["ownership"].members, allowed);
    ObjectWithin(COMPONENT.members, allowed);
  }

  lemma InputsJsonWithin(baseline: Json, decisions: Json, context: Json, allowed: set<Json>)
    requires RefsWithin(baseline, allowed) && RefsWithin(decisions, allowed) && RefsWithin(context, allowed)
    ensures RefsWithin(InputsJson(baseline, decisions, context), allowed)
  {
    hide RefsWithin;
    ListWithin([], allowed);
    ObjectWithin(InputsJson(baseline, decisions, context).members, allowed);
  }

  lemma InputsWithin()
    ensures RefsWithin(INPUTS, PINS)
  {
    hide RefsWithin, PinnedTo, BaselineOf, Accepted, Produced, Provenance, InputsJson;
    PinWithin(BASELINE, PINS);
    PinWithin(DECISIONS, PINS);
    PinWithin(CONTEXT, PINS);
    InputsJsonWithin(PinnedTo(BASELINE), PinnedTo(DECISIONS), PinnedTo(CONTEXT), PINS);
  }

  lemma DerivedWithin(pin: Json, allowed: set<Json>)
    requires RefsWithin(pin, allowed)
    ensures RefsWithin(Derived(pin), allowed)
  {
    hide RefsWithin, Actor;
    ListWithin([pin], allowed);
    ActorWithin("HUMAN", "ana", allowed);
    ObjectWithin(Derived(pin).members, allowed);
  }

  lemma FromReviewWithin()
    ensures RefsWithin(FROM_REVIEW, PINS)
  {
    hide RefsWithin, PinnedTo, BaselineOf, Derived, Produced, Provenance;
    PinWithin(REVIEW, PINS);
    DerivedWithin(PinnedTo(REVIEW), PINS);
  }

  lemma PartsWithin(allowed: set<Json>)
    ensures RefsWithin(Array([COMPONENT]), allowed) && RefsWithin(Array([PRODUCTION]), allowed) && RefsWithin(Array([]), allowed)
  {
    hide RefsWithin;
    ComponentWithin(allowed);
    ListWithin([COMPONENT], allowed);
    ListWithin([], allowed);
    ObjectWithin(PRODUCTION.members, allowed);
    ListWithin([PRODUCTION], allowed);
  }

  lemma DefinitionSpecWithin(inputs: Json, allowed: set<Json>)
    requires RefsWithin(inputs, allowed)
    ensures RefsWithin(DefinitionSpec(inputs), allowed)
  {
    hide RefsWithin;
    PartsWithin(allowed);
    ObjectWithin(DefinitionSpec(inputs).members, allowed);
  }

  lemma DefinitionMetadataWithin(allowed: set<Json>)
    requires RefsWithin(FROM_REVIEW, allowed)
    ensures var m := REVIEWED.metadata; "kind" !in m && forall k | k in m :: IsContainer(m[k]) ==> RefsWithin(m[k], allowed)
  {
    hide RefsWithin, Accepted, PinnedTo;
    AcceptedWithin("Shop", FROM_REVIEW, allowed);
  }

  lemma DefinitionPins()
    ensures forall r | r in AllRefs(REVIEWED) :: r in PINS
  {
    hide RefsWithin, PinnedTo, BaselineOf, AllRefs, DefinitionSpec;
    FromReviewWithin();
    InputsWithin();
    DefinitionSpecWithin(INPUTS, PINS);
    DefinitionMetadataWithin(PINS);
    DocumentWithin(REVIEWED, PINS);
  }

  /** Where the decisions pin the baseline. */
  function BaselinePin(): FoundRef {
    FoundRef(PinnedTo(BASELINE), Encode(["spec", "requirementBaseline"]))
  }

  lemma DecisionsAt()
    ensures Lookup(ToJson(DECISIONS), ["spec", "requirementBaseline"]) == Some(PinnedTo(BASELINE))
  {
    hide PinnedTo, BaselineOf, Accepted, KindName, Decimal, Lookup;
    NoStep();
    Descend(ToJson(DECISIONS).members, "spec", ["requirementBaseline"]);
    Descend(DECISIONS.spec.members, "requirementBaseline", []);
    assert ["spec"] + ["requirementBaseline"] == ["spec", "requirementBaseline"] && ["requirementBaseline"] + [] == ["requirementBaseline"];
  }

  /** A reference of a document is found along with its pointer. */
  lemma FoundAt(d: Document, route: seq<string>, ref: Json)
    requires Lookup(ToJson(d), route) == Some(ref) && IsRef(ref)
    ensures FoundRef(ref, Encode(route)) in FoundRefs(d)
  {
    hide ToJson, CollectRefs, Lookup, IsRef, Encode, Decode;
    RefsAreExact(ToJson(d));
    assert IsRefAt(ToJson(d), route);
  }

  lemma BaselinePinIsFound()
    ensures BaselinePin() in FoundRefs(DECISIONS)
  {
    hide PinnedTo, BaselineOf, ToJson, FoundRefs, Lookup, IsRef, Encode;
    DecisionsAt();
    PinIsRef(BASELINE);
    FoundAt(DECISIONS, ["spec", "requirementBaseline"], PinnedTo(BASELINE));
  }

  lemma StatementIsContent(a: string, b: string)
    requires a != b
    ensures DocumentKey(BaselineOf(a)) == DocumentKey(BaselineOf(b)) && ContractDigest(BaselineOf(a)) != ContractDigest(BaselineOf(b))
  {
    hide ContractDigest, Accepted, KindName, Decimal;
    DigestIdentifiesContent(BaselineOf(a), BaselineOf(b));
    assert BaselineOf(a).spec.members["requirements"].items[0] == RequirementJson(a);
    assert BaselineOf(b).spec.members["requirements"].items[0] == RequirementJson(b);
    assert RequirementJson(a).members["statement"] == Str(a) && RequirementJson(b).members["statement"] == Str(b);
  }

  lemma BaselinesDiffer()
    ensures DocumentKey(BASELINE) == DocumentKey(REWRITTEN) != DocumentKey(DECISIONS) && ContractDigest(BASELINE) != ContractDigest(REWRITTEN)
  {
    hide ContractDigest, DocumentKey, Accepted, RequirementJson, PinnedTo;
    assert "Every call is authenticated."[6] == 'c' && "Every write is authenticated."[6] == 'w';
    StatementIsContent("Every call is authenticated.", "Every write is authenticated.");
    OtherKind(BASELINE, DECISIONS);
  }

  lemma OtherKind(a: Document, b: Document)
    requires a.kind != b.kind
    ensures DocumentKey(a) != DocumentKey(b)
  {
    hide DocumentKey;
    if DocumentKey(a) == DocumentKey(b) { KeyTellsKind(a, b); }
  }
}
