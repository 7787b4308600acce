/** Domain Contracts: type expressions, semantic rules, and the normalized Domain IR derived from an accepted contract. */
module DomainContracts {
  import opened Wrappers
  import opened Text
  import opened Sorting
  import opened Lists
  import opened Checks
  import Refs

  datatype Field = Field(name: string, typeOf: string, required: bool, sensitive: bool)

  datatype TypeKind = Entity | Value | Enum

  datatype TypeDecl = TypeDecl(id: string, kind: TypeKind, fields: seq<Field>, values: seq<string>)

  datatype OperationKind = Command | Query

  datatype Operation = Operation(
    id: string,
    kind: OperationKind,
    input: Option<string>,
    output: Option<string>,
    errors: seq<string>,
    intent: string,
    roles: seq<string>,
    emits: seq<string>,
    invariants: seq<string>,
    idempotent: bool
  )

  datatype Event = Event(id: string, version: nat, payload: string)

  datatype Invariant = Invariant(id: string, appliesTo: seq<string>, enforcement: string)

  datatype Scenario = Scenario(id: string, operations: seq<string>)

  datatype Facet = Facet(id: string, appliesTo: seq<string>)

  /** `digest` is the contract digest of the document. */
  datatype DomainContract = DomainContract(
    id: string,
    revision: nat,
    digest: string,
    boundedContext: string,
    types: seq<TypeDecl>,
    operations: seq<Operation>,
    invariants: seq<Invariant>,
    events: seq<Event>,
    acceptance: seq<Scenario>,
    facets: seq<Facet>
  )

  // ---- Type expressions ----

  const PRIMITIVES := {"string", "text", "integer", "decimal", "boolean", "date", "datetime", "uuid", "file-ref"}

  predicate IsLineTerminator(c: char) {
    c == '\n' || c == '\r' || c == '\U{2028}' || c == '\U{2029}'
  }

  /** The texts accepted by `^list<(.+)>$`. */
  predicate IsList(e: string) {
    |e| >= 7 && e[..5] == "list<" && e[|e| - 1] == '>' && forall i | 5 <= i < |e| - 1 :: !IsLineTerminator(e[i])
  }

  function ElementType(e: string): string {
    if IsList(e) then e[5..|e| - 1] else e
  }

  // ---- Semantic rules ----

  datatype DomainError =
    | DuplicateItemId(id: string)
    | UnknownType(name: string)
    | InvalidTypeShape(id: string)
    | UnknownId(id: string)

  predicate IsKnownType(e: string, types: set<string>) {
    ElementType(e) in PRIMITIVES || ElementType(e) in types
  }

  predicate IsKnownOptional(e: Option<string>, types: set<string>) {
    e.Some? ==> IsKnownType(e.value, types)
  }

  /** An ENUM has values and no field; any other type has fields and no value. */
  predicate HasShape(t: TypeDecl) {
    if t.kind.Enum? then |t.fields| == 0 && |t.values| > 0 else |t.values| == 0 && |t.fields| > 0
  }

  function TypeIds(c: DomainContract): seq<string> { Map((t: TypeDecl) => t.id, c.types) }

  function OperationIds(c: DomainContract): seq<string> { Map((o: Operation) => o.id, c.operations) }

  function InvariantIds(c: DomainContract): seq<string> { Map((i: Invariant) => i.id, c.invariants) }

  function EventIds(c: DomainContract): seq<string> { Map((e: Event) => e.id, c.events) }

  function ScenarioIds(c: DomainContract): seq<string> { Map((s: Scenario) => s.id, c.acceptance) }

  function FacetIds(c: DomainContract): seq<string> { Map((f: Facet) => f.id, c.facets) }

  function FieldNames(t: TypeDecl): seq<string> { Map((f: Field) => f.name, t.fields) }

  ghost predicate HasUniqueIds(c: DomainContract) {
    NoRepeat(TypeIds(c)) && NoRepeat(OperationIds(c)) && NoRepeat(InvariantIds(c)) &&
    NoRepeat(EventIds(c)) && NoRepeat(ScenarioIds(c)) && NoRepeat(FacetIds(c))
  }

  ghost predicate IsSoundType(t: TypeDecl, types: set<string>) {
    && (if t.kind.Enum? then t.fields == [] && t.values != [] else t.fields != [] && t.values == [])
    && NoRepeat(FieldNames(t)) && forall f | f in t.fields :: IsKnownType(f.typeOf, types)
  }

  predicate IsSoundOperation(o: Operation, types: set<string>, events: set<string>, invariants: set<string>) {
    IsKnownOptional(o.input, types) && IsKnownOptional(o.output, types) && SetOf(o.emits) <= events && SetOf(o.invariants) <= invariants
  }

  /** The contracts without a semantic error. */
  ghost predicate IsSound(c: DomainContract) {
    var types, operations, events, invariants := SetOf(TypeIds(c)), SetOf(OperationIds(c)), SetOf(EventIds(c)), SetOf(InvariantIds(c));
    && HasUniqueIds(c)
    && (forall t | t in c.types :: IsSoundType(t, types))
    && (forall o | o in c.operations :: IsSoundOperation(o, types, events, invariants))
    && (forall i | i in c.invariants :: SetOf(i.appliesTo) <= types)
    && (forall e | e in c.events :: IsKnownType(e.payload, types))
    && (forall s | s in c.acceptance :: SetOf(s.operations) <= operations)
    && (forall f | f in c.facets :: SetOf(f.appliesTo) <= types + operations + events)
  }

  method TypeExpression(e: string, types: set<string>) returns (found: seq<DomainError>)
    ensures found == if IsKnownType(e, types) then [] else [UnknownType(ElementType(e))]
  {
    var element := ElementType(e);
    found := [];
    if element !in PRIMITIVES && element !in types {
      found := [UnknownType(element)];
    }
  }

  method ValidateType(t: TypeDecl, types: set<string>) returns (found: seq<DomainError>)
    ensures found == [] <==> IsSoundType(t, types)
  {
    hide IsKnownType, NoRepeat, FieldNames, HasShape, IsSoundType;
    SoundTypeParts(t, types);
    NoNames();
    found := if HasShape(t) then [] else [InvalidTypeShape(t.id)];
    var names: set<string> := {};
    for i := 0 to |t.fields|
      invariant names == SetOf(FieldNames(t)[..i])
      invariant found == [] <==> HasShape(t) && NoRepeat(FieldNames(t)[..i]) && forall k | 0 <= k < i :: IsKnownType(t.fields[k].typeOf, types)
    {
      var field := t.fields[i];
      FieldNameAt(t, i);
      NoRepeatStep(FieldNames(t)[..i], field.name);
      if field.name in names {
        found := found + [DuplicateItemId(field.name)];
      }
      names := names + {field.name};
      var unknown := TypeExpression(field.typeOf, types);
      found := found + unknown;
    }
    assert FieldNames(t)[..|t.fields|] == FieldNames(t);
  }

  lemma SoundTypeParts(t: TypeDecl, types: set<string>)
    ensures IsSoundType(t, types) <==>
            HasShape(t) && NoRepeat(FieldNames(t)) && forall k | 0 <= k < |t.fields| :: IsKnownType(t.fields[k].typeOf, types)
    ensures |FieldNames(t)| == |t.fields|
  {
    hide IsKnownType, NoRepeat;
  }

  lemma FieldNameAt(t: TypeDecl, i: nat)
    requires i < |t.fields|
    ensures |FieldNames(t)| == |t.fields| && FieldNames(t)[..i + 1] == FieldNames(t)[..i] + [t.fields[i].name]
  {}

  lemma NoNames()
    ensures NoRepeat<string>([]) && SetOf<string>([]) == {}
  {}

  method ValidateOperation(o: Operation, types: set<string>, events: set<string>, invariants: set<string>) returns (found: seq<DomainError>)
    ensures found == [] <==> IsSoundOperation(o, types, events, invariants)
  {
    found := [];
    if o.input.Some? {
      found := TypeExpression(o.input.value, types);
    }
    if o.output.Some? {
      var more := TypeExpression(o.output.value, types);
      found := found + more;
    }
    var emits := KnownIds(o.emits, events);
    var held := KnownIds(o.invariants, invariants);
    found := found + Unknown(emits) + Unknown(held);
  }

  function Unknown(ids: seq<string>): seq<DomainError> {
    Map(id => UnknownId(id), ids)
  }

  function Duplicates(ids: seq<string>): seq<DomainError> {
    Map(id => DuplicateItemId(id), ids)
  }

  /** Reports the identifiers declared twice, collection by collection. */
  method ValidateIds(c: DomainContract) returns (found: seq<DomainError>)
    ensures found == [] <==> HasUniqueIds(c)
  {
    var types := UniqueIds(TypeIds(c));
    var operations := UniqueIds(OperationIds(c));
    var invariants := UniqueIds(InvariantIds(c));
    var events := UniqueIds(EventIds(c));
    var acceptance := UniqueIds(ScenarioIds(c));
    var facets := UniqueIds(FacetIds(c));
    found := Duplicates(types + operations + invariants + events + acceptance + facets);
  }

  /** Reports nothing exactly on sound contracts. */
  method ValidateDomainContract(c: DomainContract) returns (found: seq<DomainError>)
    ensures found == [] <==> IsSound(c)
  {
    hide HasUniqueIds, IsSoundType, IsSoundOperation, IsKnownType, SetOf, TypeIds, OperationIds, EventIds, InvariantIds, Filter;
    found := ValidateIds(c);
    var types, operations, events, invariants := SetOf(TypeIds(c)), SetOf(OperationIds(c)), SetOf(EventIds(c)), SetOf(InvariantIds(c));
    var more: seq<DomainError>;
    ghost var before := found == [];
    for i := 0 to |c.types|
      invariant found == [] <==> before && forall k | 0 <= k < i :: IsSoundType(c.types[k], types)
    {
      more := ValidateType(c.types[i], types);
      found := found + more;
    }
    before := found == [];
    for i := 0 to |c.operations|
      invariant found == [] <==> before && forall k | 0 <= k < i :: IsSoundOperation(c.operations[k], types, events, invariants)
    {
      more := ValidateOperation(c.operations[i], types, events, invariants);
      found := found + more;
    }
    before := found == [];
    for i := 0 to |c.invariants|
      invariant found == [] <==> before && forall k | 0 <= k < i :: SetOf(c.invariants[k].appliesTo) <= types
    {
      var unknown := KnownIds(c.invariants[i].appliesTo, types);
      found := found + Unknown(unknown);
    }
    before := found == [];
    for i := 0 to |c.events|
      invariant found == [] <==> before && forall k | 0 <= k < i :: IsKnownType(c.events[k].payload, types)
    {
      more := TypeExpression(c.events[i].payload, types);
      found := found + more;
    }
    before := found == [];
    for i := 0 to |c.acceptance|
      invariant found == [] <==> before && forall k | 0 <= k < i :: SetOf(c.acceptance[k].operations) <= operations
    {
      var unknown := KnownIds(c.acceptance[i].operations, operations);
      found := found + Unknown(unknown);
    }
    before := found == [];
    var targets := types + operations + events;
    for i := 0 to |c.facets|
      invariant found == [] <==> before && forall k | 0 <= k < i :: SetOf(c.facets[k].appliesTo) <= targets
    {
      var unknown := KnownIds(c.facets[i].appliesTo, targets);
      found := found + Unknown(unknown);
    }
  }

  // ---- Pinned item references ----

  /** `DomainContract/<id>@<revision>`. */
  function ContractText(id: string, revision: nat): string {
    Refs.KeyText("DomainContract", id, Decimal(revision))
  }

  /** `DomainContract/<id>@<revision>#<item>`; an empty item is left out. */
  function ItemText(id: string, revision: nat, item: string): string {
    if item == "" then ContractText(id, revision) else ContractText(id, revision) + "#" + item
  }

  /** What follows the `/` in a pinned item reference. */
  function AfterRevision(revision: nat, item: string): string {
    Decimal(revision) + if item == "" then "" else ['#'] + item
  }

  lemma ItemTextParts(id: string, revision: nat, item: string)
    ensures ItemText(id, revision, item)[15..] == id + ['@'] + AfterRevision(revision, item)
  {
    hide Decimal;
    assert ItemText(id, revision, item) == "DomainContract/" + (id + ['@'] + AfterRevision(revision, item));
  }

  lemma AfterRevisionInjective(revision: nat, item: string, revision': nat, item': string)
    requires AfterRevision(revision, item) == AfterRevision(revision', item')
    ensures revision == revision' && item == item'
  {
    hide Decimal;
    DecimalIsDigits(revision);
    DecimalIsDigits(revision');
    DecimalIsIndex(revision);
    DecimalIsIndex(revision');
    var a, b := Decimal(revision), Decimal(revision');
    HashMarksItem(revision, item);
    HashMarksItem(revision', item');
    if item != "" && item' != "" {
      assert a + (['#'] + item) == a + ['#'] + item && b + (['#'] + item') == b + ['#'] + item';
      FirstPartAgrees(a, b, item, item', '#');
    } else {
      assert a + "" == a && b + "" == b;
    }
  }

  lemma HashMarksItem(revision: nat, item: string)
    ensures '#' in AfterRevision(revision, item) <==> item != ""
  {
    hide Decimal;
    DecimalIsDigits(revision);
    if item != "" {
      assert AfterRevision(revision, item)[|Decimal(revision)|] == '#';
    }
  }

  /** A pinned item reference tells its contract, its revision and its item. */
  lemma ItemTextInjective(id: string, revision: nat, item: string, id': string, revision': nat, item': string)
    requires '@' !in id && '@' !in id'
    requires ItemText(id, revision, item) == ItemText(id', revision', item')
    ensures id == id' && revision == revision' && item == item'
  {
    hide ItemText, AfterRevision;
    ItemTextParts(id, revision, item);
    ItemTextParts(id', revision', item');
    FirstPartAgrees(id, id', AfterRevision(revision, item), AfterRevision(revision', item'), '@');
    AfterRevisionInjective(revision, item, revision', item');
  }

  /** So does the reference of a contract without an item. */
  lemma ContractTextInjective(id: string, revision: nat, id': string, revision': nat)
    requires '@' !in id && '@' !in id' && ContractText(id, revision) == ContractText(id', revision')
    ensures id == id' && revision == revision'
  {
    ItemTextInjective(id, revision, "", id', revision', "");
  }

  // ---- Domain IR ----

  datatype TypeRef = TypeRef(expression: string, list: bool, primitive: Option<string>, declared: Option<string>)

  datatype IRField = IRField(name: string, typeOf: TypeRef, required: bool, sensitive: bool)

  datatype IRType = IRType(id: string, ref: string, kind: TypeKind, fields: seq<IRField>, values: seq<string>)

  datatype IROperation = IROperation(
    id: string,
    ref: string,
    kind: OperationKind,
    input: Option<TypeRef>,
    output: Option<TypeRef>,
    errors: seq<string>,
    intent: string,
    roles: seq<string>,
    emits: seq<string>,
    invariants: seq<string>,
    idempotent: bool
  )

  datatype IREvent = IREvent(id: string, ref: string, version: nat, payload: TypeRef)

  datatype IRInvariant = IRInvariant(id: string, ref: string, appliesTo: seq<string>, enforcement: string)

  datatype DomainIR = DomainIR(
    ref: string,
    digest: string,
    boundedContext: string,
    types: seq<IRType>,
    operations: seq<IROperation>,
    events: seq<IREvent>,
    invariants: seq<IRInvariant>,
    facets: seq<string>
  )

  /** `[...new Set(values)].sort()`. */
  function SortedSet(values: seq<string>): seq<string> {
    SortedKeys(SetOf(values))
  }

  function Item(c: DomainContract, id: string): string {
    ItemText(c.id, c.revision, id)
  }

  function Items(c: DomainContract, ids: seq<string>): (r: seq<string>)
    ensures |r| == |ids| && forall i | 0 <= i < |r| :: r[i] == Item(c, ids[i])
  {
    seq(|ids|, i requires 0 <= i < |ids| => Item(c, ids[i]))
  }

  function ResolveType(c: DomainContract, e: string): TypeRef {
    var element := ElementType(e);
    TypeRef(e, element != e,
            if element in PRIMITIVES then Some(element) else None,
            if element in TypeIds(c) then Some(Item(c, element)) else None)
  }

  function ResolveOptional(c: DomainContract, e: Option<string>): Option<TypeRef> {
    if e.Some? then Some(ResolveType(c, e.value)) else None
  }

  function FieldIR(c: DomainContract, f: Field): IRField {
    IRField(f.name, ResolveType(c, f.typeOf), f.required, f.sensitive)
  }

  function FieldsIR(c: DomainContract, fields: seq<Field>): (r: seq<IRField>)
    ensures |r| == |fields| && forall i | 0 <= i < |r| :: r[i] == FieldIR(c, fields[i])
  {
    seq(|fields|, i requires 0 <= i < |fields| => FieldIR(c, fields[i]))
  }

  function TypeIR(c: DomainContract, t: TypeDecl): IRType {
    IRType(t.id, Item(c, t.id), t.kind, FieldsIR(c, t.fields), t.values)
  }

  function TypesIR(c: DomainContract, types: seq<TypeDecl>): (r: seq<IRType>)
    ensures |r| == |types| && forall i | 0 <= i < |r| :: r[i] == TypeIR(c, types[i])
  {
    seq(|types|, i requires 0 <= i < |types| => TypeIR(c, types[i]))
  }

  function OperationIR(c: DomainContract, o: Operation): IROperation {
    IROperation(o.id, Item(c, o.id), o.kind, ResolveOptional(c, o.input), ResolveOptional(c, o.output), SortedSet(o.errors),
                o.intent, SortedSet(o.roles), SortedSet(Items(c, o.emits)), SortedSet(Items(c, o.invariants)), o.idempotent)
  }

  function OperationsIR(c: DomainContract, operations: seq<Operation>): (r: seq<IROperation>)
    ensures |r| == |operations| && forall i | 0 <= i < |r| :: r[i] == OperationIR(c, operations[i])
  {
    seq(|operations|, i requires 0 <= i < |operations| => OperationIR(c, operations[i]))
  }

  function EventIR(c: DomainContract, e: Event): IREvent {
    IREvent(e.id, Item(c, e.id), e.version, ResolveType(c, e.payload))
  }

  function EventsIR(c: DomainContract, events: seq<Event>): (r: seq<IREvent>)
    ensures |r| == |events| && forall i | 0 <= i < |r| :: r[i] == EventIR(c, events[i])
  {
    seq(|events|, i requires 0 <= i < |events| => EventIR(c, events[i]))
  }

  function InvariantIR(c: DomainContract, v: Invariant): IRInvariant {
    IRInvariant(v.id, Item(c, v.id), SortedSet(Items(c, v.appliesTo)), v.enforcement)
  }

  function InvariantsIR(c: DomainContract, invariants: seq<Invariant>): (r: seq<IRInvariant>)
    ensures |r| == |invariants| && forall i | 0 <= i < |r| :: r[i] == InvariantIR(c, invariants[i])
  {
    seq(|invariants|, i requires 0 <= i < |invariants| => InvariantIR(c, invariants[i]))
  }

  predicate ByTypeId(a: IRType, b: IRType) { AtMost(a.id, b.id) }

  predicate ByOperationId(a: IROperation, b: IROperation) { AtMost(a.id, b.id) }

  predicate ByEventId(a: IREvent, b: IREvent) { AtMost(a.id, b.id) }

  predicate ByInvariantId(a: IRInvariant, b: IRInvariant) { AtMost(a.id, b.id) }

  function BuildDomainIR(c: DomainContract): DomainIR {
    DomainIR(ContractText(c.id, c.revision), c.digest, c.boundedContext,
             Sort(TypesIR(c, c.types), ByTypeId),
             Sort(OperationsIR(c, c.operations), ByOperationId),
             Sort(EventsIR(c, c.events), ByEventId),
             Sort(InvariantsIR(c, c.invariants), ByInvariantId),
             Sort(FacetIds(c), AtMost))
  }

  /** What the IR lists is exactly what the contract declares. */
  lemma IRListsDeclarations(c: DomainContract)
    ensures var ir := BuildDomainIR(c);
            && |ir.types| == |c.types| && |ir.operations| == |c.operations| && |ir.events| == |c.events| && |ir.invariants| == |c.invariants|
            && (forall x :: x in ir.types <==> exists i :: 0 <= i < |c.types| && x == TypeIR(c, c.types[i]))
            && (forall x :: x in ir.operations <==> exists i :: 0 <= i < |c.operations| && x == OperationIR(c, c.operations[i]))
            && (forall x :: x in ir.events <==> exists i :: 0 <= i < |c.events| && x == EventIR(c, c.events[i]))
            && (forall x :: x in ir.invariants <==> exists i :: 0 <= i < |c.invariants| && x == InvariantIR(c, c.invariants[i]))
  {
    hide Sort, TypeIR, OperationIR, EventIR, InvariantIR;
    SortLists(TypesIR(c, c.types), ByTypeId);
    SortLists(OperationsIR(c, c.operations), ByOperationId);
    SortLists(EventsIR(c, c.events), ByEventId);
    SortLists(InvariantsIR(c, c.invariants), ByInvariantId);
  }

  /** A type expression resolved to a primitive or to a type of the contract. */
  predicate IsResolved(t: TypeRef, ids: set<string>) {
    t.list == IsList(t.expression) &&
    if t.primitive.Some? then t.primitive.value == ElementType(t.expression) && t.primitive.value in PRIMITIVES
    else ElementType(t.expression) in ids
  }

  predicate IsResolvedOptional(t: Option<TypeRef>, ids: set<string>) {
    t.Some? ==> IsResolved(t.value, ids)
  }

  /** Every type used in the IR is a primitive or one of the types it lists. */
  ghost predicate IsResolvedIR(ir: DomainIR) {
    var ids := set t | t in ir.types :: t.id;
    && (forall t, f | t in ir.types && f in t.fields :: IsResolved(f.typeOf, ids))
    && (forall o | o in ir.operations :: IsResolvedOptional(o.input, ids) && IsResolvedOptional(o.output, ids))
    && (forall e | e in ir.events :: IsResolved(e.payload, ids))
  }

  lemma ResolvesKnownType(c: DomainContract, e: string)
    requires IsKnownType(e, SetOf(TypeIds(c)))
    ensures IsResolved(ResolveType(c, e), SetOf(TypeIds(c)))
  {}

  lemma IRTypeIds(c: DomainContract)
    ensures (set t | t in BuildDomainIR(c).types :: t.id) == SetOf(TypeIds(c))
  {
    hide BuildDomainIR;
    IRListsDeclarations(c);
    var ids := set t | t in BuildDomainIR(c).types :: t.id;
    forall i | 0 <= i < |c.types|
      ensures c.types[i].id in ids
    {
      assert TypeIR(c, c.types[i]).id == c.types[i].id;
    }
    forall t | t in BuildDomainIR(c).types
      ensures t.id in TypeIds(c)
    {
      var i :| 0 <= i < |c.types| && t == TypeIR(c, c.types[i]);
      assert TypeIds(c)[i] == t.id;
    }
  }

  /** In the IR of a sound contract every type expression is resolved. */
  lemma SoundIRIsResolved(c: DomainContract)
    requires IsSound(c)
    ensures IsResolvedIR(BuildDomainIR(c))
  {
    hide BuildDomainIR, ResolveType, IsResolved, IsKnownType, HasUniqueIds, SortedSet;
    var ir, ids := BuildDomainIR(c), SetOf(TypeIds(c));
    IRListsDeclarations(c);
    IRTypeIds(c);
    forall t, f | t in ir.types && f in t.fields
      ensures IsResolved(f.typeOf, ids)
    {
      var k :| 0 <= k < |c.types| && t == TypeIR(c, c.types[k]);
      var i :| 0 <= i < |t.fields| && t.fields[i] == f;
      var d := c.types[k].fields[i];
      assert IsSoundType(c.types[k], ids) && d in c.types[k].fields;
      ResolvesKnownType(c, d.typeOf);
    }
    forall o | o in ir.operations
      ensures IsResolvedOptional(o.input, ids) && IsResolvedOptional(o.output, ids)
    {
      var k :| 0 <= k < |c.operations| && o == OperationIR(c, c.operations[k]);
      assert IsSoundOperation(c.operations[k], ids, SetOf(EventIds(c)), SetOf(InvariantIds(c)));
      ResolvesKnownOptional(c, c.operations[k].input);
      ResolvesKnownOptional(c, c.operations[k].output);
    }
    forall e | e in ir.events
      ensures IsResolved(e.payload, ids)
    {
      var k :| 0 <= k < |c.events| && e == EventIR(c, c.events[k]);
      assert c.events[k] in c.events;
      ResolvesKnownType(c, c.events[k].payload);
    }
  }

  lemma ResolvesKnownOptional(c: DomainContract, e: Option<string>)
    requires IsKnownOptional(e, SetOf(TypeIds(c)))
    ensures IsResolvedOptional(ResolveOptional(c, e), SetOf(TypeIds(c)))
  {
    hide ResolveType, IsResolved, IsKnownType;
    if e.Some? { ResolvesKnownType(c, e.value); }
  }

  // ---- Independence of authoring order ----

  /** Two contracts that declare the same things, each in an order of its own. */
  ghost predicate SameDeclarations(a: DomainContract, b: DomainContract) {
    && b == a.(types := b.types, operations := b.operations, events := b.events, invariants := b.invariants, facets := b.facets, digest := b.digest)
    && multiset(a.types) == multiset(b.types) && multiset(a.operations) == multiset(b.operations)
    && multiset(a.events) == multiset(b.events) && multiset(a.invariants) == multiset(b.invariants) && multiset(a.facets) == multiset(b.facets)
  }

  lemma SortedImageForgetsOrder<A(!new), B(!new)>(f: A -> B, a: seq<A>, b: seq<A>, idOf: A -> string, le: (B, B) -> bool)
    requires multiset(a) == multiset(b) && NoRepeat(Map(idOf, a))
    requires IsOrder(le) && forall x, y | le(f(x), f(y)) && le(f(y), f(x)) :: idOf(x) == idOf(y)
    ensures Sort(Map(f, a), le) == Sort(Map(f, b), le)
  {
    hide Sort;
    MapPermutes(f, a, b);
    forall x, y | x in Map(f, a) && y in Map(f, a) && le(x, y) && le(y, x)
      ensures x == y
    {
      var i :| 0 <= i < |a| && x == f(a[i]);
      var j :| 0 <= j < |a| && y == f(a[j]);
      assert Map(idOf, a)[i] == Map(idOf, a)[j];
    }
    SortForgetsOrder(Map(f, a), Map(f, b), le);
  }

  lemma SameResolution(a: DomainContract, b: DomainContract)
    requires SameDeclarations(a, b)
    ensures forall e :: ResolveType(a, e) == ResolveType(b, e)
  {
    MapPermutes((t: TypeDecl) => t.id, a.types, b.types);
    SameElements(TypeIds(a), TypeIds(b));
  }

  /** Both contracts derive the same IR of one declaration. */
  lemma SameDerivations(a: DomainContract, b: DomainContract)
    requires SameDeclarations(a, b)
    ensures forall t :: TypeIR(a, t) == TypeIR(b, t)
    ensures forall o :: OperationIR(a, o) == OperationIR(b, o)
    ensures forall e :: EventIR(a, e) == EventIR(b, e)
    ensures forall v :: InvariantIR(a, v) == InvariantIR(b, v)
  {
    hide ResolveType, SortedSet;
    SameResolution(a, b);
    forall t ensures TypeIR(a, t) == TypeIR(b, t) { assert FieldsIR(a, t.fields) == FieldsIR(b, t.fields); }
    forall o ensures OperationIR(a, o) == OperationIR(b, o) {
      assert Items(a, o.emits) == Items(b, o.emits) && Items(a, o.invariants) == Items(b, o.invariants);
    }
    forall v ensures InvariantIR(a, v) == InvariantIR(b, v) { assert Items(a, v.appliesTo) == Items(b, v.appliesTo); }
  }

  lemma IdOrders()
    ensures IsOrder(ByTypeId) && IsOrder(ByOperationId) && IsOrder(ByEventId) && IsOrder(ByInvariantId)
  {
    hide AtMost;
    TextIsOrder();
  }

  lemma SameText(a: string, b: string)
    requires AtMost(a, b) && AtMost(b, a)
    ensures a == b
  {
    AtMostAntisymmetric(a, b);
  }

  /**
   * Of the order of the declarations the IR keeps one thing, the digest of the contract it
   * was derived from; two orders give the same IR exactly when that digest is the same.
   */
  lemma DomainIRForgetsOrder(a: DomainContract, b: DomainContract)
    requires HasUniqueIds(a) && SameDeclarations(a, b)
    ensures BuildDomainIR(b) == BuildDomainIR(a).(digest := b.digest)
    ensures BuildDomainIR(b) == BuildDomainIR(a) <==> b.digest == a.digest
  {
    hide Sort, AtMost, SortedSet, ResolveType, FieldsIR, Item;
    IdOrders();
    forall x, y | AtMost(x, y) && AtMost(y, x) ensures x == y { SameText(x, y); }
    SameDerivations(a, b);
    var typeIR, operationIR, eventIR := (t: TypeDecl) => TypeIR(b, t), (o: Operation) => OperationIR(b, o), (e: Event) => EventIR(b, e);
    var invariantIR := (v: Invariant) => InvariantIR(b, v);
    assert TypesIR(a, a.types) == Map(typeIR, a.types) && TypesIR(b, b.types) == Map(typeIR, b.types);
    assert OperationsIR(a, a.operations) == Map(operationIR, a.operations) && OperationsIR(b, b.operations) == Map(operationIR, b.operations);
    assert EventsIR(a, a.events) == Map(eventIR, a.events) && EventsIR(b, b.events) == Map(eventIR, b.events);
    assert InvariantsIR(a, a.invariants) == Map(invariantIR, a.invariants) && InvariantsIR(b, b.invariants) == Map(invariantIR, b.invariants);
    SortedImageForgetsOrder(invariantIR, a.invariants, b.invariants, (v: Invariant) => v.id, ByInvariantId);
    SortedImageForgetsOrder(typeIR, a.types, b.types, (t: TypeDecl) => t.id, ByTypeId);
    SortedImageForgetsOrder(operationIR, a.operations, b.operations, (o: Operation) => o.id, ByOperationId);
    SortedImageForgetsOrder(eventIR, a.events, b.events, (e: Event) => e.id, ByEventId);
    MapPermutes((f: Facet) => f.id, a.facets, b.facets);
    TextSortForgetsOrder(FacetIds(a), FacetIds(b));
  }
}
