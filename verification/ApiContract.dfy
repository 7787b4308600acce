/**
 * API contracts: the projection of a Domain IR onto an OpenAPI 3.1 document, one per
 * implementing component, and how the runtime adapter reads the operations back from it.
 */
module ApiContracts {
  import opened Wrappers
  import opened Text
  import opened Json
  import opened JsonPointer
  import opened Sorting
  import opened Lists
  import opened DomainContracts
  import Identity
  import Realization

  type Members = map<string, Json>

  const PROJECTION := "foundation.enistere.com/api-contract/v1"

  const UUID := "^[0-9a-fA-F]{8}-[0-9a-fA-F]{4}-[0-9a-fA-F]{4}-[0-9a-fA-F]{4}-[0-9a-fA-F]{12}$"
  const DATE := "^[0-9]{4}-[0-9]{2}-[0-9]{2}$"
  const DATE_TIME := "^[0-9]{4}-[0-9]{2}-[0-9]{2}T[0-9]{2}:[0-9]{2}:[0-9]{2}(?:\\.[0-9]+)?(?:Z|[+-][0-9]{2}:[0-9]{2})$"
  const DECIMAL := "^-?[0-9]+(?:\\.[0-9]+)?$"

  function Texts(s: seq<string>): Json {
    Array(Map((x: string) => Str(x), s))
  }

  // ---- Schemas ----

  function PrimitiveSchema(name: string): Members {
    match name
    case "string" => map["type" := Str("string")]
    case "text" => map["type" := Str("string")]
    case "integer" => map["type" := Str("integer")]
    case "decimal" => map["type" := Str("string"), "format" := Str("decimal"), "pattern" := Str(DECIMAL)]
    case "boolean" => map["type" := Str("boolean")]
    case "date" => map["type" := Str("string"), "format" := Str("date"), "pattern" := Str(DATE)]
    case "datetime" => map["type" := Str("string"), "format" := Str("date-time"), "pattern" := Str(DATE_TIME)]
    case "uuid" => map["type" := Str("string"), "format" := Str("uuid"), "pattern" := Str(UUID)]
    case "file-ref" => map["type" := Str("string"), "format" := Str("file-ref"), "minLength" := NumberOf(1)]
    case _ => map[]
  }

  function TypeOnly(name: string): Json {
    Object(map["type" := Str(name)])
  }

  function ProblemSchema(): Json {
    Object(map["description" := Str("Problem Details (RFC 9457)."), "type" := Str("object"), "required" := Texts(["title", "status"]),
      "properties" := Object(map["type" := TypeOnly("string"), "title" := TypeOnly("string"), "status" := TypeOnly("integer"),
        "detail" := TypeOnly("string"), "code" := TypeOnly("string")])])
  }

  /** The reference to a schema of the document. */
  function RefText(name: string): string {
    "#/components/schemas/" + name
  }

  function RefSchema(name: string): Members {
    map["$ref" := Str(RefText(name))]
  }

  function TypeSchema(t: TypeRef): Members {
    var item := if t.primitive.Some? then PrimitiveSchema(t.primitive.value) else RefSchema(ElementType(t.expression));
    if t.list then map["type" := Str("array"), "items" := Object(item)] else item
  }

  function FieldSchema(f: IRField): Json {
    Object(if f.sensitive then TypeSchema(f.typeOf)["x-foundation-sensitive" := Bool(true)] else TypeSchema(f.typeOf))
  }

  function Properties(fields: seq<IRField>): Members {
    if |fields| == 0 then map[] else
    var last := fields[|fields| - 1];
    Properties(fields[..|fields| - 1])[last.name := FieldSchema(last)]
  }

  function RequiredNames(fields: seq<IRField>): seq<string> {
    Map((f: IRField) => f.name, Filter((f: IRField) => f.required, fields))
  }

  function SchemaOf(t: IRType): Json {
    if t.kind.Enum? then Object(map["type" := Str("string"), "enum" := Texts(t.values), "x-foundation-type" := Str(t.ref)])
    else
      var required := RequiredNames(t.fields);
      var base := map["type" := Str("object"), "properties" := Object(Properties(t.fields)), "additionalProperties" := Bool(false), "x-foundation-type" := Str(t.ref)];
      Object(if |required| > 0 then base["required" := Texts(required)] else base)
  }

  function TypeSchemas(types: seq<IRType>): Members {
    if |types| == 0 then map[] else
    var last := types[|types| - 1];
    TypeSchemas(types[..|types| - 1])[last.id := SchemaOf(last)]
  }

  /** One schema per type; `Problem` is the reserved one, whatever the contract declares under that name. */
  function Schemas(types: seq<IRType>): Members {
    TypeSchemas(types)["Problem" := ProblemSchema()]
  }

  method CollectProperties(fields: seq<IRField>) returns (properties: Members)
    ensures properties == Properties(fields)
  {
    properties := map[];
    for i := 0 to |fields|
      invariant properties == Properties(fields[..i])
    {
      assert fields[..i + 1][..i] == fields[..i];
      properties := properties[fields[i].name := FieldSchema(fields[i])];
    }
    assert fields[..|fields|] == fields;
  }

  method CollectSchemas(types: seq<IRType>) returns (result: Members)
    ensures result == Schemas(types)
  {
    result := map[];
    for i := 0 to |types|
      invariant result == TypeSchemas(types[..i])
    {
      assert types[..i + 1][..i] == types[..i];
      var t := types[i];
      if t.kind.Enum? {
        result := result[t.id := Object(map["type" := Str("string"), "enum" := Texts(t.values), "x-foundation-type" := Str(t.ref)])];
        continue;
      }
      var properties := CollectProperties(t.fields);
      var required := RequiredNames(t.fields);
      var schema := map["type" := Str("object"), "properties" := Object(properties), "additionalProperties" := Bool(false), "x-foundation-type" := Str(t.ref)];
      if |required| > 0 { schema := schema["required" := Texts(required)]; }
      result := result[t.id := Object(schema)];
    }
    assert types[..|types|] == types;
    result := result["Problem" := ProblemSchema()];
  }

  // ---- Operations ----

  function Problem(description: string, schema: Json): Json {
    Object(map["description" := Str(description), "content" := Object(map["application/problem+json" := Object(map["schema" := schema])])])
  }

  function ProblemRef(): Json {
    Object(RefSchema("Problem"))
  }

  function JsonContent(schema: Json): Json {
    Object(map["application/json" := Object(map["schema" := schema])])
  }

  function DoneResponse(output: Option<TypeRef>): Json {
    if output.None? then Object(map["description" := Str("Done.")])
    else Object(map["description" := Str("Done."), "content" := JsonContent(Object(TypeSchema(output.value)))])
  }

  function ErrorSchema(errors: seq<string>): Json {
    Object(map["allOf" := Array([ProblemRef(), Object(map["type" := Str("object"), "required" := Texts(["code"]),
      "properties" := Object(map["code" := Object(map["enum" := Texts(errors)])])])])])
  }

  function Responses(o: IROperation): Json {
    var done := map["200" := DoneResponse(o.output)];
    var checked := if o.input.Some? then done["400" := Problem("The input does not match the contract.", ProblemRef())] else done;
    var declared := if |o.errors| > 0 then checked["422" := Problem("A declared domain error.", ErrorSchema(o.errors))] else checked;
    Object(declared["501" := Problem("The operation is not implemented yet by the owning team.", ProblemRef())])
  }

  /** An operation always answers 200 and 501, 400 exactly with an input, 422 exactly with declared errors; 200 has a body exactly with an output. */
  lemma ResponsesAreDeclared(o: IROperation)
    ensures Responses(o).Object? &&
            var r := Responses(o).members;
            r.Keys == {"200", "501"} + (if o.input.Some? then {"400"} else {}) + (if |o.errors| > 0 then {"422"} else {}) &&
            (Child(r["200"], "content").Some? <==> o.output.Some?) &&
            (forall status | status in r && status != "200" :: Lookup(r[status], ["content", "application/problem+json", "schema"]).Some?)
  {
    hide Lookup, ProblemRef, ErrorSchema, Texts, TypeSchema;
    var r := Responses(o).members;
    ProblemHasSchema("The input does not match the contract.", ProblemRef());
    ProblemHasSchema("A declared domain error.", ErrorSchema(o.errors));
    ProblemHasSchema("The operation is not implemented yet by the owning team.", ProblemRef());
  }

  lemma ProblemHasSchema(description: string, schema: Json)
    ensures Lookup(Problem(description, schema), ["content", "application/problem+json", "schema"]) == Some(schema)
  {
    var content := map["application/problem+json" := Object(map["schema" := schema])];
    assert Child(Problem(description, schema), "content") == Some(Object(content));
    assert ["content", "application/problem+json", "schema"][1..] == ["application/problem+json", "schema"];
    assert ["application/problem+json", "schema"][1..] == ["schema"] && ["schema"][1..] == [];
    assert Lookup(Object(content), ["application/problem+json", "schema"]) == Lookup(content["application/problem+json"], ["schema"]);
    assert Lookup(content["application/problem+json"], ["schema"]) == Lookup(schema, []) == Some(schema);
  }

  function KindText(kind: OperationKind): string {
    if kind.Command? then "COMMAND" else "QUERY"
  }

  function OperationObject(o: IROperation): Json {
    var base := map["operationId" := Str(o.id),
      "x-foundation-operation" := Str(o.ref),
      "x-foundation-kind" := Str(KindText(o.kind)),
      "x-foundation-authorization" := Object(map["intent" := Str(o.intent), "roles" := Texts(o.roles)]),
      "x-foundation-idempotent" := Bool(o.idempotent),
      "x-foundation-emits" := Texts(o.emits),
      "x-foundation-invariants" := Texts(o.invariants),
      "responses" := Responses(o)];
    if o.input.None? then Object(base)
    else Object(base["requestBody" := Object(map["required" := Bool(true), "content" := JsonContent(Object(TypeSchema(o.input.value)))])])
  }

  function PathOf(context: string, o: IROperation): string {
    "/" + context + "/" + o.id
  }

  /** A query without input is a GET, everything else a POST. */
  function MethodOf(o: IROperation): string {
    if o.kind.Query? && o.input.None? then "get" else "post"
  }

  function Paths(context: string, operations: seq<IROperation>): Members {
    if |operations| == 0 then map[] else
    var last := operations[|operations| - 1];
    Paths(context, operations[..|operations| - 1])[PathOf(context, last) := Object(map[MethodOf(last) := OperationObject(last)])]
  }

  // ---- The contract ----

  /** `new Map(bindings.map(b => [b.item, b])).get(item)`. */
  function BindingOf(bindings: seq<Realization.OperationBinding>, item: string): (r: Option<Realization.OperationBinding>)
    ensures r.Some? ==> r.value in bindings && r.value.item == item
  {
    FindLast((b: Realization.OperationBinding) => b.item == item, bindings)
  }

  predicate IsImplementedBy(bindings: seq<Realization.OperationBinding>, item: string, provider: string) {
    var b := BindingOf(bindings, item);
    b.Some? && provider in b.value.implementedBy
  }

  predicate IsConsumedBy(bindings: seq<Realization.OperationBinding>, item: string, consumer: string) {
    var b := BindingOf(bindings, item);
    b.Some? && consumer in b.value.consumedBy
  }

  function ConsumersOf(bindings: seq<Realization.OperationBinding>, operations: seq<IROperation>): set<string> {
    set o, c | o in operations && BindingOf(bindings, o.ref).Some? && c in BindingOf(bindings, o.ref).value.consumedBy :: c
  }

  /** The operations of the domain that the provider implements, in order. */
  function ImplementedOperations(domain: DomainIR, provider: string, bindings: seq<Realization.OperationBinding>): seq<IROperation> {
    Filter((o: IROperation) => IsImplementedBy(bindings, o.ref, provider), domain.operations)
  }

  /** `text.split('@')[1]`. */
  function AfterAt(text: string): string {
    var i := IndexOf(text, '@');
    if i < 0 then "undefined" else
    var rest := text[i + 1..];
    var j := IndexOf(rest, '@');
    if j < 0 then rest else rest[..j]
  }

  function EventJson(e: IREvent): Json {
    Object(map["id" := Str(e.id), "ref" := Str(e.ref), "version" := NumberOf(e.version), "payload" := Object(TypeSchema(e.payload))])
  }

  function EventsJson(events: seq<IREvent>): (r: seq<Json>)
    ensures |r| == |events| && forall i | 0 <= i < |r| :: r[i] == EventJson(events[i])
  {
    seq(|events|, i requires 0 <= i < |events| => EventJson(events[i]))
  }

  function DocumentOf(domain: DomainIR, provider: string, consumers: seq<string>, paths: Members, schemas: Members): Json {
    Object(map["openapi" := Str("3.1.0"),
      "info" := Object(map["title" := Str(domain.boundedContext + " \U{2014} " + provider), "version" := Str(AfterAt(domain.ref))]),
      "x-foundation" := Object(map["projection" := Str(PROJECTION),
        "contract" := Object(map["ref" := Str(domain.ref), "digest" := Str(domain.digest)]),
        "provider" := Str(provider), "consumers" := Texts(consumers)]),
      "paths" := Object(paths),
      "components" := Object(map["schemas" := Object(schemas)]),
      "x-foundation-events" := Array(EventsJson(domain.events))])
  }

  datatype ApiContract = ApiContract(
    id: string,
    domainRef: string,
    domainDigest: string,
    boundedContext: string,
    provider: string,
    consumers: seq<string>,
    operations: seq<string>,
    document: Json,
    digest: string
  )

  function ContractOf(domain: DomainIR, provider: string, bindings: seq<Realization.OperationBinding>): Option<ApiContract> {
    var operations := ImplementedOperations(domain, provider, bindings);
    if |operations| == 0 then None else
    var consumers := SortedKeys(ConsumersOf(bindings, operations) - {provider});
    var document := DocumentOf(domain, provider, consumers, Paths(domain.boundedContext, operations), Schemas(domain.types));
    Some(ApiContract(provider + "." + domain.boundedContext, domain.ref, domain.digest, domain.boundedContext, provider, consumers,
                     Map((o: IROperation) => o.ref, operations), document, Identity.DigestOf(document)))
  }

  /** The API contract of the operations of the domain that the provider implements, if any. */
  method ProjectApiContract(domain: DomainIR, provider: string, bindings: seq<Realization.OperationBinding>) returns (r: Option<ApiContract>)
    ensures r == ContractOf(domain, provider, bindings)
  {
    hide Schemas, DocumentOf, Paths, Filter, ConsumersOf;
    var operations := ImplementedOperations(domain, provider, bindings);
    if |operations| == 0 {
      return None;
    }
    var consumers := SortedKeys(ConsumersOf(bindings, operations) - {provider});
    var paths := CollectPaths(domain.boundedContext, operations);
    var schemas := CollectSchemas(domain.types);
    var document := DocumentOf(domain, provider, consumers, paths, schemas);
    r := Some(ApiContract(provider + "." + domain.boundedContext, domain.ref, domain.digest, domain.boundedContext, provider, consumers,
                          Map((o: IROperation) => o.ref, operations), document, Identity.DigestOf(document)));
  }

  method CollectPaths(context: string, operations: seq<IROperation>) returns (paths: Members)
    ensures paths == Paths(context, operations)
  {
    hide PathOf, MethodOf, OperationObject;
    paths := map[];
    for i := 0 to |operations|
      invariant paths == Paths(context, operations[..i])
    {
      assert operations[..i + 1][..i] == operations[..i];
      paths := paths[PathOf(context, operations[i]) := Object(map[MethodOf(operations[i]) := OperationObject(operations[i])])];
    }
    assert operations[..|operations|] == operations;
  }

  // ---- Every reference names a schema ----

  /** A schema reference of an object, if it holds one. */
  function RefOf(v: Json): Option<string> {
    match Child(v, "$ref")
    case Some(Str(text)) => if v.Object? then Some(text) else None
    case _ => None
  }

  /** Every schema reference in the tree names one of `names`. */
  ghost predicate RefsWithin(v: Json, names: set<string>) {
    match v
    case Array(items) => forall i | 0 <= i < |items| :: RefsWithin(items[i], names)
    case Object(members) => OwnRefWithin(v, names) && forall k | k in members :: RefsWithin(members[k], names)
    case _ => true
  }

  ghost predicate OwnRefWithin(v: Json, names: set<string>) {
    RefOf(v).Some? ==> exists name | name in names :: RefOf(v).value == RefText(name)
  }

  ghost predicate AllWithin(members: Members, names: set<string>) {
    forall k | k in members :: RefsWithin(members[k], names)
  }

  lemma ObjectWithin(members: Members, names: set<string>)
    requires AllWithin(members, names) && ("$ref" in members ==> !members["$ref"].Str?)
    ensures RefsWithin(Object(members), names)
  {}

  lemma TextsWithin(s: seq<string>, names: set<string>)
    ensures RefsWithin(Texts(s), names)
  {}

  lemma TypeSchemaWithin(t: TypeRef, names: set<string>)
    requires IsResolved(t, names)
    ensures RefsWithin(Object(TypeSchema(t)), names)
  {
    var item := if t.primitive.Some? then PrimitiveSchema(t.primitive.value) else RefSchema(ElementType(t.expression));
    assert RefsWithin(Object(item), names) by {
      if t.primitive.Some? { PrimitiveWithin(t.primitive.value, names); }
    }
  }

  lemma PrimitiveWithin(name: string, names: set<string>)
    ensures RefsWithin(Object(PrimitiveSchema(name)), names)
  {
    ObjectWithin(PrimitiveSchema(name), names);
  }

  lemma FieldWithin(f: IRField, names: set<string>)
    requires IsResolved(f.typeOf, names)
    ensures RefsWithin(FieldSchema(f), names)
  {
    hide TypeSchema, IsResolved;
    TypeSchemaWithin(f.typeOf, names);
    var schema := FieldSchema(f).members;
    assert AllWithin(schema, names);
    assert RefOf(FieldSchema(f)) == RefOf(Object(TypeSchema(f.typeOf)));
  }

  lemma {:induction false} PropertiesWithin(fields: seq<IRField>, names: set<string>)
    requires forall i | 0 <= i < |fields| :: IsResolved(fields[i].typeOf, names)
    ensures forall k | k in Properties(fields) :: Properties(fields)[k].Object?
    ensures RefsWithin(Object(Properties(fields)), names)
  {
    hide IsResolved;
    if |fields| > 0 {
      var front, last := fields[..|fields| - 1], fields[|fields| - 1];
      PropertiesWithin(front, names);
      FieldWithin(last, names);
      assert AllWithin(Properties(front), names);
    }
    ObjectWithin(Properties(fields), names);
  }

  lemma SchemaWithin(t: IRType, names: set<string>)
    requires forall i | 0 <= i < |t.fields| :: IsResolved(t.fields[i].typeOf, names)
    ensures RefsWithin(SchemaOf(t), names)
  {
    hide IsResolved, Properties, RefsWithin;
    PropertiesWithin(t.fields, names);
    TextsWithin(t.values, names);
    TextsWithin(RequiredNames(t.fields), names);
    LeafWithin(names);
    ObjectWithin(SchemaOf(t).members, names);
  }

  lemma LeafWithin(names: set<string>)
    ensures forall s :: RefsWithin(Str(s), names)
    ensures forall b :: RefsWithin(Bool(b), names)
    ensures forall n :: RefsWithin(Number(n), names)
  {}

  lemma {:induction false} TypeSchemasWithin(types: seq<IRType>, names: set<string>)
    requires forall t, f | t in types && f in t.fields :: IsResolved(f.typeOf, names)
    ensures AllWithin(TypeSchemas(types), names) && forall k | k in TypeSchemas(types) :: TypeSchemas(types)[k].Object?
    ensures forall k :: k in TypeSchemas(types) <==> exists t :: t in types && t.id == k
  {
    hide IsResolved, SchemaOf;
    if |types| > 0 {
      var front, last := types[..|types| - 1], types[|types| - 1];
      assert types == front + [last];
      TypeSchemasWithin(front, names);
      SchemaWithin(last, names);
      assert SchemaOf(last).Object? by { SchemaIsObject(last); }
    }
  }

  lemma SchemaIsObject(t: IRType)
    ensures SchemaOf(t).Object?
  {}

  lemma ProblemSchemaWithin(names: set<string>)
    ensures RefsWithin(ProblemSchema(), names)
  {
    hide RefsWithin;
    LeafWithin(names);
    TextsWithin(["title", "status"], names);
    forall name ensures RefsWithin(TypeOnly(name), names) { ObjectWithin(TypeOnly(name).members, names); }
    var properties := ProblemSchema().members["properties"];
    ObjectWithin(properties.members, names);
    ObjectWithin(ProblemSchema().members, names);
  }

  lemma SchemasWithin(types: seq<IRType>, names: set<string>)
    requires forall t, f | t in types && f in t.fields :: IsResolved(f.typeOf, names)
    ensures RefsWithin(Object(Schemas(types)), names)
  {
    hide RefsWithin, TypeSchemas, ProblemSchema, IsResolved;
    TypeSchemasWithin(types, names);
    ProblemSchemaWithin(names);
    assert ProblemSchema().Object? by { ProblemIsObject(); }
    ObjectWithin(Schemas(types), names);
  }

  lemma ProblemIsObject()
    ensures ProblemSchema().Object?
  {}

  lemma ProblemResponseWithin(description: string, schema: Json, names: set<string>)
    requires RefsWithin(schema, names)
    ensures RefsWithin(Problem(description, schema), names)
  {
    hide RefsWithin;
    LeafWithin(names);
    ObjectWithin(map["schema" := schema], names);
    ObjectWithin(map["application/problem+json" := Object(map["schema" := schema])], names);
    ObjectWithin(Problem(description, schema).members, names);
  }

  lemma ContentWithin(schema: Json, names: set<string>)
    requires RefsWithin(schema, names)
    ensures RefsWithin(JsonContent(schema), names)
  {
    hide RefsWithin;
    ObjectWithin(map["schema" := schema], names);
    ObjectWithin(JsonContent(schema).members, names);
  }

  lemma ProblemRefWithin(names: set<string>)
    requires "Problem" in names
    ensures RefsWithin(ProblemRef(), names)
  {
    assert RefOf(ProblemRef()) == Some(RefText("Problem"));
  }

  lemma ErrorSchemaWithin(errors: seq<string>, names: set<string>)
    requires "Problem" in names
    ensures RefsWithin(ErrorSchema(errors), names)
  {
    hide RefsWithin, ProblemRef;
    LeafWithin(names);
    ProblemRefWithin(names);
    TextsWithin(errors, names);
    TextsWithin(["code"], names);
    var all := ErrorSchema(errors).members["allOf"].items;
    var properties := all[1].members["properties"];
    ObjectWithin(properties.members["code"].members, names);
    ObjectWithin(properties.members, names);
    ObjectWithin(all[1].members, names);
    ArrayWithin(all, names);
    ObjectWithin(ErrorSchema(errors).members, names);
  }

  lemma ArrayWithin(items: seq<Json>, names: set<string>)
    requires forall i | 0 <= i < |items| :: RefsWithin(items[i], names)
    ensures RefsWithin(Array(items), names)
  {}

  lemma DoneWithin(output: Option<TypeRef>, names: set<string>)
    requires IsResolvedOptional(output, names)
    ensures RefsWithin(DoneResponse(output), names)
  {
    hide RefsWithin, TypeSchema, JsonContent, IsResolved;
    LeafWithin(names);
    if output.Some? {
      TypeSchemaWithin(output.value, names);
      ContentWithin(Object(TypeSchema(output.value)), names);
    }
    ObjectWithin(DoneResponse(output).members, names);
  }

  lemma ResponsesWithin(o: IROperation, names: set<string>)
    requires IsResolvedOptional(o.output, names) && "Problem" in names
    ensures RefsWithin(Responses(o), names)
  {
    hide RefsWithin, DoneResponse, Problem, ErrorSchema, ProblemRef, IsResolvedOptional;
    DoneWithin(o.output, names);
    ProblemRefWithin(names);
    ErrorSchemaWithin(o.errors, names);
    ProblemResponseWithin("The input does not match the contract.", ProblemRef(), names);
    ProblemResponseWithin("A declared domain error.", ErrorSchema(o.errors), names);
    ProblemResponseWithin("The operation is not implemented yet by the owning team.", ProblemRef(), names);
    ObjectWithin(Responses(o).members, names);
  }

  lemma OperationWithin(o: IROperation, names: set<string>)
    requires IsResolvedOptional(o.input, names) && IsResolvedOptional(o.output, names) && "Problem" in names
    ensures RefsWithin(OperationObject(o), names)
  {
    hide RefsWithin, Responses, JsonContent, TypeSchema, IsResolved, Texts;
    LeafWithin(names);
    ResponsesWithin(o, names);
    TextsWithin(o.roles, names);
    TextsWithin(o.emits, names);
    TextsWithin(o.invariants, names);
    ObjectWithin(map["intent" := Str(o.intent), "roles" := Texts(o.roles)], names);
    if o.input.Some? {
      TypeSchemaWithin(o.input.value, names);
      ContentWithin(Object(TypeSchema(o.input.value)), names);
      ObjectWithin(map["required" := Bool(true), "content" := JsonContent(Object(TypeSchema(o.input.value)))], names);
    }
    ObjectWithin(OperationObject(o).members, names);
  }

  lemma {:induction false} PathsWithin(context: string, operations: seq<IROperation>, names: set<string>)
    requires forall i | 0 <= i < |operations| :: IsResolvedOptional(operations[i].input, names) && IsResolvedOptional(operations[i].output, names)
    requires "Problem" in names
    ensures AllWithin(Paths(context, operations), names) && forall k | k in Paths(context, operations) :: Paths(context, operations)[k].Object?
  {
    hide RefsWithin, OperationObject, IsResolvedOptional, MethodOf, PathOf;
    if |operations| > 0 {
      var front, last := operations[..|operations| - 1], operations[|operations| - 1];
      PathsWithin(context, front, names);
      OperationWithin(last, names);
      assert MethodOf(last) != "$ref" by { MethodIsVerb(last); }
      ObjectWithin(map[MethodOf(last) := OperationObject(last)], names);
    }
  }

  lemma MethodIsVerb(o: IROperation)
    ensures MethodOf(o) == "get" || MethodOf(o) == "post"
  {}

  lemma EventsWithin(events: seq<IREvent>, names: set<string>)
    requires forall i | 0 <= i < |events| :: IsResolved(events[i].payload, names)
    ensures RefsWithin(Array(EventsJson(events)), names)
  {
    hide RefsWithin, TypeSchema, IsResolved;
    LeafWithin(names);
    forall i | 0 <= i < |events|
      ensures RefsWithin(EventJson(events[i]), names)
    {
      TypeSchemaWithin(events[i].payload, names);
      ObjectWithin(EventJson(events[i]).members, names);
    }
    ArrayWithin(EventsJson(events), names);
  }

  /** The names of the schemas of the document. */
  function SchemaNames(types: seq<IRType>): set<string> {
    Schemas(types).Keys
  }

  lemma SchemaNamesAreTypes(types: seq<IRType>)
    ensures SchemaNames(types) == (set t | t in types :: t.id) + {"Problem"}
  {
    hide ProblemSchema;
    TypeSchemasKeys(types);
  }

  lemma {:induction false} TypeSchemasKeys(types: seq<IRType>)
    ensures TypeSchemas(types).Keys == set t | t in types :: t.id
  {
    hide SchemaOf;
    if |types| > 0 {
      TypeSchemasKeys(types[..|types| - 1]);
      assert types == types[..|types| - 1] + [types[|types| - 1]];
    }
  }

  lemma ResolvedInMore(t: TypeRef, names: set<string>, more: set<string>)
    requires IsResolved(t, names) && names <= more
    ensures IsResolved(t, more)
  {}

  lemma DocumentWithin(domain: DomainIR, provider: string, consumers: seq<string>, operations: seq<IROperation>, names: set<string>)
    requires IsResolvedIR(domain) && (forall o | o in operations :: o in domain.operations)
    requires names == SchemaNames(domain.types)
    ensures RefsWithin(DocumentOf(domain, provider, consumers, Paths(domain.boundedContext, operations), Schemas(domain.types)), names)
  {
    hide RefsWithin, Paths, Schemas, IsResolved, DocumentOf;
    SchemaNamesAreTypes(domain.types);
    var ids := set t | t in domain.types :: t.id;
    forall t | IsResolved(t, ids) ensures IsResolved(t, names) { ResolvedInMore(t, ids, names); }
    PathsWithin(domain.boundedContext, operations, names);
    PathsObject(domain.boundedContext, operations, names);
    SchemasWithin(domain.types, names);
    EventsWithin(domain.events, names);
    EnvelopeWithin(domain, provider, consumers, Paths(domain.boundedContext, operations), Schemas(domain.types), names);
  }

  lemma EnvelopeWithin(domain: DomainIR, provider: string, consumers: seq<string>, paths: Members, schemas: Members, names: set<string>)
    requires RefsWithin(Object(paths), names) && RefsWithin(Object(schemas), names) && RefsWithin(Array(EventsJson(domain.events)), names)
    ensures RefsWithin(DocumentOf(domain, provider, consumers, paths, schemas), names)
  {
    hide RefsWithin, Texts, AfterAt, EventsJson;
    LeafWithin(names);
    TextsWithin(consumers, names);
    var m := DocumentOf(domain, provider, consumers, paths, schemas).members;
    ObjectWithin(m["info"].members, names);
    ObjectWithin(m["x-foundation"].members["contract"].members, names);
    ObjectWithin(m["x-foundation"].members, names);
    ObjectWithin(m["components"].members, names);
    ObjectWithin(m, names);
  }

  lemma PathsObject(context: string, operations: seq<IROperation>, names: set<string>)
    requires AllWithin(Paths(context, operations), names) && forall k | k in Paths(context, operations) :: Paths(context, operations)[k].Object?
    ensures RefsWithin(Object(Paths(context, operations)), names)
  {
    hide RefsWithin, Paths;
    ObjectWithin(Paths(context, operations), names);
  }

  /** What holds of the whole tree holds at every location. */
  lemma {:induction false} WithinEverywhere(v: Json, names: set<string>, route: seq<string>)
    requires RefsWithin(v, names) && Lookup(v, route).Some?
    ensures OwnRefWithin(Lookup(v, route).value, names)
    decreases |route|
  {
    if |route| > 0 {
      WithinEverywhere(Child(v, route[0]).value, names, route[1..]);
    }
  }

  /** The schemas of an API document, by name. */
  function SchemaAt(document: Json, name: string): Option<Json> {
    Lookup(document, ["components", "schemas", name])
  }

  lemma SchemaLookup(domain: DomainIR, provider: string, consumers: seq<string>, paths: Members, name: string)
    ensures SchemaAt(DocumentOf(domain, provider, consumers, paths, Schemas(domain.types)), name).Some? <==> name in SchemaNames(domain.types)
  {
    hide Schemas, AfterAt, Texts, EventsJson, Lookup;
    var document := DocumentOf(domain, provider, consumers, paths, Schemas(domain.types));
    var schemas := Object(Schemas(domain.types));
    Descend(document.members, "components", ["schemas", name]);
    Descend(map["schemas" := schemas], "schemas", [name]);
    Descend(schemas.members, name, []);
    assert ["components"] + ["schemas", name] == ["components", "schemas", name] && ["schemas"] + [name] == ["schemas", name] && [name] + [] == [name];
    NoStep();
  }

  /** In the API document of an accepted contract, every schema reference names a schema of the document. */
  lemma RefsResolve(c: DomainContract, provider: string, bindings: seq<Realization.OperationBinding>, route: seq<string>)
    requires IsSound(c) && ContractOf(BuildDomainIR(c), provider, bindings).Some?
    ensures var document := ContractOf(BuildDomainIR(c), provider, bindings).value.document;
            Lookup(document, route).Some? && RefOf(Lookup(document, route).value).Some? ==>
            exists name :: RefOf(Lookup(document, route).value).value == RefText(name) && SchemaAt(document, name).Some?
  {
    hide DocumentOf, Paths, Schemas, BuildDomainIR, RefsWithin, IsSound, ConsumersOf, RefOf, SchemaAt;
    var domain := BuildDomainIR(c);
    SoundIRIsResolved(c);
    var document := ContractOf(domain, provider, bindings).value.document;
    var operations, consumers := ImplementedOperations(domain, provider, bindings), ContractOf(domain, provider, bindings).value.consumers;
    DocumentWithin(domain, provider, consumers, operations, SchemaNames(domain.types));
    if Lookup(document, route).Some? && RefOf(Lookup(document, route).value).Some? {
      WithinEverywhere(document, SchemaNames(domain.types), route);
      var name :| name in SchemaNames(domain.types) && RefOf(Lookup(document, route).value).value == RefText(name);
      SchemaLookup(domain, provider, consumers, Paths(domain.boundedContext, operations), name);
    }
  }

  /** The document holds the own schema of a declared type exactly when the type is not named `Problem`. */
  lemma {:induction false} OwnSchemaUnlessReserved(types: seq<IRType>, i: nat)
    requires i < |types| && forall j, k | 0 <= j < k < |types| :: types[j].id != types[k].id
    ensures types[i].id in Schemas(types)
    ensures Schemas(types)[types[i].id] == SchemaOf(types[i]) <==> types[i].id != "Problem"
  {
    hide SchemaOf, ProblemSchema;
    TypeSchemasHold(types, i);
    SchemaIsMarked(types[i]);
  }

  lemma {:induction false} TypeSchemasHold(types: seq<IRType>, i: nat)
    requires i < |types| && forall j, k | 0 <= j < k < |types| :: types[j].id != types[k].id
    ensures types[i].id in TypeSchemas(types) && TypeSchemas(types)[types[i].id] == SchemaOf(types[i])
  {
    hide SchemaOf;
    var n := |types| - 1;
    if i < n {
      TypeSchemasHold(types[..n], i);
    }
  }

  /** The schema of a type is marked with the type, the reserved one is not. */
  lemma SchemaIsMarked(t: IRType)
    ensures SchemaOf(t) != ProblemSchema()
  {
    assert "x-foundation-type" in SchemaOf(t).members && "x-foundation-type" !in ProblemSchema().members;
  }

  /** With plain type names (no `/`, no `~`), every schema reference resolves as a pointer into the document. */
  lemma RefsResolveAsPointers(c: DomainContract, provider: string, bindings: seq<Realization.OperationBinding>, route: seq<string>)
    requires IsSound(c) && ContractOf(BuildDomainIR(c), provider, bindings).Some?
    requires forall t | t in c.types :: '/' !in t.id && '~' !in t.id
    ensures var document := ContractOf(BuildDomainIR(c), provider, bindings).value.document;
            Lookup(document, route).Some? && RefOf(Lookup(document, route).value).Some? ==>
            var text := RefOf(Lookup(document, route).value).value;
            |text| > 0 && text[0] == '#' && Lookup(document, Decode(text[1..])).Some?
  {
    hide ContractOf, BuildDomainIR, IsSound, RefOf, Lookup, Decode, RefText;
    var document := ContractOf(BuildDomainIR(c), provider, bindings).value.document;
    if Lookup(document, route).Some? && RefOf(Lookup(document, route).value).Some? {
      RefsResolve(c, provider, bindings, route);
      var name :| RefOf(Lookup(document, route).value).value == RefText(name) && SchemaAt(document, name).Some?;
      DocumentSchema(c, provider, bindings, name);
      RefIsPointer(name);
    }
  }

  lemma DocumentSchema(c: DomainContract, provider: string, bindings: seq<Realization.OperationBinding>, name: string)
    requires ContractOf(BuildDomainIR(c), provider, bindings).Some?
    requires SchemaAt(ContractOf(BuildDomainIR(c), provider, bindings).value.document, name).Some?
    ensures name == "Problem" || exists t :: t in c.types && t.id == name
  {
    hide DocumentOf, Paths, Schemas, BuildDomainIR, ConsumersOf, SchemaAt, SchemaNames;
    var domain := BuildDomainIR(c);
    var contract := ContractOf(domain, provider, bindings).value;
    SchemaLookup(domain, provider, contract.consumers, Paths(domain.boundedContext, ImplementedOperations(domain, provider, bindings)), name);
    SchemaNamesAreTypes(domain.types);
    IRTypeIds(c);
    if name != "Problem" {
      var i :| 0 <= i < |TypeIds(c)| && TypeIds(c)[i] == name;
      assert c.types[i] in c.types;
    }
  }

  lemma RefIsPointer(name: string)
    requires '/' !in name && '~' !in name
    ensures |RefText(name)| > 0 && RefText(name)[0] == '#' && Decode(RefText(name)[1..]) == ["components", "schemas", name]
  {
    hide Decode, Escape;
    var route := ["components", "schemas", name];
    EncodeThree("components", "schemas", name);
    EscapePlain("components");
    EscapePlain("schemas");
    EscapePlain(name);
    assert RefText(name)[1..] == "/" + "components" + ("/" + "schemas" + ("/" + name));
    DecodeEncode(route);
  }

  lemma EncodeThree(a: string, b: string, c: string)
    ensures Encode([a, b, c]) == "/" + Escape(a) + ("/" + Escape(b) + ("/" + Escape(c)))
  {
    hide Escape;
    assert [a, b, c][1..] == [b, c] && [b, c][1..] == [c] && [c][1..] == [];
    assert Encode([c]) == "/" + Escape(c) + Encode([]) == "/" + Escape(c);
  }

  // ---- Reading the operations back ----

  datatype ProjectedOperation = ProjectedOperation(
    id: string,
    verb: string,
    path: string,
    pointer: string,
    input: Option<Json>,
    output: Option<Json>,
    kind: string,
    roles: seq<string>,
    invariants: seq<string>
  )

  function TextOf(v: Option<Json>): string {
    match v
    case Some(Str(text)) => text
    case _ => ""
  }

  function TextsOf(v: Option<Json>): seq<string> {
    match v
    case Some(Array(items)) => Map((x: Json) => TextOf(Some(x)), items)
    case _ => []
  }

  const SCHEMA_ROUTE := ["content", "application/json", "schema"]

  const INPUT_SUFFIX := "/requestBody" + ("/content" + ("/application~1json" + "/schema"))

  /** The pointer text to the input schema of an operation. */
  function PointerOf(path: string, verb: string): string {
    "/paths/" + Escape(path) + "/" + verb + INPUT_SUFFIX
  }

  function ReadOperation(path: string, verb: string, operation: Json): ProjectedOperation {
    ProjectedOperation(TextOf(Child(operation, "operationId")), verb, path, PointerOf(path, verb),
                       Lookup(operation, ["requestBody"] + SCHEMA_ROUTE),
                       Lookup(operation, ["responses", "200"] + SCHEMA_ROUTE),
                       TextOf(Child(operation, "x-foundation-kind")),
                       TextsOf(Lookup(operation, ["x-foundation-authorization", "roles"])),
                       TextsOf(Child(operation, "x-foundation-invariants")))
  }

  function ReadMethods(path: string, methods: Members, verbs: seq<string>): seq<ProjectedOperation>
    requires forall i | 0 <= i < |verbs| :: verbs[i] in methods
  {
    seq(|verbs|, i requires 0 <= i < |verbs| => ReadOperation(path, verbs[i], methods[verbs[i]]))
  }

  function ReadPaths(paths: Members, keys: seq<string>): seq<ProjectedOperation>
    requires forall i | 0 <= i < |keys| :: keys[i] in paths
  {
    if |keys| == 0 then [] else
    var n := |keys| - 1;
    ReadPaths(paths, keys[..n]) +
    match paths[keys[n]]
    case Object(methods) => ReadMethods(keys[n], methods, SortedKeys(methods.Keys))
    case _ => []
  }

  /**
   * The operations of an API document. The paths of a projected document are written in
   * key order (`PathsInKeyOrder`), so that listing them by key lists them as inserted.
   */
  function OperationsOf(document: Json): seq<ProjectedOperation> {
    match Child(document, "paths")
    case Some(Object(paths)) => ReadPaths(paths, SortedKeys(paths.Keys))
    case _ => []
  }

  function SchemaOption(t: Option<TypeRef>): Option<Json> {
    if t.Some? then Some(Object(TypeSchema(t.value))) else None
  }

  /** What an operation of the domain should be read back as. */
  function Projected(context: string, o: IROperation): ProjectedOperation {
    ProjectedOperation(o.id, MethodOf(o), PathOf(context, o), PointerOf(PathOf(context, o), MethodOf(o)),
                       SchemaOption(o.input), SchemaOption(o.output), KindText(o.kind), o.roles, o.invariants)
  }

  lemma ContentSchema(v: Json, members: Members, schema: Json)
    requires v == Object(members) && "content" in members && members["content"] == JsonContent(schema)
    ensures Lookup(v, SCHEMA_ROUTE) == Some(schema)
  {
    hide Lookup;
    Descend(members, "content", ["application/json", "schema"]);
    Descend(map["application/json" := Object(map["schema" := schema])], "application/json", ["schema"]);
    Descend(map["schema" := schema], "schema", []);
    assert ["content"] + ["application/json", "schema"] == SCHEMA_ROUTE && ["application/json"] + ["schema"] == ["application/json", "schema"] && ["schema"] + [] == ["schema"];
    NoStep();
  }

  lemma InputIsRead(o: IROperation)
    ensures Lookup(OperationObject(o), ["requestBody"] + SCHEMA_ROUTE) == SchemaOption(o.input)
  {
    hide Lookup, Responses, Texts, TypeSchema, JsonContent;
    var m := OperationObject(o).members;
    Descend(m, "requestBody", SCHEMA_ROUTE);
    if o.input.Some? {
      var schema := Object(TypeSchema(o.input.value));
      ContentSchema(m["requestBody"], map["required" := Bool(true), "content" := JsonContent(schema)], schema);
    }
  }

  lemma OutputIsRead(o: IROperation)
    ensures Lookup(OperationObject(o), ["responses", "200"] + SCHEMA_ROUTE) == SchemaOption(o.output)
  {
    hide Lookup, Texts, TypeSchema, JsonContent, Problem, ErrorSchema;
    var m := OperationObject(o).members;
    assert ["responses", "200"] + SCHEMA_ROUTE == ["responses"] + (["200"] + SCHEMA_ROUTE);
    Descend(m, "responses", ["200"] + SCHEMA_ROUTE);
    Descend(Responses(o).members, "200", SCHEMA_ROUTE);
    if o.output.Some? {
      var schema := Object(TypeSchema(o.output.value));
      ContentSchema(DoneResponse(o.output), map["description" := Str("Done."), "content" := JsonContent(schema)], schema);
    } else {
      Descend(DoneResponse(o.output).members, "content", ["application/json", "schema"]);
      assert ["content"] + ["application/json", "schema"] == SCHEMA_ROUTE;
    }
  }

  lemma TextsAreRead(s: seq<string>)
    ensures TextsOf(Some(Texts(s))) == s
  {}

  lemma RolesAreRead(o: IROperation)
    ensures TextsOf(Lookup(OperationObject(o), ["x-foundation-authorization", "roles"])) == o.roles
  {
    hide Lookup, Texts, TextsOf, Responses;
    var m := OperationObject(o).members;
    Descend(m, "x-foundation-authorization", ["roles"]);
    Descend(m["x-foundation-authorization"].members, "roles", []);
    assert ["x-foundation-authorization"] + ["roles"] == ["x-foundation-authorization", "roles"] && ["roles"] + [] == ["roles"];
    NoStep();
    TextsAreRead(o.roles);
  }

  lemma OperationIsRead(context: string, o: IROperation)
    ensures ReadOperation(PathOf(context, o), MethodOf(o), OperationObject(o)) == Projected(context, o)
  {
    hide Lookup, Texts, TextsOf, Responses, TypeSchema, PointerOf, PathOf, MethodOf, JsonContent;
    InputIsRead(o);
    OutputIsRead(o);
    RolesAreRead(o);
    TextsAreRead(o.invariants);
  }

  lemma SlashedIsPlain()
    ensures Escape("requestBody") == "requestBody" && Escape("content") == "content" && Escape("schema") == "schema"
    ensures Escape("application/json") == "application~1json"
  {
    hide Escape;
    EscapePlain("requestBody");
    EscapePlain("content");
    EscapePlain("schema");
    EscapePlain("application");
    EscapePlain("json");
    EscapeSlash();
    assert "application/json" == "application" + "/" + "json";
    EscapeConcat("application" + "/", "json");
    EscapeConcat("application", "/");
  }

  lemma EscapeSlash()
    ensures Escape("/") == "~1"
  {
    EscapeStep("/");
    assert "/"[1..] == "";
  }

  function InputRoute(path: string, verb: string): seq<string> {
    ["paths", path, verb, "requestBody"] + SCHEMA_ROUTE
  }

  /** The pointer text decodes to the route of the input schema. */
  lemma PointerIsRoute(path: string, verb: string)
    requires verb == "get" || verb == "post"
    ensures Decode(PointerOf(path, verb)) == InputRoute(path, verb)
  {
    hide Decode, Escape, Encode, PointerOf;
    var head, tail := ["paths", path, verb], ["requestBody", "content", "application/json", "schema"];
    assert InputRoute(path, verb) == head + tail;
    EncodeConcat(head, tail);
    assert PointerOf(path, verb) == Encode(head) + Encode(tail) by {
      HeadText(path, verb);
      SuffixText();
      assert PointerOf(path, verb) == "/paths/" + Escape(path) + "/" + verb + INPUT_SUFFIX by { PointerText(path, verb); }
    }
    DecodeEncode(InputRoute(path, verb));
  }

  lemma PointerText(path: string, verb: string)
    ensures PointerOf(path, verb) == "/paths/" + Escape(path) + "/" + verb + INPUT_SUFFIX
  {}

  lemma HeadText(path: string, verb: string)
    requires verb == "get" || verb == "post"
    ensures Encode(["paths", path, verb]) == "/paths/" + Escape(path) + "/" + verb
  {
    hide Escape, Encode;
    EncodeThree("paths", path, verb);
    EscapePlain("paths");
    EscapePlain(verb);
    var x := Escape(path);
    assert "/" + "paths" + ("/" + x + ("/" + verb)) == "/paths/" + x + "/" + verb;
  }

  lemma SuffixText()
    ensures Encode(["requestBody", "content", "application/json", "schema"]) == INPUT_SUFFIX
  {
    hide Escape, Encode;
    EncodeFour("requestBody", "content", "application/json", "schema");
    SlashedIsPlain();
    assert "/" + "requestBody" == "/requestBody" && "/" + "content" == "/content";
    assert "/" + "application~1json" == "/application~1json" && "/" + "schema" == "/schema";
  }

  lemma EncodeFour(a: string, b: string, c: string, d: string)
    ensures Encode([a, b, c, d]) == "/" + Escape(a) + ("/" + Escape(b) + ("/" + Escape(c) + ("/" + Escape(d))))
  {
    hide Escape;
    EncodeThree(b, c, d);
    assert [a, b, c, d][1..] == [b, c, d];
  }

  // ---- The paths of a normalized domain ----

  ghost predicate DistinctOperations(operations: seq<IROperation>) {
    forall i, j | 0 <= i < j < |operations| :: operations[i].id != operations[j].id
  }

  /** Sorted by id, no id twice: what the Domain IR of an accepted contract is. */
  ghost predicate IsNormalized(operations: seq<IROperation>) {
    Sorted(operations, ByOperationId) && DistinctOperations(operations)
  }

  function PathList(context: string, operations: seq<IROperation>): (r: seq<string>)
    ensures |r| == |operations| && forall i | 0 <= i < |r| :: r[i] == PathOf(context, operations[i])
  {
    seq(|operations|, i requires 0 <= i < |operations| => PathOf(context, operations[i]))
  }

  lemma PathTellsOperation(context: string, a: IROperation, b: IROperation)
    ensures PathOf(context, a) == PathOf(context, b) <==> a.id == b.id
  {
    var n := |context| + 2;
    assert PathOf(context, a)[n..] == a.id && PathOf(context, b)[n..] == b.id;
  }

  lemma {:induction false} CommonPrefix(p: string, a: string, b: string)
    ensures AtMost(p + a, p + b) == AtMost(a, b)
  {
    if |p| == 0 {
      assert p + a == a && p + b == b;
    } else {
      assert (p + a)[1..] == p[1..] + a && (p + b)[1..] == p[1..] + b;
      CommonPrefix(p[1..], a, b);
    }
  }

  /** Sorted operations are written under paths in key order, so insertion order and key order coincide. */
  lemma PathsInKeyOrder(context: string, operations: seq<IROperation>)
    requires IsNormalized(operations)
    ensures SortedKeys(Paths(context, operations).Keys) == PathList(context, operations)
  {
    hide PathOf, AtMost, Paths, SortedKeys;
    var keys := PathList(context, operations);
    PathKeys(context, operations);
    forall i, j | 0 <= i < j < |keys|
      ensures keys[i] != keys[j] && AtMost(keys[i], keys[j])
    {
      PathTellsOperation(context, operations[i], operations[j]);
      PathOrder(context, operations[i], operations[j]);
    }
    NoRepeats(keys, Paths(context, operations).Keys);
    KeyOrderIsIrrelevant(keys, Paths(context, operations).Keys);
    SortOfSorted(keys, AtMost);
  }

  lemma PathOrder(context: string, a: IROperation, b: IROperation)
    ensures AtMost(PathOf(context, a), PathOf(context, b)) == ByOperationId(a, b)
  {
    CommonPrefix("/" + context + "/", a.id, b.id);
  }

  lemma {:induction false} PathKeys(context: string, operations: seq<IROperation>)
    ensures forall k :: k in Paths(context, operations) <==> k in PathList(context, operations)
  {
    hide PathOf, OperationObject, MethodOf;
    if |operations| > 0 {
      var n := |operations| - 1;
      PathKeys(context, operations[..n]);
      assert PathList(context, operations) == PathList(context, operations[..n]) + [PathOf(context, operations[n])];
    }
  }

  function MethodsOf(o: IROperation): Members {
    map[MethodOf(o) := OperationObject(o)]
  }

  /** Each operation is found under its own path. */
  lemma {:induction false} PathHoldsOperation(context: string, operations: seq<IROperation>, i: nat)
    requires DistinctOperations(operations) && i < |operations|
    ensures PathOf(context, operations[i]) in Paths(context, operations)
    ensures Paths(context, operations)[PathOf(context, operations[i])] == Object(MethodsOf(operations[i]))
  {
    hide PathOf, OperationObject, MethodOf;
    var n := |operations| - 1;
    if i < n {
      PathHoldsOperation(context, operations[..n], i);
      PathTellsOperation(context, operations[i], operations[n]);
    }
  }

  lemma OneVerb(context: string, o: IROperation)
    ensures ReadMethods(PathOf(context, o), MethodsOf(o), SortedKeys(MethodsOf(o).Keys)) == [Projected(context, o)]
  {
    hide PathOf, OperationObject, MethodOf, Projected, ReadOperation;
    OperationIsRead(context, o);
    assert MethodsOf(o).Keys == {MethodOf(o)};
    var verbs := SortedKeys({MethodOf(o)});
    assert verbs[0] in verbs;
  }

  lemma ReadPathsStep(paths: Members, keys: seq<string>, methods: Members)
    requires |keys| > 0 && forall i | 0 <= i < |keys| :: keys[i] in paths
    requires paths[keys[|keys| - 1]] == Object(methods)
    ensures ReadPaths(paths, keys) == ReadPaths(paths, keys[..|keys| - 1]) + ReadMethods(keys[|keys| - 1], methods, SortedKeys(methods.Keys))
  {}

  lemma {:induction false} PathsAreRead(context: string, operations: seq<IROperation>, n: nat)
    requires DistinctOperations(operations) && n <= |operations|
    requires forall i | 0 <= i < n :: PathList(context, operations)[i] in Paths(context, operations)
    ensures |ReadPaths(Paths(context, operations), PathList(context, operations)[..n])| == n
    ensures forall i | 0 <= i < n :: ReadPaths(Paths(context, operations), PathList(context, operations)[..n])[i] == Projected(context, operations[i])
  {
    hide PathOf, OperationObject, MethodOf, Projected, ReadMethods, Paths, MethodsOf, SortedKeys;
    var keys := PathList(context, operations)[..n];
    if n > 0 {
      hide ReadPaths;
      PathsAreRead(context, operations, n - 1);
      assert keys[..n - 1] == PathList(context, operations)[..n - 1];
      PathHoldsOperation(context, operations, n - 1);
      ReadPathsStep(Paths(context, operations), keys, MethodsOf(operations[n - 1]));
      OneVerb(context, operations[n - 1]);
    }
  }

  ghost predicate Follows(front: seq<IROperation>, last: IROperation) {
    forall o | o in front :: ByOperationId(o, last) && o.id != last.id
  }

  lemma NormalizedStep(front: seq<IROperation>, last: IROperation)
    ensures IsNormalized(front + [last]) <==> IsNormalized(front) && Follows(front, last)
  {
    hide ByOperationId;
    var all := front + [last];
    assert all[|front|] == last && forall i | 0 <= i < |front| :: all[i] == front[i];
    if IsNormalized(all) {
      forall o | o in front ensures ByOperationId(o, last) && o.id != last.id {
        var i :| 0 <= i < |front| && front[i] == o;
        assert ByOperationId(all[i], all[|front|]);
      }
    }
  }

  lemma {:induction false} FilterKeepsOrder(p: IROperation -> bool, operations: seq<IROperation>)
    requires IsNormalized(operations)
    ensures IsNormalized(Filter(p, operations))
  {
    hide ByOperationId, Sorted, DistinctOperations;
    if |operations| > 0 {
      var front, last := operations[..|operations| - 1], operations[|operations| - 1];
      assert operations == front + [last];
      NormalizedStep(front, last);
      FilterKeepsOrder(p, front);
      NormalizedStep(Filter(p, front), last);
      assert Filter(p, front) + [] == Filter(p, front);
      assert forall o | o in Filter(p, front) :: o in front;
    }
  }

  lemma OperationsAreNormalized(c: DomainContract)
    requires NoRepeat(OperationIds(c))
    ensures IsNormalized(BuildDomainIR(c).operations)
  {
    hide Sort, OperationIR, TypesIR, EventsIR;
    var all := OperationsIR(c, c.operations);
    IdOrders();
    SortSorts(all, ByOperationId);
    SortPermutes(all, ByOperationId);
    assert DistinctOperations(all) by {
      forall i, j | 0 <= i < j < |all| ensures all[i].id != all[j].id {
        assert OperationIds(c)[i] == all[i].id by { OperationKeepsId(c, c.operations[i]); }
        assert OperationIds(c)[j] == all[j].id by { OperationKeepsId(c, c.operations[j]); }
      }
    }
    PermutedIsDistinct(all, Sort(all, ByOperationId));
  }

  lemma OperationKeepsId(c: DomainContract, o: Operation)
    ensures OperationIR(c, o).id == o.id
  {}

  lemma PermutedIsDistinct(a: seq<IROperation>, b: seq<IROperation>)
    requires DistinctOperations(a) && multiset(a) == multiset(b)
    ensures DistinctOperations(b)
  {
    var key := (o: IROperation) => o.id;
    KeysStayDistinct(key, a, b);
    forall i, j | 0 <= i < j < |b|
      ensures b[i].id != b[j].id
    {
      assert Map(key, b)[i] != Map(key, b)[j];
    }
  }

  /**
   * Round trip. The operations read from the API document of an accepted contract are the
   * operations that the provider implements, each once and in order, with its method, its
   * schemas and a pointer that leads to its input schema, if it has one.
   */
  lemma OperationsReadBack(c: DomainContract, provider: string, bindings: seq<Realization.OperationBinding>)
    requires IsSound(c) && ContractOf(BuildDomainIR(c), provider, bindings).Some?
    ensures var domain, document := BuildDomainIR(c), ContractOf(BuildDomainIR(c), provider, bindings).value.document;
            var operations, read := ImplementedOperations(domain, provider, bindings), OperationsOf(document);
            |read| == |operations| &&
            forall i | 0 <= i < |read| ::
              read[i] == Projected(c.boundedContext, operations[i]) &&
              Lookup(document, Decode(read[i].pointer)) == SchemaOption(operations[i].input)
  {
    hide BuildDomainIR, Schemas, Paths, AfterAt, Texts, EventsJson, Projected, Lookup, Decode, ReadPaths, PathList, SortedKeys, IsSound, ConsumersOf, Sort, IsImplementedBy;
    var domain := BuildDomainIR(c);
    var operations := ImplementedOperations(domain, provider, bindings);
    assert NoRepeat(OperationIds(c)) by { SoundIdsAreDistinct(c); }
    OperationsAreNormalized(c);
    FilterKeepsOrder((o: IROperation) => IsImplementedBy(bindings, o.ref, provider), domain.operations);
    assert domain.boundedContext == c.boundedContext by { ContextIsKept(c); }
    DocumentIsRead(domain, provider, bindings, operations);
  }

  lemma ContextIsKept(c: DomainContract)
    ensures BuildDomainIR(c).boundedContext == c.boundedContext
  {}

  lemma SoundIdsAreDistinct(c: DomainContract)
    requires IsSound(c)
    ensures NoRepeat(OperationIds(c))
  {}

  lemma DocumentIsRead(domain: DomainIR, provider: string, bindings: seq<Realization.OperationBinding>, operations: seq<IROperation>)
    requires ContractOf(domain, provider, bindings).Some? && operations == ImplementedOperations(domain, provider, bindings)
    requires IsNormalized(operations)
    ensures var document := ContractOf(domain, provider, bindings).value.document;
            var read := OperationsOf(document);
            |read| == |operations| &&
            forall i | 0 <= i < |read| ::
              read[i] == Projected(domain.boundedContext, operations[i]) &&
              Lookup(document, Decode(read[i].pointer)) == SchemaOption(operations[i].input)
  {
    hide ContractOf, OperationsOf, Paths, Lookup, Decode, ReadPaths, SortedKeys, Sorted, PathOf, PointerOf, MethodOf, TypeSchema;
    var context, document := domain.boundedContext, ContractOf(domain, provider, bindings).value.document;
    var paths, keys := Paths(context, operations), PathList(context, operations);
    DocumentPaths(domain, provider, bindings);
    PathsInKeyOrder(context, operations);
    forall i | 0 <= i < |operations| ensures keys[i] in paths { PathHoldsOperation(context, operations, i); }
    PathsAreRead(context, operations, |operations|);
    assert keys[..|operations|] == keys;
    forall i | 0 <= i < |operations|
      ensures Lookup(document, Decode(PointerOf(PathOf(context, operations[i]), MethodOf(operations[i])))) == SchemaOption(operations[i].input)
    {
      InputIsFound(context, operations, i, document);
    }
  }

  lemma DocumentPaths(domain: DomainIR, provider: string, bindings: seq<Realization.OperationBinding>)
    requires ContractOf(domain, provider, bindings).Some?
    ensures var document, paths := ContractOf(domain, provider, bindings).value.document, Paths(domain.boundedContext, ImplementedOperations(domain, provider, bindings));
            document.Object? && "paths" in document.members && document.members["paths"] == Object(paths) &&
            OperationsOf(document) == ReadPaths(paths, SortedKeys(paths.Keys))
  {
    hide ImplementedOperations, Schemas, Paths, AfterAt, Texts, EventsJson, ReadPaths, SortedKeys, ConsumersOf;
  }

  lemma InputIsFound(context: string, operations: seq<IROperation>, i: nat, document: Json)
    requires document.Object? && "paths" in document.members && document.members["paths"] == Object(Paths(context, operations))
    requires DistinctOperations(operations) && i < |operations|
    ensures Lookup(document, Decode(PointerOf(PathOf(context, operations[i]), MethodOf(operations[i])))) == SchemaOption(operations[i].input)
  {
    hide Decode, PointerOf, PathOf, MethodOf, Paths, OperationObject, Lookup, TypeSchema;
    var o := operations[i];
    var path, verb := PathOf(context, o), MethodOf(o);
    MethodIsVerb(o);
    PointerIsRoute(path, verb);
    PathHoldsOperation(context, operations, i);
    var rest := ["requestBody"] + SCHEMA_ROUTE;
    assert InputRoute(path, verb) == ["paths"] + ([path] + ([verb] + rest));
    Descend(document.members, "paths", [path] + ([verb] + rest));
    Descend(Paths(context, operations), path, [verb] + rest);
    Descend(MethodsOf(o), verb, rest);
    InputIsRead(o);
  }

  // ---- From the declared operation to the one read back ----

  function ElementSchema(element: string): Json {
    Object(if element in PRIMITIVES then PrimitiveSchema(element) else RefSchema(element))
  }

  /** The schema a declared type expression stands for. */
  function ExpressionSchema(e: string): Json {
    if IsList(e) then Object(map["type" := Str("array"), "items" := ElementSchema(ElementType(e))]) else ElementSchema(e)
  }

  function OptionalSchema(e: Option<string>): Option<Json> {
    if e.Some? then Some(ExpressionSchema(e.value)) else None
  }

  lemma ExpressionIsProjected(c: DomainContract, e: Option<string>)
    ensures SchemaOption(ResolveOptional(c, e)) == OptionalSchema(e)
  {
    hide PrimitiveSchema;
    if e.Some? { ElementIsShorter(e.value); }
  }

  lemma ElementIsShorter(e: string)
    ensures ElementType(e) != e <==> IsList(e)
  {}

  /** A declared operation and what is read back for it. */
  ghost predicate ReadsBack(context: string, o: Operation, r: ProjectedOperation) {
    && r.id == o.id
    && r.verb == (if o.kind.Query? && o.input.None? then "get" else "post")
    && r.path == "/" + context + "/" + o.id
    && r.input == OptionalSchema(o.input) && r.output == OptionalSchema(o.output)
    && r.kind == (if o.kind.Command? then "COMMAND" else "QUERY")
    && SetOf(r.roles) == SetOf(o.roles)
  }

  lemma ProjectedReadsBack(c: DomainContract, o: Operation)
    ensures ReadsBack(c.boundedContext, o, Projected(c.boundedContext, OperationIR(c, o)))
  {
    hide ResolveOptional, SchemaOption, OptionalSchema, Item, PointerOf;
    ExpressionIsProjected(c, o.input);
    ExpressionIsProjected(c, o.output);
    assert ResolveOptional(c, o.input).None? <==> o.input.None? by { OptionalIsKept(c, o.input); }
    assert SetOf(SortedSet(o.roles)) == SetOf(o.roles);
  }

  lemma OptionalIsKept(c: DomainContract, e: Option<string>)
    ensures ResolveOptional(c, e).None? <==> e.None?
  {}

  /**
   * End to end: of an operation that an accepted contract declares, the API contract of a
   * component that implements it gives back exactly one, with its verb, path, schemas,
   * kind and roles; of one it does not implement, none.
   */
  lemma DeclaredOperationIsRead(c: DomainContract, provider: string, bindings: seq<Realization.OperationBinding>, o: Operation)
    requires IsSound(c) && o in c.operations && ContractOf(BuildDomainIR(c), provider, bindings).Some?
    ensures var read := OperationsOf(ContractOf(BuildDomainIR(c), provider, bindings).value.document);
            (IsImplementedBy(bindings, Item(c, o.id), provider) <==> exists i :: 0 <= i < |read| && read[i].id == o.id) &&
            (forall i | 0 <= i < |read| && read[i].id == o.id :: ReadsBack(c.boundedContext, o, read[i])) &&
            (forall i, j | 0 <= i < j < |read| :: read[i].id != read[j].id)
  {
    hide BuildDomainIR, OperationsOf, ContractOf, ReadsBack, IsSound, IsImplementedBy, Item, Decode, Lookup, Projected;
    var domain := BuildDomainIR(c);
    var operations := ImplementedOperations(domain, provider, bindings);
    OperationsReadBack(c, provider, bindings);
    SoundIdsAreDistinct(c);
    ImplementedAreDeclared(c, provider, bindings, o);
    forall i | 0 <= i < |operations|
      ensures Projected(c.boundedContext, operations[i]).id == operations[i].id
      ensures operations[i].id == o.id ==> ReadsBack(c.boundedContext, o, Projected(c.boundedContext, operations[i]))
    {
      ProjectedKeepsId(c.boundedContext, operations[i]);
      ProjectedReadsBack(c, o);
    }
  }

  lemma ProjectedKeepsId(context: string, o: IROperation)
    ensures Projected(context, o).id == o.id
  {}

  lemma ImplementedAreDeclared(c: DomainContract, provider: string, bindings: seq<Realization.OperationBinding>, o: Operation)
    requires NoRepeat(OperationIds(c)) && o in c.operations
    ensures var operations := ImplementedOperations(BuildDomainIR(c), provider, bindings);
            DistinctOperations(operations) &&
            (IsImplementedBy(bindings, Item(c, o.id), provider) <==> exists i :: 0 <= i < |operations| && operations[i].id == o.id) &&
            (forall i | 0 <= i < |operations| && operations[i].id == o.id :: operations[i] == OperationIR(c, o))
  {
    hide BuildDomainIR, IsImplementedBy, Item, SortedSet, ResolveOptional, ByOperationId;
    var domain := BuildDomainIR(c);
    var operations := ImplementedOperations(domain, provider, bindings);
    IRListsDeclarations(c);
    OperationsAreNormalized(c);
    FilterKeepsOrder((x: IROperation) => IsImplementedBy(bindings, x.ref, provider), domain.operations);
    var k :| 0 <= k < |c.operations| && c.operations[k] == o;
    assert OperationIR(c, o) in domain.operations;
    forall i | 0 <= i < |operations| && operations[i].id == o.id
      ensures operations[i] == OperationIR(c, o)
    {
      assert operations[i] in operations;
      var m :| 0 <= m < |c.operations| && operations[i] == OperationIR(c, c.operations[m]);
      assert OperationIds(c)[m] == OperationIds(c)[k];
    }
    if IsImplementedBy(bindings, Item(c, o.id), provider) {
      assert OperationIR(c, o) in operations;
      var i :| 0 <= i < |operations| && operations[i] == OperationIR(c, o);
      assert operations[i].id == o.id;
    }
    if i :| 0 <= i < |operations| && operations[i].id == o.id {
      assert operations[i] in operations;
    }
  }

  // ---- All the contracts of a system ----

  /** Whoever implements an operation of the domain. */
  function ProvidersOf(domain: DomainIR, bindings: seq<Realization.OperationBinding>): set<string> {
    set b, p | b in bindings && (exists o :: o in domain.operations && o.ref == b.item) && p in b.implementedBy :: p
  }

  function ContractsBy(domain: DomainIR, providers: seq<string>, bindings: seq<Realization.OperationBinding>): seq<ApiContract> {
    if |providers| == 0 then [] else
    var n := |providers| - 1;
    ContractsBy(domain, providers[..n], bindings) +
    match ContractOf(domain, providers[n], bindings)
    case Some(c) => [c]
    case None => []
  }

  function AllContracts(domains: seq<DomainIR>, bindings: seq<Realization.OperationBinding>): seq<ApiContract> {
    if |domains| == 0 then [] else
    var last := domains[|domains| - 1];
    AllContracts(domains[..|domains| - 1], bindings) + ContractsBy(last, SortedKeys(ProvidersOf(last, bindings)), bindings)
  }

  predicate ByContractId(a: ApiContract, b: ApiContract) { AtMost(a.id, b.id) }

  method ProjectApiContracts(domains: seq<DomainIR>, bindings: seq<Realization.OperationBinding>) returns (contracts: seq<ApiContract>)
    ensures contracts == Sort(AllContracts(domains, bindings), ByContractId)
  {
    hide ContractOf, Sort, SortedKeys;
    contracts := [];
    for i := 0 to |domains|
      invariant contracts == AllContracts(domains[..i], bindings)
    {
      assert domains[..i + 1][..i] == domains[..i];
      var providers := SortedKeys(ProvidersOf(domains[i], bindings));
      ghost var before := contracts;
      for k := 0 to |providers|
        invariant contracts == before + ContractsBy(domains[i], providers[..k], bindings)
      {
        assert providers[..k + 1][..k] == providers[..k];
        var contract := ProjectApiContract(domains[i], providers[k], bindings);
        if contract.Some? {
          contracts := contracts + [contract.value];
        }
      }
      assert providers[..|providers|] == providers;
    }
    assert domains[..|domains|] == domains;
    contracts := Sort(contracts, ByContractId);
  }

  predicate ImplementsSome(domain: DomainIR, provider: string, bindings: seq<Realization.OperationBinding>) {
    exists o :: o in domain.operations && IsImplementedBy(bindings, o.ref, provider)
  }

  lemma ContractTells(domain: DomainIR, provider: string, bindings: seq<Realization.OperationBinding>)
    ensures ContractOf(domain, provider, bindings).Some? <==> ImplementsSome(domain, provider, bindings)
    ensures ContractOf(domain, provider, bindings).Some? ==>
              var c := ContractOf(domain, provider, bindings).value;
              c.provider == provider && c.domainRef == domain.ref && provider in ProvidersOf(domain, bindings) &&
              (forall ref :: ref in c.operations <==> exists o :: o in domain.operations && o.ref == ref && IsImplementedBy(bindings, ref, provider)) &&
              (forall x :: x in c.consumers <==> x != provider && exists o :: o in domain.operations && IsImplementedBy(bindings, o.ref, provider) && IsConsumedBy(bindings, o.ref, x))
  {
    hide DocumentOf, Schemas, Paths, BindingOf;
    var operations := ImplementedOperations(domain, provider, bindings);
    var refs := Map((o: IROperation) => o.ref, operations);
    if |operations| > 0 { assert operations[0] in operations; }
    forall o | o in domain.operations && IsImplementedBy(bindings, o.ref, provider)
      ensures o in operations && o.ref in refs && provider in ProvidersOf(domain, bindings)
    {
      var i :| 0 <= i < |operations| && operations[i] == o;
      assert refs[i] == o.ref;
    }
    forall ref | ref in refs
      ensures exists o :: o in domain.operations && o.ref == ref && IsImplementedBy(bindings, ref, provider)
    {
      var i :| 0 <= i < |operations| && operations[i].ref == ref;
      assert operations[i] in operations;
    }
  }

  lemma {:induction false} ContractsByAreExact(domain: DomainIR, providers: seq<string>, bindings: seq<Realization.OperationBinding>)
    ensures forall x :: x in ContractsBy(domain, providers, bindings) <==> exists i :: 0 <= i < |providers| && ContractOf(domain, providers[i], bindings) == Some(x)
    ensures forall x | x in ContractsBy(domain, providers, bindings) :: x.provider in providers
  {
    hide ContractOf;
    if |providers| > 0 {
      var n := |providers| - 1;
      ContractsByAreExact(domain, providers[..n], bindings);
      ContractTells(domain, providers[n], bindings);
    }
  }

  lemma {:induction false} ContractsByAreDistinct(domain: DomainIR, providers: seq<string>, bindings: seq<Realization.OperationBinding>)
    requires NoRepeat(providers)
    ensures OnePerProvider(ContractsBy(domain, providers, bindings))
  {
    hide ContractOf;
    if |providers| > 0 {
      var n := |providers| - 1;
      var front := ContractsBy(domain, providers[..n], bindings);
      ContractsByAreDistinct(domain, providers[..n], bindings);
      ContractsByAreExact(domain, providers[..n], bindings);
      ContractTells(domain, providers[n], bindings);
      assert providers[n] !in providers[..n];
      assert forall i | 0 <= i < |front| :: front[i] in front;
    }
  }

  /** No two contracts of the same domain and provider. */
  ghost predicate OnePerProvider(contracts: seq<ApiContract>) {
    forall i, j | 0 <= i < j < |contracts| :: contracts[i].domainRef != contracts[j].domainRef || contracts[i].provider != contracts[j].provider
  }

  lemma OnePerProviderConcat(a: seq<ApiContract>, b: seq<ApiContract>)
    requires OnePerProvider(a) && OnePerProvider(b) && forall x, y | x in a && y in b :: x.domainRef != y.domainRef
    ensures OnePerProvider(a + b)
  {
    var all := a + b;
    forall i, j | 0 <= i < j < |all|
      ensures all[i].domainRef != all[j].domainRef || all[i].provider != all[j].provider
    {
      if i < |a| <= j { assert all[i] in a && all[j] in b; }
    }
  }

  function ContractsOfDomain(domain: DomainIR, bindings: seq<Realization.OperationBinding>): seq<ApiContract> {
    ContractsBy(domain, SortedKeys(ProvidersOf(domain, bindings)), bindings)
  }

  lemma OneDomain(domain: DomainIR, bindings: seq<Realization.OperationBinding>)
    ensures forall x :: x in ContractsOfDomain(domain, bindings) <==> exists p :: ContractOf(domain, p, bindings) == Some(x)
    ensures forall x | x in ContractsOfDomain(domain, bindings) :: x.domainRef == domain.ref
    ensures OnePerProvider(ContractsOfDomain(domain, bindings))
  {
    hide ContractOf, SortedKeys, ProvidersOf, ContractsBy, OnePerProvider;
    var providers := SortedKeys(ProvidersOf(domain, bindings));
    ContractsByAreExact(domain, providers, bindings);
    assert NoRepeat(providers);
    ContractsByAreDistinct(domain, providers, bindings);
    forall p | ContractOf(domain, p, bindings).Some?
      ensures p in providers && ContractOf(domain, p, bindings).value.domainRef == domain.ref
      ensures ContractOf(domain, p, bindings).value in ContractsOfDomain(domain, bindings)
    {
      ContractTells(domain, p, bindings);
      var i :| 0 <= i < |providers| && providers[i] == p;
    }
  }

  lemma {:induction false} FromSomeDomain(domains: seq<DomainIR>, bindings: seq<Realization.OperationBinding>)
    ensures forall x :: x in AllContracts(domains, bindings) <==> exists i, p :: 0 <= i < |domains| && ContractOf(domains[i], p, bindings) == Some(x)
  {
    hide ContractOf, ContractsBy, SortedKeys, ProvidersOf;
    if |domains| > 0 {
      var n := |domains| - 1;
      FromSomeDomain(domains[..n], bindings);
      OneDomain(domains[n], bindings);
      assert AllContracts(domains, bindings) == AllContracts(domains[..n], bindings) + ContractsOfDomain(domains[n], bindings);
      forall x
        ensures (exists i, p :: 0 <= i < |domains| && ContractOf(domains[i], p, bindings) == Some(x)) <==>
                (exists i, p :: 0 <= i < n && ContractOf(domains[..n][i], p, bindings) == Some(x)) || exists p :: ContractOf(domains[n], p, bindings) == Some(x)
      {
        if i, p :| 0 <= i < n && ContractOf(domains[i], p, bindings) == Some(x) { assert domains[..n][i] == domains[i]; }
        if i, p :| 0 <= i < n && ContractOf(domains[..n][i], p, bindings) == Some(x) { assert domains[..n][i] == domains[i]; }
      }
    }
  }

  /** One API contract for each domain and each component that implements one of its operations, and no other. */
  lemma {:induction false} ContractsAreExact(domains: seq<DomainIR>, bindings: seq<Realization.OperationBinding>)
    requires forall i, j | 0 <= i < j < |domains| :: domains[i].ref != domains[j].ref
    ensures forall x :: x in AllContracts(domains, bindings) <==> exists i, p :: 0 <= i < |domains| && ContractOf(domains[i], p, bindings) == Some(x)
    ensures OnePerProvider(AllContracts(domains, bindings))
  {
    hide ContractOf, SortedKeys, ProvidersOf, ContractsBy, OnePerProvider;
    FromSomeDomain(domains, bindings);
    if |domains| > 0 {
      var n := |domains| - 1;
      ContractsAreExact(domains[..n], bindings);
      OneDomain(domains[n], bindings);
      forall x | x in AllContracts(domains[..n], bindings) ensures x.domainRef != domains[n].ref {
        var i, p :| 0 <= i < n && ContractOf(domains[..n][i], p, bindings) == Some(x);
        ContractTells(domains[i], p, bindings);
      }
      assert AllContracts(domains, bindings) == AllContracts(domains[..n], bindings) + ContractsOfDomain(domains[n], bindings);
      OnePerProviderConcat(AllContracts(domains[..n], bindings), ContractsOfDomain(domains[n], bindings));
    } else {
      NoContracts(domains, bindings);
    }
  }

  lemma NoContracts(domains: seq<DomainIR>, bindings: seq<Realization.OperationBinding>)
    requires |domains| == 0
    ensures OnePerProvider(AllContracts(domains, bindings))
  {}

  /** The version of the document is the revision of the contract. */
  lemma VersionIsRevision(c: DomainContract)
    requires '@' !in c.id
    ensures AfterAt(BuildDomainIR(c).ref) == Decimal(c.revision)
  {
    hide Decimal;
    var ref, i := ContractText(c.id, c.revision), IndexOf(ContractText(c.id, c.revision), '@');
    DecimalIsDigits(c.revision);
    var head := "DomainContract/" + c.id;
    assert ref == head + ['@'] + Decimal(c.revision);
    assert ref == ref[..i] + ['@'] + ref[i + 1..];
    FirstPartAgrees(head, ref[..i], Decimal(c.revision), ref[i + 1..], '@');
    assert '@' !in Decimal(c.revision);
  }
}
