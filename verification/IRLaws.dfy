/** What the Domain IR, the System IR and the projected schemas say, on what is authored alone. */
module IRLaws {
  import opened Wrappers
  import opened Text
  import opened Json
  import opened Sorting
  import opened Lists
  import opened DomainContracts
  import Realization
  import ApiContracts

  // ---- Type expressions ----

  /** The expression is a list of the element. */
  ghost predicate IsListOf(expression: string, element: string) {
    expression == "list<" + element + ">" && element != "" && forall c | c in element :: !IsLineTerminator(c)
  }

  lemma ElementIsExact(expression: string)
    ensures IsListOf(expression, ElementType(expression)) || (ElementType(expression) == expression && forall x :: !IsListOf(expression, x))
  {
    if IsList(expression) {
      assert expression == expression[..5] + ElementType(expression) + [expression[|expression| - 1]];
    }
    forall x | IsListOf(expression, x)
      ensures IsList(expression)
    {
      assert forall i | 5 <= i < |expression| - 1 :: expression[i] == x[i - 5] && x[i - 5] in x;
    }
  }

  /**
   * A type expression is resolved to the primitive it names, to the pinned reference of the
   * type of the contract it names, and to a list exactly when it is written as one.
   */
  lemma TypeRefIsExact(c: DomainContract, expression: string, element: string)
    requires IsListOf(expression, element) || (element == expression && forall x :: !IsListOf(expression, x))
    ensures var r := ResolveType(c, expression);
            r.expression == expression && (r.list <==> IsListOf(expression, element)) &&
            (forall p :: r.primitive == Some(p) <==> p == element && element in PRIMITIVES) &&
            (forall x :: r.declared == Some(x) <==> x == ItemText(c.id, c.revision, element) && exists t :: t in c.types && t.id == element)
  {
    hide ItemText, IsListOf;
    ElementIsExact(expression);
    assert ElementType(expression) == element by { OneElement(expression, element); }
    ListIsLonger(expression, element);
    if t :| t in c.types && t.id == element {
      var k :| 0 <= k < |c.types| && c.types[k] == t;
      assert TypeIds(c)[k] == element;
    }
    if element in TypeIds(c) {
      var k :| 0 <= k < |c.types| && TypeIds(c)[k] == element;
      assert c.types[k] in c.types;
    }
  }

  lemma OneElement(expression: string, element: string)
    requires IsListOf(expression, element) || (element == expression && forall x :: !IsListOf(expression, x))
    ensures ElementType(expression) == element
  {
    ElementIsExact(expression);
    var other := ElementType(expression);
    if IsListOf(expression, element) && IsListOf(expression, other) {
      assert expression[5..|expression| - 1] == element && expression[5..|expression| - 1] == other;
    }
  }

  lemma ListIsLonger(expression: string, element: string)
    ensures IsListOf(expression, element) ==> element != expression
  {}

  // ---- Components ----

  /** A component runs in every environment of the system, or in those it names. */
  lemma EnvironmentsAreExact(pins: seq<Realization.Pin>, environments: seq<string>, c: Realization.Component, e: string)
    ensures e in Realization.NormalizeComponent(pins, environments, c).environments <==>
            e in environments && (c.environments.Some? ==> e in c.environments.value)
  {}


  /** The edges of a component are listed by target and, for one target, by interaction; capabilities and data accesses by name. */
  lemma ComponentIsSorted(pins: seq<Realization.Pin>, environments: seq<string>, c: Realization.Component, i: nat, j: nat)
    ensures var r := Realization.NormalizeComponent(pins, environments, c);
            (i < j < |r.interactions| ==>
              AtMost(r.interactions[i].target, r.interactions[j].target) &&
              (r.interactions[i].target == r.interactions[j].target ==> AtMost(r.interactions[i].interaction, r.interactions[j].interaction))) &&
            (i < j < |r.capabilities| ==> AtMost(r.capabilities[i].id, r.capabilities[j].id)) &&
            (i < j < |r.data| ==> AtMost(r.data[i].store, r.data[j].store))
  {
    hide Sort, AtMost, Realization.Interactions, Realization.ResolveItems, Realization.RunsIn, SortedKeys;
    EdgeOrders();
    forall x ensures AtMost(x, x) { AtMostTotal(x, x); }
    SortSorts(c.capabilities, Realization.ByCapability);
    SortSorts(c.data, Realization.ByStore);
    SortSorts(Realization.Interactions(pins, c.consumes), Realization.ByTarget);
  }

  lemma EdgeOrders()
    ensures IsOrder(Realization.ByTarget) && IsOrder(Realization.ByCapability) && IsOrder(Realization.ByStore)
    ensures forall x, y | AtMost(x, y) && AtMost(y, x) :: x == y
  {
    hide AtMost;
    TextIsOrder();
    forall x, y | AtMost(x, y) && AtMost(y, x) ensures x == y { AtMostAntisymmetric(x, y); }
  }

  // ---- What components produce ----

  /** The text names an operation of a pinned contract that emits the event. */
  ghost predicate Emits(t: string, event: string, domains: map<string, DomainContract>) {
    exists contract, o, e :: contract in domains && o in domains[contract].operations && e in o.emits &&
      t == Realization.ItemName(contract, o.id) && Realization.ParseItem(t) == Some(Realization.ItemRef(contract, o.id)) &&
      event == Realization.ItemName(contract, e)
  }

  /** The component declares the event, or implements an operation that emits it. */
  ghost predicate Makes(c: Realization.Component, event: string, domains: map<string, DomainContract>) {
    (event in c.publishes && Realization.IsEvent(event, domains)) || exists t :: t in c.realizes && Emits(t, event, domains)
  }

  ghost predicate HasDistinctOperations(domains: map<string, DomainContract>) {
    forall contract | contract in domains :: NoRepeat(OperationIds(domains[contract]))
  }

  lemma FindsOperation(operations: seq<Operation>, o: Operation)
    requires o in operations && NoRepeat(Map((o: Operation) => o.id, operations))
    ensures Realization.FindOperation(operations, o.id) == Some(o)
  {
    var found := Realization.FindOperation(operations, o.id).value;
    var ids := Map((o: Operation) => o.id, operations);
    var i :| 0 <= i < |operations| && operations[i] == o;
    var j :| 0 <= j < |operations| && operations[j] == found;
    assert ids[i] == ids[j];
  }

  lemma EmitsIsEmitted(t: string, event: string, domains: map<string, DomainContract>)
    requires HasDistinctOperations(domains)
    ensures Emits(t, event, domains) <==> Realization.IsOperation(t, domains) && event in Realization.EmittedBy(t, domains)
  {
    hide Realization.ParseItem, Realization.FindOperation, NoRepeat;
    if contract, o, e :|
      && contract in domains && o in domains[contract].operations && e in o.emits
      && t == Realization.ItemName(contract, o.id) && Realization.ParseItem(t) == Some(Realization.ItemRef(contract, o.id))
      && event == Realization.ItemName(contract, e)
    {
      FindsOperation(domains[contract].operations, o);
    }
    if Realization.IsOperation(t, domains) && event in Realization.EmittedBy(t, domains) {
      var r := Realization.ParseItem(t).value;
      var o := Realization.FindOperation(domains[r.contract].operations, r.item).value;
      var e :| e in o.emits && event == Realization.ItemName(r.contract, e);
      Realization.ParseItemIsExact(t, r.contract, r.item);
      assert o.id == r.item && Realization.ItemName(r.contract, o.id) == t;
    }
  }

  lemma MakesIsProduced(c: Realization.Component, event: string, domains: map<string, DomainContract>)
    requires HasDistinctOperations(domains)
    ensures event in Realization.Produced(c, domains) <==> Makes(c, event, domains)
  {
    hide Emits, Realization.IsOperation, Realization.EmittedBy, HasDistinctOperations, Realization.IsEvent;
    forall t { EmitsIsEmitted(t, event, domains); }
    if t :| t in c.realizes && Emits(t, event, domains) {
      assert Realization.IsOperation(t, domains) && event in Realization.EmittedBy(t, domains);
    }
  }

  /** An event subscribed to is accepted exactly when some component declares it or implements an operation that emits it. */
  lemma {:induction false} ProducedIsExact(components: seq<Realization.Component>, event: string, domains: map<string, DomainContract>)
    requires HasDistinctOperations(domains)
    ensures event in Realization.AllProduced(components, domains) <==> exists c :: c in components && Makes(c, event, domains)
  {
    hide Realization.Produced, Makes, HasDistinctOperations;
    if |components| > 0 {
      var n := |components| - 1;
      ProducedIsExact(components[..n], event, domains);
      MakesIsProduced(components[n], event, domains);
      assert components == components[..n] + [components[n]];
    }
  }

  // ---- Schemas ----

  function FieldNamesOf(fields: seq<IRField>): seq<string> { Map((f: IRField) => f.name, fields) }

  lemma LastNameIsNew(fields: seq<IRField>)
    requires |fields| > 0 && NoRepeat(FieldNamesOf(fields))
    ensures var n := |fields| - 1; NoRepeat(FieldNamesOf(fields[..n])) && forall f | f in fields[..n] :: f.name != fields[n].name
  {
    var n := |fields| - 1;
    var names := FieldNamesOf(fields);
    assert FieldNamesOf(fields[..n]) == names[..n];
    forall f | f in fields[..n]
      ensures f.name != fields[n].name
    {
      var i :| 0 <= i < n && fields[..n][i] == f;
      assert names[i] != names[n];
    }
  }

  lemma {:induction false} PropertiesAreFields(fields: seq<IRField>)
    requires NoRepeat(FieldNamesOf(fields))
    ensures forall name :: name in ApiContracts.Properties(fields) <==> exists f :: f in fields && f.name == name
    ensures forall f | f in fields :: f.name in ApiContracts.Properties(fields) && ApiContracts.Properties(fields)[f.name] == ApiContracts.FieldSchema(f)
  {
    hide ApiContracts.FieldSchema, NoRepeat, FieldNamesOf;
    if |fields| > 0 {
      var n := |fields| - 1;
      LastNameIsNew(fields);
      PropertiesAreFields(fields[..n]);
      assert fields == fields[..n] + [fields[n]];
    }
  }

  lemma FieldIsMarked(f: IRField)
    ensures var s := ApiContracts.FieldSchema(f);
            s.Object? && (f.sensitive <==> Member(s, "x-foundation-sensitive") == Some(Bool(true))) &&
            forall k | k in ApiContracts.TypeSchema(f.typeOf) && k != "x-foundation-sensitive" :: Member(s, k) == Some(ApiContracts.TypeSchema(f.typeOf)[k])
  {
    var plain := ApiContracts.TypeSchema(f.typeOf);
    assert "x-foundation-sensitive" !in plain;
  }

  /**
   * The schema of a type that is no enumeration is closed, has one property for each field,
   * marked when the field is sensitive, and requires exactly the required fields.
   */
  lemma SchemaIsExact(t: IRType)
    requires !t.kind.Enum? && NoRepeat(FieldNamesOf(t.fields))
    ensures var s := ApiContracts.SchemaOf(t);
            Member(s, "additionalProperties") == Some(Bool(false)) &&
            Member(s, "properties").Some? && Member(s, "properties").value.Object? &&
            var properties := Member(s, "properties").value;
            (forall name :: name in properties.members <==> exists f :: f in t.fields && f.name == name) &&
            (forall f | f in t.fields :: Member(properties, f.name).Some? && (f.sensitive <==> Member(Member(properties, f.name).value, "x-foundation-sensitive") == Some(Bool(true)))) &&
            (Member(s, "required").None? <==> forall f | f in t.fields :: !f.required) &&
            (Member(s, "required").Some? ==>
              (Member(s, "required").value.Array? &&
               forall name :: Str(name) in Member(s, "required").value.items <==> exists f :: f in t.fields && f.required && f.name == name))
  {
    hide ApiContracts.FieldSchema, ApiContracts.Properties, NoRepeat, FieldNamesOf;
    PropertiesAreFields(t.fields);
    forall f | f in t.fields { FieldIsMarked(f); }
    RequiredAreFields(t.fields);
  }

  lemma RequiredAreFields(fields: seq<IRField>)
    ensures forall name :: Str(name) in ApiContracts.Texts(ApiContracts.RequiredNames(fields)).items <==> exists f :: f in fields && f.required && f.name == name
    ensures |ApiContracts.RequiredNames(fields)| == 0 <==> forall f | f in fields :: !f.required
  {
    var own := Filter((f: IRField) => f.required, fields);
    var names := ApiContracts.RequiredNames(fields);
    var texts := ApiContracts.Texts(names).items;
    forall name
      ensures Str(name) in texts <==> exists f :: f in fields && f.required && f.name == name
    {
      if f :| f in fields && f.required && f.name == name {
        assert f in own;
        var k :| 0 <= k < |own| && own[k] == f;
        assert names[k] == name && texts[k] == Str(name);
      }
      if Str(name) in texts {
        var k :| 0 <= k < |texts| && texts[k] == Str(name);
        assert own[k] in own && own[k].name == name;
      }
    }
    if |names| > 0 {
      assert own[0] in own;
    }
  }
}
