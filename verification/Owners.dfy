/** What the owning teams keep: which operations and invariants of a pinned contract become work of which component. */
module Owners {
  import opened Wrappers
  import opened Text
  import opened Sorting
  import opened Lists
  import opened Catalog
  import opened DomainContracts
  import opened Realization
  import opened SystemOrder
  import opened DefinitionSamples
  import opened Pipeline
  import Resolve
  import ApiContracts
  import Plan

  /** A contract of a valid set that the definition pins, among the Domain Contracts of its closure. */
  ghost predicate IsPinnedContract(d: Definition, contracts: seq<DomainContract>, index: DomainIndex, c: DomainContract) {
    && AreResolved(d.pins, index) && AreFiled(contracts, index)
    && c in contracts && c.id in DomainsOf(d.pins, index) && DomainsOf(d.pins, index)[c.id] == c
  }

  /** Distinct components that name items of the pinned contracts. */
  ghost predicate IsValidated(d: Definition, index: DomainIndex) {
    NoRepeat(ComponentIds(d.components)) && forall i | 0 <= i < |d.components| :: NamesKnownItems(d.components[i], DomainsOf(d.pins, index))
  }

  lemma PinnedIsFiled(d: Definition, contracts: seq<DomainContract>, index: DomainIndex, c: DomainContract)
    requires IsPinnedContract(d, contracts, index, c)
    ensures c in index.Values && '@' !in c.id && '#' !in c.id && IsPinned(d.pins, c)
  {
    hide DomainsOf, PinKey;
    DomainsArePinned(d.pins, index, c.id);
    var i :| 0 <= i < |contracts| && contracts[i] == c;
    var k :| k in index && index[k] == c;
    var pin := PinOf(d.pins, c.id).value;
    assert pin in d.pins && pin.id == c.id && pin.revision == c.revision;
  }

  /** The Domain IR of a pinned contract is one of the domains of the System IR. */
  lemma DomainIsListed(d: Definition, contracts: seq<DomainContract>, index: DomainIndex, c: DomainContract)
    requires IsPinnedContract(d, contracts, index, c)
    ensures BuildDomainIR(c) in BuildSystemIR(d, contracts).domains
  {
    hide Sort, BuildDomainIR, NormalizeAll, OperationBindings, EventBindings, UnsupportedOf, DomainsOf, IsPinned, AreResolved, AreFiled;
    PinnedIsFiled(d, contracts, index, c);
    var f, pinned := (x: DomainContract) => BuildDomainIR(x), Filter((x: DomainContract) => IsPinned(d.pins, x), contracts);
    SortLists(Map(f, pinned), ByRef);
    InMap(f, pinned, BuildDomainIR(c));
    assert c in pinned && f(c) == BuildDomainIR(c);
  }

  lemma RefOfIR(c: DomainContract)
    ensures BuildDomainIR(c).ref == ContractText(c.id, c.revision) && BuildDomainIR(c).boundedContext == c.boundedContext
  {
    hide Sort, ContractText;
  }

  /** And the only one under its reference. */
  lemma DomainIsUnique(d: Definition, contracts: seq<DomainContract>, index: DomainIndex, c: DomainContract, v: DomainIR)
    requires IsPinnedContract(d, contracts, index, c) && v in BuildSystemIR(d, contracts).domains && v.ref == BuildDomainIR(c).ref
    ensures v == BuildDomainIR(c)
  {
    hide BuildSystemIR, BuildDomainIR, ContractText, DomainsOf;
    PinnedIsFiled(d, contracts, index, c);
    DomainOfIR(d, contracts, v);
    var i :| 0 <= i < |contracts| && v == BuildDomainIR(contracts[i]);
    RefOfIR(c);
    RefOfIR(contracts[i]);
    var k :| k in index && index[k] == contracts[i];
    ContractTextInjective(c.id, c.revision, contracts[i].id, contracts[i].revision);
    SameKey(index, c, contracts[i]);
  }

  // ---- Bindings ----

  lemma BoundIds(components: seq<IRComponent>, o: IROperation, id: string)
    ensures id in BindOperation(components)(o).implementedBy <==> exists n :: n in components && n.id == id && Implements(n, o.ref)
  {
    hide Implements, Consumed;
    var chosen := Filter((c: IRComponent) => Implements(c, o.ref), components);
    InMap((c: IRComponent) => c.id, chosen, id);
  }

  /** A component implements an operation according to the bindings exactly when it does in the IR. */
  lemma BindingIsExact(d: Definition, contracts: seq<DomainContract>, item: string, id: string)
    ensures var ir := BuildSystemIR(d, contracts);
            ApiContracts.IsImplementedBy(ir.operationBindings, item, id) <==>
            IsListedOperation(ir.domains, item) && exists n :: n in ir.components && n.id == id && Implements(n, item)
  {
    hide Sort, OperationBindings, EventBindings, UnsupportedOf, PinnedIRs, NormalizeAll, Implements, BindOperation, FindLast;
    var ir := BuildSystemIR(d, contracts);
    var operations := OperationBindings(ir.components, ir.domains);
    SortLists(operations, ByOperation);
    var b := ApiContracts.BindingOf(ir.operationBindings, item);
    if b.Some? {
      OperationBindingListed(ir.components, ir.domains, b.value);
      var v, o :| v in ir.domains && o in v.operations && b.value == BindOperation(ir.components)(o);
      BindingNamesOperation(ir.components, o);
      BoundIds(ir.components, o, id);
    }
    if IsListedOperation(ir.domains, item) {
      var v, o :| v in ir.domains && o in v.operations && o.ref == item;
      OperationBindingListed(ir.components, ir.domains, BindOperation(ir.components)(o));
      BindingNamesOperation(ir.components, o);
      BindingIsFound(ir.operationBindings, BindOperation(ir.components)(o));
    }
  }

  lemma BindingNamesOperation(components: seq<IRComponent>, o: IROperation)
    ensures BindOperation(components)(o).item == o.ref
  {
    hide Implements, Consumed;
  }

  lemma BindingIsFound(bindings: seq<OperationBinding>, b: OperationBinding)
    requires b in bindings
    ensures ApiContracts.BindingOf(bindings, b.item).Some?
  {}

  /** What the bindings say of a pinned operation is what the definition says. */
  lemma ImplementedAsWritten(d: Definition, contracts: seq<DomainContract>, index: DomainIndex, c: DomainContract, operation: string, i: nat)
    requires IsPinnedContract(d, contracts, index, c) && IsValidated(d, index) && i < |d.components|
    requires operation in OperationIds(c)
    ensures ApiContracts.IsImplementedBy(BuildSystemIR(d, contracts).operationBindings, Item(c, operation), d.components[i].id) <==>
            ItemName(c.id, operation) in d.components[i].realizes
  {
    hide BuildSystemIR, NormalizeComponent, BuildDomainIR, DomainsOf, Implements, Item, ItemName, ApiContracts.IsImplementedBy, NamesKnownItems, AreResolved, AreFiled;
    var ir, item := BuildSystemIR(d, contracts), Item(c, operation);
    PinnedIsFiled(d, contracts, index, c);
    DomainIsListed(d, contracts, index, c);
    OperationIsListed(c, operation);
    BindingIsExact(d, contracts, item, d.components[i].id);
    ImplementationIsPinned(d.pins, EnvironmentIds(d), index, c, operation, d.components[i]);
    var k := AuthoredComponent(d, contracts, i);
    KeepsId(d.pins, EnvironmentIds(d), d.components[i]);
    if n :| n in ir.components && n.id == d.components[i].id && Implements(n, item) {
      NormalizedIsUnique(d, contracts, i, n);
    }
  }

  lemma OperationIsListed(c: DomainContract, operation: string)
    requires operation in OperationIds(c)
    ensures exists o :: o in BuildDomainIR(c).operations && o.ref == Item(c, operation)
  {
    hide BuildDomainIR, Item, ResolveOptional, SortedSet;
    IRListsDeclarations(c);
    var k :| 0 <= k < |c.operations| && c.operations[k].id == operation;
    assert OperationIR(c, c.operations[k]) in BuildDomainIR(c).operations;
  }

  // ---- Contracts of a pinned domain ----

  /** The API contract a component provides for a pinned domain, if any. */
  function ContractFor(d: Definition, contracts: seq<DomainContract>, c: DomainContract, provider: string): Option<ApiContracts.ApiContract> {
    ApiContracts.ContractOf(BuildDomainIR(c), provider, BuildSystemIR(d, contracts).operationBindings)
  }

  lemma ContractNames(d: Definition, contracts: seq<DomainContract>, c: DomainContract, provider: string)
    requires ContractFor(d, contracts, c, provider).Some?
    ensures ContractFor(d, contracts, c, provider).value.id == provider + "." + c.boundedContext
  {
    hide BuildSystemIR, BuildDomainIR, ApiContracts.DocumentOf, ApiContracts.ImplementedOperations, ApiContracts.Schemas, ApiContracts.Paths, ApiContracts.ConsumersOf;
    RefOfIR(c);
  }

  /** The projected contracts are those of some domain and provider. */
  lemma ProjectedAreExact(d: Definition, contracts: seq<DomainContract>, x: ApiContracts.ApiContract)
    ensures var ir := BuildSystemIR(d, contracts);
            x in ProjectedContracts(ir) <==> exists v :: v in ir.domains && ApiContracts.ContractOf(v, x.provider, ir.operationBindings) == Some(x)
  {
    hide BuildSystemIR, ApiContracts.ContractOf, ApiContracts.AllContracts, Sort;
    var ir := BuildSystemIR(d, contracts);
    SortLists(ApiContracts.AllContracts(ir.domains, ir.operationBindings), ApiContracts.ByContractId);
    ApiContracts.FromSomeDomain(ir.domains, ir.operationBindings);
    if x in ProjectedContracts(ir) {
      var i, p :| 0 <= i < |ir.domains| && ApiContracts.ContractOf(ir.domains[i], p, ir.operationBindings) == Some(x);
      ApiContracts.ContractTells(ir.domains[i], p, ir.operationBindings);
      assert ir.domains[i] in ir.domains;
    }
    if v :| v in ir.domains && ApiContracts.ContractOf(v, x.provider, ir.operationBindings) == Some(x) {
      var i :| 0 <= i < |ir.domains| && ir.domains[i] == v;
    }
  }

  /** A pinned domain has one projected contract by provider: the one of its IR. */
  lemma ContractOfPinned(d: Definition, contracts: seq<DomainContract>, index: DomainIndex, c: DomainContract, x: ApiContracts.ApiContract)
    requires IsPinnedContract(d, contracts, index, c)
    ensures x in ProjectedContracts(BuildSystemIR(d, contracts)) && x.domainRef == BuildDomainIR(c).ref <==> ContractFor(d, contracts, c, x.provider) == Some(x)
  {
    hide BuildSystemIR, BuildDomainIR, ApiContracts.ContractOf, ProjectedContracts, IsPinnedContract;
    var ir := BuildSystemIR(d, contracts);
    ProjectedAreExact(d, contracts, x);
    DomainIsListed(d, contracts, index, c);
    if x in ProjectedContracts(ir) && x.domainRef == BuildDomainIR(c).ref {
      var v :| v in ir.domains && ApiContracts.ContractOf(v, x.provider, ir.operationBindings) == Some(x);
      ApiContracts.ContractTells(v, x.provider, ir.operationBindings);
      DomainIsUnique(d, contracts, index, c, v);
    }
    if ContractFor(d, contracts, c, x.provider) == Some(x) {
      ApiContracts.ContractTells(BuildDomainIR(c), x.provider, ir.operationBindings);
    }
  }

  lemma {:induction false} TeamIsFound(components: seq<IRComponent>, k: nat)
    requires Plan.UniqueIds(components) && k < |components|
    ensures Plan.TeamOf(components, components[k].id) == components[k].team
  {
    if k > 0 {
      TeamIsFound(components[1..], k - 1);
    }
  }

  lemma TeamOfAuthored(d: Definition, contracts: seq<DomainContract>, i: nat)
    requires NoRepeat(ComponentIds(d.components)) && i < |d.components|
    ensures Plan.TeamOf(BuildSystemIR(d, contracts).components, d.components[i].id) == d.components[i].team
  {
    hide BuildSystemIR, NormalizeComponent, Plan.TeamOf, Plan.UniqueIds;
    var k := AuthoredComponent(d, contracts, i);
    IRIdsAreDistinct(d, contracts);
    TeamIsFound(BuildSystemIR(d, contracts).components, k);
    NormalizedKeepsIntent(d.pins, EnvironmentIds(d), d.components[i]);
  }

  // ---- Operations to implement ----

  /**
   * An operation of a pinned contract is work of a component, for the team of the component
   * and under its API contract, exactly when the definition lets the component implement it.
   */
  lemma OperationIsOwned(given: Plan.Given, d: Definition, contracts: seq<DomainContract>, index: DomainIndex, catalog: ExtensionCatalog, c: DomainContract, operation: string, i: nat)
    requires IsPinnedContract(d, contracts, index, c) && IsValidated(d, index) && i < |d.components| && operation in OperationIds(c)
    ensures var x := d.components[i];
            Plan.ImplementOperation(x.id, x.team, Item(c, operation), x.id + "." + c.boundedContext) in PlanOfDefinition(given, d, contracts, catalog).ownerWork <==>
            ItemName(c.id, operation) in x.realizes
  {
    hide BuildSystemIR, BuildDomainIR, ApiContracts.ContractOf, ProjectedContracts, IsPinnedContract, IsValidated, Plan.ContractWork, Plan.PlanOf, Resolve.ResolveAll,
      Plan.TeamOf, ApiContracts.IsImplementedBy, Item, ItemName, OperationIds;
    var ir, x := BuildSystemIR(d, contracts), d.components[i];
    var w := Plan.ImplementOperation(x.id, x.team, Item(c, operation), x.id + "." + c.boundedContext);
    var apis := ProjectedContracts(ir);
    assert NoRepeat(ComponentIds(d.components)) by { ValidatedIsDistinct(d, index); }
    Plan.WorkIsExact(given, ir, Resolve.ResolveAll(ir.components, catalog), apis, w);
    ImplementedAsWritten(d, contracts, index, c, operation, i);
    TeamOfAuthored(d, contracts, i);
    if a :| a in apis && w in Plan.ContractWork(a, ir) {
      Plan.WorkOfContract(a, ir, w);
      ProjectedAreExact(d, contracts, a);
      var v :| v in ir.domains && ApiContracts.ContractOf(v, a.provider, ir.operationBindings) == Some(a);
      ApiContracts.ContractTells(v, a.provider, ir.operationBindings);
    }
    if ItemName(c.id, operation) in x.realizes {
      OperationIsListed(c, operation);
      ApiContracts.ContractTells(BuildDomainIR(c), x.id, ir.operationBindings);
      var a := ContractFor(d, contracts, c, x.id).value;
      ContractOfPinned(d, contracts, index, c, a);
      ContractNames(d, contracts, c, x.id);
      Plan.WorkOfContract(a, ir, w);
    }
  }

  lemma ValidatedIsDistinct(d: Definition, index: DomainIndex)
    requires IsValidated(d, index)
    ensures NoRepeat(ComponentIds(d.components))
  {
    hide NamesKnownItems, DomainsOf;
  }

  // ---- Invariants to enforce ----

  lemma OperationItems(c: DomainContract, id: string)
    requires '@' !in c.id
    ensures (exists o :: o in BuildDomainIR(c).operations && o.ref == Item(c, id)) <==> id in OperationIds(c)
  {
    hide BuildDomainIR, ItemText, ResolveOptional, SortedSet;
    if id in OperationIds(c) { OperationIsListed(c, id); }
    if o :| o in BuildDomainIR(c).operations && o.ref == Item(c, id) {
      IRListsDeclarations(c);
      var k :| 0 <= k < |c.operations| && o == OperationIR(c, c.operations[k]);
      ItemTextInjective(c.id, c.revision, c.operations[k].id, c.id, c.revision, id);
      assert OperationIds(c)[k] == id;
    }
  }

  /** The operations of the contract a component provides are those the definition lets it implement. */
  lemma ProvidedOperations(d: Definition, contracts: seq<DomainContract>, index: DomainIndex, c: DomainContract, i: nat, id: string)
    requires IsPinnedContract(d, contracts, index, c) && IsValidated(d, index) && i < |d.components|
    requires ContractFor(d, contracts, c, d.components[i].id).Some?
    ensures Item(c, id) in ContractFor(d, contracts, c, d.components[i].id).value.operations <==>
            id in OperationIds(c) && ItemName(c.id, id) in d.components[i].realizes
  {
    hide BuildSystemIR, BuildDomainIR, Item, ItemName, OperationIds, IsPinnedContract, IsValidated, ApiContracts.IsImplementedBy, ApiContracts.ContractOf;
    PinnedIsFiled(d, contracts, index, c);
    ApiContracts.ContractTells(BuildDomainIR(c), d.components[i].id, BuildSystemIR(d, contracts).operationBindings);
    OperationItems(c, id);
    if id in OperationIds(c) {
      ImplementedAsWritten(d, contracts, index, c, id, i);
    }
  }

  /** The component implements an operation of the contract. */
  ghost predicate ImplementsSomeOf(x: Component, c: DomainContract) {
    exists o :: o in OperationIds(c) && ItemName(c.id, o) in x.realizes
  }

  lemma ProvidesIffImplements(d: Definition, contracts: seq<DomainContract>, index: DomainIndex, c: DomainContract, i: nat)
    requires IsPinnedContract(d, contracts, index, c) && IsValidated(d, index) && i < |d.components|
    ensures ContractFor(d, contracts, c, d.components[i].id).Some? <==> ImplementsSomeOf(d.components[i], c)
  {
    hide BuildSystemIR, BuildDomainIR, Item, ItemName, OperationIds, IsPinnedContract, IsValidated, ApiContracts.IsImplementedBy, ApiContracts.ContractOf;
    var bindings := BuildSystemIR(d, contracts).operationBindings;
    PinnedIsFiled(d, contracts, index, c);
    ApiContracts.ContractTells(BuildDomainIR(c), d.components[i].id, bindings);
    if o :| o in OperationIds(c) && ItemName(c.id, o) in d.components[i].realizes {
      ImplementedAsWritten(d, contracts, index, c, o, i);
      OperationIsListed(c, o);
    }
    if o :| o in BuildDomainIR(c).operations && ApiContracts.IsImplementedBy(bindings, o.ref, d.components[i].id) {
      OperationOfIR(c, o);
      ImplementedAsWritten(d, contracts, index, c, o.id, i);
    }
  }

  lemma OperationOfIR(c: DomainContract, o: IROperation)
    requires o in BuildDomainIR(c).operations
    ensures o.id in OperationIds(c) && o.ref == Item(c, o.id)
  {
    hide BuildDomainIR, Item, ResolveOptional, SortedSet;
    IRListsDeclarations(c);
    var k :| 0 <= k < |c.operations| && o == OperationIR(c, c.operations[k]);
    assert OperationIds(c)[k] == o.id;
  }

  /** One of the types of the invariant is no operation's namesake, or the component implements that operation. */
  ghost predicate Reaches(v: Invariant, x: Component, c: DomainContract) {
    exists t :: t in v.appliesTo && (t in OperationIds(c) ==> ItemName(c.id, t) in x.realizes)
  }

  lemma ConcernAsWritten(d: Definition, contracts: seq<DomainContract>, index: DomainIndex, c: DomainContract, i: nat, id: string)
    requires IsPinnedContract(d, contracts, index, c) && IsValidated(d, index) && i < |d.components|
    requires ContractFor(d, contracts, c, d.components[i].id).Some?
    ensures Plan.Concerns(Item(c, id), ContractFor(d, contracts, c, d.components[i].id).value, BuildDomainIR(c)) <==>
            (id in OperationIds(c) ==> ItemName(c.id, id) in d.components[i].realizes)
  {
    hide BuildSystemIR, BuildDomainIR, Item, ItemName, OperationIds, IsPinnedContract, IsValidated, ContractFor;
    PinnedIsFiled(d, contracts, index, c);
    ProvidedOperations(d, contracts, index, c, i, id);
    OperationItems(c, id);
  }

  lemma EnforcedAsWritten(d: Definition, contracts: seq<DomainContract>, index: DomainIndex, c: DomainContract, v: Invariant, i: nat)
    requires IsPinnedContract(d, contracts, index, c) && IsValidated(d, index) && i < |d.components|
    requires ContractFor(d, contracts, c, d.components[i].id).Some?
    ensures Plan.IsEnforcedBy(InvariantIR(c, v), ContractFor(d, contracts, c, d.components[i].id).value, BuildDomainIR(c)) <==> Reaches(v, d.components[i], c)
  {
    hide BuildSystemIR, BuildDomainIR, Item, ItemName, OperationIds, IsPinnedContract, IsValidated, ContractFor, Plan.Concerns, InvariantIR;
    var items, api := InvariantIR(c, v).appliesTo, ContractFor(d, contracts, c, d.components[i].id).value;
    AppliedItems(c, v);
    if t :| t in v.appliesTo && (t in OperationIds(c) ==> ItemName(c.id, t) in d.components[i].realizes) {
      ConcernAsWritten(d, contracts, index, c, i, t);
      assert Item(c, t) in items;
      var k :| 0 <= k < |items| && items[k] == Item(c, t);
    }
    if k :| 0 <= k < |items| && Plan.Concerns(items[k], api, BuildDomainIR(c)) {
      assert items[k] in items;
      var t :| t in v.appliesTo && items[k] == Item(c, t);
      ConcernAsWritten(d, contracts, index, c, i, t);
    }
  }

  lemma AppliedItems(c: DomainContract, v: Invariant)
    ensures forall item :: item in InvariantIR(c, v).appliesTo <==> exists t :: t in v.appliesTo && item == Item(c, t)
  {
    hide Item;
    var items := DomainContracts.Items(c, v.appliesTo);
    forall item
      ensures item in InvariantIR(c, v).appliesTo <==> exists t :: t in v.appliesTo && item == Item(c, t)
    {
      assert item in InvariantIR(c, v).appliesTo <==> item in items;
      if t :| t in v.appliesTo && item == Item(c, t) {
        var k :| 0 <= k < |v.appliesTo| && v.appliesTo[k] == t;
        assert items[k] == item;
      }
    }
  }

  /** The item of an invariant tells its domain and, under unique ids, the invariant. */
  lemma InvariantIsTold(d: Definition, contracts: seq<DomainContract>, index: DomainIndex, c: DomainContract, k: nat, v: DomainIR, w: IRInvariant)
    requires IsPinnedContract(d, contracts, index, c) && HasUniqueIds(c) && k < |c.invariants|
    requires v in BuildSystemIR(d, contracts).domains && w in v.invariants && w.ref == Item(c, c.invariants[k].id)
    ensures v == BuildDomainIR(c) && w == InvariantIR(c, c.invariants[k])
  {
    hide BuildSystemIR, BuildDomainIR, ItemText, DomainsOf, SortedSet, TypeIds, OperationIds, EventIds, ScenarioIds, FacetIds;
    PinnedIsFiled(d, contracts, index, c);
    DomainOfIR(d, contracts, v);
    var i :| 0 <= i < |contracts| && v == BuildDomainIR(contracts[i]);
    IRListsDeclarations(contracts[i]);
    var m :| 0 <= m < |contracts[i].invariants| && w == InvariantIR(contracts[i], contracts[i].invariants[m]);
    var key :| key in index && index[key] == contracts[i];
    ItemTextInjective(contracts[i].id, contracts[i].revision, contracts[i].invariants[m].id, c.id, c.revision, c.invariants[k].id);
    SameKey(index, c, contracts[i]);
    assert InvariantIds(c)[m] == InvariantIds(c)[k];
  }

  lemma InvariantIsListed(c: DomainContract, k: nat)
    requires k < |c.invariants|
    ensures InvariantIR(c, c.invariants[k]) in BuildDomainIR(c).invariants
  {
    hide BuildDomainIR, InvariantIR;
    IRListsDeclarations(c);
  }

  function Enforcement(x: Component, c: DomainContract, v: Invariant): Plan.OwnerWork {
    Plan.EnforceInvariant(x.id, x.team, Item(c, v.id), v.enforcement)
  }

  /** What a contract lists as enforced, seen from the definition. */
  lemma EnforcedByContract(d: Definition, contracts: seq<DomainContract>, index: DomainIndex, c: DomainContract, k: nat, i: nat)
    requires IsPinnedContract(d, contracts, index, c) && IsValidated(d, index) && HasUniqueIds(c) && k < |c.invariants| && i < |d.components|
    requires ContractFor(d, contracts, c, d.components[i].id).Some?
    ensures InvariantIR(c, c.invariants[k]) in Plan.EnforcedBy(ContractFor(d, contracts, c, d.components[i].id).value, BuildSystemIR(d, contracts).domains) <==>
            Reaches(c.invariants[k], d.components[i], c)
  {
    hide BuildSystemIR, BuildDomainIR, InvariantIR, IsPinnedContract, IsValidated, HasUniqueIds, Reaches, Plan.IsEnforcedBy, ApiContracts.ContractOf;
    var ir, api := BuildSystemIR(d, contracts), ContractFor(d, contracts, c, d.components[i].id).value;
    ApiContracts.ContractTells(BuildDomainIR(c), d.components[i].id, ir.operationBindings);
    DomainIsListed(d, contracts, index, c);
    var found := Plan.FindDomain(ir.domains, api.domainRef);
    DomainIsUnique(d, contracts, index, c, found.value);
    InvariantIsListed(c, k);
    EnforcedAsWritten(d, contracts, index, c, c.invariants[k], i);
  }

  /** Work on an invariant of a pinned contract comes from the contract its component provides. */
  lemma EnforcementComesFrom(d: Definition, contracts: seq<DomainContract>, index: DomainIndex, c: DomainContract, k: nat, i: nat, a: ApiContracts.ApiContract)
    requires IsPinnedContract(d, contracts, index, c) && HasUniqueIds(c) && k < |c.invariants| && i < |d.components|
    requires a in ProjectedContracts(BuildSystemIR(d, contracts)) && Enforcement(d.components[i], c, c.invariants[k]) in Plan.ContractWork(a, BuildSystemIR(d, contracts))
    ensures ContractFor(d, contracts, c, d.components[i].id) == Some(a)
    ensures InvariantIR(c, c.invariants[k]) in Plan.EnforcedBy(a, BuildSystemIR(d, contracts).domains)
  {
    hide BuildSystemIR, BuildDomainIR, InvariantIR, Item, IsPinnedContract, HasUniqueIds, Plan.IsEnforcedBy, Plan.ContractWork, Plan.TeamOf, ProjectedContracts, ContractFor;
    var ir := BuildSystemIR(d, contracts);
    Plan.WorkOfContract(a, ir, Enforcement(d.components[i], c, c.invariants[k]));
    var v :| v in Plan.EnforcedBy(a, ir.domains) && v.ref == Item(c, c.invariants[k].id);
    InvariantIsTold(d, contracts, index, c, k, Plan.FindDomain(ir.domains, a.domainRef).value, v);
    ContractOfPinned(d, contracts, index, c, a);
  }

  /**
   * An invariant of a pinned contract is work of a component, for its team, exactly when the
   * component implements an operation of the contract and one of the types the invariant
   * applies to is not named like an operation that the component does not implement.
   */
  lemma InvariantIsOwned(given: Plan.Given, d: Definition, contracts: seq<DomainContract>, index: DomainIndex, catalog: ExtensionCatalog, c: DomainContract, k: nat, i: nat)
    requires IsPinnedContract(d, contracts, index, c) && IsValidated(d, index) && HasUniqueIds(c) && k < |c.invariants| && i < |d.components|
    ensures Enforcement(d.components[i], c, c.invariants[k]) in PlanOfDefinition(given, d, contracts, catalog).ownerWork <==>
            ImplementsSomeOf(d.components[i], c) && Reaches(c.invariants[k], d.components[i], c)
  {
    hide BuildSystemIR, BuildDomainIR, ProjectedContracts, IsPinnedContract, IsValidated, HasUniqueIds, Plan.ContractWork, Plan.PlanOf, Resolve.ResolveAll, Plan.TeamOf,
      Item, Reaches, ImplementsSomeOf, ContractFor, Plan.EnforcedBy;
    var ir, x, v := BuildSystemIR(d, contracts), d.components[i], c.invariants[k];
    var w, apis := Enforcement(x, c, v), ProjectedContracts(ir);
    Plan.WorkIsExact(given, ir, Resolve.ResolveAll(ir.components, catalog), apis, w);
    ProvidesIffImplements(d, contracts, index, c, i);
    if a :| a in apis && w in Plan.ContractWork(a, ir) {
      EnforcementComesFrom(d, contracts, index, c, k, i, a);
      EnforcedByContract(d, contracts, index, c, k, i);
    }
    if ImplementsSomeOf(x, c) && Reaches(v, x, c) {
      EnforcedByContract(d, contracts, index, c, k, i);
      ContractIsEnforced(d, contracts, index, c, k, i);
    }
  }

  lemma ContractIsEnforced(d: Definition, contracts: seq<DomainContract>, index: DomainIndex, c: DomainContract, k: nat, i: nat)
    requires IsPinnedContract(d, contracts, index, c) && IsValidated(d, index) && k < |c.invariants| && i < |d.components|
    requires ContractFor(d, contracts, c, d.components[i].id).Some?
    requires InvariantIR(c, c.invariants[k]) in Plan.EnforcedBy(ContractFor(d, contracts, c, d.components[i].id).value, BuildSystemIR(d, contracts).domains)
    ensures var a := ContractFor(d, contracts, c, d.components[i].id).value;
            a in ProjectedContracts(BuildSystemIR(d, contracts)) && Enforcement(d.components[i], c, c.invariants[k]) in Plan.ContractWork(a, BuildSystemIR(d, contracts))
  {
    hide BuildSystemIR, BuildDomainIR, ProjectedContracts, IsPinnedContract, Plan.ContractWork, Plan.TeamOf, Item, Plan.EnforcedBy, ApiContracts.ContractOf, DomainsOf, NamesKnownItems;
    var ir, a := BuildSystemIR(d, contracts), ContractFor(d, contracts, c, d.components[i].id).value;
    ApiContracts.ContractTells(BuildDomainIR(c), d.components[i].id, ir.operationBindings);
    ContractOfPinned(d, contracts, index, c, a);
    TeamOfAuthored(d, contracts, i);
    Plan.WorkOfContract(a, ir, Enforcement(d.components[i], c, c.invariants[k]));
  }

  // ---- A type named like an operation ----

  const CLERK := PLAIN.(id := "clerk", name := "Clerk", kind := "api-service", ownershipClass := "OWNER_MANAGED", team := "sales", realizes := ["shop#Cancel"])

  const CLERK_SHOP := Shop([PIN], WEB).(components := [CLERK])

  lemma ShopIsSound()
    ensures IsSound(ShopContract(1))
  {
    var c := ShopContract(1);
    assert TypeIds(c) == ["Order"] && OperationIds(c) == ["Order", "Cancel"] && InvariantIds(c) == ["total"];
    assert EventIds(c) == [] && ScenarioIds(c) == [] && FacetIds(c) == [];
    assert !IsList("decimal");
    assert IsKnownType("decimal", SetOf(["Order"]));
    assert FieldNames(c.types[0]) == ["total"];
  }

  lemma CancelIsKnown()
    ensures IsOperation("shop#Cancel", DomainsOf([PIN], ShopIndex()))
  {
    hide IsOperation, DomainsOf, ShopIndex;
    ShopOperations([PIN]);
    assert API.realizes[1] == "shop#Cancel";
    assert "shop#Cancel" in API.realizes;
  }

  lemma ClerkIsAccepted()
    ensures IsAccepted(CLERK_SHOP, ShopIndex(), ShopInputs([PIN])) && IsValidated(CLERK_SHOP, ShopIndex())
  {
    hide IsOperation, IsEvent, DomainsOf, ShopIndex, AreResolved;
    var d := CLERK_SHOP;
    ShopPinsResolve([PIN]);
    CancelIsKnown();
    assert ComponentIds(d.components) == ["clerk"] && IntegrationIds(d) == [] && EnvironmentIds(d) == ["production"];
    assert StoresOf(d.components) == {};
    assert d.components[0] == CLERK;
  }

  lemma ClerkShopIsPinned()
    ensures IsPinnedContract(CLERK_SHOP, [ShopContract(1)], ShopIndex(), ShopContract(1))
  {
    hide DomainsOf, ContractText, AreResolved;
    ShopPinsResolve([PIN]);
    ShopKeys();
    assert ShopIndex()[ContractText("shop", 1)] == ShopContract(1);
  }

  lemma OrderIsHidden()
    ensures ImplementsSomeOf(CLERK, ShopContract(1)) && !Reaches(TOTAL, CLERK, ShopContract(1))
  {
    var ids := OperationIds(ShopContract(1));
    assert ids == ["Order", "Cancel"];
    assert ids[1] in ids && ids[0] in ids;
    assert ItemName("shop", "Cancel") == "shop#Cancel";
    assert CLERK.realizes == [ItemName("shop", "Cancel")];
    assert ItemName("shop", "Order") != ItemName("shop", "Cancel") by { assert |ItemName("shop", "Order")| == 10; }
  }

  /**
   * An accepted definition of a sound contract: its only component implements an operation that
   * names the invariant, and no plan of it asks the team of the component to enforce the
   * invariant, whose type is named like an operation nobody implements.
   */
  lemma NamesakeHidesInvariant(given: Plan.Given, catalog: ExtensionCatalog)
    ensures IsSound(ShopContract(1)) && IsAccepted(CLERK_SHOP, ShopIndex(), ShopInputs([PIN]))
    ensures ImplementsSomeOf(CLERK, ShopContract(1)) && TOTAL in ShopContract(1).invariants
    ensures Enforcement(CLERK, ShopContract(1), TOTAL) !in PlanOfDefinition(given, CLERK_SHOP, [ShopContract(1)], catalog).ownerWork
  {
    hide IsSound, IsAccepted, IsValidated, IsPinnedContract, ImplementsSomeOf, Reaches, Enforcement, PlanOfDefinition, ShopIndex, ShopInputs;
    ShopIsSound();
    assert HasUniqueIds(ShopContract(1)) by { SoundIsUnique(ShopContract(1)); }
    ClerkIsAccepted();
    ClerkShopIsPinned();
    OrderIsHidden();
    InvariantIsOwned(given, CLERK_SHOP, [ShopContract(1)], ShopIndex(), catalog, ShopContract(1), 0, 0);
    assert CLERK_SHOP.components[0] == CLERK && ShopContract(1).invariants[0] == TOTAL;
  }

  lemma SoundIsUnique(c: DomainContract)
    requires IsSound(c)
    ensures HasUniqueIds(c)
  {
    hide HasUniqueIds;
  }
}
