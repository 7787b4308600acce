/**
 * The stages after the closure, put together: IR, resolution, policies, API contracts and
 * plan, as the compilation runs them, and what holds from an authored definition to its plan.
 */
module Pipeline {
  import opened Wrappers
  import opened Text
  import opened Json
  import opened Sorting
  import opened Lists
  import opened Identity
  import opened Catalog
  import opened DomainContracts
  import opened Realization
  import opened SystemOrder
  import ContractSet
  import EffectiveContext
  import Policy
  import Closure
  import Facade
  import Resolve
  import ApiContracts
  import Plan

  /**
   * What the specs of documents hold, the subjects that interpreted rules constrain, and the
   * digests of the IR and of what was resolved from it with a catalog.
   */
  datatype Reading = Reading(
    definition: Document -> Definition,
    domain: Document -> DomainContract,
    context: Document -> EffectiveContext.Context,
    subjects: (SystemIR, Resolve.ResolvedSystem) -> Policy.Catalog,
    irDigest: SystemIR -> Digest,
    resolvedDigest: (Digest, Digest, Resolve.ResolvedSystem) -> Digest
  )

  datatype Output = Output(
    inputs: Plan.Inputs,
    ir: SystemIR,
    resolved: Resolve.ResolvedSystem,
    contracts: seq<ApiContracts.ApiContract>,
    report: Option<seq<Policy.PolicyEvaluation>>
  )

  /** The Domain Contracts of a closure. */
  function DomainsIn(closure: seq<Document>, reading: Reading): seq<DomainContract> {
    Map(reading.domain, Filter((d: Document) => d.kind.DomainContract?, closure))
  }

  /** `closure.find(d => d.kind === 'EffectiveOrganizationContext')`. */
  function ContextIn(closure: seq<Document>): (r: Option<Document>)
    ensures r.Some? ==> r.value in closure && r.value.kind.EffectiveOrganizationContext?
    ensures r.None? ==> forall d | d in closure :: !d.kind.EffectiveOrganizationContext?
  {
    if |closure| == 0 then None else if closure[0].kind.EffectiveOrganizationContext? then Some(closure[0]) else ContextIn(closure[1..])
  }

  function ProjectedContracts(ir: SystemIR): seq<ApiContracts.ApiContract> {
    Sort(ApiContracts.AllContracts(ir.domains, ir.operationBindings), ApiContracts.ByContractId)
  }

  function CatalogDigest(catalog: ExtensionCatalog): Digest {
    DigestOf(CatalogJson(catalog))
  }

  function InputsOf(definition: Document, closure: seq<Document>, ir: SystemIR, resolved: Resolve.ResolvedSystem, reading: Reading, catalog: ExtensionCatalog): Plan.Inputs {
    Plan.Inputs(Closure.ClosureDigest(definition, closure, CatalogDigest(catalog)), reading.irDigest(ir),
                reading.resolvedDigest(reading.irDigest(ir), CatalogDigest(catalog), resolved))
  }

  function OutputOf(definition: Document, closure: seq<Document>, reading: Reading, catalog: ExtensionCatalog): Output {
    var ir := BuildSystemIR(reading.definition(definition), DomainsIn(closure, reading));
    var resolved := Resolve.ResolveAll(ir.components, catalog);
    var context := ContextIn(closure);
    Output(InputsOf(definition, closure, ir, resolved, reading, catalog), ir, resolved, ProjectedContracts(ir),
           if context.None? then None else Some(Policy.ReportFor(reading.context(context.value), reading.subjects(ir, resolved))))
  }

  lemma PinnedAreBuilt(pins: seq<Realization.Pin>, contracts: seq<DomainContract>, d: DomainIR)
    requires d in Realization.PinnedIRs(pins, contracts)
    ensures exists c :: c in contracts && d == BuildDomainIR(c)
  {
    hide BuildDomainIR, Sort, Realization.ByRef, Realization.IsPinned;
    var pinned := Filter((c: DomainContract) => Realization.IsPinned(pins, c), contracts);
    var all := Map((c: DomainContract) => BuildDomainIR(c), pinned);
    SortLists(all, Realization.ByRef);
    var k :| 0 <= k < |all| && all[k] == d;
    assert pinned[k] in contracts;
  }

  lemma ReadFromContract(closure: seq<Document>, reading: Reading, c: DomainContract)
    requires c in DomainsIn(closure, reading)
    ensures exists x :: x in closure && x.kind.DomainContract? && c == reading.domain(x)
  {
    var own := Filter((d: Document) => d.kind.DomainContract?, closure);
    var contracts := Map(reading.domain, own);
    var i :| 0 <= i < |contracts| && contracts[i] == c;
    assert own[i] in own && contracts[i] == reading.domain(own[i]);
  }

  /** The domains of the IR are read from the Domain Contracts of the closure, and from nothing else. */
  lemma DomainsAreOfClosure(definition: Document, closure: seq<Document>, reading: Reading, catalog: ExtensionCatalog, d: DomainIR)
    requires d in OutputOf(definition, closure, reading, catalog).ir.domains
    ensures exists x :: x in closure && x.kind.DomainContract? && d == BuildDomainIR(reading.domain(x))
  {
    hide BuildDomainIR, DomainsIn, Realization.PinnedIRs;
    PinnedAreBuilt(reading.definition(definition).pins, DomainsIn(closure, reading), d);
    var c :| c in DomainsIn(closure, reading) && d == BuildDomainIR(c);
    ReadFromContract(closure, reading, c);
  }

  /** The policies found a violation. */
  predicate IsViolated(output: Output) {
    output.report.Some? && exists e :: e in output.report.value && e.outcome == Policy.Violated
  }

  /** The plan, unless the policies found a violation. */
  function PlanFor(output: Output): Option<Plan.ExecutionPlan> {
    if IsViolated(output) then None else Some(Plan.PlanOf(Plan.Given(output.inputs, output.report), output.ir, output.resolved, output.contracts))
  }

  /** The stages of the compilation, for a catalog. */
  function StagesOf(reading: Reading, catalog: ExtensionCatalog): Facade.Stages<Output, Plan.ExecutionPlan> {
    (definition: Document, closure: seq<Document>) =>
      (OutputOf(definition, closure, reading, catalog), PlanFor(OutputOf(definition, closure, reading, catalog)))
  }

  const EMPTY_CATALOG := ExtensionCatalog([], [])

  /** The catalog a value stands for: the empty one when absent, none when it is refused. */
  ghost function CatalogOf(value: Option<Json>): Option<ExtensionCatalog> {
    if value.None? then Some(EMPTY_CATALOG) else if IsCatalog(value.value) then Some(ReadCatalog(value.value)) else None
  }

  ghost function StagesOfCatalog(reading: Reading, value: Option<Json>): Facade.CatalogStages<Output, Plan.ExecutionPlan> {
    if CatalogOf(value).None? then None else Some(StagesOf(reading, CatalogOf(value).value))
  }

  /** Runs the stages one after the other. */
  method RunStages(definition: Document, closure: seq<Document>, reading: Reading, catalog: ExtensionCatalog)
    returns (output: Output, plan: Option<Plan.ExecutionPlan>)
    ensures (output, plan) == StagesOf(reading, catalog)(definition, closure)
  {
    hide BuildSystemIR, Resolve.ResolveAll, Plan.PlanOf, Policy.ReportFor, ApiContracts.AllContracts, Sort, InputsOf;
    var ir := BuildSystemIR(reading.definition(definition), DomainsIn(closure, reading));
    var resolved := Resolve.ResolveSystem(ir.components, catalog);
    var context := ContextIn(closure);
    var report, violated := None, false;
    if context.Some? {
      var evaluations, violations := Policy.EvaluatePolicies(reading.context(context.value), reading.subjects(ir, resolved));
      report, violated := Some(evaluations), violations != [];
    }
    var contracts := ApiContracts.ProjectApiContracts(ir.domains, ir.operationBindings);
    var inputs := InputsOf(definition, closure, ir, resolved, reading, catalog);
    var planned := Plan.PlanSystem(Plan.Given(inputs, report), ir, resolved, contracts);
    output := Output(inputs, ir, resolved, contracts, report);
    plan := if violated then None else Some(planned);
  }

  /** Compiles a set with a catalog read from data: everything from validation to plan. */
  method CompileSystem(documents: seq<Document>, wanted: Option<string>, rules: ContractSet.Rules, reading: Reading, value: Option<Json>)
    returns (r: Facade.Compilation<Output, Plan.ExecutionPlan>)
    ensures r == Facade.CompilationOf(documents, wanted, rules, StagesOfCatalog(reading, value))
  {
    hide Facade.CompilationOf, IsCatalog, StagesOf, ReadCatalog;
    var catalog := Some(EMPTY_CATALOG);
    if value.Some? {
      var faults;
      catalog, faults := ValidateCatalog(value.value);
    }
    r := Facade.Compile(documents, wanted, rules, if catalog.Some? then Some(StagesOf(reading, catalog.value)) else None);
  }

  // ---- From the definition to the plan ----

  /** The plan of a definition and its Domain Contracts. */
  function PlanOfDefinition(given: Plan.Given, d: Definition, contracts: seq<DomainContract>, catalog: ExtensionCatalog): Plan.ExecutionPlan {
    var ir := BuildSystemIR(d, contracts);
    Plan.PlanOf(given, ir, Resolve.ResolveAll(ir.components, catalog), ProjectedContracts(ir))
  }

  /** The component of the IR for the authored one. */
  lemma AuthoredComponent(d: Definition, contracts: seq<DomainContract>, i: nat) returns (k: nat)
    requires i < |d.components|
    ensures k < |BuildSystemIR(d, contracts).components|
    ensures BuildSystemIR(d, contracts).components[k] == NormalizeComponent(d.pins, EnvironmentIds(d), d.components[i])
  {
    hide BuildSystemIR, NormalizeComponent;
    NormalizedComponents(d, contracts);
    var n := NormalizeComponent(d.pins, EnvironmentIds(d), d.components[i]);
    assert n in BuildSystemIR(d, contracts).components by { assert d.components[i] == d.components[i]; }
    k :| 0 <= k < |BuildSystemIR(d, contracts).components| && BuildSystemIR(d, contracts).components[k] == n;
  }

  lemma IRIdsAreDistinct(d: Definition, contracts: seq<DomainContract>)
    requires NoRepeat(ComponentIds(d.components))
    ensures Plan.UniqueIds(BuildSystemIR(d, contracts).components)
  {
    hide Sort, NormalizeComponent, PinnedIRs, OperationBindings, EventBindings, UnsupportedOf;
    var all := NormalizeAll(d.pins, EnvironmentIds(d), d.components);
    var idOf := (c: IRComponent) => c.id;
    forall i | 0 <= i < |all| ensures all[i].id == d.components[i].id { KeepsId(d.pins, EnvironmentIds(d), d.components[i]); }
    assert Map(idOf, all) == ComponentIds(d.components);
    SortPermutes(all, ById);
    KeysStayDistinct(idOf, all, Sort(all, ById));
    var sorted := BuildSystemIR(d, contracts).components;
    forall i, j | 0 <= i < j < |sorted| ensures sorted[i].id != sorted[j].id { assert Map(idOf, sorted)[i] != Map(idOf, sorted)[j]; }
  }

  lemma {:induction false} CountPermutes<T>(a: seq<T>, b: seq<T>, p: T -> bool)
    requires multiset(a) == multiset(b)
    ensures Plan.Count(a, p) == Plan.Count(b, p)
    decreases |a|
  {
    assert |multiset(a)| == |a| && |multiset(b)| == |b|;
    if |a| > 0 {
      var n := |a| - 1;
      assert a == a[..n] + [a[n]];
      var front, tail := TakeOut(b, a[n]);
      CountPermutes(a[..n], front + tail, p);
      Plan.CountConcat(front + [a[n]], tail, p);
      Plan.CountSnoc(front, a[n], p);
      Plan.CountConcat(front, tail, p);
    } else {
      assert b == [];
    }
  }

  lemma DefinitionIntentIsConserved(given: Plan.Given, d: Definition, contracts: seq<DomainContract>, catalog: ExtensionCatalog, i: nat, capability: string)
    requires NoRepeat(ComponentIds(d.components)) && i < |d.components|
    ensures IsConserved(d.components[i], PlanOfDefinition(given, d, contracts, catalog), catalog, capability)
  {
    hide BuildSystemIR, NormalizeComponent, Plan.PlanOf, Plan.Count, Resolve.ResolveAll, ProjectedContracts, Resolve.ResolveComponent, Plan.UniqueIds;
    var ir, c := BuildSystemIR(d, contracts), d.components[i];
    var n := NormalizeComponent(d.pins, EnvironmentIds(d), c);
    var k := AuthoredComponent(d, contracts, i);
    IRIdsAreDistinct(d, contracts);
    Plan.IntentIsConserved(given, ir, ProjectedContracts(ir), catalog, k, capability);
    NormalizedKeepsIntent(d.pins, EnvironmentIds(d), c);
    ResolvedByChoice(n, catalog);
    CountPermutes(Resolve.Asks(n), CapabilityIds(c), Plan.Is(capability));
  }

  function CapabilityIds(c: Component): seq<string> { Map((x: Capability) => x.id, c.capabilities) }

  /**
   * The plan has one step or one unsupported item for the component, and one BIND step or one
   * unsupported item for the capability each time the component asks for it, provided one of
   * its runtime preferences, in the order they are written, has an adapter.
   */
  ghost predicate IsConserved(c: Component, plan: Plan.ExecutionPlan, catalog: ExtensionCatalog, capability: string) {
    && Plan.Count(plan.steps, Plan.RealizesComponent(c.id)) + Plan.Count(plan.unsupported, Plan.Leaves(c.id, None)) == 1
    && Plan.Count(plan.steps, Plan.BindsCapability(c.id, capability)) + Plan.Count(plan.unsupported, Plan.Leaves(c.id, Some(capability))) ==
       if Resolve.Choose(c.preferences, c.kind, catalog).Some? then Plan.Count(CapabilityIds(c), Plan.Is(capability)) else 0
  }

  /**
   * From the documents to the plan nothing is lost or repeated: when a set compiles to a plan,
   * the definition is one of the set, no policy is violated, and every component of the
   * definition is conserved.
   */
  lemma AuthoredIntentIsConserved(documents: seq<Document>, wanted: Option<string>, rules: ContractSet.Rules, reading: Reading, value: Option<Json>, i: nat, capability: string)
    requires var c := Facade.CompilationOf(documents, wanted, rules, StagesOfCatalog(reading, value));
             c.Compiled? && c.plan.Some? && NoRepeat(ComponentIds(reading.definition(c.definition).components)) && i < |reading.definition(c.definition).components|
    ensures CatalogOf(value).Some?
    ensures var c := Facade.CompilationOf(documents, wanted, rules, StagesOfCatalog(reading, value));
            c.definition in documents && !IsViolated(c.output) &&
            IsConserved(reading.definition(c.definition).components[i], c.plan.value, CatalogOf(value).value, capability)
  {
    hide BuildSystemIR, Resolve.ResolveAll, Plan.PlanOf, Policy.ReportFor, ProjectedContracts, IsCatalog, ReadCatalog, IsConserved, InputsOf, IsViolated;
    Facade.CompiledIsDocument(documents, wanted, rules, StagesOfCatalog(reading, value));
    var c := Facade.CompilationOf(documents, wanted, rules, StagesOfCatalog(reading, value));
    DefinitionIntentIsConserved(Plan.Given(c.output.inputs, c.output.report), reading.definition(c.definition), DomainsIn(c.closure, reading), CatalogOf(value).value, i, capability);
  }

  lemma NormalizedKeepsIntent(pins: seq<Pin>, environments: seq<string>, c: Component)
    ensures var n := NormalizeComponent(pins, environments, c);
            n.id == c.id && n.kind == c.kind && n.preferences == c.preferences && n.team == c.team && n.ownershipClass == c.ownershipClass &&
            multiset(Resolve.Asks(n)) == multiset(CapabilityIds(c))
  {
    hide ResolveItems, RunsIn, Sort, SortedKeys, Interactions;
    var n, idOf := NormalizeComponent(pins, environments, c), (x: Capability) => x.id;
    SortPermutes(c.capabilities, ByCapability);
    MapPermutes(idOf, n.capabilities, c.capabilities);
    assert Resolve.Asks(n) == Map(idOf, n.capabilities);
  }

  lemma ResolvedByChoice(c: Resolve.Component, catalog: ExtensionCatalog)
    ensures Resolve.ResolveComponent(c, catalog).Resolved? <==> Resolve.Choose(c.preferences, c.kind, catalog).Some?
  {
    hide Resolve.Choose, Resolve.BindAll;
  }

  /**
   * Of the order a settled definition is written in, the plan keeps one thing, the digest of the
   * closure it was planned from. That digest covers the document of the definition as it is
   * written: the two plans are equal exactly when the documents are, their status excepted.
   */
  lemma StagesForgetOrder(a: Document, b: Document, closure: seq<Document>, reading: Reading, catalog: ExtensionCatalog)
    requires HasDistinctIds(reading.definition(a)) && IsSettled(reading.definition(a))
    requires SameDefinition(reading.definition(a), reading.definition(b))
    ensures var (x, p), (y, q) := StagesOf(reading, catalog)(a, closure), StagesOf(reading, catalog)(b, closure);
            y == x.(inputs := x.inputs.(closure := y.inputs.closure)) && (q.Some? <==> p.Some?) &&
            (p.Some? ==> q.value == p.value.(inputs := p.value.inputs.(closure := y.inputs.closure)) && (q == p <==> a == b.(status := a.status)))
  {
    hide BuildSystemIR, Resolve.ResolveAll, Policy.ReportFor, ProjectedContracts, HasDistinctIds, IsSettled, SameDefinition, Closure.ClosureDigest, CatalogDigest;
    SystemIRForgetsOrder(reading.definition(a), reading.definition(b), DomainsIn(closure, reading));
    Closure.ClosureDigestTells(a, b, closure, CatalogDigest(catalog));
    var x, y := OutputOf(a, closure, reading, catalog), OutputOf(b, closure, reading, catalog);
    assert y == x.(inputs := x.inputs.(closure := y.inputs.closure));
    if !IsViolated(x) {
      PlanCarriesInputs(x, y);
    }
  }

  lemma PlanCarriesInputs(x: Output, y: Output)
    requires y == x.(inputs := y.inputs) && !IsViolated(x)
    ensures PlanFor(x).Some? && PlanFor(y) == Some(PlanFor(x).value.(inputs := y.inputs)) && PlanFor(x).value.inputs == x.inputs
  {
    hide Plan.StepsOfAll, Plan.Obligations, Plan.ContractsWork, Plan.ComponentWork;
  }
}
