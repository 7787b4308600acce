/** The execution plan, and why it neither loses nor repeats what was intended. */
module Plan {
  import opened Wrappers
  import opened Lists
  import opened Catalog
  import opened Resolve
  import opened DomainContracts
  import Realization
  import ApiContracts
  import Policy
  import Identity

  type Digest = Identity.Digest

  type SystemIR = Realization.SystemIR

  type ApiContract = ApiContracts.ApiContract

  datatype Action = Materialize | ConnectExternal

  datatype PlanStep =
    | Realize(action: Action, component: string, adapter: ExtensionRef, runtime: string, ownership: string, environments: seq<string>, contracts: seq<string>)
    | BindCapability(component: string, capability: string, provider: ExtensionRef)

  /** `new Map(components.map(c => [c.id, c]))`. */
  function ById(components: seq<Component>): (m: map<string, Component>)
    ensures forall c | c in components :: c.id in m
    ensures forall id | id in m :: m[id] in components && m[id].id == id
  {
    if |components| == 0 then map[] else
    var last := components[|components| - 1];
    ById(components[..|components| - 1])[last.id := last]
  }

  function BindSteps(component: string, capabilities: seq<ResolvedCapability>): seq<PlanStep> {
    if |capabilities| == 0 then [] else
    var n := |capabilities| - 1;
    BindSteps(component, capabilities[..n]) +
    if capabilities[n].Bound? then [BindCapability(component, capabilities[n].id, capabilities[n].provider)] else []
  }

  /** The contracts a component provides. */
  function ProvidedBy(contracts: seq<ApiContract>, provider: string): seq<string> {
    Map((c: ApiContract) => c.id, Filter((c: ApiContract) => c.provider == provider, contracts))
  }

  function StepsOf(r: ResolvedComponent, byId: map<string, Component>, contracts: seq<ApiContract>): seq<PlanStep> {
    if r.Unsupported? || r.id !in byId then [] else
    var source := byId[r.id];
    [Realize(if source.ownershipClass == "EXTERNAL" then ConnectExternal else Materialize,
             r.id, r.adapter, r.runtime, source.ownershipClass, source.environments, ProvidedBy(contracts, r.id))] +
    BindSteps(r.id, r.capabilities)
  }

  function StepsOfAll(resolved: seq<ResolvedComponent>, byId: map<string, Component>, contracts: seq<ApiContract>): seq<PlanStep> {
    if |resolved| == 0 then [] else
    StepsOfAll(resolved[..|resolved| - 1], byId, contracts) + StepsOf(resolved[|resolved| - 1], byId, contracts)
  }

  function ObligationsOf(r: ResolvedComponent, byId: map<string, Component>): seq<(string, string)> {
    if r.Unsupported? || r.id !in byId then [] else
    seq(|byId[r.id].requirements|, i requires 0 <= i < |byId[r.id].requirements| => (r.id, byId[r.id].requirements[i]))
  }

  /** The requirements allocated to planned components, in order. */
  function Obligations(resolved: seq<ResolvedComponent>, byId: map<string, Component>): seq<(string, string)> {
    if |resolved| == 0 then [] else
    Obligations(resolved[..|resolved| - 1], byId) + ObligationsOf(resolved[|resolved| - 1], byId)
  }

  /** What the owning teams keep. */
  datatype OwnerWork =
    | KeepComponent(component: string, ownership: string, team: string)
    | ImplementOperation(component: string, team: string, item: string, contract: string)
    | EnforceInvariant(component: string, team: string, item: string, enforcement: string)

  /** `components.find(c => c.id === id)?.team ?? ''`. */
  function TeamOf(components: seq<Component>, id: string): string {
    if |components| == 0 then "" else if components[0].id == id then components[0].team else TeamOf(components[1..], id)
  }

  /** `domains.find(d => d.ref === ref)`. */
  function FindDomain(domains: seq<DomainIR>, ref: string): (r: Option<DomainIR>)
    ensures r.Some? ==> r.value in domains && r.value.ref == ref
    ensures r.None? ==> forall d | d in domains :: d.ref != ref
  {
    if |domains| == 0 then None else if domains[0].ref == ref then Some(domains[0]) else FindDomain(domains[1..], ref)
  }

  /** An operation of the contract, or something that is no operation of the domain. */
  predicate Concerns(item: string, c: ApiContract, domain: DomainIR) {
    item in c.operations || forall o | o in domain.operations :: o.ref != item
  }

  predicate IsEnforcedBy(v: IRInvariant, c: ApiContract, domain: DomainIR) {
    exists i :: 0 <= i < |v.appliesTo| && Concerns(v.appliesTo[i], c, domain)
  }

  function ComponentWork(components: seq<Component>): seq<OwnerWork> {
    Map((c: Component) => KeepComponent(c.id, c.ownershipClass, c.team), Filter((c: Component) => c.ownershipClass != "COMPILER_OWNED", components))
  }

  function OperationWork(c: ApiContract, team: string): string -> OwnerWork {
    (item: string) => ImplementOperation(c.provider, team, item, c.id)
  }

  function InvariantWork(c: ApiContract, team: string): IRInvariant -> OwnerWork {
    (v: IRInvariant) => EnforceInvariant(c.provider, team, v.ref, v.enforcement)
  }

  /** The invariants of its domain that the provider of a contract enforces. */
  function EnforcedBy(c: ApiContract, domains: seq<DomainIR>): seq<IRInvariant> {
    var domain := FindDomain(domains, c.domainRef);
    if domain.None? then [] else Filter((v: IRInvariant) => IsEnforcedBy(v, c, domain.value), domain.value.invariants)
  }

  function ContractWork(c: ApiContract, ir: SystemIR): seq<OwnerWork> {
    var team := TeamOf(ir.components, c.provider);
    Map(OperationWork(c, team), c.operations) + Map(InvariantWork(c, team), EnforcedBy(c, ir.domains))
  }

  function ContractsWork(contracts: seq<ApiContract>, ir: SystemIR): seq<OwnerWork> {
    if |contracts| == 0 then [] else ContractsWork(contracts[..|contracts| - 1], ir) + ContractWork(contracts[|contracts| - 1], ir)
  }

  /** Lists owner work: the components the teams keep, then, contract by contract, operations and invariants. */
  method ListOwnerWork(ir: SystemIR, contracts: seq<ApiContract>) returns (work: seq<OwnerWork>)
    ensures work == ComponentWork(ir.components) + ContractsWork(contracts, ir)
  {
    hide Filter, TeamOf, FindDomain, IsEnforcedBy;
    work := ComponentWork(ir.components);
    for i := 0 to |contracts|
      invariant work == ComponentWork(ir.components) + ContractsWork(contracts[..i], ir)
    {
      assert contracts[..i + 1][..i] == contracts[..i];
      var more := ListContractWork(contracts[i], ir);
      work := work + more;
    }
    assert contracts[..|contracts|] == contracts;
  }

  method ListContractWork(c: ApiContract, ir: SystemIR) returns (work: seq<OwnerWork>)
    ensures work == ContractWork(c, ir)
  {
    hide TeamOf, FindDomain, IsEnforcedBy;
    var team := TeamOf(ir.components, c.provider);
    work := [];
    for i := 0 to |c.operations|
      invariant work == Map(OperationWork(c, team), c.operations)[..i]
    {
      work := work + [ImplementOperation(c.provider, team, c.operations[i], c.id)];
    }
    var domain := FindDomain(ir.domains, c.domainRef);
    if domain.None? {
      return;
    }
    var invariants := domain.value.invariants;
    var enforced := (v: IRInvariant) => IsEnforcedBy(v, c, domain.value);
    for i := 0 to |invariants|
      invariant work == Map(OperationWork(c, team), c.operations) + Map(InvariantWork(c, team), Filter(enforced, invariants[..i]))
    {
      assert invariants[..i + 1][..i] == invariants[..i];
      MapSnoc(InvariantWork(c, team), Filter(enforced, invariants[..i]), invariants[i]);
      if IsEnforcedBy(invariants[i], c, domain.value) {
        work := work + [EnforceInvariant(c.provider, team, invariants[i].ref, invariants[i].enforcement)];
      }
    }
    assert invariants[..|invariants|] == invariants;
  }

  lemma MapSnoc<A, B>(f: A -> B, s: seq<A>, x: A)
    ensures Map(f, s + [x]) == Map(f, s) + [f(x)]
  {}

  datatype SharedContract = SharedContract(id: string, domain: string, provider: string, consumers: seq<string>, digest: string)

  function Share(c: ApiContract): SharedContract {
    SharedContract(c.id, c.domainRef, c.provider, c.consumers, c.digest)
  }

  /** The digests of what was planned from. */
  datatype Inputs = Inputs(closure: Digest, ir: Digest, resolved: Digest)

  /** What the plan carries as it is given: the digests, and the report of the policies applied. */
  datatype Given = Given(inputs: Inputs, policy: Option<seq<Policy.PolicyEvaluation>>)

  datatype ExecutionPlan = ExecutionPlan(
    system: string,
    inputs: Inputs,
    steps: seq<PlanStep>,
    unsupported: seq<UnsupportedItem>,
    unsupportedIntent: seq<Realization.Unsupported>,
    sharedContracts: seq<SharedContract>,
    policy: Option<seq<Policy.PolicyEvaluation>>,
    ownerWork: seq<OwnerWork>,
    proofObligations: seq<(string, string)>
  )

  function PlanOf(given: Given, ir: SystemIR, resolved: ResolvedSystem, contracts: seq<ApiContract>): ExecutionPlan {
    ExecutionPlan(ir.system, given.inputs, StepsOfAll(resolved.components, ById(ir.components), contracts), resolved.unsupported, ir.unsupported,
                  Map(Share, contracts), given.policy, ComponentWork(ir.components) + ContractsWork(contracts, ir),
                  Obligations(resolved.components, ById(ir.components)))
  }

  lemma NoneYet(byId: map<string, Component>, contracts: seq<ApiContract>)
    ensures StepsOfAll([], byId, contracts) == [] && Obligations([], byId) == []
  {}

  lemma OneMore(all: seq<ResolvedComponent>, i: nat, byId: map<string, Component>, contracts: seq<ApiContract>)
    requires i < |all|
    ensures StepsOfAll(all[..i + 1], byId, contracts) == StepsOfAll(all[..i], byId, contracts) + StepsOf(all[i], byId, contracts)
    ensures Obligations(all[..i + 1], byId) == Obligations(all[..i], byId) + ObligationsOf(all[i], byId)
  {
    hide StepsOf, ObligationsOf;
    assert all[..i + 1][..i] == all[..i];
  }

  /** Plans the resolved components in order; what is unsupported is carried over unchanged. */
  method PlanSystem(given: Given, ir: SystemIR, resolved: ResolvedSystem, contracts: seq<ApiContract>) returns (plan: ExecutionPlan)
    ensures plan == PlanOf(given, ir, resolved, contracts)
  {
    hide ProvidedBy, ContractsWork, ComponentWork, BindSteps, Map, StepsOfAll, Obligations;
    var byId := ById(ir.components);
    var all := resolved.components;
    var steps: seq<PlanStep> := [];
    var obligations: seq<(string, string)> := [];
    NoneYet(byId, contracts);
    for i := 0 to |all|
      invariant steps == StepsOfAll(all[..i], byId, contracts) && obligations == Obligations(all[..i], byId)
    {
      OneMore(all, i, byId, contracts);
      var r := all[i];
      if r.Unsupported? || r.id !in byId {
        continue;
      }
      var source := byId[r.id];
      steps := steps + ([Realize(if source.ownershipClass == "EXTERNAL" then ConnectExternal else Materialize,
                                 r.id, r.adapter, r.runtime, source.ownershipClass, source.environments, ProvidedBy(contracts, r.id))] + BindSteps(r.id, r.capabilities));
      obligations := obligations + seq(|source.requirements|, k requires 0 <= k < |source.requirements| => (r.id, source.requirements[k]));
    }
    assert all[..|all|] == all;
    var work := ListOwnerWork(ir, contracts);
    plan := ExecutionPlan(ir.system, given.inputs, steps, resolved.unsupported, ir.unsupported, Map(Share, contracts), given.policy, work, obligations);
  }

  // ---- Owner work ----

  lemma {:induction false} WorkIsOfSomeContract(contracts: seq<ApiContract>, ir: SystemIR, w: OwnerWork)
    ensures w in ContractsWork(contracts, ir) <==> exists c :: c in contracts && w in ContractWork(c, ir)
  {
    hide ContractWork;
    if |contracts| > 0 {
      var front, last := contracts[..|contracts| - 1], contracts[|contracts| - 1];
      assert contracts == front + [last];
      WorkIsOfSomeContract(front, ir, w);
    }
  }

  lemma WorkOfContract(c: ApiContract, ir: SystemIR, w: OwnerWork)
    ensures w.ImplementOperation? ==>
              (w in ContractWork(c, ir) <==> w.item in c.operations && w == ImplementOperation(c.provider, TeamOf(ir.components, c.provider), w.item, c.id))
    ensures w.EnforceInvariant? ==>
              (w in ContractWork(c, ir) <==>
               exists v :: v in EnforcedBy(c, ir.domains) && w == EnforceInvariant(c.provider, TeamOf(ir.components, c.provider), v.ref, v.enforcement))
  {
    hide EnforcedBy, TeamOf;
    var team := TeamOf(ir.components, c.provider);
    Realization.InMap(OperationWork(c, team), c.operations, w);
    Realization.InMap(InvariantWork(c, team), EnforcedBy(c, ir.domains), w);
  }

  /** The operations to implement and the invariants to enforce are those of the contracts. */
  lemma WorkIsExact(given: Given, ir: SystemIR, resolved: ResolvedSystem, contracts: seq<ApiContract>, w: OwnerWork)
    requires !w.KeepComponent?
    ensures w in PlanOf(given, ir, resolved, contracts).ownerWork <==> exists c :: c in contracts && w in ContractWork(c, ir)
  {
    hide ContractWork, StepsOfAll, Obligations, ById;
    WorkIsOfSomeContract(contracts, ir, w);
  }

  // ---- Conservation ----

  function Count<T>(s: seq<T>, p: T -> bool): nat {
    if |s| == 0 then 0 else Count(s[..|s| - 1], p) + if p(s[|s| - 1]) then 1 else 0
  }

  lemma {:induction false} CountConcat<T>(a: seq<T>, b: seq<T>, p: T -> bool)
    ensures Count(a + b, p) == Count(a, p) + Count(b, p)
  {
    if |b| == 0 {
      assert a + b == a;
    } else {
      assert (a + b)[..|a + b| - 1] == a + b[..|b| - 1];
      CountConcat(a, b[..|b| - 1], p);
    }
  }

  function RealizesComponent(id: string): PlanStep -> bool {
    (s: PlanStep) => s.Realize? && s.component == id
  }

  function BindsCapability(id: string, capability: string): PlanStep -> bool {
    (s: PlanStep) => s.BindCapability? && s.component == id && s.capability == capability
  }

  function Leaves(id: string, capability: Option<string>): UnsupportedItem -> bool {
    (u: UnsupportedItem) => u.component == id && u.capability == capability
  }

  function Is(x: string): string -> bool {
    (y: string) => y == x
  }

  lemma CountSnoc<T>(s: seq<T>, x: T, p: T -> bool)
    ensures Count(s + [x], p) == Count(s, p) + if p(x) then 1 else 0
  {
    assert (s + [x])[..|s|] == s;
  }

  /** One more capability gives one BIND step or one unsupported item. */
  lemma CapabilityIsConserved(c: string, id: string, capability: string, front: seq<ResolvedCapability>, r: ResolvedCapability)
    ensures Count(BindSteps(c, front + [r]), BindsCapability(id, capability)) + Count(UnboundItems(c, front + [r]), Leaves(id, Some(capability))) ==
            Count(BindSteps(c, front), BindsCapability(id, capability)) + Count(UnboundItems(c, front), Leaves(id, Some(capability))) +
            if c == id && r.id == capability then 1 else 0
    ensures Count(BindSteps(c, front + [r]), RealizesComponent(id)) == Count(BindSteps(c, front), RealizesComponent(id))
    ensures Count(UnboundItems(c, front + [r]), Leaves(id, None)) == Count(UnboundItems(c, front), Leaves(id, None))
  {
    hide Count;
    assert (front + [r])[..|front|] == front;
    if r.Bound? {
      var step := BindCapability(c, r.id, r.provider);
      CountSnoc(BindSteps(c, front), step, BindsCapability(id, capability));
      CountSnoc(BindSteps(c, front), step, RealizesComponent(id));
      assert UnboundItems(c, front + [r]) == UnboundItems(c, front);
    } else {
      var item := UnsupportedItem(c, Some(r.id), NoCapabilityProvider);
      CountSnoc(UnboundItems(c, front), item, Leaves(id, Some(capability)));
      CountSnoc(UnboundItems(c, front), item, Leaves(id, None));
      assert BindSteps(c, front + [r]) == BindSteps(c, front);
    }
  }

  /** Each capability asked for is bound by one step or left out by one item. */
  lemma {:induction false} CapabilitiesAreConserved(c: string, id: string, capability: string, capabilities: seq<string>, runtime: string, catalog: ExtensionCatalog)
    ensures var all := BindAll(capabilities, runtime, catalog);
            Count(BindSteps(c, all), BindsCapability(id, capability)) + Count(UnboundItems(c, all), Leaves(id, Some(capability))) ==
            (if c == id then Count(capabilities, Is(capability)) else 0) &&
            Count(BindSteps(c, all), RealizesComponent(id)) == 0 && Count(UnboundItems(c, all), Leaves(id, None)) == 0
  {
    hide Bind, Leaves, BindsCapability, RealizesComponent;
    if |capabilities| > 0 {
      hide BindSteps, UnboundItems, Count;
      var n := |capabilities| - 1;
      var all, front := BindAll(capabilities, runtime, catalog), BindAll(capabilities[..n], runtime, catalog);
      assert all == front + [all[n]];
      CapabilitiesAreConserved(c, id, capability, capabilities[..n], runtime, catalog);
      CapabilityIsConserved(c, id, capability, front, all[n]);
      assert all[n].id == capabilities[n] by { BindNames(capabilities[n], runtime, catalog); }
      assert capabilities == capabilities[..n] + [capabilities[n]];
      CountSnoc(capabilities[..n], capabilities[n], Is(capability));
    }
  }

  lemma BindNames(capability: string, runtime: string, catalog: ExtensionCatalog)
    ensures Bind(capability, runtime, catalog).id == capability
  {}

  lemma ComponentIsConserved(c: Component, byId: map<string, Component>, contracts: seq<ApiContract>, catalog: ExtensionCatalog, id: string, capability: string)
    requires c.id in byId
    ensures var r := ResolveComponent(c, catalog);
            var steps, items := StepsOf(r, byId, contracts), UnsupportedOf(c, r);
            Count(steps, RealizesComponent(id)) + Count(items, Leaves(id, None)) == (if c.id == id then 1 else 0) &&
            Count(steps, BindsCapability(id, capability)) + Count(items, Leaves(id, Some(capability))) ==
            (if c.id == id && r.Resolved? then Count(Asks(c), Is(capability)) else 0)
  {
    hide BindAll, Choose;
    var r := ResolveComponent(c, catalog);
    if r.Resolved? {
      CapabilitiesAreConserved(c.id, id, capability, Asks(c), r.runtime, catalog);
      var head := StepsOf(r, byId, contracts)[..1];
      assert StepsOf(r, byId, contracts) == head + BindSteps(r.id, r.capabilities);
      CountConcat(head, BindSteps(r.id, r.capabilities), RealizesComponent(id));
      CountConcat(head, BindSteps(r.id, r.capabilities), BindsCapability(id, capability));
      assert head[..0] == [];
    } else {
      assert UnsupportedOf(c, r)[..0] == [];
    }
  }

  /** How often a component id occurs. */
  function Declares(id: string): Component -> bool {
    (c: Component) => c.id == id
  }

  /** The capabilities asked for by the resolved components of an id. */
  function Asked(components: seq<Component>, catalog: ExtensionCatalog, id: string, capability: string): nat {
    if |components| == 0 then 0 else
    var c := components[|components| - 1];
    Asked(components[..|components| - 1], catalog, id, capability) +
    if c.id == id && ResolveComponent(c, catalog).Resolved? then Count(Asks(c), Is(capability)) else 0
  }

  lemma {:induction false} SystemIsConserved(components: seq<Component>, byId: map<string, Component>, contracts: seq<ApiContract>, catalog: ExtensionCatalog, id: string, capability: string)
    requires forall c | c in components :: c.id in byId
    ensures var resolved := ResolveAll(components, catalog);
            var steps := StepsOfAll(resolved.components, byId, contracts);
            Count(steps, RealizesComponent(id)) + Count(resolved.unsupported, Leaves(id, None)) == Count(components, Declares(id)) &&
            Count(steps, BindsCapability(id, capability)) + Count(resolved.unsupported, Leaves(id, Some(capability))) == Asked(components, catalog, id, capability)
  {
    hide ResolveComponent, StepsOf, UnsupportedOf;
    if |components| > 0 {
      var n := |components| - 1;
      var c := components[n];
      SystemIsConserved(components[..n], byId, contracts, catalog, id, capability);
      var front, r := ResolveAll(components[..n], catalog), ResolveComponent(c, catalog);
      var all := ResolveAll(components, catalog);
      assert all.components[..|front.components|] == front.components && all.components[|front.components|] == r;
      ComponentIsConserved(c, byId, contracts, catalog, id, capability);
      var before := StepsOfAll(front.components, byId, contracts);
      CountConcat(before, StepsOf(r, byId, contracts), RealizesComponent(id));
      CountConcat(before, StepsOf(r, byId, contracts), BindsCapability(id, capability));
      CountConcat(front.unsupported, UnsupportedOf(c, r), Leaves(id, None));
      CountConcat(front.unsupported, UnsupportedOf(c, r), Leaves(id, Some(capability)));
    }
  }

  ghost predicate UniqueIds(components: seq<Component>) {
    forall i, j | 0 <= i < j < |components| :: components[i].id != components[j].id
  }

  lemma {:induction false} DeclaredOnce(components: seq<Component>, catalog: ExtensionCatalog, i: nat, capability: string)
    requires UniqueIds(components) && i < |components|
    ensures Count(components, Declares(components[i].id)) == 1
    ensures Asked(components, catalog, components[i].id, capability) ==
            if ResolveComponent(components[i], catalog).Resolved? then Count(Asks(components[i]), Is(capability)) else 0
  {
    hide ResolveComponent;
    var n := |components| - 1;
    if i < n {
      DeclaredOnce(components[..n], catalog, i, capability);
    } else {
      NotDeclared(components[..n], catalog, components[i].id, capability);
    }
  }

  lemma {:induction false} NotDeclared(components: seq<Component>, catalog: ExtensionCatalog, id: string, capability: string)
    requires forall i | 0 <= i < |components| :: components[i].id != id
    ensures Count(components, Declares(id)) == 0 && Asked(components, catalog, id, capability) == 0
  {
    hide ResolveComponent;
    if |components| > 0 {
      NotDeclared(components[..|components| - 1], catalog, id, capability);
    }
  }

  /**
   * From IR to plan nothing is lost or repeated: every component gives exactly one step
   * that realizes it or one unsupported item, and every capability of a resolved component
   * one BIND step or one unsupported item per time it is asked for.
   */
  lemma IntentIsConserved(given: Given, ir: SystemIR, contracts: seq<ApiContract>, catalog: ExtensionCatalog, i: nat, capability: string)
    requires UniqueIds(ir.components) && i < |ir.components|
    ensures var plan := PlanOf(given, ir, ResolveAll(ir.components, catalog), contracts);
            var c := ir.components[i];
            Count(plan.steps, RealizesComponent(c.id)) + Count(plan.unsupported, Leaves(c.id, None)) == 1 &&
            Count(plan.steps, BindsCapability(c.id, capability)) + Count(plan.unsupported, Leaves(c.id, Some(capability))) ==
            if ResolveComponent(c, catalog).Resolved? then Count(Asks(c), Is(capability)) else 0
  {
    hide ResolveComponent, StepsOfAll, Count;
    SystemIsConserved(ir.components, ById(ir.components), contracts, catalog, ir.components[i].id, capability);
    DeclaredOnce(ir.components, catalog, i, capability);
  }

  lemma FindById(components: seq<Component>, i: nat)
    requires UniqueIds(components) && i < |components|
    ensures components[i].id in ById(components) && ById(components)[components[i].id] == components[i]
  {
    hide ById;
    assert components[i] in components;
    var found := ById(components)[components[i].id];
    var j :| 0 <= j < |components| && components[j] == found;
  }

  /** What resolution decided for a component, as a step. */
  function RealizeStep(c: Component, r: ResolvedComponent, contracts: seq<ApiContract>): PlanStep
    requires r.Resolved?
  {
    Realize(if c.ownershipClass == "EXTERNAL" then ConnectExternal else Materialize, c.id, r.adapter, r.runtime, c.ownershipClass, c.environments, ProvidedBy(contracts, c.id))
  }

  lemma {:induction false} StepIsListed(resolved: seq<ResolvedComponent>, byId: map<string, Component>, contracts: seq<ApiContract>, i: nat)
    requires i < |resolved| && resolved[i].Resolved? && resolved[i].id in byId && byId[resolved[i].id].id == resolved[i].id
    ensures RealizeStep(byId[resolved[i].id], resolved[i], contracts) in StepsOfAll(resolved, byId, contracts)
  {
    hide BindSteps;
    var n := |resolved| - 1;
    if i < n {
      StepIsListed(resolved[..n], byId, contracts, i);
    } else {
      assert StepsOf(resolved[n], byId, contracts)[0] == RealizeStep(byId[resolved[i].id], resolved[i], contracts);
    }
  }

  lemma {:induction false} ResolvedInOrder(components: seq<Component>, catalog: ExtensionCatalog)
    ensures var all := ResolveAll(components, catalog).components;
            |all| == |components| && forall i | 0 <= i < |all| :: all[i] == ResolveComponent(components[i], catalog)
  {
    hide ResolveComponent, UnsupportedOf;
    if |components| > 0 {
      ResolvedInOrder(components[..|components| - 1], catalog);
    }
  }

  lemma ResolvedKeepsId(c: Component, catalog: ExtensionCatalog)
    ensures ResolveComponent(c, catalog).id == c.id
  {
    hide Choose, BindAll;
  }

  /**
   * The plan carries out what was resolved: the step of a resolved component names the
   * adapter and runtime chosen for it and its own ownership and environments, and it
   * materializes every component but EXTERNAL ones, which it connects.
   */
  lemma StepsCarryDecisions(given: Given, ir: SystemIR, contracts: seq<ApiContract>, catalog: ExtensionCatalog, i: nat)
    requires UniqueIds(ir.components) && i < |ir.components| && ResolveComponent(ir.components[i], catalog).Resolved?
    ensures RealizeStep(ir.components[i], ResolveComponent(ir.components[i], catalog), contracts) in PlanOf(given, ir, ResolveAll(ir.components, catalog), contracts).steps
  {
    hide ResolveComponent, StepsOfAll, ResolveAll, ById, RealizeStep;
    ResolvedInOrder(ir.components, catalog);
    ResolvedKeepsId(ir.components[i], catalog);
    FindById(ir.components, i);
    StepIsListed(ResolveAll(ir.components, catalog).components, ById(ir.components), contracts, i);
  }

  /** The obligations are the requirements of the resolved components, and no other. */
  lemma ObligationsAreExact(given: Given, ir: SystemIR, contracts: seq<ApiContract>, catalog: ExtensionCatalog, id: string, requirement: string)
    requires UniqueIds(ir.components)
    ensures (id, requirement) in PlanOf(given, ir, ResolveAll(ir.components, catalog), contracts).proofObligations <==>
            exists i :: 0 <= i < |ir.components| && ir.components[i].id == id && ResolveComponent(ir.components[i], catalog).Resolved? && requirement in ir.components[i].requirements
  {
    hide ResolveComponent, Obligations, ResolveAll, ById;
    var resolved := ResolveAll(ir.components, catalog).components;
    ResolvedInOrder(ir.components, catalog);
    forall i | 0 <= i < |ir.components|
      ensures resolved[i].id == ir.components[i].id && ir.components[i].id in ById(ir.components) && ById(ir.components)[ir.components[i].id] == ir.components[i]
    {
      ResolvedKeepsId(ir.components[i], catalog);
      FindById(ir.components, i);
    }
    ObligationsOfResolved(resolved, ById(ir.components), id, requirement);
    if i :| 0 <= i < |resolved| && resolved[i].Resolved? && resolved[i].id == id && id in ById(ir.components) && requirement in ById(ir.components)[id].requirements {
      assert ir.components[i].id == id;
    }
    if i :| 0 <= i < |ir.components| && ir.components[i].id == id && ResolveComponent(ir.components[i], catalog).Resolved? && requirement in ir.components[i].requirements {
      assert resolved[i].Resolved? && resolved[i].id == id;
    }
  }

  lemma {:induction false} ObligationsOfResolved(resolved: seq<ResolvedComponent>, byId: map<string, Component>, id: string, requirement: string)
    ensures (id, requirement) in Obligations(resolved, byId) <==>
            exists i :: 0 <= i < |resolved| && resolved[i].Resolved? && resolved[i].id == id && id in byId && requirement in byId[id].requirements
  {
    if |resolved| > 0 {
      var n := |resolved| - 1;
      ObligationsOfResolved(resolved[..n], byId, id, requirement);
      if resolved[n].Resolved? && resolved[n].id == id && id in byId && requirement in byId[id].requirements {
        var k :| 0 <= k < |byId[id].requirements| && byId[id].requirements[k] == requirement;
        var last := seq(|byId[id].requirements|, j requires 0 <= j < |byId[id].requirements| => (id, byId[id].requirements[j]));
        assert last[k] == (id, requirement);
      }
    }
  }
}
