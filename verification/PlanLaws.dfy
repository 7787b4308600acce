/** What the steps and the owner work of a plan say, on the components, the catalog and the API contracts alone. */
module PlanLaws {
  import opened Wrappers
  import opened Lists
  import opened Catalog
  import opened Resolve
  import opened ResolveLaws
  import opened Plan

  /** The step realizes the component, in its environments, with exactly the contracts it provides. */
  ghost predicate Carries(step: PlanStep, c: Component, contracts: seq<ApiContract>) {
    && step.Realize? && step.component == c.id && step.ownership == c.ownershipClass && step.environments == c.environments
    && (step.action.ConnectExternal? <==> c.ownershipClass == "EXTERNAL")
    && forall id :: id in step.contracts <==> exists k :: k in contracts && k.provider == c.id && k.id == id
  }

  lemma ProvidedAreExact(contracts: seq<ApiContract>, provider: string, id: string)
    ensures id in ProvidedBy(contracts, provider) <==> exists k :: k in contracts && k.provider == provider && k.id == id
  {
    var own := Filter((c: ApiContract) => c.provider == provider, contracts);
    var ids := Map((c: ApiContract) => c.id, own);
    if k :| k in contracts && k.provider == provider && k.id == id {
      assert k in own;
      var i :| 0 <= i < |own| && own[i] == k;
      assert ids[i] == id;
    }
    if id in ids {
      var i :| 0 <= i < |ids| && ids[i] == id;
      assert own[i] in own && own[i].id == id;
    }
  }

  lemma RealizeCarries(c: Component, r: ResolvedComponent, contracts: seq<ApiContract>)
    requires r.Resolved?
    ensures Carries(RealizeStep(c, r, contracts), c, contracts)
  {
    hide ProvidedBy;
    forall id { ProvidedAreExact(contracts, c.id, id); }
  }

  /** Where a step of the plan comes from. */
  ghost predicate IsStepOf(step: PlanStep, r: ResolvedComponent, byId: map<string, Component>, contracts: seq<ApiContract>) {
    r.Resolved? && r.id in byId && byId[r.id].id == r.id &&
    match step
    case Realize(_, _, _, _, _, _, _) => step == RealizeStep(byId[r.id], r, contracts)
    case BindCapability(component, capability, provider) => component == r.id && Bound(capability, provider) in r.capabilities
  }

  lemma {:induction false} BindStepsAreBound(component: string, capabilities: seq<ResolvedCapability>, step: PlanStep)
    requires step in BindSteps(component, capabilities)
    ensures step.BindCapability? && step.component == component && Bound(step.capability, step.provider) in capabilities
  {
    var n := |capabilities| - 1;
    if step in BindSteps(component, capabilities[..n]) {
      BindStepsAreBound(component, capabilities[..n], step);
    }
  }

  lemma {:induction false} StepsHaveOrigin(resolved: seq<ResolvedComponent>, byId: map<string, Component>, contracts: seq<ApiContract>, step: PlanStep) returns (i: nat)
    requires step in StepsOfAll(resolved, byId, contracts) && forall id | id in byId :: byId[id].id == id
    ensures i < |resolved| && IsStepOf(step, resolved[i], byId, contracts)
  {
    hide BindSteps, ProvidedBy;
    var n := |resolved| - 1;
    if step in StepsOfAll(resolved[..n], byId, contracts) {
      i := StepsHaveOrigin(resolved[..n], byId, contracts, step);
    } else {
      i := n;
      if step in BindSteps(resolved[n].id, resolved[n].capabilities) {
        BindStepsAreBound(resolved[n].id, resolved[n].capabilities, step);
      }
    }
  }

  /** The component a step of the plan is about. */
  lemma StepHasComponent(given: Given, ir: SystemIR, catalog: ExtensionCatalog, contracts: seq<ApiContract>, step: PlanStep) returns (i: nat)
    requires UniqueIds(ir.components)
    requires step in PlanOf(given, ir, ResolveAll(ir.components, catalog), contracts).steps
    ensures i < |ir.components| && |ResolveAll(ir.components, catalog).components| == |ir.components|
    ensures ResolveAll(ir.components, catalog).components[i].id == ir.components[i].id
    ensures IsStepOf(step, ResolveAll(ir.components, catalog).components[i], map[ir.components[i].id := ir.components[i]], contracts)
  {
    hide StepsOfAll, ResolveAll, ById, IsBinding, IsServed, IsRealized, RealizeStep;
    var byId := ById(ir.components);
    AllAreResolved(ir.components, catalog);
    i := StepsHaveOrigin(ResolveAll(ir.components, catalog).components, byId, contracts, step);
    ResolutionIsExact(ir.components, catalog, i);
    FindById(ir.components, i);
  }

  /**
   * Every step that realizes a component names that component, its ownership, environments
   * and the contracts it provides, and runs on the first of its preferences that the catalog
   * serves, by an adapter that serves its kind there.
   */
  lemma RealizeStepsAreIntended(given: Given, ir: SystemIR, catalog: ExtensionCatalog, contracts: seq<ApiContract>, step: PlanStep)
    requires UniqueIds(ir.components)
    requires step in PlanOf(given, ir, ResolveAll(ir.components, catalog), contracts).steps && step.Realize?
    ensures exists c :: c in ir.components && Carries(step, c, contracts) && IsRuntimeOf(c, catalog, step.runtime) &&
              exists a :: a in catalog.runtimeAdapters && a.runtime == step.runtime && c.kind in a.componentKinds && step.adapter == ExtensionRef(a.id, a.version)
  {
    hide PlanOf, ResolveAll, IsBinding, IsServed, IsRuntimeOf, UniqueIds;
    var i := StepHasComponent(given, ir, catalog, contracts, step);
    var c, r := ir.components[i], ResolveAll(ir.components, catalog).components[i];
    RealizeCarries(c, r, contracts);
    ResolutionIsExact(ir.components, catalog, i);
    assert c in ir.components && IsRealized(c, catalog, r);
  }

  /**
   * Every step that binds a capability is for a component that asks for it, and names a
   * provider of the catalog that offers it on the runtime of that component.
   */
  lemma BindStepsAreIntended(given: Given, ir: SystemIR, catalog: ExtensionCatalog, contracts: seq<ApiContract>, step: PlanStep)
    requires UniqueIds(ir.components)
    requires step in PlanOf(given, ir, ResolveAll(ir.components, catalog), contracts).steps && step.BindCapability?
    ensures exists c, runtime :: c in ir.components && c.id == step.component && IsRuntimeOf(c, catalog, runtime) &&
              (exists k :: 0 <= k < |c.capabilities| && c.capabilities[k].id == step.capability) &&
              exists p :: p in catalog.capabilityProviders && p.capability == step.capability && runtime in p.runtimes && step.provider == ExtensionRef(p.id, p.version)
  {
    hide PlanOf, ResolveAll, IsServed, IsRuntimeOf, UniqueIds;
    var i := StepHasComponent(given, ir, catalog, contracts, step);
    var c, r := ir.components[i], ResolveAll(ir.components, catalog).components[i];
    ResolutionIsExact(ir.components, catalog, i);
    var k :| 0 <= k < |r.capabilities| && r.capabilities[k] == Bound(step.capability, step.provider);
    assert IsBinding(r.capabilities[k], c.capabilities[k].id, r.runtime, catalog);
    assert c in ir.components && c.id == step.component && IsRuntimeOf(c, catalog, r.runtime);
  }

  lemma {:induction false} NoKeptOfContracts(contracts: seq<ApiContract>, ir: SystemIR, work: OwnerWork)
    requires work in ContractsWork(contracts, ir)
    ensures !work.KeepComponent?
  {
    hide TeamOf, EnforcedBy;
    var n := |contracts| - 1;
    if work in ContractsWork(contracts[..n], ir) {
      NoKeptOfContracts(contracts[..n], ir, work);
    }
  }

  /** The teams keep exactly the components that are not compiler-owned, each under its own team. */
  lemma KeptIsExact(given: Given, ir: SystemIR, resolved: ResolvedSystem, contracts: seq<ApiContract>, id: string, ownership: string, team: string)
    ensures KeepComponent(id, ownership, team) in PlanOf(given, ir, resolved, contracts).ownerWork <==>
            ownership != "COMPILER_OWNED" && exists c :: c in ir.components && c.id == id && c.ownershipClass == ownership && c.team == team
  {
    hide ContractsWork, StepsOfAll, Obligations;
    var work := KeepComponent(id, ownership, team);
    if work in ContractsWork(contracts, ir) {
      NoKeptOfContracts(contracts, ir, work);
    }
    var kept := Filter((c: Component) => c.ownershipClass != "COMPILER_OWNED", ir.components);
    var all := ComponentWork(ir.components);
    if c :| c in ir.components && c.id == id && c.ownershipClass == ownership && c.team == team && ownership != "COMPILER_OWNED" {
      assert c in kept;
      var k :| 0 <= k < |kept| && kept[k] == c;
      assert all[k] == work;
    }
    if work in all {
      var k :| 0 <= k < |all| && all[k] == work;
      assert kept[k] in kept && work == KeepComponent(kept[k].id, kept[k].ownershipClass, kept[k].team);
    }
  }
}
