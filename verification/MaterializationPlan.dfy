/** From an execution plan to what the materializer applies: the output of the adapters for every MATERIALIZE step. */
module MaterializationPlan {
  import opened Wrappers
  import opened Lists
  import opened Adapter
  import opened Catalog
  import opened Resolve
  import opened Plan
  import Materializer
  import Realization

  /** A loaded adapter: what it says against a component, and what it would produce for it. */
  datatype LoadedAdapter = LoadedAdapter(version: string, rejections: Component -> seq<string>, output: Component -> seq<Artifact>)

  type Host = map<string, LoadedAdapter>

  datatype Issue =
    | AdapterMissing(component: string)
    | IntentRejected(component: string)
    | ContractViolation(component: string, error: PlanError)

  function FindComponent(components: seq<Component>, id: string): (r: Option<Component>)
    ensures r.Some? ==> r.value in components && r.value.id == id
    ensures r.None? ==> forall c | c in components :: c.id != id
  {
    if |components| == 0 then None else
    if components[0].id == id then Some(components[0]) else FindComponent(components[1..], id)
  }

  predicate IsLoaded(adapter: ExtensionRef, host: Host) {
    adapter.id in host && host[adapter.id].version == adapter.version
  }

  /** The output of an adapter that keeps the adapter protocol. */
  ghost predicate KeepsProtocol(artifacts: seq<Artifact>) {
    DistinctPaths(artifacts) && forall i | 0 <= i < |artifacts| :: IsAcceptable(artifacts[i])
  }

  predicate IsMaterialized(step: PlanStep) {
    step.Realize? && step.action.Materialize?
  }

  /** The adapter of the step is loaded, accepts the component and keeps the protocol. */
  ghost predicate IsPlannable(step: PlanStep, components: seq<Component>, host: Host) {
    IsMaterialized(step) && step.adapter.id in host && host[step.adapter.id].version == step.adapter.version &&
    FindComponent(components, step.component).Some? &&
    var c, adapter := FindComponent(components, step.component).value, host[step.adapter.id];
    adapter.rejections(c) == [] && KeepsProtocol(adapter.output(c))
  }

  /** The step raises an issue. */
  ghost predicate IsRefused(step: PlanStep, components: seq<Component>, host: Host) {
    IsMaterialized(step) &&
    (!(step.adapter.id in host && host[step.adapter.id].version == step.adapter.version) ||
     (FindComponent(components, step.component).Some? && !IsPlannable(step, components, host)))
  }

  /** The steps that are materialized, in order. */
  ghost function PlannableSteps(steps: seq<PlanStep>, components: seq<Component>, host: Host): seq<PlanStep> {
    if |steps| == 0 then [] else
    var n := |steps| - 1;
    PlannableSteps(steps[..n], components, host) + if IsPlannable(steps[n], components, host) then [steps[n]] else []
  }

  /** What is planned for a step is what its adapter produces for its component. */
  ghost predicate IsPlannedFrom(p: Materializer.Planned, step: PlanStep, components: seq<Component>, host: Host) {
    IsPlannable(step, components, host) &&
    var c, adapter := FindComponent(components, step.component).value, host[step.adapter.id];
    p.component == step.component && p.ownershipClass == c.ownershipClass && IsPlanOf(p.plan, c.ownershipClass, adapter.output(c))
  }

  ghost function PlannableNames(steps: seq<PlanStep>, components: seq<Component>, host: Host): seq<string> {
    if |steps| == 0 then [] else
    var n := |steps| - 1;
    PlannableNames(steps[..n], components, host) + if IsPlannable(steps[n], components, host) then [steps[n].component] else []
  }

  function Names(planned: seq<Materializer.Planned>): seq<string> {
    Map((p: Materializer.Planned) => p.component, planned)
  }

  /** One step. */
  method PlanStepOf(step: PlanStep, components: seq<Component>, host: Host) returns (planned: Option<Materializer.Planned>, issue: Option<Issue>)
    requires IsMaterialized(step)
    ensures planned.Some? <==> IsPlannable(step, components, host)
    ensures planned.Some? ==> IsPlannedFrom(planned.value, step, components, host) && Materializer.IsPlanned(planned.value)
    ensures issue.Some? <==> IsRefused(step, components, host)
  {
    hide IsWellFormed, KeepsProtocol, IsPlanOf;
    planned, issue := None, None;
    if !IsLoaded(step.adapter, host) {
      return None, Some(AdapterMissing(step.component));
    }
    var component := FindComponent(components, step.component);
    if component.None? {
      return;
    }
    var adapter := host[step.adapter.id];
    if adapter.rejections(component.value) != [] {
      return None, Some(IntentRejected(step.component));
    }
    var artifacts := adapter.output(component.value);
    var r := PlanArtifacts(component.value.ownershipClass, artifacts);
    assert r.Success? <==> KeepsProtocol(artifacts) by { ProtocolIsAcceptance(artifacts); }
    match r
    case Success(plan) => planned := Some(Materializer.Planned(component.value.id, component.value.ownershipClass, plan));
    case Failure(error) => issue := Some(ContractViolation(step.component, error));
  }

  lemma ProtocolIsAcceptance(artifacts: seq<Artifact>)
    ensures KeepsProtocol(artifacts) <==> DistinctPaths(artifacts) && forall i | 0 <= i < |artifacts| :: IsAcceptable(artifacts[i])
  {}

  /** What the adapters would produce for every MATERIALIZE step, in order; everything planned can be applied. */
  method PlanMaterialization(steps: seq<PlanStep>, components: seq<Component>, host: Host) returns (planned: seq<Materializer.Planned>, found: seq<Issue>)
    ensures forall p | p in planned :: Materializer.IsPlanned(p)
    ensures |planned| == |PlannableSteps(steps, components, host)|
    ensures forall k | 0 <= k < |planned| :: IsPlannedFrom(planned[k], PlannableSteps(steps, components, host)[k], components, host)
    ensures Names(planned) == PlannableNames(steps, components, host)
    ensures found == [] <==> forall i | 0 <= i < |steps| :: !IsRefused(steps[i], components, host)
  {
    hide IsPlannable, IsRefused, Materializer.IsPlanned, IsPlannedFrom;
    planned, found := [], [];
    for i := 0 to |steps|
      invariant forall p | p in planned :: Materializer.IsPlanned(p)
      invariant |planned| == |PlannableSteps(steps[..i], components, host)|
      invariant forall k | 0 <= k < |planned| :: IsPlannedFrom(planned[k], PlannableSteps(steps[..i], components, host)[k], components, host)
      invariant Names(planned) == PlannableNames(steps[..i], components, host)
      invariant found == [] <==> forall k | 0 <= k < i :: !IsRefused(steps[k], components, host)
    {
      assert steps[..i + 1][..i] == steps[..i];
      if !IsMaterialized(steps[i]) {
        NotMaterialized(steps[i], components, host);
        continue;
      }
      var one, issue := PlanStepOf(steps[i], components, host);
      if issue.Some? {
        found := found + [issue.value];
      }
      if one.Some? {
        assert one.value.component == steps[i].component by { PlannedComponent(one.value, steps[i], components, host); }
        planned := planned + [one.value];
      }
    }
    assert steps[..|steps|] == steps;
  }

  lemma PlannedComponent(p: Materializer.Planned, step: PlanStep, components: seq<Component>, host: Host)
    requires IsPlannedFrom(p, step, components, host)
    ensures p.component == step.component
  {
    hide IsPlanOf;
  }

  lemma NotMaterialized(step: PlanStep, components: seq<Component>, host: Host)
    requires !IsMaterialized(step)
    ensures !IsPlannable(step, components, host) && !IsRefused(step, components, host)
  {}

  lemma {:induction false} PlannableIsRealized(steps: seq<PlanStep>, components: seq<Component>, host: Host, id: string)
    requires id in PlannableNames(steps, components, host)
    ensures Count(steps, RealizesComponent(id)) >= 1
  {
    var n := |steps| - 1;
    if id in PlannableNames(steps[..n], components, host) {
      PlannableIsRealized(steps[..n], components, host, id);
    }
  }

  lemma {:induction false} RealizedOnce(steps: seq<PlanStep>, components: seq<Component>, host: Host)
    requires forall id :: Count(steps, RealizesComponent(id)) <= 1
    ensures NoRepeat(PlannableNames(steps, components, host))
  {
    hide IsPlannable;
    if |steps| > 0 {
      var n := |steps| - 1;
      forall id ensures Count(steps[..n], RealizesComponent(id)) <= Count(steps, RealizesComponent(id)) {}
      RealizedOnce(steps[..n], components, host);
      if IsPlannable(steps[n], components, host) {
        var id := steps[n].component;
        assert steps[n].Realize? by { PlannableRealizes(steps[n], components, host); }
        assert Count(steps, RealizesComponent(id)) == Count(steps[..n], RealizesComponent(id)) + 1;
        if id in PlannableNames(steps[..n], components, host) {
          PlannableIsRealized(steps[..n], components, host, id);
        }
        NoRepeatStep(PlannableNames(steps[..n], components, host), id);
      }
    }
  }

  lemma PlannableRealizes(step: PlanStep, components: seq<Component>, host: Host)
    requires IsPlannable(step, components, host)
    ensures step.Realize?
  {}

  /** The plan of a system materializes no component twice. */
  lemma PlannedOnce(given: Given, ir: Realization.SystemIR, contracts: seq<ApiContract>, catalog: ExtensionCatalog, host: Host)
    requires UniqueIds(ir.components)
    ensures NoRepeat(PlannableNames(PlanOf(given, ir, ResolveAll(ir.components, catalog), contracts).steps, ir.components, host))
  {
    hide PlannableNames, StepsOfAll, ResolveAll, Count;
    var steps := PlanOf(given, ir, ResolveAll(ir.components, catalog), contracts).steps;
    forall id
      ensures Count(steps, RealizesComponent(id)) <= 1
    {
      SystemIsConserved(ir.components, ById(ir.components), contracts, catalog, id, "");
      if i :| 0 <= i < |ir.components| && ir.components[i].id == id {
        DeclaredOnce(ir.components, catalog, i, "");
      } else {
        NotDeclared(ir.components, catalog, id, "");
      }
    }
    RealizedOnce(steps, ir.components, host);
  }
}
