/** Resolution of the components of the IR against a catalog. */
module Resolve {
  import opened Wrappers
  import opened Catalog
  import Realization

  /** A component of the System IR. */
  type Component = Realization.IRComponent

  /** The capabilities a component asks for, by id. */
  function Asks(c: Component): (ids: seq<string>)
    ensures |ids| == |c.capabilities| && forall i | 0 <= i < |ids| :: ids[i] == c.capabilities[i].id
  {
    seq(|c.capabilities|, i requires 0 <= i < |c.capabilities| => c.capabilities[i].id)
  }

  datatype ExtensionRef = ExtensionRef(id: string, version: string)

  datatype ResolvedCapability = Bound(id: string, provider: ExtensionRef) | Unbound(id: string)

  datatype ResolvedComponent =
    | Resolved(id: string, kind: string, runtime: string, adapter: ExtensionRef, capabilities: seq<ResolvedCapability>)
    | Unsupported(id: string, kind: string)

  datatype UnsupportedCode = NoRuntimePreference | NoAdapter | NoCapabilityProvider

  datatype UnsupportedItem = UnsupportedItem(component: string, capability: Option<string>, code: UnsupportedCode)

  /** The first preference with an adapter for the kind, with the preferences skipped before it. */
  datatype Choice = Choice(skipped: seq<string>, runtime: string, adapter: RuntimeAdapter)

  function Choose(preferences: seq<string>, kind: string, catalog: ExtensionCatalog): (r: Option<Choice>)
    ensures r.Some? ==>
              r.value.skipped + [r.value.runtime] <= preferences &&
              FindAdapter(catalog.runtimeAdapters, kind, r.value.runtime) == Some(r.value.adapter) &&
              forall p | p in r.value.skipped :: FindAdapter(catalog.runtimeAdapters, kind, p).None?
    ensures r.None? ==> forall p | p in preferences :: FindAdapter(catalog.runtimeAdapters, kind, p).None?
  {
    if |preferences| == 0 then None else
    match FindAdapter(catalog.runtimeAdapters, kind, preferences[0])
    case Some(a) => Some(Choice([], preferences[0], a))
    case None =>
      match Choose(preferences[1..], kind, catalog)
      case None => None
      case Some(c) => Some(c.(skipped := [preferences[0]] + c.skipped))
  }

  function Bind(capability: string, runtime: string, catalog: ExtensionCatalog): ResolvedCapability {
    match FindProvider(catalog.capabilityProviders, capability, runtime)
    case Some(p) => Bound(capability, ExtensionRef(p.id, p.version))
    case None => Unbound(capability)
  }

  function BindAll(capabilities: seq<string>, runtime: string, catalog: ExtensionCatalog): (all: seq<ResolvedCapability>)
    ensures |all| == |capabilities| && forall i | 0 <= i < |all| :: all[i] == Bind(capabilities[i], runtime, catalog)
  {
    seq(|capabilities|, i requires 0 <= i < |capabilities| => Bind(capabilities[i], runtime, catalog))
  }

  /** The capabilities left without a provider, in order. */
  function UnboundItems(component: string, capabilities: seq<ResolvedCapability>): seq<UnsupportedItem> {
    if |capabilities| == 0 then [] else
    var n := |capabilities| - 1;
    UnboundItems(component, capabilities[..n]) +
    if capabilities[n].Unbound? then [UnsupportedItem(component, Some(capabilities[n].id), NoCapabilityProvider)] else []
  }

  function ResolveComponent(c: Component, catalog: ExtensionCatalog): ResolvedComponent {
    match Choose(c.preferences, c.kind, catalog)
    case None => Unsupported(c.id, c.kind)
    case Some(choice) =>
      Resolved(c.id, c.kind, choice.runtime, ExtensionRef(choice.adapter.id, choice.adapter.version), BindAll(Asks(c), choice.runtime, catalog))
  }

  function UnsupportedOf(c: Component, r: ResolvedComponent): seq<UnsupportedItem> {
    match r
    case Unsupported(_, _) => [UnsupportedItem(c.id, None, if |c.preferences| == 0 then NoRuntimePreference else NoAdapter)]
    case Resolved(_, _, _, _, capabilities) => UnboundItems(c.id, capabilities)
  }

  datatype ResolvedSystem = ResolvedSystem(components: seq<ResolvedComponent>, unsupported: seq<UnsupportedItem>)

  function ResolveAll(components: seq<Component>, catalog: ExtensionCatalog): ResolvedSystem {
    if |components| == 0 then ResolvedSystem([], []) else
    var n := |components| - 1;
    var front, r := ResolveAll(components[..n], catalog), ResolveComponent(components[n], catalog);
    ResolvedSystem(front.components + [r], front.unsupported + UnsupportedOf(components[n], r))
  }

  /** Binds the capabilities of a resolved component, listing those left out. */
  method BindCapabilities(c: Component, runtime: string, catalog: ExtensionCatalog) returns (all: seq<ResolvedCapability>, unsupported: seq<UnsupportedItem>)
    ensures all == BindAll(Asks(c), runtime, catalog)
    ensures unsupported == UnboundItems(c.id, all)
  {
    all, unsupported := [], [];
    for i := 0 to |Asks(c)|
      invariant all == BindAll(Asks(c), runtime, catalog)[..i]
      invariant unsupported == UnboundItems(c.id, all)
    {
      var r := Bind(Asks(c)[i], runtime, catalog);
      assert (all + [r])[..|all|] == all;
      all := all + [r];
      if r.Unbound? {
        unsupported := unsupported + [UnsupportedItem(c.id, Some(r.id), NoCapabilityProvider)];
      }
    }
  }

  /** Preferences without an adapter are skipped. */
  lemma {:induction false} ChooseSkips(preferences: seq<string>, kind: string, catalog: ExtensionCatalog, i: nat)
    requires i <= |preferences| && forall k | 0 <= k < i :: FindAdapter(catalog.runtimeAdapters, kind, preferences[k]).None?
    ensures i == |preferences| ==> Choose(preferences, kind, catalog) == None
    ensures i < |preferences| && FindAdapter(catalog.runtimeAdapters, kind, preferences[i]).Some? ==>
              Choose(preferences, kind, catalog) ==
              Some(Choice(preferences[..i], preferences[i], FindAdapter(catalog.runtimeAdapters, kind, preferences[i]).value))
  {
    if i > 0 {
      ChooseSkips(preferences[1..], kind, catalog, i - 1);
      assert [preferences[0]] + preferences[1..][..i - 1] == preferences[..i];
    }
  }

  /** Tries the preferences in their declared order. */
  method ResolveOne(c: Component, catalog: ExtensionCatalog) returns (r: ResolvedComponent, unsupported: seq<UnsupportedItem>, skipped: seq<string>)
    ensures r == ResolveComponent(c, catalog) && unsupported == UnsupportedOf(c, r)
    ensures r.Resolved? ==> skipped == Choose(c.preferences, c.kind, catalog).value.skipped
  {
    hide BindAll;
    skipped := [];
    if |c.preferences| == 0 {
      return Unsupported(c.id, c.kind), [UnsupportedItem(c.id, None, NoRuntimePreference)], [];
    }
    for i := 0 to |c.preferences|
      invariant skipped == c.preferences[..i]
      invariant forall k | 0 <= k < i :: FindAdapter(catalog.runtimeAdapters, c.kind, c.preferences[k]).None?
    {
      var runtime := c.preferences[i];
      var adapter := FindAdapter(catalog.runtimeAdapters, c.kind, runtime);
      if adapter.None? {
        skipped := skipped + [runtime];
        continue;
      }
      var capabilities: seq<ResolvedCapability>;
      capabilities, unsupported := BindCapabilities(c, runtime, catalog);
      r := Resolved(c.id, c.kind, runtime, ExtensionRef(adapter.value.id, adapter.value.version), capabilities);
      ChooseSkips(c.preferences, c.kind, catalog, i);
      return;
    }
    ChooseSkips(c.preferences, c.kind, catalog, |c.preferences|);
    r, unsupported := Unsupported(c.id, c.kind), [UnsupportedItem(c.id, None, NoAdapter)];
  }

  /** Resolves every component. */
  method ResolveSystem(components: seq<Component>, catalog: ExtensionCatalog) returns (resolved: ResolvedSystem)
    ensures resolved == ResolveAll(components, catalog)
  {
    hide ResolveComponent, UnsupportedOf;
    resolved := ResolvedSystem([], []);
    for i := 0 to |components|
      invariant resolved == ResolveAll(components[..i], catalog)
    {
      assert components[..i + 1][..i] == components[..i];
      var r, unsupported, _ := ResolveOne(components[i], catalog);
      resolved := ResolvedSystem(resolved.components + [r], resolved.unsupported + unsupported);
    }
    assert components[..|components|] == components;
  }

  // ---- Nothing is chosen by position in the catalog ----

  lemma {:induction false} ChooseForgetsOrder(preferences: seq<string>, kind: string, a: ExtensionCatalog, b: ExtensionCatalog)
    requires IsUnambiguous(Descriptors(a)) && SameDescriptors(a, b)
    ensures Choose(preferences, kind, a) == Choose(preferences, kind, b)
  {
    hide IsUnambiguous, SameDescriptors;
    if |preferences| > 0 {
      LookupsForgetOrder(a, b, kind, preferences[0]);
      ChooseForgetsOrder(preferences[1..], kind, a, b);
    }
  }

  lemma ComponentForgetsOrder(c: Component, a: ExtensionCatalog, b: ExtensionCatalog)
    requires IsUnambiguous(Descriptors(a)) && SameDescriptors(a, b)
    ensures ResolveComponent(c, a) == ResolveComponent(c, b)
  {
    hide IsUnambiguous, SameDescriptors, Choose;
    ChooseForgetsOrder(c.preferences, c.kind, a, b);
    var choice := Choose(c.preferences, c.kind, a);
    if choice.Some? {
      var x, y := BindAll(Asks(c), choice.value.runtime, a), BindAll(Asks(c), choice.value.runtime, b);
      forall i | 0 <= i < |Asks(c)|
        ensures x[i] == y[i]
      {
        LookupsForgetOrder(a, b, Asks(c)[i], choice.value.runtime);
      }
      assert x == y;
    }
  }

  /** Permuting the descriptors of a validated catalog leaves the resolution unchanged. */
  lemma {:induction false} ResolutionForgetsOrder(components: seq<Component>, a: ExtensionCatalog, b: ExtensionCatalog)
    requires IsUnambiguous(Descriptors(a)) && SameDescriptors(a, b)
    ensures ResolveAll(components, a) == ResolveAll(components, b)
  {
    hide IsUnambiguous, SameDescriptors, ResolveComponent, UnsupportedOf;
    if |components| > 0 {
      ResolutionForgetsOrder(components[..|components| - 1], a, b);
      ComponentForgetsOrder(components[|components| - 1], a, b);
    }
  }
}
