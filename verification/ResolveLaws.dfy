/** What the resolution says, on the descriptors of the catalog alone. */
module ResolveLaws {
  import opened Wrappers
  import opened Catalog
  import opened Resolve

  /** Some adapter of the catalog realizes components of the kind on the runtime. */
  ghost predicate IsServed(catalog: ExtensionCatalog, kind: string, runtime: string) {
    exists a :: a in catalog.runtimeAdapters && a.runtime == runtime && kind in a.componentKinds
  }

  /** Some provider of the catalog offers the capability on the runtime. */
  ghost predicate IsOffered(catalog: ExtensionCatalog, capability: string, runtime: string) {
    exists p :: p in catalog.capabilityProviders && p.capability == capability && runtime in p.runtimes
  }

  /** The runtime is the first one preferred that any adapter serves. */
  ghost predicate IsFirstServed(preferences: seq<string>, kind: string, catalog: ExtensionCatalog, runtime: string) {
    exists k :: 0 <= k < |preferences| && preferences[k] == runtime && IsServed(catalog, kind, runtime) &&
                forall j | 0 <= j < k :: !IsServed(catalog, kind, preferences[j])
  }

  ghost predicate IsRuntimeOf(c: Component, catalog: ExtensionCatalog, runtime: string) {
    IsFirstServed(c.preferences, c.kind, catalog, runtime)
  }

  /** The component is resolved on a runtime by an adapter of the catalog that serves its kind there. */
  ghost predicate IsRealized(c: Component, catalog: ExtensionCatalog, r: ResolvedComponent) {
    && r.Resolved?
    && IsRuntimeOf(c, catalog, r.runtime)
    && exists a :: a in catalog.runtimeAdapters && a.runtime == r.runtime && c.kind in a.componentKinds && r.adapter == ExtensionRef(a.id, a.version)
  }

  /** Bound to a provider of the catalog that offers the capability, or unbound because none does. */
  ghost predicate IsBinding(b: ResolvedCapability, capability: string, runtime: string, catalog: ExtensionCatalog) {
    b.id == capability &&
    match b
    case Bound(_, provider) =>
      exists p :: p in catalog.capabilityProviders && p.capability == capability && runtime in p.runtimes && provider == ExtensionRef(p.id, p.version)
    case Unbound(_) => !IsOffered(catalog, capability, runtime)
  }

  lemma FirstServedLater(preferences: seq<string>, kind: string, catalog: ExtensionCatalog, runtime: string)
    requires |preferences| > 0 && !IsServed(catalog, kind, preferences[0])
    requires IsFirstServed(preferences[1..], kind, catalog, runtime)
    ensures IsFirstServed(preferences, kind, catalog, runtime)
  {
    hide IsServed;
    var tail := preferences[1..];
    var k :| 0 <= k < |tail| && tail[k] == runtime && forall j | 0 <= j < k :: !IsServed(catalog, kind, tail[j]);
    assert preferences[k + 1] == runtime;
    assert forall j | 0 < j < k + 1 :: preferences[j] == tail[j - 1];
  }

  lemma FoundIsServed(kind: string, runtime: string, catalog: ExtensionCatalog)
    ensures FindAdapter(catalog.runtimeAdapters, kind, runtime).Some? <==> IsServed(catalog, kind, runtime)
  {}

  lemma {:induction false} ChooseIsExact(preferences: seq<string>, kind: string, catalog: ExtensionCatalog)
    ensures Choose(preferences, kind, catalog).None? <==> forall p | p in preferences :: !IsServed(catalog, kind, p)
    ensures Choose(preferences, kind, catalog).Some? ==> IsFirstServed(preferences, kind, catalog, Choose(preferences, kind, catalog).value.runtime)
  {
    hide IsServed, IsFirstServed;
    if |preferences| > 0 {
      FoundIsServed(kind, preferences[0], catalog);
      ChooseIsExact(preferences[1..], kind, catalog);
      if FindAdapter(catalog.runtimeAdapters, kind, preferences[0]).None? {
        if Choose(preferences, kind, catalog).Some? {
          FirstServedLater(preferences, kind, catalog, Choose(preferences, kind, catalog).value.runtime);
        }
        assert preferences == [preferences[0]] + preferences[1..];
      } else {
        FirstIsServed(preferences, kind, catalog);
      }
    }
  }

  lemma FirstIsServed(preferences: seq<string>, kind: string, catalog: ExtensionCatalog)
    requires |preferences| > 0 && IsServed(catalog, kind, preferences[0])
    ensures IsFirstServed(preferences, kind, catalog, preferences[0])
  {
    hide IsServed;
  }

  lemma ChosenIsOfCatalog(preferences: seq<string>, kind: string, catalog: ExtensionCatalog)
    ensures var r := Choose(preferences, kind, catalog);
            r.Some? ==> r.value.adapter in catalog.runtimeAdapters && r.value.adapter.runtime == r.value.runtime && kind in r.value.adapter.componentKinds
  {
    hide Choose, FindAdapter;
  }

  lemma BindIsExact(capability: string, runtime: string, catalog: ExtensionCatalog)
    ensures IsBinding(Bind(capability, runtime, catalog), capability, runtime, catalog)
  {}

  lemma {:induction false} AllAreResolved(components: seq<Component>, catalog: ExtensionCatalog)
    ensures |ResolveAll(components, catalog).components| == |components|
    ensures forall i | 0 <= i < |components| :: ResolveAll(components, catalog).components[i] == ResolveComponent(components[i], catalog)
  {
    hide ResolveComponent, UnsupportedOf;
    if |components| > 0 {
      AllAreResolved(components[..|components| - 1], catalog);
    }
  }

  /**
   * A component is resolved exactly when the catalog serves its kind on one of its
   * preferences, and then on the first of these; each capability it asks for is bound to a
   * provider that offers it on that runtime, exactly when there is one.
   */
  lemma ResolutionIsExact(components: seq<Component>, catalog: ExtensionCatalog, i: nat)
    requires i < |components|
    ensures |ResolveAll(components, catalog).components| == |components|
    ensures var c, r := components[i], ResolveAll(components, catalog).components[i];
            r.id == c.id && r.kind == c.kind &&
            (r.Unsupported? <==> forall p | p in c.preferences :: !IsServed(catalog, c.kind, p)) &&
            (r.Resolved? ==> IsRealized(c, catalog, r) && |r.capabilities| == |c.capabilities| &&
                             forall k | 0 <= k < |c.capabilities| :: IsBinding(r.capabilities[k], c.capabilities[k].id, r.runtime, catalog))
  {
    hide Choose, Bind, IsBinding, IsFirstServed;
    AllAreResolved(components, catalog);
    var c, r := components[i], ResolveAll(components, catalog).components[i];
    ChooseIsExact(c.preferences, c.kind, catalog);
    ChosenIsOfCatalog(c.preferences, c.kind, catalog);
    if r.Resolved? {
      forall k | 0 <= k < |c.capabilities|
        ensures IsBinding(r.capabilities[k], c.capabilities[k].id, r.runtime, catalog)
      {
        BindIsExact(c.capabilities[k].id, r.runtime, catalog);
      }
    }
  }

  /** Why an item is left out of the plan. */
  ghost predicate IsLeftOut(item: UnsupportedItem, c: Component, catalog: ExtensionCatalog) {
    item.component == c.id &&
    match item.code
    case NoRuntimePreference => item.capability.None? && c.preferences == []
    case NoAdapter => item.capability.None? && c.preferences != [] && forall p | p in c.preferences :: !IsServed(catalog, c.kind, p)
    case NoCapabilityProvider =>
      item.capability.Some? && (exists k :: 0 <= k < |c.capabilities| && c.capabilities[k].id == item.capability.value) &&
      exists runtime :: IsRuntimeOf(c, catalog, runtime) && !IsOffered(catalog, item.capability.value, runtime)
  }

  lemma {:induction false} UnboundAreListed(component: string, capabilities: seq<ResolvedCapability>, item: UnsupportedItem)
    ensures item in UnboundItems(component, capabilities) <==>
            item.component == component && item.code == NoCapabilityProvider && item.capability.Some? &&
            exists k :: 0 <= k < |capabilities| && capabilities[k] == Unbound(item.capability.value)
  {
    if |capabilities| > 0 {
      var n := |capabilities| - 1;
      UnboundAreListed(component, capabilities[..n], item);
      if capabilities[n].Unbound? && item == UnsupportedItem(component, Some(capabilities[n].id), NoCapabilityProvider) {
        assert capabilities[n] == Unbound(item.capability.value);
      }
    }
  }

  lemma RuntimeIsUnique(c: Component, catalog: ExtensionCatalog, a: string, b: string)
    requires IsRuntimeOf(c, catalog, a) && IsRuntimeOf(c, catalog, b)
    ensures a == b
  {}

  lemma ComponentIsListed(c: Component, catalog: ExtensionCatalog, item: UnsupportedItem)
    ensures item in UnsupportedOf(c, ResolveComponent(c, catalog)) <==> IsLeftOut(item, c, catalog)
  {
    hide Choose, Bind, IsServed, IsOffered, UnboundItems, IsFirstServed;
    ChooseIsExact(c.preferences, c.kind, catalog);
    ChosenIsOfCatalog(c.preferences, c.kind, catalog);
    var r := ResolveComponent(c, catalog);
    if r.Resolved? {
      UnboundAreListed(c.id, r.capabilities, item);
      forall runtime | IsRuntimeOf(c, catalog, runtime) ensures runtime == r.runtime { RuntimeIsUnique(c, catalog, runtime, r.runtime); }
      forall k | 0 <= k < |r.capabilities|
        ensures r.capabilities[k].id == c.capabilities[k].id && (r.capabilities[k].Unbound? <==> !IsOffered(catalog, c.capabilities[k].id, r.runtime))
      {
        BoundIffOffered(c.capabilities[k].id, r.runtime, catalog);
      }
    } else {
      forall runtime ensures !IsRuntimeOf(c, catalog, runtime) { NoRuntime(c, catalog, runtime); }
    }
    ServedHasPreference(c, catalog);
  }

  lemma BoundIffOffered(capability: string, runtime: string, catalog: ExtensionCatalog)
    ensures Bind(capability, runtime, catalog).id == capability
    ensures Bind(capability, runtime, catalog).Bound? <==> IsOffered(catalog, capability, runtime)
  {}

  lemma NoRuntime(c: Component, catalog: ExtensionCatalog, runtime: string)
    requires forall p | p in c.preferences :: !IsServed(catalog, c.kind, p)
    ensures !IsRuntimeOf(c, catalog, runtime)
  {}

  lemma ServedHasPreference(c: Component, catalog: ExtensionCatalog)
    ensures (exists runtime :: IsRuntimeOf(c, catalog, runtime)) ==> exists p :: p in c.preferences && IsServed(catalog, c.kind, p)
  {}

  /** The unsupported items are exactly the components and capabilities left out, each with its reason. */
  lemma {:induction false} UnsupportedIsExact(components: seq<Component>, catalog: ExtensionCatalog, item: UnsupportedItem)
    ensures item in ResolveAll(components, catalog).unsupported <==> exists c :: c in components && IsLeftOut(item, c, catalog)
  {
    hide ResolveComponent, UnsupportedOf, IsLeftOut;
    if |components| > 0 {
      var n := |components| - 1;
      UnsupportedIsExact(components[..n], catalog, item);
      ComponentIsListed(components[n], catalog, item);
      assert components == components[..n] + [components[n]];
    }
  }
}
