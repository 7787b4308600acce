/** What the System IR owes to the order a definition is written in. */
module SystemOrder {
  import opened Wrappers
  import opened Text
  import opened Sorting
  import opened Lists
  import opened DomainContracts
  import opened Refs
  import opened Realization

  // ---- The same definition, written in another order ----

  /** The edges name the same targets, interactions and operations. */
  ghost predicate AlignedEdges(a: seq<Consumes>, b: seq<Consumes>) {
    |a| == |b| && forall i | 0 <= i < |a| ::
      a[i].component == b[i].component && a[i].interaction == b[i].interaction && SetOf(a[i].operations) == SetOf(b[i].operations)
  }

  ghost predicate SameEdges(a: seq<Consumes>, b: seq<Consumes>) {
    exists m :: AlignedEdges(a, m) && multiset(m) == multiset(b)
  }

  predicate SameEnvironments(a: Option<seq<string>>, b: Option<seq<string>>) {
    if a.Some? then b.Some? && SetOf(a.value) == SetOf(b.value) else b.None?
  }

  /** The two components hold the same lists, each in an order of its own. */
  ghost predicate SameLists(a: Component, b: Component) {
    && multiset(a.constraints) == multiset(b.constraints)
    && multiset(a.capabilities) == multiset(b.capabilities) && multiset(a.data) == multiset(b.data)
    && SetOf(a.realizes) == SetOf(b.realizes) && SetOf(a.publishes) == SetOf(b.publishes) && SetOf(a.subscribes) == SetOf(b.subscribes)
    && SetOf(a.integrations) == SetOf(b.integrations) && SetOf(a.requirements) == SetOf(b.requirements) && SetOf(a.decisions) == SetOf(b.decisions)
    && SameEnvironments(a.environments, b.environments)
  }

  /** Every list of the component may be written in another order but its runtime preferences, whose order is intent. */
  ghost predicate SameComponent(a: Component, b: Component) {
    && b == a.(constraints := b.constraints, capabilities := b.capabilities, data := b.data, realizes := b.realizes, publishes := b.publishes,
               subscribes := b.subscribes, consumes := b.consumes, integrations := b.integrations, environments := b.environments,
               requirements := b.requirements, decisions := b.decisions)
    && SameLists(a, b) && SameEdges(a.consumes, b.consumes)
  }

  ghost predicate AlignedComponents(a: seq<Component>, b: seq<Component>) {
    |a| == |b| && forall i | 0 <= i < |a| :: SameComponent(a[i], b[i])
  }

  /** The environments of the system keep their order, which the IR carries. */
  ghost predicate SameDefinition(a: Definition, b: Definition) {
    && a.system == b.system && a.ref == b.ref && a.environments == b.environments
    && multiset(a.pins) == multiset(b.pins) && multiset(a.integrations) == multiset(b.integrations)
    && exists m :: AlignedComponents(a.components, m) && multiset(m) == multiset(b.components)
  }

  ghost predicate ForgetsOrder(d: Definition, contracts: seq<DomainContract>) {
    forall b | SameDefinition(d, b) :: BuildSystemIR(b, contracts) == BuildSystemIR(d, contracts)
  }

  // ---- When the order is forgotten ----

  /** The pins of the contract that a text names are the same. */
  ghost predicate PinsAgree(pins: seq<Pin>, text: string) {
    ParseItem(text).Some? ==> forall p, q | p in pins && q in pins && p.id == ParseItem(text).value.contract && q.id == p.id :: p == q
  }

  /** The items a component names. */
  predicate Names(c: Component, text: string) {
    text in c.realizes || text in c.publishes || text in c.subscribes || exists i :: 0 <= i < |c.consumes| && text in c.consumes[i].operations
  }

  /**
   * What ties is the same: edges to one target under one interaction, capabilities of one id,
   * accesses to one store; constraints, which are not sorted, and pins of one contract that
   * an item of the component belongs to.
   */
  ghost predicate IsSettledComponent(pins: seq<Pin>, c: Component) {
    && (forall text | Names(c, text) :: PinsAgree(pins, text))
    && Separates(Interactions(pins, c.consumes), ByTarget)
    && Separates(c.capabilities, ByCapability) && Separates(c.data, ByStore)
    && (forall x, y | x in c.constraints && y in c.constraints :: x == y)
  }

  ghost predicate IsSettled(d: Definition) {
    forall i | 0 <= i < |d.components| :: IsSettledComponent(d.pins, d.components[i])
  }

  /** Distinct ids, which validation asks for. */
  ghost predicate HasDistinctIds(d: Definition) {
    NoRepeat(ComponentIds(d.components)) && NoRepeat(IntegrationIds(d))
  }

  lemma PinIsFound(pins: seq<Pin>, id: string)
    ensures PinOf(pins, id).Some? <==> exists p :: p in pins && p.id == id
  {}

  lemma ResolveForgetsOrder(a: seq<Pin>, b: seq<Pin>, text: string)
    requires multiset(a) == multiset(b) && PinsAgree(a, text)
    ensures ResolveItem(a, text) == ResolveItem(b, text)
  {
    hide ParseItem, FindLast;
    SameElements(a, b);
    var r := ParseItem(text);
    if r.Some? {
      PinIsFound(a, r.value.contract);
      PinIsFound(b, r.value.contract);
    }
  }

  lemma TextsForgetOrder(a: seq<Pin>, b: seq<Pin>, x: seq<string>, y: seq<string>)
    requires multiset(a) == multiset(b) && SetOf(x) == SetOf(y) && forall t | t in x :: PinsAgree(a, t)
    ensures ResolveItems(a, x) == ResolveItems(b, y)
  {
    hide ResolveItem, PinsAgree;
    forall t | t in x { ResolveForgetsOrder(a, b, t); }
    assert forall t :: t in x <==> t in SetOf(x);
    assert forall t :: t in y <==> t in SetOf(y);
    assert (set t | t in x :: ResolveItem(a, t)) == set t | t in y :: ResolveItem(b, t);
  }

  lemma TargetOrder()
    ensures IsOrder(ByTarget)
  {
    hide AtMost;
    TextIsOrder();
    forall x, y | AtMost(x, y) && AtMost(y, x) ensures x == y { AtMostAntisymmetric(x, y); }
  }

  lemma IdOrders()
    ensures IsOrder(ById) && IsOrder(ByCapability) && IsOrder(ByStore) && IsOrder(ByIntegrationId)
  {
    hide AtMost;
    TextIsOrder();
  }

  function EdgeIR(pins: seq<Pin>): Consumes -> IRInteraction {
    (e: Consumes) => IRInteraction(e.component, e.interaction, ResolveItems(pins, e.operations))
  }

  lemma EdgesForgetOrder(a: seq<Pin>, b: seq<Pin>, x: seq<Consumes>, y: seq<Consumes>)
    requires multiset(a) == multiset(b) && SameEdges(x, y) && Separates(Interactions(a, x), ByTarget)
    requires forall i, t | 0 <= i < |x| && t in x[i].operations :: PinsAgree(a, t)
    ensures Sort(Interactions(a, x), ByTarget) == Sort(Interactions(b, y), ByTarget)
  {
    hide Sort, ResolveItems, ByTarget, IsOrder, PinsAgree;
    var m: seq<Consumes> :| AlignedEdges(x, m) && multiset(m) == multiset(y);
    forall i | 0 <= i < |x| { TextsForgetOrder(a, b, x[i].operations, m[i].operations); }
    assert Interactions(a, x) == Map(EdgeIR(b), m);
    assert Interactions(b, y) == Map(EdgeIR(b), y);
    MapPermutes(EdgeIR(b), m, y);
    TargetOrder();
    SortForgetsOrder(Map(EdgeIR(b), m), Map(EdgeIR(b), y), ByTarget);
  }

  lemma {:induction false} FilterAgrees<A(!new)>(p: A -> bool, q: A -> bool, s: seq<A>)
    requires forall x :: p(x) == q(x)
    ensures Filter(p, s) == Filter(q, s)
  {
    if |s| > 0 { FilterAgrees(p, q, s[..|s| - 1]); }
  }

  lemma EnvironmentsForgetOrder(environments: seq<string>, a: Component, b: Component)
    requires SameEnvironments(a.environments, b.environments)
    ensures RunsIn(environments, a) == RunsIn(environments, b)
  {
    if a.environments.Some? {
      forall e ensures e in a.environments.value <==> e in b.environments.value { assert e in SetOf(a.environments.value) <==> e in SetOf(b.environments.value); }
      FilterAgrees((e: string) => e in a.environments.value, (e: string) => e in b.environments.value, environments);
    }
  }

  lemma ConstantForgetsOrder(a: seq<string>, b: seq<string>)
    requires multiset(a) == multiset(b) && forall x, y | x in a && y in a :: x == y
    ensures a == b
  {
    SameElements(a, b);
    assert |multiset(a)| == |a| && |multiset(b)| == |b|;
    forall i | 0 <= i < |a| ensures a[i] == b[i] { assert a[i] in a && b[i] in b; }
  }

  lemma ComponentForgetsOrder(a: seq<Pin>, b: seq<Pin>, environments: seq<string>, x: Component, y: Component)
    requires multiset(a) == multiset(b) && SameComponent(x, y) && IsSettledComponent(a, x)
    ensures NormalizeComponent(a, environments, x) == NormalizeComponent(b, environments, y)
  {
    hide Sort, ResolveItems, SameEdges, SameEnvironments, RunsIn, Interactions, PinsAgree, Separates, IsOrder, ByTarget, ByCapability, ByStore;
    TextsForgetOrder(a, b, x.realizes, y.realizes);
    TextsForgetOrder(a, b, x.publishes, y.publishes);
    TextsForgetOrder(a, b, x.subscribes, y.subscribes);
    EnvironmentsForgetOrder(environments, x, y);
    EdgesForgetOrder(a, b, x.consumes, y.consumes);
    ConstantForgetsOrder(x.constraints, y.constraints);
    IdOrders();
    SortForgetsOrder(x.capabilities, y.capabilities, ByCapability);
    SortForgetsOrder(x.data, y.data, ByStore);
  }

  function NormalizeIn(pins: seq<Pin>, environments: seq<string>): Component -> IRComponent {
    (c: Component) => NormalizeComponent(pins, environments, c)
  }

  lemma ComponentsForgetOrder(a: Definition, b: Definition)
    requires HasDistinctIds(a) && IsSettled(a) && SameDefinition(a, b)
    ensures Sort(NormalizeAll(a.pins, EnvironmentIds(a), a.components), ById) == Sort(NormalizeAll(b.pins, EnvironmentIds(b), b.components), ById)
  {
    hide Sort, NormalizeComponent, SameComponent, ById, IsOrder, IsSettledComponent;
    var m: seq<Component> :| AlignedComponents(a.components, m) && multiset(m) == multiset(b.components);
    var f := NormalizeIn(b.pins, EnvironmentIds(b));
    forall i | 0 <= i < |m| { ComponentForgetsOrder(a.pins, b.pins, EnvironmentIds(a), a.components[i], m[i]); }
    assert NormalizeAll(a.pins, EnvironmentIds(a), a.components) == Map(f, m);
    assert NormalizeAll(b.pins, EnvironmentIds(b), b.components) == Map(f, b.components);
    MapPermutes(f, m, b.components);
    IdOrders();
    NormalizedAreSeparated(a);
    SortForgetsOrder(Map(f, m), Map(f, b.components), ById);
  }

  lemma KeepsId(pins: seq<Pin>, environments: seq<string>, c: Component)
    ensures NormalizeComponent(pins, environments, c).id == c.id
  {
    hide ResolveItems, RunsIn, Sort, SortedKeys;
  }

  lemma NormalizedAreSeparated(d: Definition)
    requires NoRepeat(ComponentIds(d.components))
    ensures Separates(NormalizeAll(d.pins, EnvironmentIds(d), d.components), ById)
  {
    hide NormalizeComponent;
    var all := NormalizeAll(d.pins, EnvironmentIds(d), d.components);
    forall x, y | x in all && y in all && ById(x, y) && ById(y, x)
      ensures x == y
    {
      AtMostAntisymmetric(x.id, y.id);
      var i :| 0 <= i < |all| && all[i] == x;
      var j :| 0 <= j < |all| && all[j] == y;
      KeepsId(d.pins, EnvironmentIds(d), d.components[i]);
      KeepsId(d.pins, EnvironmentIds(d), d.components[j]);
      assert ComponentIds(d.components)[i] == x.id && ComponentIds(d.components)[j] == y.id;
    }
  }

  lemma IntegrationsForgetOrder(a: Definition, b: Definition)
    requires NoRepeat(IntegrationIds(a)) && multiset(a.integrations) == multiset(b.integrations)
    ensures Sort(a.integrations, ByIntegrationId) == Sort(b.integrations, ByIntegrationId)
  {
    hide Sort;
    IdOrders();
    var all := a.integrations;
    forall x, y | x in all && y in all && ByIntegrationId(x, y) && ByIntegrationId(y, x)
      ensures x == y
    {
      AtMostAntisymmetric(x.id, y.id);
      var i :| 0 <= i < |all| && all[i] == x;
      var j :| 0 <= j < |all| && all[j] == y;
      assert IntegrationIds(a)[i] == x.id && IntegrationIds(a)[j] == y.id;
    }
    SortForgetsOrder(a.integrations, b.integrations, ByIntegrationId);
  }

  lemma DomainsForgetOrder(a: seq<Pin>, b: seq<Pin>, contracts: seq<DomainContract>)
    requires multiset(a) == multiset(b)
    ensures PinnedIRs(a, contracts) == PinnedIRs(b, contracts)
  {
    hide Sort, BuildDomainIR;
    SameElements(a, b);
    FilterAgrees((c: DomainContract) => IsPinned(a, c), (c: DomainContract) => IsPinned(b, c), contracts);
  }

  lemma SystemIRForgetsOrder(a: Definition, b: Definition, contracts: seq<DomainContract>)
    requires HasDistinctIds(a) && IsSettled(a) && SameDefinition(a, b)
    ensures BuildSystemIR(a, contracts) == BuildSystemIR(b, contracts)
  {
    hide Sort, NormalizeAll, PinnedIRs, OperationBindings, EventBindings, UnsupportedOf, HasDistinctIds, IsSettled, AlignedComponents;
    ComponentsForgetOrder(a, b);
    DomainsForgetOrder(a.pins, b.pins, contracts);
    assert NoRepeat(IntegrationIds(a)) by { DistinctIntegrations(a); }
    IntegrationsForgetOrder(a, b);
  }

  lemma DistinctIntegrations(d: Definition)
    requires HasDistinctIds(d)
    ensures NoRepeat(IntegrationIds(d))
  {}

  // ---- What ties shows the order ----

  function Without<T>(s: seq<T>, i: nat): seq<T>
    requires i < |s|
  {
    s[..i] + s[i + 1..]
  }

  function First<T>(s: seq<T>, i: nat): seq<T>
    requires i < |s|
  {
    [s[i]] + Without(s, i)
  }

  lemma MovedIsPermuted<T>(s: seq<T>, i: nat)
    requires i < |s|
    ensures multiset(First(s, i)) == multiset(s) && multiset(Without(s, i) + [s[i]]) == multiset(s)
  {
    assert s == s[..i] + [s[i]] + s[i + 1..];
  }

  lemma SameAsItself(c: Component)
    ensures SameComponent(c, c)
  {
    assert AlignedEdges(c.consumes, c.consumes);
  }

  lemma ReplacedIsSame(d: Definition, i: nat, x: Component)
    requires i < |d.components| && SameComponent(d.components[i], x)
    ensures SameDefinition(d, d.(components := d.components[i := x]))
  {
    hide SameComponent;
    var b := d.(components := d.components[i := x]);
    forall k | 0 <= k < |d.components| ensures SameComponent(d.components[k], b.components[k]) {
      if k != i { SameAsItself(d.components[k]); }
    }
    assert AlignedComponents(d.components, b.components);
  }

  lemma NormalizedIsUnique(d: Definition, contracts: seq<DomainContract>, i: nat, n: IRComponent)
    requires i < |d.components| && NoRepeat(ComponentIds(d.components))
    requires n in BuildSystemIR(d, contracts).components && n.id == d.components[i].id
    ensures n == NormalizeComponent(d.pins, EnvironmentIds(d), d.components[i])
  {
    hide NormalizeComponent, BuildSystemIR;
    NormalizedComponents(d, contracts);
    var j :| 0 <= j < |d.components| && n == NormalizeComponent(d.pins, EnvironmentIds(d), d.components[j]);
    assert n.id == d.components[j].id by { KeepsId(d.pins, EnvironmentIds(d), d.components[j]); }
    assert ComponentIds(d.components)[i] == ComponentIds(d.components)[j];
  }

  /** Definitions with one IR normalize a component of both, under one id, alike. */
  lemma SameIRSameComponent(a: Definition, b: Definition, contracts: seq<DomainContract>, i: nat)
    requires BuildSystemIR(a, contracts) == BuildSystemIR(b, contracts) && NoRepeat(ComponentIds(b.components))
    requires i < |a.components| && i < |b.components| && a.components[i].id == b.components[i].id
    ensures NormalizeComponent(a.pins, EnvironmentIds(a), a.components[i]) == NormalizeComponent(b.pins, EnvironmentIds(b), b.components[i])
  {
    hide NormalizeComponent, BuildSystemIR;
    NormalizedComponents(a, contracts);
    var n := NormalizeComponent(a.pins, EnvironmentIds(a), a.components[i]);
    KeepsId(a.pins, EnvironmentIds(a), a.components[i]);
    assert n in BuildSystemIR(a, contracts).components by { assert a.components[i] == a.components[i]; }
    NormalizedIsUnique(b, contracts, i, n);
  }

  /** When the order is forgotten, two ways to write one component are normalized alike. */
  lemma WrittenAlike(d: Definition, contracts: seq<DomainContract>, i: nat, x: Component, y: Component)
    requires ForgetsOrder(d, contracts) && NoRepeat(ComponentIds(d.components)) && i < |d.components|
    requires SameComponent(d.components[i], x) && SameComponent(d.components[i], y)
    ensures NormalizeComponent(d.pins, EnvironmentIds(d), x) == NormalizeComponent(d.pins, EnvironmentIds(d), y)
  {
    hide NormalizeComponent, BuildSystemIR, SameDefinition, SameLists, SameEdges;
    var a, b := d.(components := d.components[i := x]), d.(components := d.components[i := y]);
    ReplacedIsSame(d, i, x);
    ReplacedIsSame(d, i, y);
    assert ComponentIds(b.components) == ComponentIds(d.components);
    SameIRSameComponent(a, b, contracts, i);
  }

  lemma FirstInteraction(pins: seq<Pin>, edges: seq<Consumes>, p: nat)
    requires p < |edges|
    ensures Interactions(pins, First(edges, p)) == [Interactions(pins, edges)[p]] + Interactions(pins, Without(edges, p))
  {
    hide ResolveItems;
  }

  lemma EdgeFirstIsSame(c: Component, p: nat)
    requires p < |c.consumes|
    ensures SameComponent(c, c.(consumes := First(c.consumes, p)))
  {
    hide First;
    MovedIsPermuted(c.consumes, p);
    assert AlignedEdges(c.consumes, c.consumes);
  }

  lemma EdgesTie(d: Definition, contracts: seq<DomainContract>, i: nat)
    requires ForgetsOrder(d, contracts) && NoRepeat(ComponentIds(d.components)) && i < |d.components|
    ensures Separates(Interactions(d.pins, d.components[i].consumes), ByTarget)
  {
    hide Sort, ForgetsOrder, ByTarget, Without, First, RunsIn, ResolveItems, SortedKeys, Interactions, SameComponent;
    var c := d.components[i];
    var all := Interactions(d.pins, c.consumes);
    forall x, y | x in all && y in all && ByTarget(x, y) && ByTarget(y, x)
      ensures x == y
    {
      var p :| 0 <= p < |all| && all[p] == x;
      var q :| 0 <= q < |all| && all[q] == y;
      EdgeFirstIsSame(c, p);
      EdgeFirstIsSame(c, q);
      WrittenAlike(d, contracts, i, c.(consumes := First(c.consumes, p)), c.(consumes := First(c.consumes, q)));
      FirstInteraction(d.pins, c.consumes, p);
      FirstInteraction(d.pins, c.consumes, q);
      FirstOfTies(x, Interactions(d.pins, Without(c.consumes, p)), y, Interactions(d.pins, Without(c.consumes, q)), ByTarget);
    }
  }

  lemma ListFirstIsSame(c: Component)
    ensures forall p | 0 <= p < |c.capabilities| :: SameComponent(c, c.(capabilities := First(c.capabilities, p)))
    ensures forall p | 0 <= p < |c.data| :: SameComponent(c, c.(data := First(c.data, p)))
    ensures forall p | 0 <= p < |c.constraints| :: SameComponent(c, c.(constraints := First(c.constraints, p)))
  {
    hide First;
    assert AlignedEdges(c.consumes, c.consumes);
    forall p | 0 <= p < |c.capabilities| ensures SameComponent(c, c.(capabilities := First(c.capabilities, p))) { MovedIsPermuted(c.capabilities, p); }
    forall p | 0 <= p < |c.data| ensures SameComponent(c, c.(data := First(c.data, p))) { MovedIsPermuted(c.data, p); }
    forall p | 0 <= p < |c.constraints| ensures SameComponent(c, c.(constraints := First(c.constraints, p))) { MovedIsPermuted(c.constraints, p); }
  }

  lemma CapabilitiesTie(d: Definition, contracts: seq<DomainContract>, i: nat)
    requires ForgetsOrder(d, contracts) && NoRepeat(ComponentIds(d.components)) && i < |d.components|
    ensures Separates(d.components[i].capabilities, ByCapability)
  {
    hide Sort, ForgetsOrder, ByCapability, Without, RunsIn, ResolveItems, SortedKeys, Interactions, SameComponent;
    var c := d.components[i];
    var all := c.capabilities;
    ListFirstIsSame(c);
    forall x, y | x in all && y in all && ByCapability(x, y) && ByCapability(y, x)
      ensures x == y
    {
      var p :| 0 <= p < |all| && all[p] == x;
      var q :| 0 <= q < |all| && all[q] == y;
      WrittenAlike(d, contracts, i, c.(capabilities := First(all, p)), c.(capabilities := First(all, q)));
      FirstOfTies(x, Without(all, p), y, Without(all, q), ByCapability);
    }
  }

  lemma AccessesTie(d: Definition, contracts: seq<DomainContract>, i: nat)
    requires ForgetsOrder(d, contracts) && NoRepeat(ComponentIds(d.components)) && i < |d.components|
    ensures Separates(d.components[i].data, ByStore)
  {
    hide Sort, ForgetsOrder, ByStore, Without, RunsIn, ResolveItems, SortedKeys, Interactions, SameComponent;
    var c := d.components[i];
    var all := c.data;
    ListFirstIsSame(c);
    forall x, y | x in all && y in all && ByStore(x, y) && ByStore(y, x)
      ensures x == y
    {
      var p :| 0 <= p < |all| && all[p] == x;
      var q :| 0 <= q < |all| && all[q] == y;
      WrittenAlike(d, contracts, i, c.(data := First(all, p)), c.(data := First(all, q)));
      FirstOfTies(x, Without(all, p), y, Without(all, q), ByStore);
    }
  }

  lemma ConstraintsTie(d: Definition, contracts: seq<DomainContract>, i: nat)
    requires ForgetsOrder(d, contracts) && NoRepeat(ComponentIds(d.components)) && i < |d.components|
    ensures forall x, y | x in d.components[i].constraints && y in d.components[i].constraints :: x == y
  {
    hide Sort, ForgetsOrder, Without, RunsIn, ResolveItems, SortedKeys, Interactions, SameComponent;
    var c := d.components[i];
    var all := c.constraints;
    ListFirstIsSame(c);
    forall x, y | x in all && y in all
      ensures x == y
    {
      var p :| 0 <= p < |all| && all[p] == x;
      var q :| 0 <= q < |all| && all[q] == y;
      WrittenAlike(d, contracts, i, c.(constraints := First(all, p)), c.(constraints := First(all, q)));
      assert First(all, p)[0] == x && First(all, q)[0] == y;
    }
  }

  // ---- Pins ----

  /** What the schema and the kind rules ask of pins and items: plain contract ids. */
  ghost predicate IsWellWritten(d: Definition) {
    && (forall p | p in d.pins :: p.kind == "DomainContract" && '@' !in p.id && '#' !in p.id)
    && (forall i, text | 0 <= i < |d.components| && Names(d.components[i], text) :: IsPlainItem(text))
  }

  predicate IsPlainItem(text: string) {
    ParseItem(text).Some? && '@' !in ParseItem(text).value.contract
  }

  lemma LastPinWins(pins: seq<Pin>, last: Pin, text: string)
    requires ParseItem(text).Some? && ParseItem(text).value.contract == last.id && last.kind == "DomainContract"
    ensures ResolveItem(pins + [last], text) == ItemText(last.id, last.revision, ParseItem(text).value.item)
  {
    hide KeyText, Decimal, ParseItem;
    assert ParseItem(text).value.item != "";
    assert (pins + [last])[|pins + [last]| - 1] == last;
  }

  /** The contract part of a pinned item holds an at sign. */
  lemma PlainIsNotPinned(text: string, id: string, revision: nat, item: string)
    requires IsPlainItem(text) && '#' !in id && item != ""
    ensures text != ItemText(id, revision, item)
  {
    hide ParseItem, Decimal;
    var r := ParseItem(text).value;
    DecimalIsDigits(revision);
    var head := ContractText(id, revision);
    assert head == "DomainContract/" + id + "@" + Decimal(revision) && '#' !in head;
    assert head[|"DomainContract/" + id|] == '@' && '@' in head;
    if text == ItemText(id, revision, item) {
      assert text == r.contract + ['#'] + r.item == head + ['#'] + item;
      FirstPartAgrees(r.contract, head, r.item, item, '#');
    }
  }

  /** A text that resolves to an item of a pin names the contract of the pin, which is pinned at that revision. */
  lemma ResolvedToPin(pins: seq<Pin>, text: string, p: Pin, item: string)
    requires IsPlainItem(text) && item != "" && '@' !in p.id && '#' !in p.id
    requires forall q | q in pins :: q.kind == "DomainContract" && '@' !in q.id
    requires ResolveItem(pins, text) == ItemText(p.id, p.revision, item)
    ensures PinOf(pins, p.id).Some? && PinOf(pins, p.id).value.revision == p.revision
  {
    hide ParseItem, ContractText, FindLast;
    var r := ParseItem(text).value;
    PlainIsNotPinned(text, p.id, p.revision, item);
    var found := PinOf(pins, r.contract);
    assert found.Some?;
    assert r.item != "";
    assert ResolveItem(pins, text) == ItemText(found.value.id, found.value.revision, r.item) by { hide ItemText; PinnedText(pins, text); }
    ItemTextInjective(found.value.id, found.value.revision, r.item, p.id, p.revision, item);
  }

  lemma PinnedText(pins: seq<Pin>, text: string)
    requires ParseItem(text).Some? && PinOf(pins, ParseItem(text).value.contract).Some?
    requires PinOf(pins, ParseItem(text).value.contract).value.kind == "DomainContract"
    ensures var found := PinOf(pins, ParseItem(text).value.contract).value;
            ResolveItem(pins, text) == ItemText(found.id, found.revision, ParseItem(text).value.item)
  {
    hide ParseItem, KeyText, Decimal, FindLast;
    assert ParseItem(text).value.item != "";
  }

  /** What a component names under some pins, another normalization that is equal names too. */
  lemma NamedAlike(a: seq<Pin>, b: seq<Pin>, environments: seq<string>, c: Component, text: string) returns (other: string)
    requires NormalizeComponent(a, environments, c) == NormalizeComponent(b, environments, c) && Names(c, text)
    ensures Names(c, other) && ResolveItem(b, other) == ResolveItem(a, text)
  {
    hide NormalizeComponent, ResolveItem, Implements, Consumed, Subscribes;
    var item := ResolveItem(a, text);
    NormalizedUses(a, environments, c, item);
    NormalizedUses(b, environments, c, item);
    if text in c.realizes {
      other :| other in c.realizes && ResolveItem(b, other) == item;
    } else if text in c.publishes {
      other :| other in c.publishes && ResolveItem(b, other) == item;
    } else if text in c.subscribes {
      other :| other in c.subscribes && ResolveItem(b, other) == item;
    } else {
      var i :| 0 <= i < |c.consumes| && text in c.consumes[i].operations;
      var k, t :| 0 <= k < |c.consumes| && t in c.consumes[k].operations && ResolveItem(b, t) == item;
      other := t;
    }
  }

  lemma RepinnedIsSame(d: Definition, p: nat)
    requires p < |d.pins|
    ensures SameDefinition(d, d.(pins := Without(d.pins, p) + [d.pins[p]]))
  {
    hide SameComponent, Without;
    MovedIsPermuted(d.pins, p);
    forall k | 0 <= k < |d.components| ensures SameComponent(d.components[k], d.components[k]) { SameAsItself(d.components[k]); }
    assert AlignedComponents(d.components, d.components);
  }

  lemma PinsTie(d: Definition, contracts: seq<DomainContract>, i: nat, text: string)
    requires ForgetsOrder(d, contracts) && NoRepeat(ComponentIds(d.components)) && IsWellWritten(d)
    requires i < |d.components| && Names(d.components[i], text)
    ensures PinsAgree(d.pins, text)
  {
    hide BuildSystemIR, NormalizeComponent, ParseItem, ResolveItem, SameDefinition, Names, IsPlainItem, ItemText;
    assert IsPlainItem(text) by { WrittenPlainly(d, i, text); }
    PlainHasItem(text);
    var item := ParseItem(text).value.item;
    forall x, y | x in d.pins && y in d.pins && x.id == ParseItem(text).value.contract && y.id == x.id
      ensures x == y
    {
      var p :| 0 <= p < |d.pins| && d.pins[p] == x;
      var q :| 0 <= q < |d.pins| && d.pins[q] == y;
      var a, b := d.(pins := Without(d.pins, p) + [x]), d.(pins := Without(d.pins, q) + [y]);
      RepinnedIsSame(d, p);
      RepinnedIsSame(d, q);
      SameIRSameComponent(a, b, contracts, i);
      LastPinWins(Without(d.pins, p), x, text);
      var other := NamedAlike(a.pins, b.pins, EnvironmentIds(d), d.components[i], text);
      ResolvedToPin(b.pins, other, x, item);
      LastPinIsFound(Without(d.pins, q), y);
    }
  }

  lemma WrittenPlainly(d: Definition, i: nat, text: string)
    requires IsWellWritten(d) && i < |d.components| && Names(d.components[i], text)
    ensures IsPlainItem(text)
  {
    hide Names, IsPlainItem;
  }

  lemma PlainHasItem(text: string)
    requires IsPlainItem(text)
    ensures ParseItem(text).Some? && ParseItem(text).value.item != ""
  {}

  lemma LastPinIsFound(pins: seq<Pin>, last: Pin)
    ensures PinOf(pins + [last], last.id) == Some(last)
  {
    assert (pins + [last])[|pins + [last]| - 1] == last;
  }

  /**
   * The System IR of a definition with distinct ids does not depend on the order its pins,
   * integrations, components and the lists of these are written in exactly when, in every
   * component, what ties is the same.
   */
  lemma SystemIRForgetsOrderExactly(d: Definition, contracts: seq<DomainContract>)
    requires HasDistinctIds(d) && IsWellWritten(d)
    ensures ForgetsOrder(d, contracts) <==> IsSettled(d)
  {
    hide BuildSystemIR, SameDefinition, ByTarget, ByCapability, ByStore, Interactions, Names, PinsAgree, Separates, IsWellWritten;
    if IsSettled(d) {
      forall b | SameDefinition(d, b) { SystemIRForgetsOrder(d, b, contracts); }
    }
    if ForgetsOrder(d, contracts) {
      forall i | 0 <= i < |d.components|
        ensures IsSettledComponent(d.pins, d.components[i])
      {
        EdgesTie(d, contracts, i);
        CapabilitiesTie(d, contracts, i);
        AccessesTie(d, contracts, i);
        ConstraintsTie(d, contracts, i);
        forall text | Names(d.components[i], text) { PinsTie(d, contracts, i, text); }
      }
    }
  }
}
