/**
 * Realization: which components implement, consume, publish and subscribe to the items of
 * the pinned Domain Contracts. The validation works on the authored texts
 * (`<contract>#<item>`), the System IR on pinned item references; both agree.
 */
module Realization {
  import opened Wrappers
  import opened Text
  import opened Sorting
  import opened Lists
  import opened Checks
  import opened DomainContracts
  import opened Refs

  datatype Consumes = Consumes(component: string, interaction: string, operations: seq<string>)

  /** A platform capability asked for; any version when it names none. */
  datatype Capability = Capability(id: string, version: Option<string>)

  datatype DataAccess = DataAccess(store: string, access: string)

  datatype Component = Component(
    id: string,
    name: string,
    kind: string,
    audience: Option<string>,
    preferences: seq<string>,
    constraints: seq<string>,
    capabilities: seq<Capability>,
    consumes: seq<Consumes>,
    publishes: seq<string>,
    subscribes: seq<string>,
    realizes: seq<string>,
    data: seq<DataAccess>,
    integrations: seq<string>,
    environments: Option<seq<string>>,
    ownershipClass: string,
    team: string,
    requirements: seq<string>,
    decisions: seq<string>
  )

  datatype Environment = Environment(id: string, kind: string, deploymentMode: string, region: Option<string>)

  datatype Integration = Integration(id: string, kind: string, direction: string, provider: Option<string>)

  /** A reference of `inputs.domainContracts`. */
  datatype Pin = Pin(kind: string, id: string, revision: nat)

  datatype Requirement = Requirement(id: string, accepted: bool, functional: bool)

  datatype Definition = Definition(
    system: string,
    ref: Key,
    pins: seq<Pin>,
    environments: seq<Environment>,
    integrations: seq<Integration>,
    components: seq<Component>
  )

  function ComponentIds(components: seq<Component>): seq<string> { Map((c: Component) => c.id, components) }

  function EnvironmentIds(d: Definition): seq<string> { Map((e: Environment) => e.id, d.environments) }

  function IntegrationIds(d: Definition): seq<string> { Map((i: Integration) => i.id, d.integrations) }

  /** The baseline and the decisions a definition pins, when they resolve, and its Domain Contracts. */
  datatype Inputs = Inputs(baseline: Option<seq<Requirement>>, decisions: Option<seq<string>>, domains: map<string, DomainContract>)

  // ---- Domain item texts ----

  datatype ItemRef = ItemRef(contract: string, item: string)

  /** Splits `<contract>#<item>` at the first `#`; neither part may be empty. */
  function ParseItem(text: string): (r: Option<ItemRef>)
    ensures r.Some? ==> text == ItemName(r.value.contract, r.value.item) && r.value.contract != "" && r.value.item != "" && '#' !in r.value.contract
  {
    var i := IndexOf(text, '#');
    if i <= 0 || i == |text| - 1 then None else
    assert text == text[..i] + [text[i]] + text[i + 1..];
    Some(ItemRef(text[..i], text[i + 1..]))
  }

  function ItemName(contract: string, item: string): string {
    contract + "#" + item
  }

  lemma ParseItemName(text: string, contract: string, item: string)
    requires '#' !in contract && ParseItem(text).Some? && text == ItemName(contract, item)
    ensures ParseItem(text) == Some(ItemRef(contract, item))
  {
    var r := ParseItem(text).value;
    assert text == r.contract + ['#'] + r.item == contract + ['#'] + item;
    FirstPartAgrees(r.contract, contract, r.item, item, '#');
  }

  /** Parsing succeeds exactly on the texts with two non-empty parts, which the first `#` divides. */
  lemma ParseItemIsExact(text: string, contract: string, item: string)
    ensures ParseItem(text) == Some(ItemRef(contract, item)) <==>
            text == ItemName(contract, item) && '#' !in contract && contract != "" && item != ""
  {
    var i := IndexOf(text, '#');
    if text == ItemName(contract, item) && '#' !in contract && contract != "" && item != "" {
      assert text == contract + ['#'] + item && text[|contract|] == '#';
      assert text == text[..i] + ['#'] + text[i + 1..];
      FirstPartAgrees(text[..i], contract, text[i + 1..], item, '#');
    }
  }

  // ---- The pinned domain contracts ----

  type DomainIndex = map<Key, DomainContract>

  function PinKey(p: Pin): Key {
    KeyText(p.kind, p.id, Decimal(p.revision))
  }

  /** Each contract is filed under its own key. */
  ghost predicate IsFiledIndex(index: DomainIndex) {
    forall k | k in index :: k == ContractText(index[k].id, index[k].revision)
  }

  /** The contract ids the definition pins; the last of several revisions of one contract wins. */
  function DomainsOf(pins: seq<Pin>, index: DomainIndex): (domains: map<string, DomainContract>)
    ensures forall id | id in domains :: domains[id].id == id && domains[id] in index.Values
  {
    if |pins| == 0 then map[] else
    var last := pins[|pins| - 1];
    var front := DomainsOf(pins[..|pins| - 1], index);
    if last.kind == "DomainContract" && PinKey(last) in index then front[index[PinKey(last)].id := index[PinKey(last)]] else front
  }

  /** The pinned reference of a contract id; the last one wins. */
  function PinOf(pins: seq<Pin>, id: string): (r: Option<Pin>)
    ensures r.Some? ==> r.value in pins && r.value.id == id
  {
    FindLast((p: Pin) => p.id == id, pins)
  }

  /** Pins of a valid set: they name Domain Contracts that are in the set, under plain ids. */
  ghost predicate AreResolved(pins: seq<Pin>, index: DomainIndex) {
    && IsFiledIndex(index)
    && (forall k | k in index :: '@' !in index[k].id)
    && (forall i | 0 <= i < |pins| :: pins[i].kind == "DomainContract" && '@' !in pins[i].id && PinKey(pins[i]) in index)
  }

  lemma PinnedContract(pin: Pin, index: DomainIndex)
    requires AreResolved([pin], index)
    ensures PinKey(pin) in index && index[PinKey(pin)].id == pin.id && index[PinKey(pin)].revision == pin.revision
  {
    hide KeyText;
    assert [pin][0] == pin;
    ContractTextInjective(pin.id, pin.revision, index[PinKey(pin)].id, index[PinKey(pin)].revision);
  }

  /** The contract validation looks an id up in is the revision the IR pins the id to. */
  lemma {:induction false} DomainsArePinned(pins: seq<Pin>, index: DomainIndex, id: string)
    requires AreResolved(pins, index)
    ensures id in DomainsOf(pins, index) <==> PinOf(pins, id).Some?
    ensures id in DomainsOf(pins, index) ==> PinOf(pins, id).value.revision == DomainsOf(pins, index)[id].revision
  {
    if |pins| > 0 {
      var last := pins[|pins| - 1];
      assert AreResolved(pins[..|pins| - 1], index);
      DomainsArePinned(pins[..|pins| - 1], index, id);
      PinnedContract(last, index);
    }
  }

  datatype PinError = KindMismatch(pin: Pin)

  /** Collects the domain contracts the definition pins. */
  method PinnedDomains(pins: seq<Pin>, index: DomainIndex) returns (domains: map<string, DomainContract>, found: seq<PinError>)
    ensures domains == DomainsOf(pins, index)
    ensures found == [] <==> forall i | 0 <= i < |pins| :: pins[i].kind == "DomainContract"
  {
    domains, found := map[], [];
    for i := 0 to |pins|
      invariant domains == DomainsOf(pins[..i], index)
      invariant found == [] <==> forall k | 0 <= k < i :: pins[k].kind == "DomainContract"
    {
      assert pins[..i + 1][..i] == pins[..i];
      if pins[i].kind != "DomainContract" {
        found := found + [KindMismatch(pins[i])];
      } else if PinKey(pins[i]) in index {
        var domain := index[PinKey(pins[i])];
        domains := domains[domain.id := domain];
      }
    }
    assert pins[..|pins|] == pins;
  }

  // ---- Validation ----

  datatype SystemError =
    | UnknownDomainItem(text: string)
    | UnknownRequirement(id: string)
    | UnknownDecision(id: string)
    | OperationWithoutProvider(text: string)
    | EventWithoutProducer(text: string)
    | RequirementUncovered(id: string)

  /** `operations.find(item => item.id === id)`. */
  function FindOperation(operations: seq<Operation>, id: string): (r: Option<Operation>)
    ensures r.Some? ==> r.value in operations && r.value.id == id
    ensures r.None? ==> forall o | o in operations :: o.id != id
  {
    if |operations| == 0 then None else
    if operations[0].id == id then Some(operations[0]) else FindOperation(operations[1..], id)
  }

  /** The text names an operation of a pinned contract. */
  predicate IsOperation(text: string, domains: map<string, DomainContract>) {
    var r := ParseItem(text);
    r.Some? && r.value.contract in domains && exists o :: o in domains[r.value.contract].operations && o.id == r.value.item
  }

  predicate IsEvent(text: string, domains: map<string, DomainContract>) {
    var r := ParseItem(text);
    r.Some? && r.value.contract in domains && exists e :: e in domains[r.value.contract].events && e.id == r.value.item
  }

  /** The events emitted by the operation a text names. */
  function EmittedBy(text: string, domains: map<string, DomainContract>): set<string>
    requires IsOperation(text, domains)
  {
    var r := ParseItem(text).value;
    var o := FindOperation(domains[r.contract].operations, r.item);
    if o.Some? then set e | e in o.value.emits :: ItemName(r.contract, e) else {}
  }

  /** Every item named by a component exists. */
  ghost predicate NamesKnownItems(c: Component, domains: map<string, DomainContract>) {
    && (forall t | t in c.realizes :: IsOperation(t, domains))
    && (forall t | t in c.publishes :: IsEvent(t, domains))
    && (forall t | t in c.subscribes :: IsEvent(t, domains))
    && (forall e, t | e in c.consumes && t in e.operations :: IsOperation(t, domains))
  }

  /** What a component makes available: the events it declares and those its operations emit. */
  function Produced(c: Component, domains: map<string, DomainContract>): set<string> {
    (set t | t in c.publishes && IsEvent(t, domains)) +
    set t, e | t in c.realizes && IsOperation(t, domains) && e in EmittedBy(t, domains) :: e
  }

  function AllProduced(components: seq<Component>, domains: map<string, DomainContract>): set<string> {
    if |components| == 0 then {} else
    AllProduced(components[..|components| - 1], domains) + Produced(components[|components| - 1], domains)
  }

  /** What the last component under an id implements. */
  function ImplementedBy(components: seq<Component>, id: string, domains: map<string, DomainContract>): set<string> {
    if |components| == 0 then {} else
    var last := components[|components| - 1];
    if last.id == id then set t | t in last.realizes && IsOperation(t, domains)
    else ImplementedBy(components[..|components| - 1], id, domains)
  }

  /** Every operation consumed has the provider it names, every event subscribed to has a producer. */
  ghost predicate IsServed(c: Component, components: seq<Component>, domains: map<string, DomainContract>) {
    && (forall e, t | e in c.consumes && t in e.operations :: t in ImplementedBy(components, e.component, domains))
    && (forall t | t in c.subscribes :: t in AllProduced(components, domains))
  }

  function RequirementIds(baseline: seq<Requirement>): set<string> {
    set r | r in baseline :: r.id
  }

  predicate IsTraced(c: Component, inputs: Inputs) {
    && (inputs.baseline.Some? ==> SetOf(c.requirements) <= RequirementIds(inputs.baseline.value))
    && (inputs.decisions.Some? ==> SetOf(c.decisions) <= SetOf(inputs.decisions.value))
  }

  predicate IsAllocated(r: Requirement, components: seq<Component>) {
    r.accepted && r.functional ==> exists c :: c in components && r.id in c.requirements
  }

  /** The definitions that cross validation accepts. */
  ghost predicate IsCoherent(components: seq<Component>, inputs: Inputs) {
    && (forall i | 0 <= i < |components| ::
          IsTraced(components[i], inputs) && NamesKnownItems(components[i], inputs.domains) && IsServed(components[i], components, inputs.domains))
    && (inputs.baseline.Some? ==> forall i | 0 <= i < |inputs.baseline.value| :: IsAllocated(inputs.baseline.value[i], components))
  }

  ghost predicate RealizesKnownItems(c: Component, domains: map<string, DomainContract>) {
    (forall t | t in c.realizes :: IsOperation(t, domains)) && forall t | t in c.publishes :: IsEvent(t, domains)
  }

  ghost predicate UsesKnownItems(c: Component, domains: map<string, DomainContract>) {
    (forall t | t in c.subscribes :: IsEvent(t, domains)) && forall e, t | e in c.consumes && t in e.operations :: IsOperation(t, domains)
  }

  method TraceComponent(c: Component, inputs: Inputs) returns (found: seq<SystemError>)
    ensures found == [] <==> IsTraced(c, inputs)
  {
    found := [];
    if inputs.baseline.Some? {
      var unknown := KnownIds(c.requirements, RequirementIds(inputs.baseline.value));
      found := found + Map(id => UnknownRequirement(id), unknown);
    }
    if inputs.decisions.Some? {
      var unknown := KnownIds(c.decisions, SetOf(inputs.decisions.value));
      found := found + Map(id => UnknownDecision(id), unknown);
    }
  }

  /** Registers what one component implements and publishes. */
  method RegisterComponent(c: Component, domains: map<string, DomainContract>)
    returns (own: set<string>, produced: set<string>, found: seq<SystemError>)
    ensures own == set t | t in c.realizes && IsOperation(t, domains)
    ensures produced == Produced(c, domains)
    ensures found == [] <==> RealizesKnownItems(c, domains)
  {
    hide IsOperation, IsEvent;
    own, produced, found := {}, {}, [];
    for i := 0 to |c.realizes|
      invariant own == set t | t in c.realizes[..i] && IsOperation(t, domains)
      invariant produced == set t, e | t in c.realizes[..i] && IsOperation(t, domains) && e in EmittedBy(t, domains) :: e
      invariant found == [] <==> forall t | t in c.realizes[..i] :: IsOperation(t, domains)
    {
      var text := c.realizes[i];
      assert c.realizes[..i + 1] == c.realizes[..i] + [text];
      if !IsOperation(text, domains) {
        found := found + [UnknownDomainItem(text)];
        continue;
      }
      own := own + {text};
      produced := produced + EmittedBy(text, domains);
    }
    assert c.realizes[..|c.realizes|] == c.realizes;
    ghost var emitted, ok := produced, found == [];
    for i := 0 to |c.publishes|
      invariant produced == emitted + set t | t in c.publishes[..i] && IsEvent(t, domains)
      invariant found == [] <==> ok && forall t | t in c.publishes[..i] :: IsEvent(t, domains)
    {
      var text := c.publishes[i];
      assert c.publishes[..i + 1] == c.publishes[..i] + [text];
      if !IsEvent(text, domains) {
        found := found + [UnknownDomainItem(text)];
        continue;
      }
      produced := produced + {text};
    }
    assert c.publishes[..|c.publishes|] == c.publishes;
  }

  function Registered(implemented: map<string, set<string>>, id: string): set<string> {
    if id in implemented then implemented[id] else {}
  }

  /** Checks the operations one edge consumes. */
  method CheckConsumes(edge: Consumes, provided: set<string>, domains: map<string, DomainContract>) returns (found: seq<SystemError>)
    ensures found == [] <==> forall t | t in edge.operations :: IsOperation(t, domains) && t in provided
  {
    hide IsOperation;
    found := [];
    for i := 0 to |edge.operations|
      invariant found == [] <==> forall k | 0 <= k < i :: IsOperation(edge.operations[k], domains) && edge.operations[k] in provided
    {
      var text := edge.operations[i];
      if !IsOperation(text, domains) {
        found := found + [UnknownDomainItem(text)];
      } else if text !in provided {
        found := found + [OperationWithoutProvider(text)];
      }
    }
  }

  /** Checks that what one component consumes and subscribes to is available. */
  method CheckServed(c: Component, implemented: map<string, set<string>>, published: set<string>, domains: map<string, DomainContract>)
    returns (found: seq<SystemError>)
    ensures found == [] <==>
            UsesKnownItems(c, domains) &&
            (forall e, t | e in c.consumes && t in e.operations :: t in Registered(implemented, e.component)) &&
            (forall t | t in c.subscribes :: t in published)
  {
    hide IsOperation, IsEvent, Registered;
    found := [];
    for i := 0 to |c.consumes|
      invariant found == [] <==> forall k | 0 <= k < i :: forall t | t in c.consumes[k].operations :: IsOperation(t, domains) && t in Registered(implemented, c.consumes[k].component)
    {
      var more := CheckConsumes(c.consumes[i], Registered(implemented, c.consumes[i].component), domains);
      found := found + more;
    }
    ghost var ok := found == [];
    for i := 0 to |c.subscribes|
      invariant found == [] <==> ok && forall k | 0 <= k < i :: IsEvent(c.subscribes[k], domains) && c.subscribes[k] in published
    {
      var text := c.subscribes[i];
      if !IsEvent(text, domains) {
        found := found + [UnknownDomainItem(text)];
      } else if text !in published {
        found := found + [EventWithoutProducer(text)];
      }
    }
  }

  /** Reports nothing exactly on coherent definitions. */
  method CrossValidateSystemDefinition(components: seq<Component>, inputs: Inputs) returns (found: seq<SystemError>)
    ensures found == [] <==> IsCoherent(components, inputs)
  {
    hide IsOperation, IsEvent, Produced, IsTraced, RealizesKnownItems, UsesKnownItems, NamesKnownItems, IsServed, IsAllocated;
    var domains := inputs.domains;
    var implemented: map<string, set<string>>, published: set<string> := map[], {};
    found := [];
    for i := 0 to |components|
      invariant forall id :: Registered(implemented, id) == ImplementedBy(components[..i], id, domains)
      invariant published == AllProduced(components[..i], domains)
      invariant found == [] <==> forall k | 0 <= k < i :: IsTraced(components[k], inputs) && RealizesKnownItems(components[k], domains)
    {
      assert components[..i + 1][..i] == components[..i];
      var traced := TraceComponent(components[i], inputs);
      var own, produced, more := RegisterComponent(components[i], domains);
      found := found + traced + more;
      implemented := implemented[components[i].id := own];
      published := published + produced;
    }
    assert components[..|components|] == components;
    ghost var ok := found == [];
    for i := 0 to |components|
      invariant found == [] <==> ok && forall k | 0 <= k < i :: UsesKnownItems(components[k], domains) && IsServed(components[k], components, domains)
    {
      var more := CheckServed(components[i], implemented, published, domains);
      ServedByRegistered(components[i], components, implemented, published, domains);
      found := found + more;
    }
    ghost var served := found == [];
    if inputs.baseline.Some? {
      var baseline := inputs.baseline.value;
      for i := 0 to |baseline|
        invariant found == [] <==> served && forall k | 0 <= k < i :: IsAllocated(baseline[k], components)
      {
        if !IsAllocated(baseline[i], components) {
          found := found + [RequirementUncovered(baseline[i].id)];
        }
      }
    }
    forall k | 0 <= k < |components| ensures NamesKnownItems(components[k], domains) <==> RealizesKnownItems(components[k], domains) && UsesKnownItems(components[k], domains) {
      KnownItemsSplit(components[k], domains);
    }
  }

  lemma KnownItemsSplit(c: Component, domains: map<string, DomainContract>)
    ensures NamesKnownItems(c, domains) <==> RealizesKnownItems(c, domains) && UsesKnownItems(c, domains)
  {
    hide IsOperation, IsEvent;
  }

  lemma ServedByRegistered(c: Component, components: seq<Component>, implemented: map<string, set<string>>, published: set<string>, domains: map<string, DomainContract>)
    requires forall id :: Registered(implemented, id) == ImplementedBy(components, id, domains)
    requires published == AllProduced(components, domains)
    ensures IsServed(c, components, domains) <==>
            (forall e, t | e in c.consumes && t in e.operations :: t in Registered(implemented, e.component)) &&
            (forall t | t in c.subscribes :: t in published)
  {
    hide Registered, ImplementedBy, AllProduced;
  }

  // ---- One definition alone ----

  datatype DefinitionError =
    | DuplicateItem(id: string)
    | SelfDependency(component: string)
    | UnknownComponent(id: string)
    | UnknownIntegration(id: string)
    | UnknownEnvironment(id: string)
    | OwnerConflict(store: string)
    | StoreWithoutOwner(store: string)

  /** The component, once for every access as owner of the store. */
  function OwnerOf(id: string, data: seq<DataAccess>, store: string): seq<string> {
    if |data| == 0 then [] else
    OwnerOf(id, data[..|data| - 1], store) + if data[|data| - 1] == DataAccess(store, "OWNER") then [id] else []
  }

  function OwnersOf(components: seq<Component>, store: string): seq<string> {
    if |components| == 0 then [] else
    var last := components[|components| - 1];
    OwnersOf(components[..|components| - 1], store) + OwnerOf(last.id, last.data, store)
  }

  function StoresOf(components: seq<Component>): set<string> {
    set c, a | c in components && a in c.data :: a.store
  }

  /** What a component names exists in the definition, and it consumes others only. */
  ghost predicate NamesKnownParts(c: Component, d: Definition) {
    var components := SetOf(ComponentIds(d.components));
    && (forall e | e in c.consumes :: e.component != c.id && e.component in components)
    && (forall a | a in c.data :: a.store in components)
    && SetOf(c.integrations) <= SetOf(IntegrationIds(d))
    && (c.environments.Some? ==> SetOf(c.environments.value) <= SetOf(EnvironmentIds(d)))
  }

  /** Distinct ids, known parts, and one owner for every data store. */
  ghost predicate IsWellFormed(d: Definition) {
    && NoRepeat(ComponentIds(d.components)) && NoRepeat(IntegrationIds(d)) && NoRepeat(EnvironmentIds(d))
    && (forall i | 0 <= i < |d.components| :: NamesKnownParts(d.components[i], d))
    && (forall store | store in StoresOf(d.components) && store in ComponentIds(d.components) :: |OwnersOf(d.components, store)| == 1)
  }

  function OwnersAt(owners: map<string, seq<string>>, store: string): seq<string> {
    if store in owners then owners[store] else []
  }

  /** The owners before, and the component for each of its accesses as owner. */
  ghost predicate HasRegistered(owners: map<string, seq<string>>, owners0: map<string, seq<string>>, components: set<string>, id: string, data: seq<DataAccess>) {
    forall store | store in components :: OwnersAt(owners, store) == OwnersAt(owners0, store) + OwnerOf(id, data, store)
  }

  function Register(owners: map<string, seq<string>>, components: set<string>, id: string, a: DataAccess): map<string, seq<string>> {
    if a.store in components && a.access == "OWNER" then owners[a.store := OwnersAt(owners, a.store) + [id]] else owners
  }

  lemma RegisterStep(owners: map<string, seq<string>>, owners0: map<string, seq<string>>, components: set<string>, id: string, data: seq<DataAccess>, i: nat)
    requires i < |data| && HasRegistered(owners, owners0, components, id, data[..i])
    ensures HasRegistered(Register(owners, components, id, data[i]), owners0, components, id, data[..i + 1])
  {
    hide OwnerOf;
    var next := Register(owners, components, id, data[i]);
    forall store | store in components
      ensures OwnersAt(next, store) == OwnersAt(owners0, store) + OwnerOf(id, data[..i + 1], store)
    {
      OwnerStep(id, data, i, store);
    }
  }

  lemma NothingRegistered(owners: map<string, seq<string>>, components: set<string>, id: string)
    ensures HasRegistered(owners, owners, components, id, [])
  {}

  /** Registers the accesses of one component. */
  method CheckData(c: Component, components: set<string>, owners0: map<string, seq<string>>) returns (owners: map<string, seq<string>>, found: seq<DefinitionError>)
    ensures HasRegistered(owners, owners0, components, c.id, c.data)
    ensures found == [] <==> forall a | a in c.data :: a.store in components
  {
    hide HasRegistered;
    owners, found := owners0, [];
    NothingRegistered(owners0, components, c.id);
    for i := 0 to |c.data|
      invariant HasRegistered(owners, owners0, components, c.id, c.data[..i])
      invariant found == [] <==> forall k | 0 <= k < i :: c.data[k].store in components
    {
      RegisterStep(owners, owners0, components, c.id, c.data, i);
      if c.data[i].store !in components {
        found := found + [UnknownComponent(c.data[i].store)];
      } else if c.data[i].access == "OWNER" {
        owners := owners[c.data[i].store := OwnersAt(owners, c.data[i].store) + [c.id]];
      }
    }
    assert c.data[..|c.data|] == c.data;
  }

  lemma OwnerStep(id: string, data: seq<DataAccess>, i: nat, store: string)
    requires i < |data|
    ensures OwnerOf(id, data[..i + 1], store) ==
            if data[i].store == store && data[i].access == "OWNER" then OwnerOf(id, data[..i], store) + [id] else OwnerOf(id, data[..i], store)
  {
    assert data[..i + 1][..i] == data[..i];
  }

  method CheckConsumed(c: Component, components: set<string>) returns (found: seq<DefinitionError>)
    ensures found == [] <==> forall e | e in c.consumes :: e.component != c.id && e.component in components
  {
    found := [];
    for i := 0 to |c.consumes|
      invariant found == [] <==> forall k | 0 <= k < i :: c.consumes[k].component != c.id && c.consumes[k].component in components
    {
      if c.consumes[i].component == c.id {
        found := found + [SelfDependency(c.id)];
      } else if c.consumes[i].component !in components {
        found := found + [UnknownComponent(c.consumes[i].component)];
      }
    }
  }

  method CheckParts(c: Component, d: Definition, owners0: map<string, seq<string>>) returns (owners: map<string, seq<string>>, found: seq<DefinitionError>)
    ensures forall store | store in ComponentIds(d.components) :: OwnersAt(owners, store) == OwnersAt(owners0, store) + OwnerOf(c.id, c.data, store)
    ensures found == [] <==> NamesKnownParts(c, d)
  {
    hide OwnerOf;
    var components := SetOf(ComponentIds(d.components));
    var consumed := CheckConsumed(c, components);
    var stores: seq<DefinitionError>;
    owners, stores := CheckData(c, components, owners0);
    var integrations := KnownIds(c.integrations, SetOf(IntegrationIds(d)));
    var environments: seq<string> := [];
    if c.environments.Some? {
      environments := KnownIds(c.environments.value, SetOf(EnvironmentIds(d)));
    }
    found := consumed + stores + Map(id => UnknownIntegration(id), integrations) + Map(id => UnknownEnvironment(id), environments);
  }

  /** Every data store has one owner. */
  method CheckOwners(stores: seq<string>, components: set<string>, owners: map<string, seq<string>>) returns (found: seq<DefinitionError>)
    ensures found == [] <==> forall store | store in stores && store in components :: |OwnersAt(owners, store)| == 1
  {
    found := [];
    for i := 0 to |stores|
      invariant found == [] <==> forall k | 0 <= k < i && stores[k] in components :: |OwnersAt(owners, stores[k])| == 1
    {
      if stores[i] !in components {
        continue;
      }
      if |OwnersAt(owners, stores[i])| > 1 {
        found := found + [OwnerConflict(stores[i])];
      } else if |OwnersAt(owners, stores[i])| == 0 {
        found := found + [StoreWithoutOwner(stores[i])];
      }
    }
  }

  /** Reports nothing exactly on well-formed definitions. */
  method ValidateSystemDefinition(d: Definition) returns (found: seq<DefinitionError>)
    ensures found == [] <==> IsWellFormed(d)
  {
    hide NamesKnownParts, OwnerOf, NoRepeat;
    var components := UniqueIds(ComponentIds(d.components));
    var integrations := UniqueIds(IntegrationIds(d));
    var environments := UniqueIds(EnvironmentIds(d));
    found := Map(id => DuplicateItem(id), components + integrations + environments);
    ghost var unique := found == [];
    var owners: map<string, seq<string>> := map[];
    for i := 0 to |d.components|
      invariant forall store | store in ComponentIds(d.components) :: OwnersAt(owners, store) == OwnersOf(d.components[..i], store)
      invariant found == [] <==> unique && forall k | 0 <= k < i :: NamesKnownParts(d.components[k], d)
    {
      assert d.components[..i + 1][..i] == d.components[..i];
      var more: seq<DefinitionError>;
      owners, more := CheckParts(d.components[i], d, owners);
      found := found + more;
    }
    assert d.components[..|d.components|] == d.components;
    var wrong := CheckOwners(SortedKeys(StoresOf(d.components)), SetOf(ComponentIds(d.components)), owners);
    found := found + wrong;
  }

  // ---- System IR ----

  datatype IRInteraction = IRInteraction(target: string, interaction: string, operations: seq<string>)

  datatype IRComponent = IRComponent(
    id: string,
    name: string,
    kind: string,
    audience: Option<string>,
    preferences: seq<string>,
    constraints: seq<string>,
    capabilities: seq<Capability>,
    interactions: seq<IRInteraction>,
    publishes: seq<string>,
    subscribes: seq<string>,
    realizes: seq<string>,
    data: seq<DataAccess>,
    integrations: seq<string>,
    environments: seq<string>,
    ownershipClass: string,
    team: string,
    requirements: seq<string>,
    decisions: seq<string>
  )

  datatype OperationBinding = OperationBinding(item: string, implementedBy: seq<string>, consumedBy: seq<string>)

  datatype EventBinding = EventBinding(item: string, publishedBy: seq<string>, subscribedBy: seq<string>)

  datatype UnsupportedCode = OperationUnimplemented | EventUnpublished | FacetNotInterpreted

  datatype Unsupported = Unsupported(item: string, code: UnsupportedCode)

  datatype SystemIR = SystemIR(
    system: string,
    definition: Key,
    environments: seq<Environment>,
    integrations: seq<Integration>,
    components: seq<IRComponent>,
    domains: seq<DomainIR>,
    operationBindings: seq<OperationBinding>,
    eventBindings: seq<EventBinding>,
    unsupported: seq<Unsupported>
  )

  /** The pinned item a text names; a text that names none is kept. */
  function ResolveItem(pins: seq<Pin>, text: string): string {
    var r := ParseItem(text);
    if r.None? then text else
    var pin := PinOf(pins, r.value.contract);
    if pin.None? then text else KeyText(pin.value.kind, pin.value.id, Decimal(pin.value.revision)) + "#" + r.value.item
  }

  function ResolveItems(pins: seq<Pin>, texts: seq<string>): seq<string> {
    SortedKeys(set t | t in texts :: ResolveItem(pins, t))
  }

  predicate ByTarget(a: IRInteraction, b: IRInteraction) {
    if a.target == b.target then AtMost(a.interaction, b.interaction) else AtMost(a.target, b.target)
  }

  function Interactions(pins: seq<Pin>, edges: seq<Consumes>): (r: seq<IRInteraction>)
    ensures |r| == |edges|
    ensures forall i | 0 <= i < |r| :: r[i] == IRInteraction(edges[i].component, edges[i].interaction, ResolveItems(pins, edges[i].operations))
  {
    seq(|edges|, i requires 0 <= i < |edges| => IRInteraction(edges[i].component, edges[i].interaction, ResolveItems(pins, edges[i].operations)))
  }

  predicate ByCapability(a: Capability, b: Capability) { AtMost(a.id, b.id) }

  predicate ByStore(a: DataAccess, b: DataAccess) { AtMost(a.store, b.store) }

  /** The environments of the system the component runs in, in the order of the system: all of them unless it names some. */
  function RunsIn(environments: seq<string>, c: Component): seq<string> {
    if c.environments.None? then environments else Filter((e: string) => e in c.environments.value, environments)
  }

  function NormalizeComponent(pins: seq<Pin>, environments: seq<string>, c: Component): IRComponent {
    IRComponent(c.id, c.name, c.kind, c.audience, c.preferences, c.constraints, Sort(c.capabilities, ByCapability), Sort(Interactions(pins, c.consumes), ByTarget),
                ResolveItems(pins, c.publishes), ResolveItems(pins, c.subscribes), ResolveItems(pins, c.realizes), Sort(c.data, ByStore),
                SortedKeys(SetOf(c.integrations)), RunsIn(environments, c), c.ownershipClass, c.team, SortedKeys(SetOf(c.requirements)), SortedKeys(SetOf(c.decisions)))
  }

  function NormalizeAll(pins: seq<Pin>, environments: seq<string>, components: seq<Component>): (r: seq<IRComponent>)
    ensures |r| == |components| && forall i | 0 <= i < |r| :: r[i] == NormalizeComponent(pins, environments, components[i])
  {
    seq(|components|, i requires 0 <= i < |components| => NormalizeComponent(pins, environments, components[i]))
  }

  predicate Implements(c: IRComponent, item: string) { item in c.realizes }

  predicate Consumed(c: IRComponent, item: string) { exists i :: 0 <= i < |c.interactions| && item in c.interactions[i].operations }

  predicate Subscribes(c: IRComponent, item: string) { item in c.subscribes }

  /** The references of the operations that emit an event. */
  function Emitters(operations: seq<IROperation>, item: string): set<string> {
    set o | o in operations && item in o.emits :: o.ref
  }

  /** The component declares the event, or implements one of its emitters. */
  predicate Publishes(c: IRComponent, item: string, emitters: set<string>) {
    item in c.publishes || exists o :: o in c.realizes && o in emitters
  }

  function Ids(components: seq<IRComponent>): seq<string> {
    Map((c: IRComponent) => c.id, components)
  }

  function BindOperation(components: seq<IRComponent>): IROperation -> OperationBinding {
    (o: IROperation) =>
      OperationBinding(o.ref, Ids(Filter((c: IRComponent) => Implements(c, o.ref), components)), Ids(Filter((c: IRComponent) => Consumed(c, o.ref), components)))
  }

  function BindEvent(components: seq<IRComponent>, operations: seq<IROperation>): IREvent -> EventBinding {
    (e: IREvent) =>
      EventBinding(e.ref, Ids(Filter((c: IRComponent) => Publishes(c, e.ref, Emitters(operations, e.ref)), components)),
                   Ids(Filter((c: IRComponent) => Subscribes(c, e.ref), components)))
  }

  function OperationBindings(components: seq<IRComponent>, domains: seq<DomainIR>): seq<OperationBinding> {
    FlatMap((d: DomainIR) => Map(BindOperation(components), d.operations), domains)
  }

  function EventBindings(components: seq<IRComponent>, domains: seq<DomainIR>): seq<EventBinding> {
    FlatMap((d: DomainIR) => Map(BindEvent(components, d.operations), d.events), domains)
  }

  function UnsupportedOf(operations: seq<OperationBinding>, events: seq<EventBinding>, domains: seq<DomainIR>): seq<Unsupported> {
    Map((b: OperationBinding) => Unsupported(b.item, OperationUnimplemented), Filter((b: OperationBinding) => |b.implementedBy| == 0, operations)) +
    Map((b: EventBinding) => Unsupported(b.item, EventUnpublished), Filter((b: EventBinding) => |b.publishedBy| == 0, events)) +
    FlatMap((d: DomainIR) => Map((f: string) => Unsupported(d.ref + "#" + f, FacetNotInterpreted), d.facets), domains)
  }

  function CodeText(code: UnsupportedCode): string {
    match code
    case OperationUnimplemented => "IR_OPERATION_UNIMPLEMENTED"
    case EventUnpublished => "IR_EVENT_UNPUBLISHED"
    case FacetNotInterpreted => "IR_FACET_NOT_INTERPRETED"
  }

  predicate ByItem(a: Unsupported, b: Unsupported) {
    if a.item == b.item then AtMost(CodeText(a.code), CodeText(b.code)) else AtMost(a.item, b.item)
  }

  predicate ByIntegrationId(a: Integration, b: Integration) { AtMost(a.id, b.id) }

  predicate ById(a: IRComponent, b: IRComponent) { AtMost(a.id, b.id) }

  predicate ByRef(a: DomainIR, b: DomainIR) { AtMost(a.ref, b.ref) }

  predicate ByOperation(a: OperationBinding, b: OperationBinding) { AtMost(a.item, b.item) }

  predicate ByEvent(a: EventBinding, b: EventBinding) { AtMost(a.item, b.item) }

  predicate IsPinned(pins: seq<Pin>, c: DomainContract) {
    exists p :: p in pins && p.id == c.id && p.revision == c.revision
  }

  function PinnedIRs(pins: seq<Pin>, contracts: seq<DomainContract>): seq<DomainIR> {
    Sort(Map((c: DomainContract) => BuildDomainIR(c), Filter((c: DomainContract) => IsPinned(pins, c), contracts)), ByRef)
  }

  /** The IR of the definition, given the Domain Contracts of its closure. */
  function BuildSystemIR(d: Definition, contracts: seq<DomainContract>): SystemIR {
    var components := Sort(NormalizeAll(d.pins, EnvironmentIds(d), d.components), ById);
    var domains := PinnedIRs(d.pins, contracts);
    var operations, events := OperationBindings(components, domains), EventBindings(components, domains);
    SystemIR(d.system, d.ref, d.environments, Sort(d.integrations, ByIntegrationId), components, domains, Sort(operations, ByOperation), Sort(events, ByEvent), Sort(UnsupportedOf(operations, events, domains), ByItem))
  }

  // ---- What the IR lists ----

  /** An operation of one of the domains, under its pinned reference. */
  ghost predicate IsListedOperation(domains: seq<DomainIR>, item: string) {
    exists d, o :: d in domains && o in d.operations && o.ref == item
  }

  /** No component publishes the event, under one of the domains that declare it. */
  ghost predicate IsListedUnpublished(components: seq<IRComponent>, domains: seq<DomainIR>, item: string) {
    exists d, e :: d in domains && e in d.events && e.ref == item && forall c | c in components :: !Publishes(c, item, Emitters(d.operations, item))
  }

  lemma NoneSelected(components: seq<IRComponent>, p: IRComponent -> bool)
    ensures |Ids(Filter(p, components))| == 0 <==> forall c | c in components :: !p(c)
  {
    var chosen := Filter(p, components);
    if |chosen| > 0 { assert chosen[0] in chosen; }
  }

  lemma OperationBindingListed(components: seq<IRComponent>, domains: seq<DomainIR>, b: OperationBinding)
    ensures b in OperationBindings(components, domains) <==> exists d, o :: d in domains && o in d.operations && b == BindOperation(components)(o)
  {
    hide BindOperation;
    if d, o :| d in domains && o in d.operations && b == BindOperation(components)(o) {
      var i :| 0 <= i < |domains| && domains[i] == d;
      var k :| 0 <= k < |d.operations| && d.operations[k] == o;
      assert Map(BindOperation(components), d.operations)[k] == b;
      assert b in OperationBindings(components, domains);
    }
    if b in OperationBindings(components, domains) {
      var i :| 0 <= i < |domains| && b in Map(BindOperation(components), domains[i].operations);
      var k :| 0 <= k < |domains[i].operations| && Map(BindOperation(components), domains[i].operations)[k] == b;
      assert domains[i] in domains && domains[i].operations[k] in domains[i].operations;
    }
  }

  lemma EventBindingListed(components: seq<IRComponent>, domains: seq<DomainIR>, b: EventBinding)
    ensures b in EventBindings(components, domains) <==> exists d, e :: d in domains && e in d.events && b == BindEvent(components, d.operations)(e)
  {
    hide BindEvent;
    if d, e :| d in domains && e in d.events && b == BindEvent(components, d.operations)(e) {
      var i :| 0 <= i < |domains| && domains[i] == d;
      var k :| 0 <= k < |d.events| && d.events[k] == e;
      assert Map(BindEvent(components, d.operations), d.events)[k] == b;
      assert b in EventBindings(components, domains);
    }
    if b in EventBindings(components, domains) {
      var i :| 0 <= i < |domains| && b in Map(BindEvent(components, domains[i].operations), domains[i].events);
      var k :| 0 <= k < |domains[i].events| && Map(BindEvent(components, domains[i].operations), domains[i].events)[k] == b;
      assert domains[i] in domains && domains[i].events[k] in domains[i].events;
    }
  }

  lemma InMap<A(!new), B(!new)>(f: A -> B, s: seq<A>, y: B)
    ensures y in Map(f, s) <==> exists x :: x in s && f(x) == y
  {
    if x :| x in s && f(x) == y {
      var i :| 0 <= i < |s| && s[i] == x;
      assert Map(f, s)[i] == y;
    }
  }

  lemma UnsupportedByCode(operations: seq<OperationBinding>, events: seq<EventBinding>, domains: seq<DomainIR>, item: string)
    ensures Unsupported(item, OperationUnimplemented) in UnsupportedOf(operations, events, domains) <==>
            exists b :: b in operations && b.item == item && |b.implementedBy| == 0
    ensures Unsupported(item, EventUnpublished) in UnsupportedOf(operations, events, domains) <==>
            exists b :: b in events && b.item == item && |b.publishedBy| == 0
  {
    var f, g := (b: OperationBinding) => Unsupported(b.item, OperationUnimplemented), (b: EventBinding) => Unsupported(b.item, EventUnpublished);
    var h := (d: DomainIR) => Map((f: string) => Unsupported(d.ref + "#" + f, FacetNotInterpreted), d.facets);
    var xs, ys := Filter((b: OperationBinding) => |b.implementedBy| == 0, operations), Filter((b: EventBinding) => |b.publishedBy| == 0, events);
    InMap(f, xs, Unsupported(item, OperationUnimplemented));
    InMap(f, xs, Unsupported(item, EventUnpublished));
    InMap(g, ys, Unsupported(item, EventUnpublished));
    InMap(g, ys, Unsupported(item, OperationUnimplemented));
    assert forall u: Unsupported | u in FlatMap(h, domains) :: u.code.FacetNotInterpreted?;
    assert UnsupportedOf(operations, events, domains) == Map(f, xs) + Map(g, ys) + FlatMap(h, domains);
  }

  /** The IR lists as unimplemented exactly the operations that no component implements. */
  lemma UnimplementedIsExact(d: Definition, contracts: seq<DomainContract>, item: string)
    ensures var ir := BuildSystemIR(d, contracts);
            Unsupported(item, OperationUnimplemented) in ir.unsupported <==>
            IsListedOperation(ir.domains, item) && forall c | c in ir.components :: !Implements(c, item)
  {
    hide Sort, OperationBindings, EventBindings, UnsupportedOf, PinnedIRs, NormalizeAll, Implements, Consumed;
    var ir := BuildSystemIR(d, contracts);
    var operations, events := OperationBindings(ir.components, ir.domains), EventBindings(ir.components, ir.domains);
    SortLists(UnsupportedOf(operations, events, ir.domains), ByItem);
    UnsupportedByCode(operations, events, ir.domains, item);
    NoneSelected(ir.components, (c: IRComponent) => Implements(c, item));
    if b :| b in operations && b.item == item && |b.implementedBy| == 0 {
      OperationBindingListed(ir.components, ir.domains, b);
    }
    if v, o :| v in ir.domains && o in v.operations && o.ref == item && forall c | c in ir.components :: !Implements(c, item) {
      OperationBindingListed(ir.components, ir.domains, BindOperation(ir.components)(o));
    }
  }

  lemma UnpublishedBinding(components: seq<IRComponent>, operations: seq<IROperation>, e: IREvent)
    ensures var b := BindEvent(components, operations)(e);
            b.item == e.ref && (|b.publishedBy| == 0 <==> forall c | c in components :: !Publishes(c, e.ref, Emitters(operations, e.ref)))
  {
    hide Publishes, Subscribes, Emitters;
    NoneSelected(components, (c: IRComponent) => Publishes(c, e.ref, Emitters(operations, e.ref)));
  }

  /** And as unpublished exactly the events that, in some domain, no component publishes. */
  lemma UnpublishedIsExact(d: Definition, contracts: seq<DomainContract>, item: string)
    ensures var ir := BuildSystemIR(d, contracts);
            Unsupported(item, EventUnpublished) in ir.unsupported <==> IsListedUnpublished(ir.components, ir.domains, item)
  {
    hide Sort, OperationBindings, EventBindings, UnsupportedOf, PinnedIRs, NormalizeAll, Publishes, Subscribes, BindEvent, Emitters;
    var ir := BuildSystemIR(d, contracts);
    var operations, events := OperationBindings(ir.components, ir.domains), EventBindings(ir.components, ir.domains);
    SortLists(UnsupportedOf(operations, events, ir.domains), ByItem);
    UnsupportedByCode(operations, events, ir.domains, item);
    if b :| b in events && b.item == item && |b.publishedBy| == 0 {
      EventBindingListed(ir.components, ir.domains, b);
      var v, e :| v in ir.domains && e in v.events && b == BindEvent(ir.components, v.operations)(e);
      UnpublishedBinding(ir.components, v.operations, e);
    }
    if v, e :| v in ir.domains && e in v.events && e.ref == item && forall c | c in ir.components :: !Publishes(c, item, Emitters(v.operations, item)) {
      UnpublishedBinding(ir.components, v.operations, e);
      EventBindingListed(ir.components, ir.domains, BindEvent(ir.components, v.operations)(e));
    }
  }

  // ---- From texts to pinned items ----

  /** A known text is pinned to an item of a contract exactly when it names that item of that contract. */
  lemma TextNamesItem(pins: seq<Pin>, index: DomainIndex, d: DomainContract, item: string, text: string)
    requires AreResolved(pins, index) && d in index.Values && '#' !in d.id
    requires ParseItem(text).Some? && ParseItem(text).value.contract in DomainsOf(pins, index)
    ensures ResolveItem(pins, text) == Item(d, item) <==>
            text == ItemName(d.id, item) && d.id in DomainsOf(pins, index) && DomainsOf(pins, index)[d.id] == d
  {
    hide DomainsOf, PinOf, ParseItem, ItemName, KeyText, ItemText;
    var r, domains := ParseItem(text).value, DomainsOf(pins, index);
    DomainsArePinned(pins, index, r.contract);
    var pin, named := PinOf(pins, r.contract).value, domains[r.contract];
    ResolvedText(pins, index, text);
    if ResolveItem(pins, text) == Item(d, item) {
      ItemTextInjective(named.id, named.revision, r.item, d.id, d.revision, item);
      SameKey(index, named, d);
    }
    if text == ItemName(d.id, item) {
      ParseItemName(text, d.id, item);
    }
  }

  lemma SameKey(index: DomainIndex, a: DomainContract, b: DomainContract)
    requires IsFiledIndex(index) && a in index.Values && b in index.Values && a.id == b.id && a.revision == b.revision
    ensures a == b
  {
    hide ContractText;
    var k :| k in index && index[k] == a;
    var l :| l in index && index[l] == b;
  }

  lemma ResolvedText(pins: seq<Pin>, index: DomainIndex, text: string)
    requires AreResolved(pins, index)
    requires ParseItem(text).Some? && ParseItem(text).value.contract in DomainsOf(pins, index)
    ensures var r := ParseItem(text).value;
            ResolveItem(pins, text) == Item(DomainsOf(pins, index)[r.contract], r.item)
  {
    hide ParseItem, DomainsOf, PinOf, KeyText, Decimal;
    var r := ParseItem(text).value;
    DomainsArePinned(pins, index, r.contract);
    var pin := PinOf(pins, r.contract).value;
    assert pin.kind == "DomainContract" && pin.id == r.contract && r.item != "";
  }

  lemma ResolvedFrom(pins: seq<Pin>, texts: seq<string>, item: string)
    ensures item in ResolveItems(pins, texts) <==> exists t :: t in texts && ResolveItem(pins, t) == item
  {
    hide ResolveItem;
  }

  lemma NormalizedEdges(pins: seq<Pin>, environments: seq<string>, c: Component, x: IRInteraction)
    ensures x in NormalizeComponent(pins, environments, c).interactions <==>
            exists i :: 0 <= i < |c.consumes| && x == IRInteraction(c.consumes[i].component, c.consumes[i].interaction, ResolveItems(pins, c.consumes[i].operations))
  {
    hide ResolveItems, Sort;
    SortLists(Interactions(pins, c.consumes), ByTarget);
  }

  lemma NormalizedConsumption(pins: seq<Pin>, environments: seq<string>, c: Component, item: string)
    ensures Consumed(NormalizeComponent(pins, environments, c), item) <==> exists i, t :: 0 <= i < |c.consumes| && t in c.consumes[i].operations && ResolveItem(pins, t) == item
  {
    hide ResolveItem, ResolveItems, NormalizeComponent;
    var n := NormalizeComponent(pins, environments, c);
    if Consumed(n, item) {
      var k :| 0 <= k < |n.interactions| && item in n.interactions[k].operations;
      NormalizedEdges(pins, environments, c, n.interactions[k]);
      var i :| 0 <= i < |c.consumes| && n.interactions[k] == IRInteraction(c.consumes[i].component, c.consumes[i].interaction, ResolveItems(pins, c.consumes[i].operations));
      ResolvedFrom(pins, c.consumes[i].operations, item);
    }
    if i, t :| 0 <= i < |c.consumes| && t in c.consumes[i].operations && ResolveItem(pins, t) == item {
      ResolvedFrom(pins, c.consumes[i].operations, item);
      var x := IRInteraction(c.consumes[i].component, c.consumes[i].interaction, ResolveItems(pins, c.consumes[i].operations));
      NormalizedEdges(pins, environments, c, x);
      var k :| 0 <= k < |n.interactions| && n.interactions[k] == x;
    }
  }

  /** What a normalized component implements, publishes, subscribes to and consumes. */
  lemma NormalizedUses(pins: seq<Pin>, environments: seq<string>, c: Component, item: string)
    ensures var n := NormalizeComponent(pins, environments, c);
            && (Implements(n, item) <==> exists t :: t in c.realizes && ResolveItem(pins, t) == item)
            && (item in n.publishes <==> exists t :: t in c.publishes && ResolveItem(pins, t) == item)
            && (Subscribes(n, item) <==> exists t :: t in c.subscribes && ResolveItem(pins, t) == item)
            && (Consumed(n, item) <==> exists i, t :: 0 <= i < |c.consumes| && t in c.consumes[i].operations && ResolveItem(pins, t) == item)
  {
    hide ResolveItem, Sort, ResolveItems, Interactions, Consumed;
    ResolvedFrom(pins, c.realizes, item);
    ResolvedFrom(pins, c.publishes, item);
    ResolvedFrom(pins, c.subscribes, item);
    NormalizedConsumption(pins, environments, c, item);
  }

  /** In the IR a component implements an item exactly when its definition names that item of the contract in force. */
  lemma ImplementationIsPinned(pins: seq<Pin>, environments: seq<string>, index: DomainIndex, d: DomainContract, item: string, c: Component)
    requires AreResolved(pins, index) && d in index.Values && '#' !in d.id
    requires d.id in DomainsOf(pins, index) && DomainsOf(pins, index)[d.id] == d
    requires NamesKnownItems(c, DomainsOf(pins, index))
    ensures Implements(NormalizeComponent(pins, environments, c), Item(d, item)) <==> ItemName(d.id, item) in c.realizes
  {
    hide NormalizeComponent, ResolveItem, DomainsOf, ParseItem, Item, ItemName, Implements, AreResolved;
    NormalizedUses(pins, environments, c, Item(d, item));
    forall t | t in c.realizes
      ensures ResolveItem(pins, t) == Item(d, item) <==> t == ItemName(d.id, item)
    {
      TextNamesItem(pins, index, d, item, t);
    }
  }

  /** The IR has one normalized component per component of the definition. */
  lemma NormalizedComponents(d: Definition, contracts: seq<DomainContract>)
    ensures forall n :: n in BuildSystemIR(d, contracts).components <==> exists i :: 0 <= i < |d.components| && n == NormalizeComponent(d.pins, EnvironmentIds(d), d.components[i])
  {
    hide Sort, NormalizeComponent, OperationBindings, EventBindings, UnsupportedOf, PinnedIRs;
    SortLists(NormalizeAll(d.pins, EnvironmentIds(d), d.components), ById);
  }

  lemma {:induction false} ImplementedBySomeone(components: seq<Component>, id: string, domains: map<string, DomainContract>, text: string)
    requires text in ImplementedBy(components, id, domains)
    ensures exists i :: 0 <= i < |components| && components[i].id == id && text in components[i].realizes
  {
    hide IsOperation;
    if components[|components| - 1].id == id {
    } else {
      ImplementedBySomeone(components[..|components| - 1], id, domains, text);
      var i :| 0 <= i < |components| - 1 && components[..|components| - 1][i].id == id && text in components[..|components| - 1][i].realizes;
      assert components[i].id == id && text in components[i].realizes;
    }
  }

  lemma {:induction false} ProducedBySomeone(components: seq<Component>, domains: map<string, DomainContract>, text: string)
    requires text in AllProduced(components, domains)
    ensures exists i :: 0 <= i < |components| && text in Produced(components[i], domains)
  {
    hide Produced;
    var n := |components| - 1;
    if text !in Produced(components[n], domains) {
      ProducedBySomeone(components[..n], domains, text);
      var i :| 0 <= i < n && text in Produced(components[..n][i], domains);
      assert text in Produced(components[i], domains);
    }
  }

  /** The pinned contracts are filed in the set, so that each pinned item has one contract. */
  ghost predicate AreFiled(contracts: seq<DomainContract>, index: DomainIndex) {
    forall i | 0 <= i < |contracts| :: contracts[i] in index.Values && '#' !in contracts[i].id
  }

  /**
   * An operation that a component consumes is implemented: in an accepted definition, what the
   * IR lists as unimplemented is consumed by nobody.
   */
  lemma UnimplementedIsUnconsumed(d: Definition, index: DomainIndex, inputs: Inputs, contracts: seq<DomainContract>, item: string)
    requires inputs.domains == DomainsOf(d.pins, index) && IsCoherent(d.components, inputs)
    requires Unsupported(item, OperationUnimplemented) in BuildSystemIR(d, contracts).unsupported
    ensures forall c | c in BuildSystemIR(d, contracts).components :: !Consumed(c, item)
  {
    hide BuildSystemIR, NormalizeComponent, ResolveItem, DomainsOf, IsTraced, NamesKnownItems, IsAllocated, Implements, Consumed, ImplementedBy;
    UnimplementedIsExact(d, contracts, item);
    NormalizedComponents(d, contracts);
    forall n | n in BuildSystemIR(d, contracts).components
      ensures !Consumed(n, item)
    {
      var i :| 0 <= i < |d.components| && n == NormalizeComponent(d.pins, EnvironmentIds(d), d.components[i]);
      NormalizedUses(d.pins, EnvironmentIds(d), d.components[i], item);
      forall m, t | 0 <= m < |d.components[i].consumes| && t in d.components[i].consumes[m].operations
        ensures ResolveItem(d.pins, t) != item
      {
        var e := d.components[i].consumes[m];
        assert IsServed(d.components[i], d.components, inputs.domains) && e in d.components[i].consumes;
        ImplementedBySomeone(d.components, e.component, inputs.domains, t);
        var k :| 0 <= k < |d.components| && d.components[k].id == e.component && t in d.components[k].realizes;
        NormalizedUses(d.pins, EnvironmentIds(d), d.components[k], item);
        assert NormalizeComponent(d.pins, EnvironmentIds(d), d.components[k]) in BuildSystemIR(d, contracts).components;
      }
    }
  }

  /** An operation that emits an event is one of the event's emitters in the Domain IR. */
  lemma EmitterIsListed(d: DomainContract, o: Operation, event: string)
    requires o in d.operations && event in o.emits
    ensures Item(d, o.id) in Emitters(BuildDomainIR(d).operations, Item(d, event))
  {
    hide BuildDomainIR, Item, ResolveOptional;
    IRListsDeclarations(d);
    var k :| 0 <= k < |d.operations| && d.operations[k] == o;
    var i :| 0 <= i < |o.emits| && o.emits[i] == event;
    assert Items(d, o.emits)[i] == Item(d, event);
    assert OperationIR(d, o) in BuildDomainIR(d).operations && Item(d, event) in OperationIR(d, o).emits;
  }

  /** The text of an emitted event names the event of the operation's own contract. */
  lemma EmittedName(text: string, domains: map<string, DomainContract>, d: DomainContract, event: string)
    requires IsOperation(text, domains) && ItemName(d.id, event) in EmittedBy(text, domains)
    requires ParseItem(ItemName(d.id, event)).Some? && '#' !in d.id
    ensures ParseItem(text).value.contract == d.id
    ensures d.id in domains && exists o :: o in domains[d.id].operations && o.id == ParseItem(text).value.item && event in o.emits
  {
    hide ParseItem, IsOperation, ItemName, FindOperation;
    assert IsOperation(text, domains) ==> ParseItem(text).Some? && ParseItem(text).value.contract in domains by { KnownOperation(text, domains); }
    var r := ParseItem(text).value;
    var o := FindOperation(domains[r.contract].operations, r.item);
    var e :| e in o.value.emits && ItemName(r.contract, e) == ItemName(d.id, event);
    ParseItemName(ItemName(d.id, event), r.contract, e);
    ParseItemName(ItemName(d.id, event), d.id, event);
  }

  lemma KnownOperation(text: string, domains: map<string, DomainContract>)
    requires IsOperation(text, domains)
    ensures ParseItem(text).Some? && ParseItem(text).value.contract in domains
  {}

  /** What validation counts as produced, the IR counts as published. */
  lemma ProducedIsPublished(pins: seq<Pin>, environments: seq<string>, index: DomainIndex, d: DomainContract, event: string, c: Component)
    requires AreResolved(pins, index) && d in index.Values && '#' !in d.id
    requires ParseItem(ItemName(d.id, event)).Some? && d.id in DomainsOf(pins, index) && DomainsOf(pins, index)[d.id] == d
    requires ItemName(d.id, event) in Produced(c, DomainsOf(pins, index))
    ensures Publishes(NormalizeComponent(pins, environments, c), Item(d, event), Emitters(BuildDomainIR(d).operations, Item(d, event)))
  {
    hide DomainsOf, ParseItem, ResolveItem, NormalizeComponent, IsEvent, IsOperation, ItemName, BuildDomainIR, Item, EmittedBy, Emitters, IsFiledIndex;
    var domains, text, n := DomainsOf(pins, index), ItemName(d.id, event), NormalizeComponent(pins, environments, c);
    ParseItemName(text, d.id, event);
    if text in c.publishes {
      TextNamesItem(pins, index, d, event, text);
      NormalizedUses(pins, environments, c, Item(d, event));
    } else {
      var t :| t in c.realizes && IsOperation(t, domains) && text in EmittedBy(t, domains);
      EmittedName(t, domains, d, event);
      KnownOperation(t, domains);
      var r := ParseItem(t).value;
      var o :| o in d.operations && o.id == r.item && event in o.emits;
      EmitterIsListed(d, o, event);
      ResolvedText(pins, index, t);
      NormalizedUses(pins, environments, c, Item(d, o.id));
    }
  }

  /** Each Domain IR of the system is that of one of the contracts. */
  lemma DomainOfIR(d: Definition, contracts: seq<DomainContract>, v: DomainIR)
    requires v in BuildSystemIR(d, contracts).domains
    ensures exists i :: 0 <= i < |contracts| && v == BuildDomainIR(contracts[i])
  {
    hide Sort, BuildDomainIR, NormalizeAll, OperationBindings, EventBindings, UnsupportedOf, IsPinned;
    var f, pinned := (c: DomainContract) => BuildDomainIR(c), Filter((c: DomainContract) => IsPinned(d.pins, c), contracts);
    SortLists(Map(f, pinned), ByRef);
    InMap(f, pinned, v);
    var c :| c in pinned && f(c) == v;
    var i :| 0 <= i < |contracts| && contracts[i] == c;
  }

  /** A component subscribes to an event only if some component publishes it. */
  lemma SubscribedIsPublishedInIR(d: Definition, index: DomainIndex, inputs: Inputs, contracts: seq<DomainContract>, v: DomainIR, e: IREvent, n: IRComponent)
    requires AreResolved(d.pins, index) && AreFiled(contracts, index)
    requires inputs.domains == DomainsOf(d.pins, index) && IsCoherent(d.components, inputs)
    requires v in BuildSystemIR(d, contracts).domains && e in v.events
    requires n in BuildSystemIR(d, contracts).components && Subscribes(n, e.ref)
    ensures exists p :: p in BuildSystemIR(d, contracts).components && Publishes(p, e.ref, Emitters(v.operations, e.ref))
  {
    hide NormalizeComponent, ResolveItem, DomainsOf, IsTraced, IsAllocated, Subscribes, Publishes, Produced, AllProduced, ParseItem, BuildDomainIR, IsServed, NamesKnownItems, AreResolved, Emitters,
      OperationBindings, EventBindings, UnsupportedOf, PinnedIRs;
    DomainOfIR(d, contracts, v);
    var m :| 0 <= m < |contracts| && v == BuildDomainIR(contracts[m]);
    IRListsDeclarations(contracts[m]);
    var k :| 0 <= k < |contracts[m].events| && e == EventIR(contracts[m], contracts[m].events[k]);
    SortLists(NormalizeAll(d.pins, EnvironmentIds(d), d.components), ById);
    var i :| 0 <= i < |d.components| && NormalizeAll(d.pins, EnvironmentIds(d), d.components)[i] == n;
    NormalizedUses(d.pins, EnvironmentIds(d), d.components[i], e.ref);
    var t :| t in d.components[i].subscribes && ResolveItem(d.pins, t) == e.ref;
    SubscribedIsPublished(d, index, inputs, contracts[m], contracts[m].events[k].id, i, t);
  }

  /**
   * An event that a component subscribes to is published: in an accepted definition, what the
   * IR lists as unpublished is subscribed to by nobody.
   */
  lemma UnpublishedIsUnsubscribed(d: Definition, index: DomainIndex, inputs: Inputs, contracts: seq<DomainContract>, item: string)
    requires AreResolved(d.pins, index) && AreFiled(contracts, index)
    requires inputs.domains == DomainsOf(d.pins, index) && IsCoherent(d.components, inputs)
    requires Unsupported(item, EventUnpublished) in BuildSystemIR(d, contracts).unsupported
    ensures forall c | c in BuildSystemIR(d, contracts).components :: !Subscribes(c, item)
  {
    hide BuildSystemIR, DomainsOf, Subscribes, Publishes, AreResolved, Emitters, IsCoherent, AreFiled;
    var ir := BuildSystemIR(d, contracts);
    forall v, e, n | v in ir.domains && e in v.events && e.ref == item && n in ir.components && Subscribes(n, item)
      ensures exists p :: p in ir.components && Publishes(p, item, Emitters(v.operations, item))
    {
      SubscribedIsPublishedInIR(d, index, inputs, contracts, v, e, n);
    }
    UnpublishedIsExact(d, contracts, item);
  }

  lemma SubscribedIsPublished(d: Definition, index: DomainIndex, inputs: Inputs, c: DomainContract, event: string, i: nat, text: string)
    requires AreResolved(d.pins, index) && c in index.Values && '#' !in c.id
    requires inputs.domains == DomainsOf(d.pins, index) && IsCoherent(d.components, inputs)
    requires i < |d.components| && text in d.components[i].subscribes && ResolveItem(d.pins, text) == Item(c, event)
    ensures exists p :: p in NormalizeAll(d.pins, EnvironmentIds(d), d.components) && Publishes(p, Item(c, event), Emitters(BuildDomainIR(c).operations, Item(c, event)))
  {
    hide NormalizeComponent, ResolveItem, DomainsOf, IsTraced, IsAllocated, Publishes, Produced, AllProduced, ParseItem, BuildDomainIR, AreResolved, Emitters, Item, ItemName, EmittedBy;
    assert IsEvent(text, inputs.domains) by { assert NamesKnownItems(d.components[i], inputs.domains); }
    TextNamesItem(d.pins, index, c, event, text);
    assert text in AllProduced(d.components, inputs.domains) by { assert IsServed(d.components[i], d.components, inputs.domains); }
    ProducedBySomeone(d.components, inputs.domains, text);
    var j :| 0 <= j < |d.components| && text in Produced(d.components[j], inputs.domains);
    ProducedIsPublished(d.pins, EnvironmentIds(d), index, c, event, d.components[j]);
    assert NormalizeAll(d.pins, EnvironmentIds(d), d.components)[j] == NormalizeComponent(d.pins, EnvironmentIds(d), d.components[j]);
  }
}
