/** Definitions that validation accepts, one for each way in which the order they are written in shows. */
module DefinitionSamples {
  import opened Wrappers
  import opened Text
  import opened Sorting
  import opened Lists
  import opened DomainContracts
  import opened Refs
  import opened Realization
  import opened SystemOrder

  // ---- A shop ----

  function OperationNamed(id: string, invariants: seq<string>): Operation {
    Operation(id, Command, None, None, [], "PUBLIC", [], [], invariants, false)
  }

  const TOTAL := Invariant("total", ["Order"], "OWNER_WORK")

  /** A contract whose operation `Order` is named like its type. */
  function ShopContract(revision: nat): DomainContract {
    DomainContract.DomainContract("shop", revision, "", "shop", [TypeDecl("Order", Entity, [Field("total", "decimal", true, false)], [])],
                   [OperationNamed("Order", []), OperationNamed("Cancel", ["total"])], [TOTAL], [], [], [])
  }

  const PIN := Pin("DomainContract", "shop", 1)

  const LATER_PIN := Pin("DomainContract", "shop", 2)

  function ShopIndex(): DomainIndex {
    map[ContractText("shop", 1) := ShopContract(1), ContractText("shop", 2) := ShopContract(2)]
  }

  const PLAIN := Component("", "", "", None, [], [], [], [], [], [], [], [], [], None, "COMPILER_OWNED", "shop", [], [])

  const DB := PLAIN.(id := "db", name := "Database", kind := "datastore")

  const API := PLAIN.(id := "api", name := "API", kind := "api-service", realizes := ["shop#Order", "shop#Cancel"], data := [DataAccess("db", "OWNER")])

  const WEB := PLAIN.(id := "web", name := "Web", kind := "web-application")

  const PRODUCTION := Environment("production", "PRODUCTION", "SAAS", None)

  function Shop(pins: seq<Pin>, web: Component): Definition {
    Definition("shop", "SystemDefinition/shop@1", pins, [PRODUCTION], [], [API, web, DB])
  }

  /** One requirement, accepted but not functional, and one decision. */
  function ShopInputs(pins: seq<Pin>): Inputs {
    Inputs(Some([Requirement("R-1", true, false)]), Some(["D-1"]), DomainsOf(pins, ShopIndex()))
  }

  /** Validation reports nothing: of the definition alone, of its pins, and against what they lead to. */
  ghost predicate IsAccepted(d: Definition, index: DomainIndex, inputs: Inputs) {
    IsWellFormed(d) && AreResolved(d.pins, index) && inputs.domains == DomainsOf(d.pins, index) && IsCoherent(d.components, inputs)
  }

  /** A component that calls the API and reads the database, if anything. */
  ghost predicate IsClient(web: Component) {
    && web.id == "web" && web.realizes == [] && web.publishes == [] && web.subscribes == []
    && web.integrations == [] && web.environments == None && web.requirements == [] && web.decisions == []
    && (forall e | e in web.consumes :: e.component == "api" && forall t | t in e.operations :: t in API.realizes)
    && (forall a | a in web.data :: a.store == "db" && a.access != "OWNER")
  }

  ghost predicate ArePins(pins: seq<Pin>) {
    pins == [PIN] || pins == [PIN, LATER_PIN]
  }

  // ---- It is accepted ----

  lemma ShopItems()
    ensures ParseItem("shop#Order") == Some(ItemRef("shop", "Order")) && ParseItem("shop#Cancel") == Some(ItemRef("shop", "Cancel"))
  {
    hide ParseItem;
    assert "shop#Order" == ItemName("shop", "Order") && "shop#Cancel" == ItemName("shop", "Cancel");
    ParseItemIsExact("shop#Order", "shop", "Order");
    ParseItemIsExact("shop#Cancel", "shop", "Cancel");
  }

  lemma ShopOwners(web: Component)
    requires IsClient(web)
    ensures OwnersOf([API, web, DB], "db") == ["api"]
  {
    hide OwnerOf;
    assert [API, web, DB][..2] == [API, web] && [API, web][..1] == [API] && [API][..0] == [];
    NoOwner(web.id, web.data);
    NoOwner("db", []);
    ApiOwns();
    var all, two, one := [API, web, DB], [API, web], [API];
    assert all[|all| - 1] == DB && two[|two| - 1] == web && one[|one| - 1] == API;
    assert OwnersOf(one, "db") == OwnersOf([], "db") + OwnerOf("api", API.data, "db");
    assert OwnersOf(two, "db") == OwnersOf(one, "db") + OwnerOf("web", web.data, "db");
    assert OwnersOf(all, "db") == OwnersOf(two, "db") + OwnerOf("db", DB.data, "db");
  }

  lemma ApiOwns()
    ensures OwnerOf("api", [DataAccess("db", "OWNER")], "db") == ["api"]
  {
    assert [DataAccess("db", "OWNER")][..0] == [];
  }

  lemma {:induction false} NoOwner(id: string, data: seq<DataAccess>)
    requires forall a | a in data :: a.access != "OWNER"
    ensures OwnerOf(id, data, "db") == []
  {
    if |data| > 0 { NoOwner(id, data[..|data| - 1]); }
  }

  lemma ShopIsWellFormed(pins: seq<Pin>, web: Component)
    requires IsClient(web)
    ensures IsWellFormed(Shop(pins, web))
  {
    hide OwnersOf;
    var d := Shop(pins, web);
    ShopOwners(web);
    assert ComponentIds(d.components) == ["api", "web", "db"] && IntegrationIds(d) == [] && EnvironmentIds(d) == ["production"];
    forall i | 0 <= i < |d.components| ensures NamesKnownParts(d.components[i], d) {
      assert "api" in ComponentIds(d.components) && "db" in ComponentIds(d.components);
    }
    forall store | store in StoresOf(d.components) ensures store == "db" {
      var c, a :| c in d.components && a in c.data && a.store == store;
    }
  }

  lemma ShopKeys()
    ensures ContractText("shop", 1) != ContractText("shop", 2)
    ensures forall r: nat :: PinKey(Pin("DomainContract", "shop", r)) == ContractText("shop", r)
  {
    hide KeyText, Decimal;
    if ContractText("shop", 1) == ContractText("shop", 2) { ContractTextInjective("shop", 1, "shop", 2); }
  }

  lemma ShopPinsResolve(pins: seq<Pin>)
    requires ArePins(pins)
    ensures AreResolved(pins, ShopIndex())
    ensures "shop" in DomainsOf(pins, ShopIndex())
    ensures DomainsOf(pins, ShopIndex())["shop"] == ShopContract(if pins == [PIN] then 1 else 2)
  {
    hide ContractText, PinKey, OperationNamed;
    ShopKeys();
    assert [PIN][..0] == [] && [PIN, LATER_PIN][..1] == [PIN];
  }

  lemma ShopOperations(pins: seq<Pin>)
    requires ArePins(pins)
    ensures forall t | t in API.realizes :: IsOperation(t, DomainsOf(pins, ShopIndex()))
  {
    hide DomainsOf, ParseItem, ShopIndex;
    ShopPinsResolve(pins);
    ShopItems();
    var operations := DomainsOf(pins, ShopIndex())["shop"].operations;
    assert operations[0] in operations && operations[1] in operations;
  }

  lemma ApiImplements(web: Component, domains: map<string, DomainContract>)
    requires IsClient(web) && forall t | t in API.realizes :: IsOperation(t, domains)
    ensures forall t | t in API.realizes :: t in ImplementedBy([API, web, DB], "api", domains)
  {
    hide IsOperation;
    var all, two, one := [API, web, DB], [API, web], [API];
    assert all[..2] == two && two[..1] == one;
    assert all[|all| - 1] == DB && two[|two| - 1] == web && one[|one| - 1] == API;
    assert ImplementedBy(all, "api", domains) == ImplementedBy(two, "api", domains) == ImplementedBy(one, "api", domains);
  }

  lemma ShopIsCoherent(pins: seq<Pin>, web: Component)
    requires ArePins(pins) && IsClient(web)
    ensures IsCoherent([API, web, DB], ShopInputs(pins))
  {
    hide IsOperation, IsEvent, DomainsOf, ShopIndex, ImplementedBy, AllProduced;
    var components, domains := [API, web, DB], DomainsOf(pins, ShopIndex());
    ShopOperations(pins);
    ApiImplements(web, domains);
    forall i | 0 <= i < |components|
      ensures IsTraced(components[i], ShopInputs(pins)) && NamesKnownItems(components[i], domains) && IsServed(components[i], components, domains)
    {
    }
  }

  lemma ShopIsAccepted(pins: seq<Pin>, web: Component)
    requires ArePins(pins) && IsClient(web)
    ensures IsAccepted(Shop(pins, web), ShopIndex(), ShopInputs(pins))
  {
    hide IsWellFormed, AreResolved, IsCoherent, ShopIndex, DomainsOf;
    ShopIsWellFormed(pins, web);
    ShopPinsResolve(pins);
    ShopIsCoherent(pins, web);
  }

  lemma ShopNames(web: Component, i: nat, text: string)
    requires IsClient(web) && i < 3 && Names([API, web, DB][i], text)
    ensures text in API.realizes && IsPlainItem(text)
  {
    hide ParseItem;
    ShopItems();
  }

  lemma ShopIsWritten(pins: seq<Pin>, web: Component)
    requires ArePins(pins) && IsClient(web)
    ensures HasDistinctIds(Shop(pins, web)) && IsWellWritten(Shop(pins, web))
  {
    hide Names, IsPlainItem;
    var d := Shop(pins, web);
    assert ComponentIds(d.components) == ["api", "web", "db"] && IntegrationIds(d) == [];
    forall i, text | 0 <= i < |d.components| && Names(d.components[i], text) ensures IsPlainItem(text) { ShopNames(web, i, text); }
  }

  // ---- Its order shows ----

  const TWO_CALLS := WEB.(consumes := [Consumes("api", "SYNC_REQUEST", ["shop#Order"]), Consumes("api", "SYNC_REQUEST", ["shop#Cancel"])])

  const TWO_VERSIONS := WEB.(capabilities := [Capability("auth", Some("1")), Capability("auth", Some("2"))])

  const TWO_ACCESSES := WEB.(data := [DataAccess("db", "READ"), DataAccess("db", "READ_WRITE")])

  const TWO_CONSTRAINTS := WEB.(constraints := ["Works offline.", "Needs no account."])

  /** An accepted definition whose System IR depends on the order it is written in. */
  ghost predicate ShowsOrder(pins: seq<Pin>, web: Component, contracts: seq<DomainContract>) {
    IsAccepted(Shop(pins, web), ShopIndex(), ShopInputs(pins)) && !ForgetsOrder(Shop(pins, web), contracts)
  }

  lemma UnsettledShowsOrder(pins: seq<Pin>, web: Component, i: nat, contracts: seq<DomainContract>)
    requires ArePins(pins) && IsClient(web) && i < 3 && !IsSettledComponent(pins, [API, web, DB][i])
    ensures ShowsOrder(pins, web, contracts)
  {
    hide IsAccepted, ForgetsOrder, HasDistinctIds, IsWellWritten, IsSettledComponent, ShopIndex, ShopInputs;
    ShopIsAccepted(pins, web);
    ShopIsWritten(pins, web);
    SystemIRForgetsOrderExactly(Shop(pins, web), contracts);
    assert Shop(pins, web).components[i] == [API, web, DB][i];
  }

  lemma ItemOfShop(pins: seq<Pin>, text: string, item: string)
    requires ArePins(pins) && ParseItem(text) == Some(ItemRef("shop", item)) && item != ""
    ensures exists r: nat :: ResolveItem(pins, text) == ItemText("shop", r, item)
  {
    hide ParseItem, ItemText, ResolveItem;
    var front := pins[..|pins| - 1];
    assert pins == front + [pins[|pins| - 1]];
    LastPinWins(front, pins[|pins| - 1], text);
  }

  lemma OneResolved(pins: seq<Pin>, text: string)
    ensures ResolveItems(pins, [text]) == [ResolveItem(pins, text)]
  {
    hide ResolveItem;
    var s := ResolveItems(pins, [text]);
    assert (set t | t in [text] :: ResolveItem(pins, t)) == {ResolveItem(pins, text)};
    assert s[0] in s;
  }

  lemma CallsDiffer(pins: seq<Pin>)
    requires ArePins(pins)
    ensures ResolveItems(pins, ["shop#Order"]) != ResolveItems(pins, ["shop#Cancel"])
  {
    hide ParseItem, ResolveItem, ResolveItems, ItemText;
    ShopItems();
    ItemOfShop(pins, "shop#Order", "Order");
    ItemOfShop(pins, "shop#Cancel", "Cancel");
    OneResolved(pins, "shop#Order");
    OneResolved(pins, "shop#Cancel");
    var r: nat :| ResolveItem(pins, "shop#Order") == ItemText("shop", r, "Order");
    var q: nat :| ResolveItem(pins, "shop#Cancel") == ItemText("shop", q, "Cancel");
    if ItemText("shop", r, "Order") == ItemText("shop", q, "Cancel") { ItemTextInjective("shop", r, "Order", "shop", q, "Cancel"); }
  }

  lemma CallsShowOrder(contracts: seq<DomainContract>)
    ensures ShowsOrder([PIN], TWO_CALLS, contracts)
  {
    hide ResolveItems, AtMost, ShowsOrder, Names;
    CallsDiffer([PIN]);
    AtMostTotal("SYNC_REQUEST", "SYNC_REQUEST");
    var all := Interactions([PIN], TWO_CALLS.consumes);
    assert all[0] in all && all[1] in all && all[0].operations != all[1].operations;
    UnsettledShowsOrder([PIN], TWO_CALLS, 1, contracts);
  }

  lemma VersionsShowOrder(contracts: seq<DomainContract>)
    ensures ShowsOrder([PIN], TWO_VERSIONS, contracts)
  {
    hide AtMost, ShowsOrder, Names, Interactions;
    AtMostTotal("auth", "auth");
    var all := TWO_VERSIONS.capabilities;
    assert all[0] in all && all[1] in all && all[0] != all[1];
    UnsettledShowsOrder([PIN], TWO_VERSIONS, 1, contracts);
  }

  lemma AccessesShowOrder(contracts: seq<DomainContract>)
    ensures ShowsOrder([PIN], TWO_ACCESSES, contracts)
  {
    hide AtMost, ShowsOrder, Names, Interactions;
    AtMostTotal("db", "db");
    var all := TWO_ACCESSES.data;
    assert all[0] in all && all[1] in all && all[0] != all[1];
    UnsettledShowsOrder([PIN], TWO_ACCESSES, 1, contracts);
  }

  lemma ConstraintsShowOrder(contracts: seq<DomainContract>)
    ensures ShowsOrder([PIN], TWO_CONSTRAINTS, contracts)
  {
    hide AtMost, ShowsOrder, Names, Interactions;
    var all := TWO_CONSTRAINTS.constraints;
    assert all[0] in all && all[1] in all && all[0] != all[1];
    UnsettledShowsOrder([PIN], TWO_CONSTRAINTS, 1, contracts);
  }

  lemma PinsShowOrder(contracts: seq<DomainContract>)
    ensures ShowsOrder([PIN, LATER_PIN], WEB, contracts)
  {
    hide ParseItem, ShowsOrder, Interactions;
    ShopItems();
    var pins := [PIN, LATER_PIN];
    assert pins[0] in pins && pins[1] in pins;
    assert Names(API, "shop#Order") && !PinsAgree(pins, "shop#Order");
    UnsettledShowsOrder(pins, WEB, 0, contracts);
  }

  /**
   * Five accepted definitions whose System IR depends on the order they are written in: two
   * edges to one target, two versions of one capability, two accesses to one store, two
   * constraints of one component, and two pins of one contract.
   */
  lemma TiesShowOrder(contracts: seq<DomainContract>)
    ensures ShowsOrder([PIN], TWO_CALLS, contracts)
    ensures ShowsOrder([PIN], TWO_VERSIONS, contracts)
    ensures ShowsOrder([PIN], TWO_ACCESSES, contracts)
    ensures ShowsOrder([PIN], TWO_CONSTRAINTS, contracts)
    ensures ShowsOrder([PIN, LATER_PIN], WEB, contracts)
  {
    hide ShowsOrder;
    CallsShowOrder(contracts);
    VersionsShowOrder(contracts);
    AccessesShowOrder(contracts);
    ConstraintsShowOrder(contracts);
    PinsShowOrder(contracts);
  }
}
