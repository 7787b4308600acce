/**
 * Derivation of the effective rules of an organization from its layers and waivers: the
 * fold the kernel performs, and the short specification it refines.
 */
module EffectiveContext {
  import opened Wrappers
  import opened Text
  import opened Json
  import opened Sorting
  import opened Lists
  import opened Checks

  datatype ContextRule = ContextRule(id: string, category: string, value: Json, locked: bool)

  datatype Layer = Layer(id: string, precedence: int, rules: seq<ContextRule>)

  datatype Actor = Human | AiAgent | OtherActor

  datatype Waiver = Waiver(id: string, rule: string, value: Json, reason: string, expiresAt: Timestamp, approvedBy: Actor)

  datatype Source = FromLayer(id: string) | FromWaiver(id: string)

  datatype Outcome = Applied | Overridden | RefusedLocked | Waived

  datatype TraceEntry = TraceEntry(source: Source, value: Json, outcome: Outcome, reason: Option<string>)

  datatype Working = Working(category: string, value: Json, locked: bool, source: Source, trace: seq<TraceEntry>)

  /** One layer's definition of a rule. */
  datatype Definition = Definition(layer: string, rule: ContextRule)

  // ---- The fold ----

  /** `trace.findLast(...)` marked OVERRIDDEN. */
  function MarkOverridden(trace: seq<TraceEntry>, outcomes: set<Outcome>): (marked: seq<TraceEntry>)
    ensures |marked| == |trace|
  {
    if |trace| == 0 then [] else
    var n := |trace| - 1;
    if trace[n].outcome in outcomes then trace[n := trace[n].(outcome := Overridden)]
    else MarkOverridden(trace[..n], outcomes) + [trace[n]]
  }

  function SourceText(source: Source): string {
    match source
    case FromLayer(id) => "layer '" + id + "'"
    case FromWaiver(id) => "waiver '" + id + "'"
  }

  /** A layer's rule against the current value: it applies, overrides, or is refused. */
  function Define(current: Option<Working>, d: Definition): Working {
    var entry := TraceEntry(FromLayer(d.layer), d.rule.value, Applied, None);
    match current
    case None => Working(d.rule.category, d.rule.value, d.rule.locked, FromLayer(d.layer), [entry])
    case Some(w) =>
      if w.locked then
        w.(trace := w.trace + [entry.(outcome := RefusedLocked, reason := Some("locked by " + SourceText(w.source)))])
      else
        Working(w.category, d.rule.value, d.rule.locked, FromLayer(d.layer), MarkOverridden(w.trace, {Applied}) + [entry])
  }

  /** A waiver replaces the value, even a locked one. */
  function Waive(w: Working, waiver: Waiver): Working {
    var entry := TraceEntry(FromWaiver(waiver.id), waiver.value, Waived, Some(waiver.reason));
    w.(value := waiver.value, source := FromWaiver(waiver.id), trace := MarkOverridden(w.trace, {Applied, Waived}) + [entry])
  }

  type Rules = map<string, Working>

  function Lookup(rules: Rules, id: string): Option<Working> {
    if id in rules then Some(rules[id]) else None
  }

  function DefineAll(definitions: seq<Definition>): Rules {
    if |definitions| == 0 then map[] else
    var n := |definitions| - 1;
    var rules := DefineAll(definitions[..n]);
    rules[definitions[n].rule.id := Define(Lookup(rules, definitions[n].rule.id), definitions[n])]
  }

  function WaiveAll(rules: Rules, waivers: seq<Waiver>): Rules {
    if |waivers| == 0 then rules else
    var n := |waivers| - 1;
    var before := WaiveAll(rules, waivers[..n]);
    if waivers[n].rule in before then before[waivers[n].rule := Waive(before[waivers[n].rule], waivers[n])] else before
  }

  function DefinitionsOfLayer(layer: Layer): seq<Definition> {
    seq(|layer.rules|, i requires 0 <= i < |layer.rules| => Definition(layer.id, layer.rules[i]))
  }

  function AllDefinitions(layers: seq<Layer>): seq<Definition> {
    if |layers| == 0 then [] else AllDefinitions(layers[..|layers| - 1]) + DefinitionsOfLayer(layers[|layers| - 1])
  }

  predicate ByPrecedence(a: Layer, b: Layer) {
    a.precedence < b.precedence || (a.precedence == b.precedence && AtMost(a.id, b.id))
  }

  predicate ByWaiverId(a: Waiver, b: Waiver) {
    AtMost(a.id, b.id)
  }

  function DeriveRules(layers: seq<Layer>, waivers: seq<Waiver>): Rules {
    WaiveAll(DefineAll(AllDefinitions(Sort(layers, ByPrecedence))), Sort(waivers, ByWaiverId))
  }

  datatype EffectiveRule = EffectiveRule(rule: string, working: Working)

  /** The effective rules, by rule id. */
  function ListRules(rules: Rules): (effective: seq<EffectiveRule>)
    ensures |effective| == |SortedKeys(rules.Keys)|
  {
    var ids := SortedKeys(rules.Keys);
    seq(|ids|, i requires 0 <= i < |ids| => EffectiveRule(ids[i], rules[ids[i]]))
  }

  datatype ContextError = DuplicatePrecedence(layer: string) | CategoryConflict(rule: string) | UnknownRule(waiver: string)

  ghost predicate DistinctPrecedences(layers: seq<Layer>) {
    forall i, j | 0 <= i < j < |layers| :: layers[i].precedence != layers[j].precedence
  }

  /** All the definitions of a rule give it one category. */
  ghost predicate OneCategory(definitions: seq<Definition>) {
    forall a, b | a in definitions && b in definitions && a.rule.id == b.rule.id :: a.rule.category == b.rule.category
  }

  ghost predicate IsDefined(definitions: seq<Definition>, id: string) {
    exists d :: d in definitions && d.rule.id == id
  }

  lemma DefineAllStep(definitions: seq<Definition>, d: Definition)
    ensures DefineAll(definitions + [d]) ==
            DefineAll(definitions)[d.rule.id := Define(Lookup(DefineAll(definitions), d.rule.id), d)]
  {
    hide Define;
    assert (definitions + [d])[..|definitions|] == definitions;
  }

  /** The current value of a rule exists once the rule is defined, with the category of a definition. */
  lemma {:induction false} DefinedRule(definitions: seq<Definition>, id: string)
    ensures id in DefineAll(definitions) <==> IsDefined(definitions, id)
    ensures id in DefineAll(definitions) ==>
              exists d :: d in definitions && d.rule.id == id && d.rule.category == DefineAll(definitions)[id].category
  {
    if |definitions| > 0 {
      var n := |definitions| - 1;
      var front, last := definitions[..n], definitions[n];
      assert definitions == front + [last];
      DefinedRule(front, id);
      if last.rule.id == id && id !in DefineAll(front) {
        assert DefineAll(definitions)[id].category == last.rule.category;
      }
    }
  }

  lemma OneCategoryStep(definitions: seq<Definition>, d: Definition)
    requires OneCategory(definitions)
    ensures OneCategory(definitions + [d]) <==>
            (d.rule.id in DefineAll(definitions) ==> DefineAll(definitions)[d.rule.id].category == d.rule.category)
  {
    hide DefineAll;
    DefinedRule(definitions, d.rule.id);
    var all := definitions + [d];
    assert d in all && forall x | x in definitions :: x in all;
  }

  /** Reports every layer whose precedence is already taken. */
  method CheckPrecedences(layers: seq<Layer>) returns (found: seq<ContextError>)
    ensures found == [] <==> DistinctPrecedences(layers)
  {
    found := [];
    var precedences: set<int> := {};
    for i := 0 to |layers|
      invariant forall p :: p in precedences <==> exists j :: 0 <= j < i && layers[j].precedence == p
      invariant found == [] <==> DistinctPrecedences(layers[..i])
    {
      if layers[i].precedence in precedences {
        found := found + [DuplicatePrecedence(layers[i].id)];
        assert !DistinctPrecedences(layers[..i + 1]) by {
          var j :| 0 <= j < i && layers[j].precedence == layers[i].precedence;
          assert layers[..i + 1][j].precedence == layers[..i + 1][i].precedence;
        }
      } else {
        precedences := precedences + {layers[i].precedence};
        if found == [] {
          assert DistinctPrecedences(layers[..i + 1]);
        } else {
          var a, b :| 0 <= a < b < i && layers[..i][a].precedence == layers[..i][b].precedence;
          assert layers[..i + 1][a].precedence == layers[..i + 1][b].precedence;
        }
      }
    }
    assert layers[..|layers|] == layers;
  }

  /** Applies the rules of one layer. */
  method ApplyLayer(layer: Layer, rules0: Rules, ghost before: seq<Definition>) returns (rules: Rules, found: seq<ContextError>)
    requires rules0 == DefineAll(before)
    ensures rules == DefineAll(before + DefinitionsOfLayer(layer))
    ensures OneCategory(before) ==> (found == [] <==> OneCategory(before + DefinitionsOfLayer(layer)))
  {
    hide Define, DefineAll, OneCategory;
    rules, found := rules0, [];
    var definitions := DefinitionsOfLayer(layer);
    assert before + definitions[..0] == before;
    for j := 0 to |definitions|
      invariant rules == DefineAll(before + definitions[..j])
      invariant OneCategory(before) ==> (found == [] <==> OneCategory(before + definitions[..j]))
    {
      var d := definitions[j];
      var current := Lookup(rules, d.rule.id);
      assert before + definitions[..j + 1] == before + definitions[..j] + [d];
      DefineAllStep(before + definitions[..j], d);
      if OneCategory(before + definitions[..j]) {
        OneCategoryStep(before + definitions[..j], d);
      } else {
        MoreCategories(before + definitions[..j], d);
      }
      if current.Some? && current.value.category != d.rule.category {
        found := found + [CategoryConflict(d.rule.id)];
      }
      rules := rules[d.rule.id := Define(current, d)];
    }
    assert definitions[..|definitions|] == definitions;
  }

  lemma MoreCategories(definitions: seq<Definition>, d: Definition)
    requires !OneCategory(definitions)
    ensures !OneCategory(definitions + [d])
  {
    var a, b :| a in definitions && b in definitions && a.rule.id == b.rule.id && a.rule.category != b.rule.category;
    assert a in definitions + [d] && b in definitions + [d];
  }

  /** Applies the layers by ascending precedence. */
  method ApplyLayers(ordered: seq<Layer>) returns (rules: Rules, found: seq<ContextError>)
    ensures rules == DefineAll(AllDefinitions(ordered))
    ensures found == [] <==> OneCategory(AllDefinitions(ordered))
  {
    hide DefineAll, OneCategory, DefinitionsOfLayer;
    assert OneCategory([]) by { NoCategories(); }
    rules, found := map[], [];
    assert DefineAll([]) == map[] by { NoDefinitions(); }
    for i := 0 to |ordered|
      invariant rules == DefineAll(AllDefinitions(ordered[..i]))
      invariant found == [] <==> OneCategory(AllDefinitions(ordered[..i]))
    {
      ghost var before := AllDefinitions(ordered[..i]);
      var more: seq<ContextError>;
      rules, more := ApplyLayer(ordered[i], rules, before);
      assert ordered[..i + 1][..i] == ordered[..i];
      if !OneCategory(before) {
        StillMoreCategories(before, DefinitionsOfLayer(ordered[i]));
      }
      found := found + more;
    }
    assert ordered[..|ordered|] == ordered;
  }

  lemma NoCategories()
    ensures OneCategory([])
  {}

  lemma NoDefinitions()
    ensures DefineAll([]) == map[]
  {}

  lemma StillMoreCategories(a: seq<Definition>, b: seq<Definition>)
    requires !OneCategory(a)
    ensures !OneCategory(a + b)
  {
    var x, y :| x in a && y in a && x.rule.id == y.rule.id && x.rule.category != y.rule.category;
    assert x in a + b && y in a + b;
  }

  /** Applies the waivers by id; one that excepts no rule is reported and skipped. */
  method ApplyWaivers(defined: Rules, sorted: seq<Waiver>) returns (rules: Rules, found: seq<ContextError>)
    ensures rules == WaiveAll(defined, sorted)
    ensures found == [] <==> forall w | w in sorted :: w.rule in defined
  {
    hide Waive;
    rules, found := defined, [];
    for i := 0 to |sorted|
      invariant rules == WaiveAll(defined, sorted[..i]) && rules.Keys == defined.Keys
      invariant found == [] <==> forall k | 0 <= k < i :: sorted[k].rule in defined
    {
      assert sorted[..i + 1][..i] == sorted[..i];
      if sorted[i].rule in rules {
        rules := rules[sorted[i].rule := Waive(rules[sorted[i].rule], sorted[i])];
      } else {
        found := found + [UnknownRule(sorted[i].id)];
      }
    }
    assert sorted[..|sorted|] == sorted;
  }

  /** Nothing to report: precedences differ, categories agree, waivers except known rules. */
  ghost predicate IsSound(layers: seq<Layer>, waivers: seq<Waiver>) {
    var definitions := AllDefinitions(Sort(layers, ByPrecedence));
    && DistinctPrecedences(layers)
    && OneCategory(definitions)
    && forall w | w in waivers :: IsDefined(definitions, w.rule)
  }

  /** The layers in order, then the waivers in order. */
  method DeriveEffectiveRules(layers: seq<Layer>, waivers: seq<Waiver>) returns (effective: seq<EffectiveRule>, found: seq<ContextError>)
    ensures effective == ListRules(DeriveRules(layers, waivers))
    ensures found == [] <==> IsSound(layers, waivers)
  {
    hide DefineAll, WaiveAll, Sort, AllDefinitions, OneCategory, IsDefined, DistinctPrecedences;
    found := CheckPrecedences(layers);
    var ordered := Sort(layers, ByPrecedence);
    var defined, conflicts := ApplyLayers(ordered);
    var sorted := Sort(waivers, ByWaiverId);
    var rules, unknown := ApplyWaivers(defined, sorted);
    SortPermutes(waivers, ByWaiverId);
    SameElements(sorted, waivers);
    forall w | w in waivers { DefinedRule(AllDefinitions(ordered), w.rule); }
    found := found + conflicts + unknown;
    effective := ListRules(rules);
  }

  // ---- The specification, one rule at a time ----

  function DefinitionsOf(definitions: seq<Definition>, id: string): (own: seq<Definition>)
    ensures forall d | d in own :: d.rule.id == id
  {
    if |definitions| == 0 then [] else
    var n := |definitions| - 1;
    var front := DefinitionsOf(definitions[..n], id);
    if definitions[n].rule.id == id then front + [definitions[n]] else front
  }

  function WaiversOf(waivers: seq<Waiver>, id: string): (own: seq<Waiver>)
    ensures forall w | w in own :: w.rule == id
  {
    if |waivers| == 0 then [] else
    var n := |waivers| - 1;
    var front := WaiversOf(waivers[..n], id);
    if waivers[n].rule == id then front + [waivers[n]] else front
  }

  /** The definition that decides: the first locked one, or the last. */
  function Deciding(own: seq<Definition>): (i: nat)
    requires |own| > 0
    ensures i < |own|
    ensures forall k | 0 <= k < i :: !own[k].rule.locked
    ensures i < |own| - 1 ==> own[i].rule.locked
  {
    var n := |own| - 1;
    if n == 0 then 0 else
    var i := Deciding(own[..n]);
    if own[i].rule.locked then i else n
  }

  function DefinitionEntry(own: seq<Definition>, i: nat, deciding: nat, waived: bool): TraceEntry
    requires i < |own| && deciding < |own|
  {
    var outcome := if i > deciding then RefusedLocked else if i < deciding || waived then Overridden else Applied;
    TraceEntry(FromLayer(own[i].layer), own[i].rule.value, outcome,
               if i > deciding then Some("locked by layer '" + own[deciding].layer + "'") else None)
  }

  function WaiverEntry(waivers: seq<Waiver>, i: nat): TraceEntry
    requires i < |waivers|
  {
    TraceEntry(FromWaiver(waivers[i].id), waivers[i].value, if i == |waivers| - 1 then Waived else Overridden, Some(waivers[i].reason))
  }

  function DefinitionEntries(own: seq<Definition>, deciding: nat, waived: bool): (entries: seq<TraceEntry>)
    requires deciding < |own|
    ensures |entries| == |own| && forall i | 0 <= i < |own| :: entries[i] == DefinitionEntry(own, i, deciding, waived)
  {
    seq(|own|, i requires 0 <= i < |own| => DefinitionEntry(own, i, deciding, waived))
  }

  function WaiverEntries(waivers: seq<Waiver>): (entries: seq<TraceEntry>)
    ensures |entries| == |waivers| && forall i | 0 <= i < |waivers| :: entries[i] == WaiverEntry(waivers, i)
  {
    seq(|waivers|, i requires 0 <= i < |waivers| => WaiverEntry(waivers, i))
  }

  /** What a rule comes to, from its own definitions and waivers. */
  function Decide(own: seq<Definition>, waivers: seq<Waiver>): Working
    requires |own| > 0
  {
    var deciding := Deciding(own);
    var waived := |waivers| > 0;
    Working(own[0].rule.category,
            if waived then waivers[|waivers| - 1].value else own[deciding].rule.value,
            own[deciding].rule.locked,
            if waived then FromWaiver(waivers[|waivers| - 1].id) else FromLayer(own[deciding].layer),
            DefinitionEntries(own, deciding, waived) + WaiverEntries(waivers))
  }

  lemma MarkLast(front: seq<TraceEntry>, entry: TraceEntry, tail: seq<TraceEntry>, outcomes: set<Outcome>)
    requires entry.outcome in outcomes && forall e | e in tail :: e.outcome !in outcomes
    ensures MarkOverridden(front + [entry] + tail, outcomes) == front + [entry.(outcome := Overridden)] + tail
  {
    var all := front + [entry] + tail;
    var n := |all| - 1;
    if |tail| == 0 {
      assert all == front + [entry];
    } else {
      var shorter := tail[..|tail| - 1];
      assert all[..n] == front + [entry] + shorter;
      MarkLast(front, entry, shorter, outcomes);
      assert all[n] == tail[|tail| - 1] && all[n] in tail;
      assert shorter + [tail[|tail| - 1]] == tail;
    }
  }

  /** One more definition. */
  lemma DefineDecides(own: seq<Definition>, d: Definition)
    requires |own| > 0
    ensures Define(Some(Decide(own, [])), d) == Decide(own + [d], [])
  {
    var k := Deciding(own);
    var before, after := Decide(own, []), Decide(own + [d], []);
    assert (own + [d])[..|own|] == own;
    if before.locked {
      assert Deciding(own + [d]) == k;
      assert "locked by " + SourceText(before.source) == "locked by layer '" + own[k].layer + "'";
      assert after.trace == before.trace + [DefinitionEntry(own + [d], |own|, k, false)];
    } else {
      assert k == |own| - 1;
      var front := before.trace[..k];
      assert before.trace == front + [before.trace[k]] + [];
      MarkLast(front, before.trace[k], [], {Applied});
      assert after.trace == front + [before.trace[k].(outcome := Overridden)] + [] + [DefinitionEntry(own + [d], |own|, |own|, false)];
    }
  }

  lemma FirstDecides(d: Definition)
    ensures Define(None, d) == Decide([d], [])
  {
    assert Decide([d], []).trace == [DefinitionEntry([d], 0, 0, false)];
  }

  /** One more waiver. */
  lemma WaiveDecides(own: seq<Definition>, waivers: seq<Waiver>, w: Waiver)
    requires |own| > 0
    ensures Waive(Decide(own, waivers), w) == Decide(own, waivers + [w])
  {
    var k := Deciding(own);
    var before, after := Decide(own, waivers), Decide(own, waivers + [w]);
    var i := if |waivers| > 0 then |own| + |waivers| - 1 else k;
    var front, tail := before.trace[..i], before.trace[i + 1..];
    assert before.trace == front + [before.trace[i]] + tail;
    MarkLast(front, before.trace[i], tail, {Applied, Waived});
    assert after.trace == front + [before.trace[i].(outcome := Overridden)] + tail + [WaiverEntry(waivers + [w], |waivers|)];
  }

  lemma {:induction false} DefineAllDecides(definitions: seq<Definition>, id: string)
    ensures Lookup(DefineAll(definitions), id) ==
            var own := DefinitionsOf(definitions, id);
            if |own| == 0 then None else Some(Decide(own, []))
  {
    hide Define, Decide;
    if |definitions| > 0 {
      var n := |definitions| - 1;
      DefineAllDecides(definitions[..n], id);
      if definitions[n].rule.id == id {
        var own := DefinitionsOf(definitions[..n], id);
        if |own| == 0 {
          assert DefinitionsOf(definitions, id) == [definitions[n]];
          FirstDecides(definitions[n]);
        } else {
          DefineDecides(own, definitions[n]);
        }
      }
    }
  }

  lemma {:induction false} WaiveAllDecides(rules: Rules, waivers: seq<Waiver>, id: string, own: seq<Definition>)
    requires Lookup(rules, id) == if |own| == 0 then None else Some(Decide(own, []))
    ensures Lookup(WaiveAll(rules, waivers), id) ==
            if |own| == 0 then None else Some(Decide(own, WaiversOf(waivers, id)))
  {
    hide Waive, Decide;
    if |waivers| > 0 {
      var n := |waivers| - 1;
      WaiveAllDecides(rules, waivers[..n], id, own);
      if |own| > 0 && waivers[n].rule == id {
        WaiveDecides(own, WaiversOf(waivers[..n], id), waivers[n]);
      }
    }
  }

  /** The definitions of a rule in precedence order. */
  function OwnDefinitions(layers: seq<Layer>, id: string): seq<Definition> {
    DefinitionsOf(AllDefinitions(Sort(layers, ByPrecedence)), id)
  }

  /** The waivers of a rule in id order. */
  function OwnWaivers(waivers: seq<Waiver>, id: string): seq<Waiver> {
    WaiversOf(Sort(waivers, ByWaiverId), id)
  }

  /**
   * The derivation refines its specification: the value of a rule is the last waiver's,
   * else that of the first locked definition, else that of the last definition; its trace
   * has one entry for each of its definitions and waivers.
   */
  lemma DerivationRefines(layers: seq<Layer>, waivers: seq<Waiver>, id: string)
    ensures Lookup(DeriveRules(layers, waivers), id) ==
            var own := OwnDefinitions(layers, id);
            if |own| == 0 then None else Some(Decide(own, OwnWaivers(waivers, id)))
  {
    hide DefineAll, WaiveAll, Decide, Sort, AllDefinitions, DefinitionsOf;
    var definitions := AllDefinitions(Sort(layers, ByPrecedence));
    DefineAllDecides(definitions, id);
    WaiveAllDecides(DefineAll(definitions), Sort(waivers, ByWaiverId), id, DefinitionsOf(definitions, id));
  }

  predicate IsDeciding(e: TraceEntry) {
    e.outcome == Applied || e.outcome == Waived
  }

  /** Exactly one entry of a trace is APPLIED or WAIVED, and it carries the effective value and source. */
  lemma OneDecidingEntry(own: seq<Definition>, waivers: seq<Waiver>)
    requires |own| > 0
    ensures var w := Decide(own, waivers);
            |w.trace| == |own| + |waivers| &&
            exists i :: 0 <= i < |w.trace| && IsDeciding(w.trace[i]) && w.trace[i].value == w.value && w.trace[i].source == w.source &&
                        forall j | 0 <= j < |w.trace| && IsDeciding(w.trace[j]) :: j == i
  {
    var w := Decide(own, waivers);
    var i := if |waivers| > 0 then |own| + |waivers| - 1 else Deciding(own);
    assert IsDeciding(w.trace[i]) && w.trace[i].value == w.value && w.trace[i].source == w.source;
    forall j | 0 <= j < |w.trace| && IsDeciding(w.trace[j])
      ensures j == i
    {
      if j >= |own| {
        assert w.trace[j] == WaiverEntry(waivers, j - |own|);
      } else {
        assert w.trace[j] == DefinitionEntry(own, j, Deciding(own), |waivers| > 0);
      }
    }
  }

  // ---- Input order ----

  ghost predicate DistinctWaivers(waivers: seq<Waiver>) {
    forall a, b | a in waivers && b in waivers && a.id == b.id :: a == b
  }

  ghost predicate DistinctLayers(layers: seq<Layer>) {
    forall a, b | a in layers && b in layers && a.precedence == b.precedence && a.id == b.id :: a == b
  }

  lemma LayersAreOrdered(layers: seq<Layer>)
    requires DistinctLayers(layers)
    ensures IsOrder(ByPrecedence) && Separates(layers, ByPrecedence)
  {
    forall x, y ensures ByPrecedence(x, y) || ByPrecedence(y, x) { AtMostTotal(x.id, y.id); }
    forall x, y, z | ByPrecedence(x, y) && ByPrecedence(y, z)
      ensures ByPrecedence(x, z)
    {
      if x.precedence == y.precedence && y.precedence == z.precedence { AtMostTransitive(x.id, y.id, z.id); }
    }
    forall x, y | x in layers && y in layers && ByPrecedence(x, y) && ByPrecedence(y, x)
      ensures x == y
    {
      AtMostAntisymmetric(x.id, y.id);
    }
  }

  lemma WaiversAreOrdered(waivers: seq<Waiver>)
    requires DistinctWaivers(waivers)
    ensures IsOrder(ByWaiverId) && Separates(waivers, ByWaiverId)
  {
    forall x, y ensures ByWaiverId(x, y) || ByWaiverId(y, x) { AtMostTotal(x.id, y.id); }
    forall x, y, z | ByWaiverId(x, y) && ByWaiverId(y, z) ensures ByWaiverId(x, z) { AtMostTransitive(x.id, y.id, z.id); }
    forall x, y | x in waivers && y in waivers && ByWaiverId(x, y) && ByWaiverId(y, x)
      ensures x == y
    {
      AtMostAntisymmetric(x.id, y.id);
    }
  }

  /** The order in which layers and waivers are listed changes nothing, the trace included. */
  lemma OrderIsIrrelevant(layers: seq<Layer>, layers': seq<Layer>, waivers: seq<Waiver>, waivers': seq<Waiver>)
    requires multiset(layers) == multiset(layers') && multiset(waivers) == multiset(waivers')
    requires DistinctLayers(layers) && DistinctWaivers(waivers)
    ensures DeriveRules(layers, waivers) == DeriveRules(layers', waivers')
  {
    hide IsOrder, Separates, Sort, WaiveAll, DefineAll, AllDefinitions;
    LayersAreOrdered(layers);
    WaiversAreOrdered(waivers);
    SortForgetsOrder(layers, layers', ByPrecedence);
    SortForgetsOrder(waivers, waivers', ByWaiverId);
  }

  // ---- Before the waivers ----

  /** `trace.filter(...)`: what layers said, refusals left out. */
  function AcceptedLayerEntries(trace: seq<TraceEntry>): seq<TraceEntry> {
    if |trace| == 0 then [] else
    var n := |trace| - 1;
    var front := AcceptedLayerEntries(trace[..n]);
    if trace[n].source.FromLayer? && trace[n].outcome != RefusedLocked then front + [trace[n]] else front
  }

  /** The value a rule had before its waiver, when a waiver decided it, read off its trace alone. */
  function BeforeWaiver(w: Working): Option<Json> {
    if !w.source.FromWaiver? then None else
    var entries := AcceptedLayerEntries(w.trace);
    if |entries| == 0 then None else Some(entries[|entries| - 1].value)
  }

  lemma {:induction false} LastAccepted(trace: seq<TraceEntry>, i: nat)
    requires i < |trace| && trace[i].source.FromLayer? && trace[i].outcome != RefusedLocked
    requires forall j | i < j < |trace| :: !trace[j].source.FromLayer? || trace[j].outcome == RefusedLocked
    ensures var entries := AcceptedLayerEntries(trace);
            |entries| > 0 && entries[|entries| - 1] == trace[i]
  {
    if i < |trace| - 1 {
      LastAccepted(trace[..|trace| - 1], i);
    }
  }

  /** The trace remembers the decision of the layers. */
  lemma TraceRemembersLayers(own: seq<Definition>, waivers: seq<Waiver>)
    requires |own| > 0
    ensures BeforeWaiver(Decide(own, waivers)) == if |waivers| == 0 then None else Some(Decide(own, []).value)
  {
    if |waivers| > 0 {
      var w, k := Decide(own, waivers), Deciding(own);
      assert w.trace[k] == DefinitionEntry(own, k, k, true);
      forall j | k < j < |w.trace|
        ensures !w.trace[j].source.FromLayer? || w.trace[j].outcome == RefusedLocked
      {
        if j < |own| {
          assert w.trace[j] == DefinitionEntry(own, j, k, true);
        } else {
          assert w.trace[j] == WaiverEntry(waivers, j - |own|);
        }
      }
      LastAccepted(w.trace, k);
    }
  }

  /**
   * Reading the trace back gives the value of another derivation, the one without any
   * waiver; a rule no waiver decided already has that value.
   */
  lemma BeforeWaiverIsUnwaived(layers: seq<Layer>, waivers: seq<Waiver>, id: string)
    requires id in DeriveRules(layers, waivers)
    ensures id in DeriveRules(layers, [])
    ensures var w, without := DeriveRules(layers, waivers)[id], DeriveRules(layers, [])[id];
            if w.source.FromWaiver? then BeforeWaiver(w) == Some(without.value)
            else BeforeWaiver(w) == None && w.value == without.value
  {
    hide DeriveRules, OwnDefinitions, OwnWaivers;
    DerivationRefines(layers, waivers, id);
    DerivationRefines(layers, [], id);
    NoWaivers(id);
    TraceRemembersLayers(OwnDefinitions(layers, id), OwnWaivers(waivers, id));
  }

  lemma NoWaivers(id: string)
    ensures OwnWaivers([], id) == []
  {}

  /** A rule decided by a waiver names one of the waivers given. */
  lemma {:induction false} WaiversOfAreGiven(waivers: seq<Waiver>, id: string)
    ensures forall w | w in WaiversOf(waivers, id) :: w in waivers
  {
    if |waivers| > 0 {
      WaiversOfAreGiven(waivers[..|waivers| - 1], id);
    }
  }

  lemma WaiverSourceIsGiven(layers: seq<Layer>, waivers: seq<Waiver>, id: string)
    requires id in DeriveRules(layers, waivers) && DeriveRules(layers, waivers)[id].source.FromWaiver?
    ensures exists w :: w in waivers && w.rule == id && FromWaiver(w.id) == DeriveRules(layers, waivers)[id].source
  {
    hide DeriveRules, OwnDefinitions, Sort;
    DerivationRefines(layers, waivers, id);
    var own := OwnWaivers(waivers, id);
    WaiversOfAreGiven(Sort(waivers, ByWaiverId), id);
    SortPermutes(waivers, ByWaiverId);
    SameElements(Sort(waivers, ByWaiverId), waivers);
    assert own[|own| - 1] in own;
  }

  // ---- A context as a document ----

  datatype Context = Context(layers: seq<Layer>, waivers: seq<Waiver>, effective: seq<EffectiveRule>)

  function LayerIds(layers: seq<Layer>): seq<string> { Lists.Map((l: Layer) => l.id, layers) }

  function WaiverIds(waivers: seq<Waiver>): seq<string> { Lists.Map((w: Waiver) => w.id, waivers) }

  function RuleIds(rules: seq<ContextRule>): seq<string> { Lists.Map((r: ContextRule) => r.id, rules) }

  /** The waiver ends at a real instant and a person approved it. */
  predicate IsGranted(w: Waiver) {
    IsRealTimestamp(w.expiresAt) && w.approvedBy.Human?
  }

  /** What validation accepts: unique ids, waivers granted, nothing to report, and `effective` as recomputed. */
  ghost predicate IsAccepted(context: Context) {
    && NoRepeat(LayerIds(context.layers))
    && NoRepeat(WaiverIds(context.waivers))
    && (forall i | 0 <= i < |context.layers| :: NoRepeat(RuleIds(context.layers[i].rules)))
    && (forall i | 0 <= i < |context.waivers| :: IsGranted(context.waivers[i]))
    && IsSound(context.layers, context.waivers)
    && context.effective == ListRules(DeriveRules(context.layers, context.waivers))
  }

  datatype ContextFault =
    | DuplicateItemId(id: string)
    | UnrealExpiry(waiver: string)
    | AgentCannotDecide(waiver: string)
    | ActorCannotDecide(waiver: string)
    | Underivable(error: ContextError)
    | NotReproducible

  /** Reports nothing exactly on accepted contexts: ids, waivers, then the derivation, recomputed and compared. */
  method ValidateContext(context: Context) returns (found: seq<ContextFault>)
    ensures found == [] <==> IsAccepted(context)
  {
    hide IsSound, DeriveRules, ListRules, NoRepeat, IsRealTimestamp;
    var layers := UniqueIds(LayerIds(context.layers));
    var waivers := UniqueIds(WaiverIds(context.waivers));
    found := Lists.Map(id => DuplicateItemId(id), layers + waivers);
    ghost var before := found == [];
    for i := 0 to |context.layers|
      invariant found == [] <==> before && forall k | 0 <= k < i :: NoRepeat(RuleIds(context.layers[k].rules))
    {
      var twice := UniqueIds(RuleIds(context.layers[i].rules));
      found := found + Lists.Map(id => DuplicateItemId(id), twice);
    }
    ghost var unique := found == [];
    for i := 0 to |context.waivers|
      invariant found == [] <==> unique && forall k | 0 <= k < i :: IsGranted(context.waivers[k])
    {
      var w := context.waivers[i];
      if !IsRealTimestamp(w.expiresAt) {
        found := found + [UnrealExpiry(w.id)];
      }
      if w.approvedBy.AiAgent? {
        found := found + [AgentCannotDecide(w.id)];
      } else if !w.approvedBy.Human? {
        found := found + [ActorCannotDecide(w.id)];
      }
    }
    var effective, errors := DeriveEffectiveRules(context.layers, context.waivers);
    found := found + Lists.Map(e => Underivable(e), errors);
    if effective != context.effective {
      found := found + [NotReproducible];
    }
  }

  lemma AcceptedRuleIsDerived(context: Context, i: nat)
    requires IsAccepted(context) && i < |context.effective|
    ensures var e := context.effective[i];
            e.rule in DeriveRules(context.layers, context.waivers) && e.working == DeriveRules(context.layers, context.waivers)[e.rule]
  {
    hide DeriveRules, IsSound;
    var rules := DeriveRules(context.layers, context.waivers);
    assert SortedKeys(rules.Keys)[i] in SortedKeys(rules.Keys);
  }
}
