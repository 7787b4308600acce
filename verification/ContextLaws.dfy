/**
 * The value of an effective rule, from the precedences of the layers and the ids of the
 * waivers alone: no sorting, no fold.
 */
module ContextLaws {
  import opened Wrappers
  import opened Text
  import opened Json
  import opened Sorting
  import opened Lists
  import opened EffectiveContext

  /** The layer defines the rule so. */
  ghost predicate IsDefinedIn(layers: seq<Layer>, l: Layer, r: ContextRule, id: string) {
    l in layers && r in l.rules && r.id == id
  }

  /** No layer defines a rule twice. */
  ghost predicate NoRuleTwice(layers: seq<Layer>) {
    forall l | l in layers :: NoRepeat(RuleIds(l.rules))
  }

  /** The definition that decides: the locked one of least precedence or, when none is locked, the one of greatest precedence. */
  ghost predicate IsDecisive(layers: seq<Layer>, l: Layer, r: ContextRule, id: string) {
    && IsDefinedIn(layers, l, r, id)
    && if r.locked then forall m, q | IsDefinedIn(layers, m, q, id) && q.locked :: l.precedence <= m.precedence
       else forall m, q | IsDefinedIn(layers, m, q, id) :: !q.locked && m.precedence <= l.precedence
  }

  // ---- The definitions of a rule, one for each layer that has one ----

  /** `own` lists the definitions of the rule in layers at increasing positions. */
  ghost predicate IsListing(layers: seq<Layer>, id: string, own: seq<Definition>, at: seq<nat>) {
    && |at| == |own|
    && (forall k | 0 <= k < |at| :: at[k] < |layers| && own[k].layer == layers[at[k]].id && IsDefinedIn(layers, layers[at[k]], own[k].rule, id))
    && (forall j, k | 0 <= j < k < |at| :: at[j] < at[k])
    && forall i, r | 0 <= i < |layers| && r in layers[i].rules && r.id == id :: exists k :: 0 <= k < |at| && at[k] == i && own[k].rule == r
  }

  lemma {:induction false} DefinitionsConcat(a: seq<Definition>, b: seq<Definition>, id: string)
    ensures DefinitionsOf(a + b, id) == DefinitionsOf(a, id) + DefinitionsOf(b, id)
  {
    if |b| == 0 {
      assert a + b == a;
    } else {
      assert (a + b)[..|a + b| - 1] == a + b[..|b| - 1];
      DefinitionsConcat(a, b[..|b| - 1], id);
    }
  }

  /** A layer that names no rule twice gives the rule at most one definition. */
  lemma {:induction false} OneOfLayer(definitions: seq<Definition>, id: string)
    requires forall i, j | 0 <= i < j < |definitions| :: definitions[i].rule.id != definitions[j].rule.id
    ensures |DefinitionsOf(definitions, id)| <= 1
    ensures forall d :: d in DefinitionsOf(definitions, id) <==> d in definitions && d.rule.id == id
  {
    if |definitions| > 0 {
      var n := |definitions| - 1;
      OneOfLayer(definitions[..n], id);
      assert definitions == definitions[..n] + [definitions[n]];
      if DefinitionsOf(definitions[..n], id) != [] {
        assert DefinitionsOf(definitions[..n], id)[0] in DefinitionsOf(definitions[..n], id);
      }
    }
  }

  lemma OfLayer(layer: Layer, id: string)
    requires NoRepeat(RuleIds(layer.rules))
    ensures var own := DefinitionsOf(DefinitionsOfLayer(layer), id);
            |own| <= 1 && (forall r | r in layer.rules && r.id == id :: own == [Definition(layer.id, r)]) &&
            forall d | d in own :: d.layer == layer.id && d.rule in layer.rules && d.rule.id == id
  {
    hide DefinitionsOf;
    var all := DefinitionsOfLayer(layer);
    forall i, j | 0 <= i < j < |all| ensures all[i].rule.id != all[j].rule.id {
      assert RuleIds(layer.rules)[i] != RuleIds(layer.rules)[j];
    }
    OneOfLayer(all, id);
    var own := DefinitionsOf(all, id);
    forall r | r in layer.rules && r.id == id ensures own == [Definition(layer.id, r)] {
      var k :| 0 <= k < |layer.rules| && layer.rules[k] == r;
      assert all[k] in all && all[k] == Definition(layer.id, r) && all[k] in own;
    }
  }

  lemma {:induction false} OwnAreListed(layers: seq<Layer>, id: string) returns (at: seq<nat>)
    requires NoRuleTwice(layers)
    ensures IsListing(layers, id, DefinitionsOf(AllDefinitions(layers), id), at)
  {
    hide DefinitionsOf, DefinitionsOfLayer, NoRepeat, RuleIds;
    if |layers| == 0 {
      at := [];
      assert DefinitionsOf([], id) == [] by { NoDefinitions(id); }
    } else {
      var n := |layers| - 1;
      var front, last := layers[..n], layers[n];
      var before := OwnAreListed(front, id);
      DefinitionsConcat(AllDefinitions(front), DefinitionsOfLayer(last), id);
      OfLayer(last, id);
      var own := DefinitionsOf(DefinitionsOfLayer(last), id);
      at := if own == [] then before else before + [n];
      ListingStep(layers, id, DefinitionsOf(AllDefinitions(front), id), before, own);
    }
  }

  lemma NoDefinitions(id: string)
    ensures DefinitionsOf([], id) == []
  {}

  lemma ListingStep(layers: seq<Layer>, id: string, own: seq<Definition>, at: seq<nat>, more: seq<Definition>)
    requires |layers| > 0 && |more| <= 1 && IsListing(layers[..|layers| - 1], id, own, at)
    requires var last := layers[|layers| - 1];
             (forall r | r in last.rules && r.id == id :: more == [Definition(last.id, r)]) &&
             forall d | d in more :: d.layer == last.id && d.rule in last.rules && d.rule.id == id
    ensures IsListing(layers, id, own + more, if more == [] then at else at + [|layers| - 1])
  {
    var n := |layers| - 1;
    var front, last := layers[..n], layers[n];
    var all := if more == [] then at else at + [n];
    if more != [] { assert more[0] in more; }
    forall i, r | 0 <= i < |layers| && r in layers[i].rules && r.id == id
      ensures exists k :: 0 <= k < |all| && all[k] == i && (own + more)[k].rule == r
    {
      if i < n {
        assert front[i] == layers[i];
        var k :| 0 <= k < |at| && at[k] == i && own[k].rule == r;
        assert all[k] == i && (own + more)[k].rule == r;
      } else {
        assert all[|at|] == i && (own + more)[|at|].rule == r;
      }
    }
  }

  // ---- Precedence ----

  /** Increasing precedences. */
  ghost predicate Ascends(layers: seq<Layer>) {
    forall i, j | 0 <= i < j < |layers| :: layers[i].precedence < layers[j].precedence
  }

  /** Where the decisive definition is among those of the rule. */
  lemma DecisiveIsListed(layers: seq<Layer>, id: string, own: seq<Definition>, at: seq<nat>, l: Layer, r: ContextRule) returns (k: nat)
    requires IsListing(layers, id, own, at) && IsDefinedIn(layers, l, r, id)
    ensures k < |own| && own[k] == Definition(l.id, r) && at[k] < |layers| && layers[at[k]] == l
  {
    var i :| 0 <= i < |layers| && layers[i] == l;
    k :| 0 <= k < |at| && at[k] == i && own[k].rule == r;
  }

  lemma PrecedencesFollow(layers: seq<Layer>, id: string, own: seq<Definition>, at: seq<nat>, j: nat, k: nat)
    requires Ascends(layers) && IsListing(layers, id, own, at) && j < |own| && k < |own|
    requires layers[at[j]].precedence <= layers[at[k]].precedence
    ensures j <= k
  {}

  /** The decisive definition is the one that the fold decides by. */
  lemma DecisiveIsDeciding(layers: seq<Layer>, id: string, own: seq<Definition>, at: seq<nat>, l: Layer, r: ContextRule)
    requires Ascends(layers) && IsListing(layers, id, own, at) && IsDecisive(layers, l, r, id)
    ensures |own| > 0 && own[Deciding(own)] == Definition(l.id, r)
  {
    hide Ascends;
    var k := DecisiveIsListed(layers, id, own, at, l, r);
    var d := Deciding(own);
    assert IsDefinedIn(layers, layers[at[d]], own[d].rule, id);
    if r.locked {
      assert d <= k;
      if own[d].rule.locked { PrecedencesFollow(layers, id, own, at, k, d); }
    } else {
      assert !own[d].rule.locked && d == |own| - 1;
      PrecedencesFollow(layers, id, own, at, d, k);
    }
  }

  lemma SortAscends(layers: seq<Layer>)
    requires DistinctPrecedences(layers)
    ensures Ascends(Sort(layers, ByPrecedence)) && forall l :: l in Sort(layers, ByPrecedence) <==> l in layers
  {
    hide Sort, AtMost;
    var sorted := Sort(layers, ByPrecedence);
    assert DistinctLayers(layers) by {
      forall a, b | a in layers && b in layers && a.precedence == b.precedence ensures a == b {
        var i :| 0 <= i < |layers| && layers[i] == a;
        var j :| 0 <= j < |layers| && layers[j] == b;
      }
    }
    LayersAreOrdered(layers);
    SortSorts(layers, ByPrecedence);
    SortLists(layers, ByPrecedence);
    PrecedencesStayDistinct(layers, sorted);
  }

  function PrecedenceOf(): Layer -> int {
    (l: Layer) => l.precedence
  }

  lemma PrecedencesStayDistinct(layers: seq<Layer>, sorted: seq<Layer>)
    requires DistinctPrecedences(layers) && sorted == Sort(layers, ByPrecedence)
    ensures DistinctPrecedences(sorted)
  {
    hide Sort;
    SortPermutes(layers, ByPrecedence);
    assert NoRepeat(Map(PrecedenceOf(), layers));
    KeysStayDistinct(PrecedenceOf(), layers, sorted);
    forall i, j | 0 <= i < j < |sorted| ensures sorted[i].precedence != sorted[j].precedence {
      assert Map(PrecedenceOf(), sorted)[i] != Map(PrecedenceOf(), sorted)[j];
    }
  }

  ghost predicate IsUnwaived(waivers: seq<Waiver>, id: string) {
    forall w | w in waivers :: w.rule != id
  }

  lemma {:induction false} NoneOfRule(waivers: seq<Waiver>, id: string)
    requires IsUnwaived(waivers, id)
    ensures WaiversOf(waivers, id) == []
  {
    if |waivers| > 0 {
      NoneOfRule(waivers[..|waivers| - 1], id);
    }
  }

  lemma UnwaivedHasNone(waivers: seq<Waiver>, id: string)
    requires IsUnwaived(waivers, id)
    ensures OwnWaivers(waivers, id) == []
  {
    hide Sort;
    SortLists(waivers, ByWaiverId);
    NoneOfRule(Sort(waivers, ByWaiverId), id);
  }

  /**
   * Layers of distinct precedences that define no rule twice: without a waiver, the effective
   * value is that of the locked definition of least precedence or, when none is locked, that
   * of the definition of greatest precedence.
   */
  lemma PrecedenceDecides(layers: seq<Layer>, waivers: seq<Waiver>, id: string, l: Layer, r: ContextRule)
    requires DistinctPrecedences(layers) && NoRuleTwice(layers) && IsUnwaived(waivers, id)
    requires IsDecisive(layers, l, r, id)
    ensures id in DeriveRules(layers, waivers)
    ensures var w := DeriveRules(layers, waivers)[id]; w.value == r.value && w.locked == r.locked && w.source == FromLayer(l.id)
  {
    hide Sort, DeriveRules, AllDefinitions, DefinitionsOf, NoRepeat, IsListing, OwnWaivers;
    var sorted := Sort(layers, ByPrecedence);
    SortAscends(layers);
    var at := OwnAreListed(sorted, id);
    DecisiveIsDeciding(sorted, id, OwnDefinitions(layers, id), at, l, r);
    UnwaivedHasNone(waivers, id);
    DerivationRefines(layers, waivers, id);
  }

  /** Some definition is decisive as soon as there is one: the effective rules are those some layer defines. */
  lemma DefinedIsEffective(layers: seq<Layer>, waivers: seq<Waiver>, id: string)
    requires NoRuleTwice(layers)
    ensures id in DeriveRules(layers, waivers) <==> exists l, r :: IsDefinedIn(layers, l, r, id)
  {
    hide Sort, DeriveRules, AllDefinitions, DefinitionsOf, NoRepeat, OwnWaivers, Decide, IsListing;
    var sorted := Sort(layers, ByPrecedence);
    SortLists(layers, ByPrecedence);
    var at := OwnAreListed(sorted, id);
    DerivationRefines(layers, waivers, id);
    var own := OwnDefinitions(layers, id);
    if own != [] {
      ListedIsDefined(sorted, id, own, at);
      assert IsDefinedIn(layers, sorted[at[0]], own[0].rule, id);
    }
    if l, r :| IsDefinedIn(layers, l, r, id) {
      var k := DecisiveIsListed(sorted, id, own, at, l, r);
      assert own != [];
    }
  }

  lemma ListedIsDefined(layers: seq<Layer>, id: string, own: seq<Definition>, at: seq<nat>)
    requires IsListing(layers, id, own, at) && own != []
    ensures |at| > 0 && at[0] < |layers| && IsDefinedIn(layers, layers[at[0]], own[0].rule, id)
  {}

  // ---- Waivers ----

  /** The waiver of the rule whose id comes last. */
  ghost predicate IsLastWaiver(waivers: seq<Waiver>, w: Waiver, id: string) {
    w in waivers && w.rule == id && forall x | x in waivers && x.rule == id :: AtMost(x.id, w.id)
  }

  /** The last waiver of a rule comes after the others of the rule. */
  lemma {:induction false} LastOfRule(waivers: seq<Waiver>, id: string, k: nat) returns (i: nat)
    requires k < |waivers| && waivers[k].rule == id
    ensures k <= i < |waivers| && waivers[i].rule == id
    ensures var own := WaiversOf(waivers, id); own != [] && own[|own| - 1] == waivers[i]
  {
    var n := |waivers| - 1;
    if waivers[n].rule == id {
      i := n;
    } else {
      i := LastOfRule(waivers[..n], id, k);
    }
  }

  /** With distinct waiver ids, a waived rule has the value of its waiver whose id is greatest in text order, and names it. */
  lemma LastWaiverDecides(layers: seq<Layer>, waivers: seq<Waiver>, id: string, w: Waiver)
    requires DistinctWaivers(waivers) && id in DeriveRules(layers, waivers) && IsLastWaiver(waivers, w, id)
    ensures DeriveRules(layers, waivers)[id].value == w.value && DeriveRules(layers, waivers)[id].source == FromWaiver(w.id)
  {
    hide Sort, DeriveRules, OwnDefinitions, WaiversOf, Deciding, DefinitionEntries, WaiverEntries, AtMost;
    var sorted := Sort(waivers, ByWaiverId);
    SortLists(waivers, ByWaiverId);
    WaiversAreOrdered(waivers);
    SortSorts(waivers, ByWaiverId);
    var k :| 0 <= k < |sorted| && sorted[k] == w;
    var i := LastOfRule(sorted, id, k);
    assert sorted[i] in waivers;
    if k < i {
      assert AtMost(w.id, sorted[i].id) && AtMost(sorted[i].id, w.id);
      AtMostAntisymmetric(w.id, sorted[i].id);
    }
    DerivationRefines(layers, waivers, id);
  }
}
