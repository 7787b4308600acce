/** Dependency cycles between the requirements of a baseline. */
module RequirementBaseline {
  import opened Text
  import opened Sorting
  import opened Graphs

  datatype Requirement = Requirement(id: string, dependsOn: seq<string>)

  type Graph = map<string, seq<string>>

  /** The dependencies by requirement; the last declaration of an id wins. */
  function GraphOf(requirements: seq<Requirement>): (graph: Graph)
    ensures forall r | r in requirements :: r.id in graph
    ensures forall id | id in graph :: exists r :: r in requirements && r.id == id && r.dependsOn == graph[id]
  {
    if |requirements| == 0 then map[] else
    var front := GraphOf(requirements[..|requirements| - 1]);
    var last := requirements[|requirements| - 1];
    front[last.id := last.dependsOn]
  }

  /** The dependencies that are requirements themselves. */
  function Dependencies(graph: Graph): string -> set<string> {
    id => if id in graph then set next | next in graph[id] && next in graph else {}
  }

  /** A reported cycle ends with this dependency, the one that closes it. */
  ghost predicate IsClosing(found: seq<seq<string>>, id: string, next: string) {
    exists cycle :: cycle in found && |cycle| > 1 && cycle[|cycle| - 2] == id && cycle[|cycle| - 1] == next
  }

  /** The dependencies that close no reported cycle. */
  ghost function Remaining(graph: Graph, found: seq<seq<string>>): string -> set<string> {
    id => set next | next in Dependencies(graph)(id) && !IsClosing(found, id, next)
  }

  datatype Mark = Visiting | Done

  /**
   * The marks agree with the search: `trail` is the walk being visited, `finished` lists
   * the requirements that are done, in order of completion.
   */
  ghost predicate Consistent(graph: Graph, state: map<string, Mark>, found: seq<seq<string>>, finished: seq<string>, trail: seq<string>) {
    && state.Keys <= graph.Keys
    && (forall id :: id in state && state[id].Visiting? <==> id in trail)
    && (forall id :: id in state && state[id].Done? <==> id in finished)
    && (forall i, j | 0 <= i < j < |trail| :: trail[i] != trail[j])
    && (trail != [] ==> IsWalk(Dependencies(graph), trail))
    && (forall cycle | cycle in found :: IsClosedWalk(Dependencies(graph), cycle))
    && SuccessorsFirst(Remaining(graph, found), finished)
  }

  /** `id` is a requirement the search may turn to from the end of `trail`. */
  ghost predicate CanVisit(graph: Graph, trail: seq<string>, id: string) {
    id in graph && (trail != [] ==> id in Dependencies(graph)(trail[|trail| - 1]))
  }

  lemma EnterIsConsistent(graph: Graph, state: map<string, Mark>, found: seq<seq<string>>, finished: seq<string>, trail: seq<string>, id: string)
    requires Consistent(graph, state, found, finished, trail) && CanVisit(graph, trail, id) && id !in state
    ensures Consistent(graph, state[id := Visiting], found, finished, trail + [id])
  {}

  /** The part of the trail from `id` on, and back to it. */
  lemma TrailCloses(succ: string -> set<string>, trail: seq<string>, id: string)
    requires IsWalk(succ, trail) && id in trail && id in succ(trail[|trail| - 1])
    ensures var cycle := trail[FirstIndex(trail, id)..] + [id]; IsClosedWalk(succ, cycle) && cycle[|cycle| - 2] == trail[|trail| - 1]
  {}

  lemma LastCloses(found: seq<seq<string>>, cycle: seq<string>)
    requires |cycle| > 1
    ensures IsClosing(found + [cycle], cycle[|cycle| - 2], cycle[|cycle| - 1])
  {
    assert cycle in found + [cycle];
  }

  lemma ReportIsConsistent(graph: Graph, state: map<string, Mark>, found: seq<seq<string>>, finished: seq<string>, trail: seq<string>, id: string)
    requires Consistent(graph, state, found, finished, trail) && CanVisit(graph, trail, id)
    requires id in state && state[id].Visiting?
    ensures id in trail
    ensures Consistent(graph, state, found + [trail[FirstIndex(trail, id)..] + [id]], finished, trail)
    ensures IsClosing(found + [trail[FirstIndex(trail, id)..] + [id]], trail[|trail| - 1], id)
  {
    hide Remaining, Dependencies, IsClosing;
    var cycle := trail[FirstIndex(trail, id)..] + [id];
    TrailCloses(Dependencies(graph), trail, id);
    RemainingShrinks(graph, found, found + [cycle], finished);
    LastCloses(found, cycle);
  }

  /** What closes a reported cycle goes on closing it. */
  lemma RemainingShrinks(graph: Graph, found: seq<seq<string>>, more: seq<seq<string>>, finished: seq<string>)
    requires found <= more && SuccessorsFirst(Remaining(graph, found), finished)
    ensures forall id, next | IsClosing(found, id, next) :: IsClosing(more, id, next)
    ensures SuccessorsFirst(Remaining(graph, more), finished)
  {
    hide Dependencies;
    forall id, next | IsClosing(found, id, next)
      ensures IsClosing(more, id, next)
    {
      var cycle :| cycle in found && |cycle| > 1 && cycle[|cycle| - 2] == id && cycle[|cycle| - 1] == next;
      assert cycle in more;
    }
    forall id ensures Remaining(graph, more)(id) <= Remaining(graph, found)(id) {}
  }

  lemma FinishIsConsistent(graph: Graph, state: map<string, Mark>, found: seq<seq<string>>, finished: seq<string>, trail: seq<string>, id: string)
    requires Consistent(graph, state, found, finished, trail + [id]) && id in graph
    requires forall next | next in Remaining(graph, found)(id) :: next in finished
    ensures Consistent(graph, state[id := Done], found, finished + [id], trail)
  {
    var inner, after := trail + [id], finished + [id];
    assert forall x :: x in inner <==> x in trail || x == id;
    assert forall x :: x in after <==> x in finished || x == id;
    assert inner[|trail|] == id && forall k | 0 <= k < |trail| :: inner[k] == trail[k];
    assert trail != [] ==> IsWalk(Dependencies(graph), trail);
    forall i | 0 <= i < |after|
      ensures forall x | x in Remaining(graph, found)(after[i]) :: x in after[..i]
    {
      assert after[..i] == finished[..i];
      assert i == |finished| ==> finished[..i] == finished;
    }
  }

  lemma NothingSeen(graph: Graph)
    ensures Consistent(graph, map[], [], [], [])
  {}

  /** The depth-first search over the dependencies. */
  class CycleFinder {
    const graph: Graph
    var state: map<string, Mark>
    var found: seq<seq<string>>
    ghost var finished: seq<string>

    constructor (graph: Graph)
      ensures this.graph == graph && state == map[] && found == [] && finished == []
    {
      this.graph := graph;
      state, found, finished := map[], [], [];
    }

    ghost predicate Valid(trail: seq<string>)
      reads this
    {
      Consistent(graph, state, found, finished, trail)
    }

    /** Visits `id`, reached along `trail`: it is done, or the last step to it closes a reported cycle. */
    method Visit(id: string, trail: seq<string>)
      requires Valid(trail) && CanVisit(graph, trail, id)
      modifies this
      ensures Valid(trail)
      ensures id in state && (id in finished || (trail != [] && IsClosing(found, trail[|trail| - 1], id)))
      ensures old(found) <= found && old(finished) <= finished && old(state.Keys) <= state.Keys
      decreases graph.Keys - state.Keys, 0
    {
      if id in state && state[id].Done? {
        return;
      }
      if id in state && state[id].Visiting? {
        ReportIsConsistent(graph, state, found, finished, trail, id);
        found := found + [trail[FirstIndex(trail, id)..] + [id]];
        return;
      }
      hide Consistent;
      EnterIsConsistent(graph, state, found, finished, trail, id);
      state := state[id := Visiting];
      VisitAll(id, trail + [id]);
      FinishIsConsistent(graph, state, found, finished, trail, id);
      state := state[id := Done];
      finished := finished + [id];
    }

    /** Visits the dependencies of the requirement at the end of the trail, in text order. */
    method VisitAll(id: string, trail: seq<string>)
      requires Valid(trail) && id in graph && trail != [] && trail[|trail| - 1] == id && id in state
      modifies this
      ensures Valid(trail)
      ensures forall next | next in Remaining(graph, found)(id) :: next in finished
      ensures old(found) <= found && old(finished) <= finished && old(state.Keys) <= state.Keys
      decreases graph.Keys - state.Keys, 1
    {
      hide Consistent, Sort, IsOrder, AtMost;
      var nexts := Sort(graph[id], AtMost);
      SortPermutes(graph[id], AtMost);
      SameElements(nexts, graph[id]);
      var i := 0;
      while i < |nexts|
        invariant 0 <= i <= |nexts|
        invariant Valid(trail)
        invariant old(found) <= found && old(finished) <= finished && old(state.Keys) <= state.Keys
        invariant forall k | 0 <= k < i && nexts[k] in graph :: nexts[k] in finished || IsClosing(found, id, nexts[k])
      {
        if nexts[i] in graph {
          assert CanVisit(graph, trail, nexts[i]);
          assert graph.Keys - state.Keys <= old(graph.Keys - state.Keys);
          Visit(nexts[i], trail);
        }
        i := i + 1;
      }
      forall next | next in Remaining(graph, found)(id)
        ensures next in finished
      {
        assert next in Dependencies(graph)(id);
        assert next in graph[id] && next in nexts;
        var k :| 0 <= k < |nexts| && nexts[k] == next;
      }
    }
  }

  /** No cycle is missed: every closed walk takes the last dependency of a reported cycle. */
  ghost predicate IsBrokenUp(graph: Graph, found: seq<seq<string>>) {
    forall w | IsClosedWalk(Dependencies(graph), w) :: exists i :: 0 <= i < |w| - 1 && IsClosing(found, w[i], w[i + 1])
  }

  /** Visits every requirement in text order. */
  method FindCycles(graph: Graph) returns (found: seq<seq<string>>)
    ensures forall cycle | cycle in found :: IsClosedWalk(Dependencies(graph), cycle)
    ensures IsBrokenUp(graph, found)
    ensures found == [] <==> Acyclic(Dependencies(graph))
  {
    hide Consistent, Sorted, IsClosedWalk, Acyclic, Dependencies, AtMost, IsBrokenUp, IsClosing;
    NothingSeen(graph);
    var search := new CycleFinder(graph);
    var ids := SortedKeys(graph.Keys);
    var i := 0;
    while i < |ids|
      invariant 0 <= i <= |ids|
      invariant search.graph == graph && search.Valid([])
      invariant forall k | 0 <= k < i :: ids[k] in search.state
    {
      assert CanVisit(graph, [], ids[i]);
      search.Visit(ids[i], []);
      i := i + 1;
    }
    found := search.found;
    SearchIsDecisive(graph, search.state, found, search.finished, ids);
  }

  /**
   * Reports dependency cycles: none exactly when there is none, and otherwise so many that
   * without the last dependency of each no cycle is left.
   */
  method DependencyCycles(requirements: seq<Requirement>) returns (found: seq<seq<string>>)
    ensures forall cycle | cycle in found :: IsClosedWalk(Dependencies(GraphOf(requirements)), cycle)
    ensures IsBrokenUp(GraphOf(requirements), found)
    ensures found == [] <==> Acyclic(Dependencies(GraphOf(requirements)))
  {
    found := FindCycles(GraphOf(requirements));
  }

  /** What a search that has marked every requirement has established. */
  lemma SearchIsDecisive(graph: Graph, state: map<string, Mark>, found: seq<seq<string>>, finished: seq<string>, ids: seq<string>)
    requires Consistent(graph, state, found, finished, [])
    requires forall id | id in graph :: id in ids
    requires forall id | id in ids :: id in state
    ensures found == [] <==> Acyclic(Dependencies(graph))
    ensures IsBrokenUp(graph, found)
    ensures forall cycle | cycle in found :: IsClosedWalk(Dependencies(graph), cycle)
  {
    assert forall id | id in graph :: id in finished;
    assert forall id | id !in graph :: Dependencies(graph)(id) == {};
    assert forall id, next | next in Remaining(graph, found)(id) :: next in Dependencies(graph)(id);
    forall id | id !in finished
      ensures Remaining(graph, found)(id) == {}
    {
      assert id !in graph;
    }
    OrderedIsAcyclic(Remaining(graph, found), finished);
    forall w | IsClosedWalk(Dependencies(graph), w)
      ensures exists i :: 0 <= i < |w| - 1 && IsClosing(found, w[i], w[i + 1])
    {
      assert !IsClosedWalk(Remaining(graph, found), w);
    }
    if found == [] {
      assert forall w :: !IsClosedWalk(Dependencies(graph), w);
    } else {
      assert IsClosedWalk(Dependencies(graph), found[0]);
    }
  }

  /** Every edge of a reported cycle is a declared dependency between declared requirements. */
  lemma CycleEdgesAreDeclared(requirements: seq<Requirement>, cycle: seq<string>)
    requires IsClosedWalk(Dependencies(GraphOf(requirements)), cycle)
    ensures forall i | 0 <= i < |cycle| - 1 ::
              exists r :: r in requirements && r.id == cycle[i] && cycle[i + 1] in r.dependsOn
  {
    var graph := GraphOf(requirements);
    forall i | 0 <= i < |cycle| - 1
      ensures exists r :: r in requirements && r.id == cycle[i] && cycle[i + 1] in r.dependsOn
    {
      assert cycle[i + 1] in Dependencies(graph)(cycle[i]);
      assert cycle[i] in graph && cycle[i + 1] in graph[cycle[i]];
    }
  }
}
