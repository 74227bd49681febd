/**
 The depth-first search that rejects cyclic pass orderings.

 `must_run_after` and `must_run_before` of all passes together give one graph.
 The search accepts exactly the graphs that have a topological rank, and what it
 reports on a refusal is a cycle of that graph.
 */
module DependencyCycles {
  import opened Results
  import opened OptimizerRecipes

  /** `u` has to run before `v`. */
  ghost predicate Edge(passes: map<string, Pass>, u: string, v: string) {
    u in passes && v in passes && (u in passes[v].mustRunAfter || v in passes[u].mustRunBefore)
  }

  /** A rank that every ordering requirement increases. */
  ghost predicate IsRank(passes: map<string, Pass>, rank: map<string, nat>) {
    && passes.Keys <= rank.Keys
    && forall u, v :: Edge(passes, u, v) ==> rank[u] < rank[v]
  }

  ghost predicate IsWalk(passes: map<string, Pass>, walk: seq<string>) {
    forall k :: 0 <= k < |walk| - 1 ==> Edge(passes, walk[k], walk[k + 1])
  }

  /** A walk of at least one edge that ends where it began. */
  ghost predicate IsCycle(passes: map<string, Pass>, walk: seq<string>) {
    |walk| >= 2 && walk[0] == walk[|walk| - 1] && IsWalk(passes, walk)
  }

  /** The references the loader has already checked when it calls the search. */
  ghost predicate ReferencesKnown(passes: map<string, Pass>) {
    forall id :: id in passes ==> passes[id].mustRunAfter + passes[id].mustRunBefore <= passes.Keys
  }

  lemma {:induction false} RankRisesAlongWalk(passes: map<string, Pass>, rank: map<string, nat>, walk: seq<string>)
    requires IsRank(passes, rank) && |walk| >= 2 && IsWalk(passes, walk)
    ensures walk[0] in rank && walk[|walk| - 1] in rank && rank[walk[0]] < rank[walk[|walk| - 1]]
  {
    assert Edge(passes, walk[0], walk[1]);
    if |walk| > 2 {
      forall k | 0 <= k < |walk| - 2 ensures Edge(passes, walk[1..][k], walk[1..][k + 1]) {
        assert Edge(passes, walk[k + 1], walk[k + 2]);
      }
      RankRisesAlongWalk(passes, rank, walk[1..]);
    }
  }

  /** No ordering of the passes can satisfy requirements that contain a cycle. */
  lemma CycleHasNoRank(passes: map<string, Pass>, walk: seq<string>)
    requires IsCycle(passes, walk)
    ensures forall rank :: !IsRank(passes, rank)
  {
    forall rank ensures !IsRank(passes, rank) {
      if IsRank(passes, rank) {
        RankRisesAlongWalk(passes, rank, walk);
      }
    }
  }

  /** The edges the passes in `done` ask for. */
  ghost predicate EdgeFrom(passes: map<string, Pass>, done: set<string>, u: string, v: string) {
    && u in passes && v in passes
    && ((v in done && u in passes[v].mustRunAfter) || (u in done && v in passes[u].mustRunBefore))
  }

  function Elements(ids: seq<string>): set<string> {
    set id | id in ids
  }

  lemma ElementsGrow(ids: seq<string>, i: nat)
    requires i < |ids|
    ensures ids[i] in Elements(ids) && Elements(ids[..i + 1]) == Elements(ids[..i]) + {ids[i]}
  {
    assert ids[..i + 1] == ids[..i] + [ids[i]];
  }

  lemma ElementsOfAll(ids: seq<string>)
    ensures Elements(ids[..|ids|]) == Elements(ids) && Elements(ids[..0]) == {}
  {
    assert ids[..|ids|] == ids;
  }

  ghost predicate EntryShows(passes: map<string, Pass>, done: set<string>, edges: map<string, set<string>>, u: string,
          v: string)
  {
    u in edges ==> (v in edges[u] <==> EdgeFrom(passes, done, u, v))
  }

  /** The table holds the edges that the passes in `done` ask for. */
  ghost predicate TableShows(passes: map<string, Pass>, done: set<string>, edges: map<string, set<string>>) {
    edges.Keys == passes.Keys
    && forall u, v {:trigger EntryShows(passes, done, edges, u, v)} :: EntryShows(passes, done, edges, u, v)
  }

  ghost predicate IsEntry(passes: map<string, Pass>, edges: map<string, set<string>>, u: string, v: string) {
    u in edges ==> (v in edges[u] <==> Edge(passes, u, v))
  }

  /** For every pass, the passes that have to run after it. */
  ghost predicate IsTable(passes: map<string, Pass>, edges: map<string, set<string>>) {
    edges.Keys == passes.Keys && forall u, v {:trigger IsEntry(passes, edges, u, v)} :: IsEntry(passes, edges, u, v)
  }

  lemma TableIsComplete(passes: map<string, Pass>, edges: map<string, set<string>>)
    requires TableShows(passes, passes.Keys, edges)
    ensures IsTable(passes, edges)
  {
    forall u, v ensures IsEntry(passes, edges, u, v) {
      assert EntryShows(passes, passes.Keys, edges, u, v);
    }
  }

  /** The edge table: for every pass, the passes that have to run after it. */
  method BuildEdges(passes: map<string, Pass>, ids: seq<string>) returns (edges: map<string, set<string>>)
    requires ReferencesKnown(passes) && Elements(ids) == passes.Keys
    ensures IsTable(passes, edges)
  {
    edges := map id | id in passes :: {};
    ElementsOfAll(ids);
    for i := 0 to |ids|
      invariant TableShows(passes, Elements(ids[..i]), edges)
    {
      ElementsGrow(ids, i);
      edges := AddRequirements(passes, Elements(ids[..i]), edges, ids[i]);
    }
    TableIsComplete(passes, edges);
  }

  /** One pass's two reference lists, added entry by entry. */
  method AddRequirements(passes: map<string, Pass>, ghost done: set<string>, before: map<string, set<string>>,
          id: string)
    returns (edges: map<string, set<string>>)
    requires ReferencesKnown(passes) && id in passes && TableShows(passes, done, before)
    ensures TableShows(passes, done + {id}, edges)
  {
    var pass := passes[id];
    edges := before;
    var dependencies := pass.mustRunAfter;
    ghost var others: set<string> := {};
    while dependencies != {}
      invariant dependencies <= pass.mustRunAfter && others == pass.mustRunAfter - dependencies
      invariant HasAdded(before, edges, id, others)
    {
      var dependency :| dependency in dependencies;
      AddOne(before, edges, id, others, dependency);
      edges := edges[dependency := edges[dependency] + {id}];
      dependencies, others := dependencies - {dependency}, others + {dependency};
    }
    assert others == pass.mustRunAfter;
    RequirementsShow(passes, done, before, edges, id);
    edges := edges[id := edges[id] + pass.mustRunBefore];
  }

  ghost predicate Added(before: map<string, set<string>>, edges: map<string, set<string>>, id: string,
          others: set<string>, u: string, v: string)
  {
    u in edges && u in before ==> (v in edges[u] <==> v in before[u] || (v == id && u in others))
  }

  /** The pass has been added to the entries of these others, and to no more. */
  ghost predicate HasAdded(before: map<string, set<string>>, edges: map<string, set<string>>, id: string,
          others: set<string>)
  {
    edges.Keys == before.Keys
    && forall u, v {:trigger Added(before, edges, id, others, u, v)} :: Added(before, edges, id, others, u, v)
  }

  lemma AddOne(before: map<string, set<string>>, edges: map<string, set<string>>, id: string, others: set<string>,
          other: string)
    requires HasAdded(before, edges, id, others) && other in edges
    ensures HasAdded(before, edges[other := edges[other] + {id}], id, others + {other})
  {
    var more := edges[other := edges[other] + {id}];
    forall u, v ensures Added(before, more, id, others + {other}, u, v) {
      assert Added(before, edges, id, others, u, v);
    }
  }

  lemma RequirementsShow(passes: map<string, Pass>, done: set<string>, before: map<string, set<string>>,
          edges: map<string, set<string>>, id: string)
    requires ReferencesKnown(passes) && id in passes && TableShows(passes, done, before)
    requires HasAdded(before, edges, id, passes[id].mustRunAfter)
    ensures TableShows(passes, done + {id}, edges[id := edges[id] + passes[id].mustRunBefore])
  {
    var all := edges[id := edges[id] + passes[id].mustRunBefore];
    forall u, v ensures EntryShows(passes, done + {id}, all, u, v) {
      assert EntryShows(passes, done, before, u, v) && Added(before, edges, id, passes[id].mustRunAfter, u, v);
      if u in all && u != id {
        assert all[u] == edges[u];
      }
    }
  }

  ghost predicate BehindOthers(passes: map<string, Pass>, finished: seq<string>, k: nat)
    requires k < |finished|
  {
    forall v :: Edge(passes, finished[k], v) ==> v in finished[..k]
  }

  /** No pass is finished twice, and each after all that have to run behind it. */
  ghost predicate FinishedInOrder(passes: map<string, Pass>, finished: seq<string>) {
    && (forall i, j :: 0 <= i < j < |finished| ==> finished[i] != finished[j])
    && forall k: nat {:trigger BehindOthers(passes, finished, k)} ::
         k < |finished| ==> BehindOthers(passes, finished, k)
  }

  lemma FinishOne(passes: map<string, Pass>, finished: seq<string>, id: string)
    requires FinishedInOrder(passes, finished) && id !in finished && forall v :: Edge(passes, id, v) ==> v in finished
    ensures FinishedInOrder(passes, finished + [id]) && Elements(finished + [id]) == Elements(finished) + {id}
  {
    var more := finished + [id];
    forall k: nat | k < |more| ensures BehindOthers(passes, more, k) {
      assert k < |finished| ==> BehindOthers(passes, finished, k);
      assert more[..k] == finished[..k];
    }
  }

  lemma WalkGoesOn(passes: map<string, Pass>, stack: seq<string>, id: string, successor: string)
    requires IsWalk(passes, stack + [id]) && Edge(passes, id, successor)
    ensures IsWalk(passes, stack + [id] + [successor]) && Elements(stack + [id]) == Elements(stack) + {id}
  {
    var chain := stack + [id];
    assert forall k :: 0 <= k < |chain| ==> (chain + [successor])[k] == chain[k];
  }

  /** A walk that comes back to where it was contains a cycle. */
  lemma WalkCloses(passes: map<string, Pass>, stack: seq<string>, id: string)
    requires IsWalk(passes, stack + [id]) && id in Elements(stack)
    ensures exists walk :: IsCycle(passes, walk) && walk[0] == id
  {
    var k :| 0 <= k < |stack| && stack[k] == id;
    assert IsCycle(passes, (stack + [id])[k..]);
  }

  /** The two sets the nested function `visit` shares with its caller. */
  class Search {
    const edges: map<string, set<string>>
    ghost const passes: map<string, Pass>
    var visiting: set<string>
    var visited: set<string>
    ghost var finished: seq<string>

    constructor (passes: map<string, Pass>, edges: map<string, set<string>>)
      ensures this.edges == edges && this.passes == passes
      ensures visiting == {} && visited == {} && finished == []
    {
      this.edges := edges;
      this.passes := passes;
      visiting, visited, finished := {}, {}, [];
    }

    /** Finished passes come in an order in which every successor was finished earlier. */
    ghost predicate Valid()
      reads this
    {
      && IsTable(passes, edges) && visiting + visited <= edges.Keys
      && visiting !! visited && Elements(finished) == visited && FinishedInOrder(passes, finished)
    }

    /** `stack` is the chain of calls in progress; it leads to `id`. */
    ghost predicate Entered(stack: seq<string>, id: string)
      reads this
    {
      Elements(stack) == visiting && IsWalk(passes, stack + [id])
    }

    method Visit(id: string, ghost stack: seq<string>) returns (r: Result<(), string>)
      requires Valid() && id in edges && Entered(stack, id)
      modifies this
      ensures r.Ok? ==> Valid() && visiting == old(visiting) && old(visited) + {id} <= visited
      ensures r.Err? ==> exists walk :: IsCycle(passes, walk) && walk[0] == r.error
      decreases edges.Keys - visiting
    {
      if id in visiting {
        WalkCloses(passes, stack, id);
        return Err(id);
      }
      if id in visited {
        return Ok(());
      }
      ghost var chain := stack + [id];
      visiting := visiting + {id};
      var remaining := edges[id];
      while remaining != {}
        invariant Valid() && visiting == old(visiting) + {id} == Elements(chain) && old(visited) <= visited
        invariant remaining <= edges[id] && edges[id] - remaining <= visited
        decreases remaining
      {
        var successor :| successor in remaining;
        assert IsEntry(passes, edges, id, successor);
        WalkGoesOn(passes, stack, id, successor);
        r := Visit(successor, chain);
        if r.Err? {
          return;
        }
        remaining := remaining - {successor};
      }
      forall v | Edge(passes, id, v) ensures v in finished {
        assert IsEntry(passes, edges, id, v);
        assert v in Elements(finished);
      }
      FinishOne(passes, finished, id);
      visiting := visiting - {id};
      visited := visited + {id};
      finished := finished + [id];
      r := Ok(());
    }
  }

  /** Post-order positions, read backwards, rank the passes. */
  lemma FinishedOrderRanks(passes: map<string, Pass>, finished: seq<string>)
    requires Elements(finished) == passes.Keys && FinishedInOrder(passes, finished)
    ensures exists rank :: IsRank(passes, rank)
  {
    var rank: map<string, nat> := map k | 0 <= k < |finished| :: finished[k] := |finished| - k;
    assert passes.Keys <= rank.Keys by {
      forall id | id in passes ensures id in rank {
        assert id in Elements(finished);
        var k :| 0 <= k < |finished| && finished[k] == id;
      }
    }
    forall u, v | Edge(passes, u, v) ensures rank[u] < rank[v] {
      assert u in rank.Keys && v in rank.Keys;
      var k :| 0 <= k < |finished| && finished[k] == u;
      assert BehindOthers(passes, finished, k);
      var l :| 0 <= l < k && finished[l] == v;
      assert rank[u] == |finished| - k && rank[v] == |finished| - l;
    }
    assert IsRank(passes, rank);
  }

  /** The whole check: it accepts exactly the orderings some schedule of all passes satisfies. */
  method CheckDependencyCycles(passes: map<string, Pass>, ids: seq<string>) returns (r: Result<(), string>)
    requires ReferencesKnown(passes) && Elements(ids) == passes.Keys
    ensures r.Ok? <==> exists rank :: IsRank(passes, rank)
    ensures r.Err? ==> exists walk :: IsCycle(passes, walk) && walk[0] == r.error
  {
    var edges := BuildEdges(passes, ids);
    var search := new Search(passes, edges);
    for i := 0 to |ids|
      invariant search.Valid() && search.visiting == {} && Elements(ids[..i]) <= search.visited
    {
      ElementsGrow(ids, i);
      r := search.Visit(ids[i], []);
      if r.Err? {
        ghost var walk :| IsCycle(passes, walk) && walk[0] == r.error;
        CycleHasNoRank(passes, walk);
        return;
      }
    }
    ElementsOfAll(ids);
    FinishedOrderRanks(passes, search.finished);
    r := Ok(());
  }
}
