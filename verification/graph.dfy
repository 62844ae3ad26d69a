/**
 * The dependency graph that `useWorkflowMachine` builds from the ordered
 * step list (src/workflow/workflow-factory.ts): one node per declared step,
 * a parent edge to every dependency id that names a step and the matching
 * child edge back, and two lookups, by id (`graphMap`) and by declaration
 * index (`graphIndexMap`).
 *
 * The functions state what the construction produces; the class
 * `DependencyGraph` builds it with the source's loops and its constructor is
 * proved to produce exactly that. Nodes are identified by their declaration
 * index, and edges are lists of indices.
 */
module Graph {
  import opened Wrappers
  import opened RefIds

  /** A step as the workflow receives it; its `process` callback is never invoked and is not kept. */
  datatype StepDefinition = StepDefinition(id: string, deps: seq<string>)

  /** What a graph node holds besides its edges. */
  datatype Node = Node(id: string, refId: string, index: nat)

  predicate DistinctIds(steps: seq<StepDefinition>) {
    forall i, j :: 0 <= i < j < |steps| ==> steps[i].id != steps[j].id
  }

  /**
   * `graphMap`, from each id to the index of its node: `new Map(entries)`
   * keeps the last entry of a repeated id.
   */
  function IdMap(steps: seq<StepDefinition>): (m: map<string, nat>)
    ensures forall id :: id in m ==> m[id] < |steps| && steps[m[id]].id == id
    decreases |steps|
  {
    if steps == [] then map[]
    else
      var last := |steps| - 1;
      IdMap(steps[..last])[steps[last].id := last]
  }

  /** Every step's id is a key of `graphMap`. */
  lemma {:induction false} IdMapHasStep(steps: seq<StepDefinition>, i: nat)
    requires i < |steps|
    ensures steps[i].id in IdMap(steps)
    decreases |steps|
  {
    if i < |steps| - 1 {
      IdMapHasStep(steps[..|steps| - 1], i);
    }
  }

  /** `new Map(entries)` keeps the last entry: no later step has the same id. */
  lemma {:induction false} IdMapLast(steps: seq<StepDefinition>, id: string, j: nat)
    requires id in IdMap(steps) && IdMap(steps)[id] < j < |steps|
    ensures steps[j].id != id
    decreases |steps|
  {
    var last := |steps| - 1;
    if j < last {
      IdMapLast(steps[..last], id, j);
    }
  }

  /** `graphMap.get(id)`, as the index of the node found. */
  function IndexOf(steps: seq<StepDefinition>, id: string): (r: Option<nat>)
    ensures r.Some? ==> r.value < |steps| && steps[r.value].id == id
  {
    var m := IdMap(steps);
    if id in m then Some(m[id]) else None
  }

  /** The node `graphMap.get(step.id)` finds for the `j`-th step: the last step with its id. */
  function Owner(steps: seq<StepDefinition>, j: nat): (o: nat)
    requires j < |steps|
    ensures j <= o < |steps| && steps[o].id == steps[j].id
  {
    IdMapHasStep(steps, j);
    var o := IdMap(steps)[steps[j].id];
    assert j <= o by {
      if o < j {
        IdMapLast(steps, steps[j].id, j);
      }
    }
    o
  }

  /** The nodes that the ids in `deps` name, in order; ids naming no step are dropped. */
  function KnownDeps(steps: seq<StepDefinition>, deps: seq<string>): seq<nat>
    decreases |deps|
  {
    if deps == [] then []
    else
      KnownDeps(steps, deps[..|deps| - 1]) +
      match IndexOf(steps, deps[|deps| - 1])
      case Some(d) => [d]
      case None => []
  }

  /** The child edges into node `g` that node `owner`'s dependency list `deps` adds. */
  function ChildLinks(steps: seq<StepDefinition>, deps: seq<string>, owner: nat, g: nat): seq<nat>
    decreases |deps|
  {
    if deps == [] then []
    else
      ChildLinks(steps, deps[..|deps| - 1], owner, g) +
      if IndexOf(steps, deps[|deps| - 1]) == Some(g) then [owner] else []
  }

  /** The parents of node `g` once the first `j` steps are processed. */
  function ParentsUpTo(steps: seq<StepDefinition>, j: nat, g: nat): (r: seq<nat>)
    requires j <= |steps|
  {
    if j == 0 then []
    else ParentsUpTo(steps, j - 1, g) + if Owner(steps, j - 1) == g then KnownDeps(steps, steps[j - 1].deps) else []
  }

  /** The children of node `g` once the first `j` steps are processed. */
  function ChildrenUpTo(steps: seq<StepDefinition>, j: nat, g: nat): (r: seq<nat>)
    requires j <= |steps|
  {
    if j == 0 then []
    else ChildrenUpTo(steps, j - 1, g) + ChildLinks(steps, steps[j - 1].deps, Owner(steps, j - 1), g)
  }

  /** The keys of `graphIndexMap` once the first `j` steps are processed. */
  function OwnersUpTo(steps: seq<StepDefinition>, j: nat): (r: set<nat>)
    requires j <= |steps|
  {
    if j == 0 then {} else OwnersUpTo(steps, j - 1) + {Owner(steps, j - 1)}
  }

  function Parents(steps: seq<StepDefinition>, g: nat): seq<nat> {
    ParentsUpTo(steps, |steps|, g)
  }

  function Children(steps: seq<StepDefinition>, g: nat): seq<nat> {
    ChildrenUpTo(steps, |steps|, g)
  }

  function Owners(steps: seq<StepDefinition>): set<nat> {
    OwnersUpTo(steps, |steps|)
  }

  // ---------------------------------------------------------------------
  // Properties of the construction
  // ---------------------------------------------------------------------

  /** With distinct ids, `graphMap` maps the id of step `i` to node `i`. */
  lemma IndexOfDistinct(steps: seq<StepDefinition>, i: nat)
    requires DistinctIds(steps) && i < |steps|
    ensures IndexOf(steps, steps[i].id) == Some(i)
    ensures Owner(steps, i) == i
  {
    IdMapHasStep(steps, i);
  }

  /** An id that no step has is not found. */
  lemma IndexOfUnknown(steps: seq<StepDefinition>, id: string)
    requires forall i :: 0 <= i < |steps| ==> steps[i].id != id
    ensures IndexOf(steps, id) == None
  {
  }

  /** A node is a known dependency exactly when some listed id names it: unknown ids add no edge. */
  lemma {:induction false} KnownDepsNamed(steps: seq<StepDefinition>, deps: seq<string>, x: nat)
    ensures x in KnownDeps(steps, deps) <==> exists k :: 0 <= k < |deps| && IndexOf(steps, deps[k]) == Some(x)
    decreases |deps|
  {
    if deps != [] {
      var init := deps[..|deps| - 1];
      KnownDepsNamed(steps, init, x);
      assert forall k :: 0 <= k < |init| ==> init[k] == deps[k];
    }
  }

  /** One step's dependency list adds `d` to the parents of `s` exactly as often as `s` to the children of `d`. */
  lemma {:induction false} LinksMutual(steps: seq<StepDefinition>, deps: seq<string>, owner: nat, s: nat, d: nat)
    ensures multiset(if owner == s then KnownDeps(steps, deps) else [])[d] ==
            multiset(ChildLinks(steps, deps, owner, d))[s]
    decreases |deps|
  {
    if deps != [] {
      LinksMutual(steps, deps[..|deps| - 1], owner, s, d);
    }
  }

  /** One more dependency id extends the known dependencies by the node it names, if any. */
  lemma DepsSnoc(steps: seq<StepDefinition>, deps: seq<string>, k: nat, owner: nat)
    requires k < |deps|
    ensures KnownDeps(steps, deps[..k + 1]) ==
            KnownDeps(steps, deps[..k]) + match IndexOf(steps, deps[k]) case Some(d) => [d] case None => []
    ensures forall g: nat {:trigger ChildLinks(steps, deps[..k + 1], owner, g)} :: ChildLinks(steps, deps[..k + 1], owner, g) == ChildLinks(steps, deps[..k], owner, g) + (if IndexOf(steps, deps[k]) == Some(g) then [owner] else [])
  {
    assert deps[..k + 1][..k] == deps[..k];
  }

  /** Edges are mutual: `d` is among the parents of `s` exactly as often as `s` among the children of `d`. */
  lemma {:induction false} EdgesMutual(steps: seq<StepDefinition>, j: nat, s: nat, d: nat)
    requires j <= |steps|
    ensures multiset(ParentsUpTo(steps, j, s))[d] == multiset(ChildrenUpTo(steps, j, d))[s]
  {
    if j > 0 {
      EdgesMutual(steps, j - 1, s, d);
      LinksMutual(steps, steps[j - 1].deps, Owner(steps, j - 1), s, d);
    }
  }

  /** Every child edge a dependency list adds points back to its owner. */
  lemma {:induction false} ChildLinksOwner(steps: seq<StepDefinition>, deps: seq<string>, owner: nat, g: nat)
    ensures forall x :: x in ChildLinks(steps, deps, owner, g) ==> x == owner
    decreases |deps|
  {
    if deps != [] {
      ChildLinksOwner(steps, deps[..|deps| - 1], owner, g);
    }
  }

  /** Children and `graphIndexMap` keys are nodes of the graph. */
  lemma {:induction false} NodesInRange(steps: seq<StepDefinition>, j: nat, g: nat)
    requires j <= |steps|
    ensures forall x :: x in ChildrenUpTo(steps, j, g) ==> x < |steps|
    ensures forall x :: x in OwnersUpTo(steps, j) ==> x < |steps|
  {
    if j > 0 {
      NodesInRange(steps, j - 1, g);
      ChildLinksOwner(steps, steps[j - 1].deps, Owner(steps, j - 1), g);
    }
  }

  /** `s` is a child of `d` exactly when `d` is a parent of `s`. */
  lemma ChildIffParent(steps: seq<StepDefinition>, s: nat, d: nat)
    ensures s in Children(steps, d) <==> d in Parents(steps, s)
  {
    EdgesMutual(steps, |steps|, s, d);
  }

  /** With distinct ids, the parents of node `g` are the steps its own dependency list names. */
  lemma ParentsDistinct(steps: seq<StepDefinition>, g: nat)
    requires DistinctIds(steps) && g < |steps|
    ensures Parents(steps, g) == KnownDeps(steps, steps[g].deps)
  {
    ParentsSelf(steps, |steps|, g);
  }

  /** With distinct ids, each step owns its own node, so node `g`'s parents come from step `g` alone. */
  lemma {:induction false} ParentsSelf(steps: seq<StepDefinition>, j: nat, g: nat)
    requires DistinctIds(steps) && j <= |steps|
    ensures ParentsUpTo(steps, j, g) == if g < j then KnownDeps(steps, steps[g].deps) else []
  {
    if j > 0 {
      ParentsSelf(steps, j - 1, g);
      IndexOfDistinct(steps, j - 1);
      ParentsStep(steps, j, g);
      var prev := ParentsUpTo(steps, j - 1, g);
      if g == j - 1 {
        var known := KnownDeps(steps, steps[g].deps);
        assert prev == [];
        assert prev + known == known;
      } else {
        assert prev + [] == prev;
      }
    }
  }

  /** Step `j - 1` adds its known dependencies to the parents of its own node only. */
  lemma ParentsStep(steps: seq<StepDefinition>, j: nat, g: nat)
    requires 0 < j <= |steps| && Owner(steps, j - 1) == j - 1
    ensures ParentsUpTo(steps, j, g) == ParentsUpTo(steps, j - 1, g) + if g == j - 1 then KnownDeps(steps, steps[g].deps) else []
  {
  }

  /** With distinct ids, `graphIndexMap` has one key per step: 0 to n - 1. */
  lemma OwnersDistinct(steps: seq<StepDefinition>, j: nat)
    requires DistinctIds(steps) && j <= |steps|
    ensures forall x: nat :: x in OwnersUpTo(steps, j) <==> x < j
    ensures |OwnersUpTo(steps, j)| == j
  {
    OwnersSelf(steps, j);
  }

  /** With distinct ids, each step owns its own node, so the first `j` steps enter the keys 0 to j - 1. */
  lemma {:induction false} OwnersSelf(steps: seq<StepDefinition>, j: nat)
    requires DistinctIds(steps) && j <= |steps|
    ensures forall x: nat :: x in OwnersUpTo(steps, j) <==> x < j
    ensures |OwnersUpTo(steps, j)| == j
  {
    if j > 0 {
      OwnersSelf(steps, j - 1);
      IndexOfDistinct(steps, j - 1);
      var prev := OwnersUpTo(steps, j - 1);
      assert j - 1 !in prev;
      assert OwnersUpTo(steps, j) == prev + {j - 1};
    }
  }

  /**
   * The graph as `useWorkflowMachine` builds it. Its fields never change
   * once the constructor returns.
   */
  class DependencyGraph {
    const steps: seq<StepDefinition>
    const nodes: seq<Node>
    const graphMap: map<string, nat>
    const graphIndexMap: map<nat, nat>
    const parents: array<seq<nat>>
    const children: array<seq<nat>>

    ghost predicate Valid()
      reads this, parents, children
    {
      && |nodes| == |steps| && parents.Length == |steps| && children.Length == |steps|
      && (forall i :: 0 <= i < |steps| ==> nodes[i] == Node(steps[i].id, StepRefId(steps[i].id), i))
      && graphMap == IdMap(steps)
      && graphIndexMap.Keys == Owners(steps)
      && (forall k :: k in graphIndexMap ==> graphIndexMap[k] == k)
      && (forall g :: 0 <= g < |steps| ==> parents[g] == Parents(steps, g) && children[g] == Children(steps, g))
    }

    /**
     * One node per step with `index` its position and `refId` its actor key;
     * then, step by step, each dependency id that names a step pushes a
     * parent edge and the child edge back, and the step's node is entered
     * in `graphIndexMap`.
     */
    constructor (steps: seq<StepDefinition>)
      ensures Valid() && this.steps == steps
      ensures fresh(parents) && fresh(children)
    {
      var n := |steps|;
      var idMap := IdMap(steps);
      var ps, cs, indexMap := BuildEdges(steps, idMap);
      this.steps := steps;
      nodes := seq(n, i requires 0 <= i < n => Node(steps[i].id, StepRefId(steps[i].id), i));
      graphMap := idMap;
      graphIndexMap := indexMap;
      parents := ps;
      children := cs;
    }
  }

  /** `ps` and `cs` hold the parent and child lists once the first `j` steps are processed. */
  ghost predicate Built(steps: seq<StepDefinition>, j: nat, ps: array<seq<nat>>, cs: array<seq<nat>>)
    requires j <= |steps|
    reads ps, cs
  {
    && ps.Length == |steps| && cs.Length == |steps|
    && (forall g :: 0 <= g < |steps| ==> ps[g] == ParentsUpTo(steps, j, g))
    && (forall g :: 0 <= g < |steps| ==> cs[g] == ChildrenUpTo(steps, j, g))
  }

  /**
   * `ps` and `cs` hold the lists once the first `j` steps and the first `k`
   * dependency ids of step `j` are processed.
   */
  ghost predicate Linking(steps: seq<StepDefinition>, j: nat, k: nat, ps: array<seq<nat>>, cs: array<seq<nat>>)
    requires j < |steps| && k <= |steps[j].deps|
    reads ps, cs
  {
    ParentsLinking(steps, j, k, ps) && ChildrenLinking(steps, j, k, cs)
  }

  ghost predicate ParentsLinking(steps: seq<StepDefinition>, j: nat, k: nat, ps: array<seq<nat>>)
    requires j < |steps| && k <= |steps[j].deps|
    reads ps
  {
    && ps.Length == |steps|
    && forall g :: 0 <= g < |steps| ==>
         ps[g] == ParentsUpTo(steps, j, g) + (if g == Owner(steps, j) then KnownDeps(steps, steps[j].deps[..k]) else [])
  }

  ghost predicate ChildrenLinking(steps: seq<StepDefinition>, j: nat, k: nat, cs: array<seq<nat>>)
    requires j < |steps| && k <= |steps[j].deps|
    reads cs
  {
    && cs.Length == |steps|
    && forall g :: 0 <= g < |steps| ==>
         cs[g] == ChildrenUpTo(steps, j, g) + ChildLinks(steps, steps[j].deps[..k], Owner(steps, j), g)
  }

  lemma BuiltNone(steps: seq<StepDefinition>, ps: array<seq<nat>>, cs: array<seq<nat>>)
    requires ps.Length == |steps| && cs.Length == |steps|
    requires forall g :: 0 <= g < |steps| ==> ps[g] == [] && cs[g] == []
    ensures Built(steps, 0, ps, cs)
  {
  }

  lemma StartLinking(steps: seq<StepDefinition>, j: nat, ps: array<seq<nat>>, cs: array<seq<nat>>)
    requires j < |steps| && Built(steps, j, ps, cs)
    ensures Linking(steps, j, 0, ps, cs)
  {
    assert steps[j].deps[..0] == [];
    forall g | 0 <= g < |steps|
      ensures ps[g] == ParentsUpTo(steps, j, g) + []
      ensures cs[g] == ChildrenUpTo(steps, j, g) + []
    {
      assert ParentsUpTo(steps, j, g) + [] == ParentsUpTo(steps, j, g);
      assert ChildrenUpTo(steps, j, g) + [] == ChildrenUpTo(steps, j, g);
    }
  }

  lemma FinishLinking(steps: seq<StepDefinition>, j: nat, ps: array<seq<nat>>, cs: array<seq<nat>>)
    requires j < |steps| && Linking(steps, j, |steps[j].deps|, ps, cs)
    ensures Built(steps, j + 1, ps, cs)
  {
    assert steps[j].deps[..|steps[j].deps|] == steps[j].deps;
  }

  /**
   * The construction loop over the built `graphMap`: the steps in order,
   * each step's node looked up by its id, linked with the nodes its
   * dependency ids name and entered in `graphIndexMap` under its index.
   */
  method BuildEdges(steps: seq<StepDefinition>, graphMap: map<string, nat>) returns (ps: array<seq<nat>>, cs: array<seq<nat>>, indexMap: map<nat, nat>)
    requires graphMap == IdMap(steps)
    ensures fresh(ps) && fresh(cs) && Built(steps, |steps|, ps, cs)
    ensures IndexedUpTo(steps, |steps|, indexMap)
  {
    var n := |steps|;
    ps := new seq<nat>[n](_ => []);
    cs := new seq<nat>[n](_ => []);
    indexMap := map[];
    BuiltNone(steps, ps, cs);
    var j := 0;
    while j < n
      invariant 0 <= j <= n
      invariant Built(steps, j, ps, cs)
      invariant IndexedUpTo(steps, j, indexMap)
    {
      // `graphMap.get(step.id)` always finds a node: every step's id is a key.
      IdMapHasStep(steps, j);
      var owner := graphMap[steps[j].id];
      LinkStep(steps, graphMap, j, owner, ps, cs);
      IndexedStep(steps, j, indexMap);
      indexMap := indexMap[owner := owner];
      j := j + 1;
    }
  }

  /** `indexMap` holds the entries of `graphIndexMap` once the first `j` steps are processed. */
  ghost predicate IndexedUpTo(steps: seq<StepDefinition>, j: nat, indexMap: map<nat, nat>)
    requires j <= |steps|
  {
    indexMap.Keys == OwnersUpTo(steps, j) && forall k :: k in indexMap ==> indexMap[k] == k
  }

  lemma IndexedStep(steps: seq<StepDefinition>, j: nat, indexMap: map<nat, nat>)
    requires j < |steps| && IndexedUpTo(steps, j, indexMap)
    ensures IndexedUpTo(steps, j + 1, indexMap[Owner(steps, j) := Owner(steps, j)])
  {
  }

  /**
   * The body of the construction loop for the `j`-th step: each of its
   * dependency ids that names a node pushes that node onto the parents of
   * the step's node `owner` (`graphMap.get(step.id)`) and the step's node
   * onto the children of that node.
   */
  method LinkStep(steps: seq<StepDefinition>, graphMap: map<string, nat>, j: nat, owner: nat, ps: array<seq<nat>>, cs: array<seq<nat>>)
    requires graphMap == IdMap(steps) && j < |steps| && owner == Owner(steps, j)
    requires ps != cs && Built(steps, j, ps, cs)
    modifies ps, cs
    ensures Built(steps, j + 1, ps, cs)
  {
    StartLinking(steps, j, ps, cs);
    var k := 0;
    while k < |steps[j].deps|
      invariant 0 <= k <= |steps[j].deps|
      invariant Linking(steps, j, k, ps, cs)
    {
      LinkDependency(steps, graphMap, j, k, owner, ps, cs);
      k := k + 1;
    }
    FinishLinking(steps, j, ps, cs);
  }

  /** One iteration of the dependency loop: `deps[k]`, if it names a node, is linked with the step's node. */
  method LinkDependency(steps: seq<StepDefinition>, graphMap: map<string, nat>, j: nat, k: nat, owner: nat, ps: array<seq<nat>>, cs: array<seq<nat>>)
    requires graphMap == IdMap(steps) && j < |steps| && k < |steps[j].deps| && owner == Owner(steps, j)
    requires ps != cs && Linking(steps, j, k, ps, cs)
    modifies ps, cs
    ensures Linking(steps, j, k + 1, ps, cs)
  {
    var deps := steps[j].deps;
    DepsSnoc(steps, deps, k, owner);
    if deps[k] in graphMap {
      var dep := graphMap[deps[k]];
      assert IndexOf(steps, deps[k]) == Some(dep);
      var p := ps[owner];
      ps[owner] := p + [dep];
      assert ps[owner] == ParentsUpTo(steps, j, owner) + KnownDeps(steps, deps[..k + 1]) by {
        assert p + [dep] == ParentsUpTo(steps, j, owner) + (KnownDeps(steps, deps[..k]) + [dep]);
      }
      assert ParentsLinking(steps, j, k + 1, ps);
      var c := cs[dep];
      cs[dep] := c + [owner];
      assert cs[dep] == ChildrenUpTo(steps, j, dep) + ChildLinks(steps, deps[..k + 1], owner, dep) by {
        assert c + [owner] == ChildrenUpTo(steps, j, dep) + (ChildLinks(steps, deps[..k], owner, dep) + [owner]);
      }
    } else {
      assert IndexOf(steps, deps[k]) == None;
      assert KnownDeps(steps, deps[..k + 1]) == KnownDeps(steps, deps[..k]) + [];
      assert forall g: nat :: ChildLinks(steps, deps[..k + 1], owner, g) == ChildLinks(steps, deps[..k], owner, g) + [];
    }
  }

  /** With distinct ids, node `i` is step `i`, under its own id and under index `i`. */
  lemma NodesDistinct(g: DependencyGraph, i: nat)
    requires g.Valid() && DistinctIds(g.steps) && i < |g.steps|
    ensures g.steps[i].id in g.graphMap && g.graphMap[g.steps[i].id] == i
    ensures i in g.graphIndexMap && g.graphIndexMap[i] == i
    ensures g.nodes[i].index == i && g.nodes[i].refId == StepRefId(g.steps[i].id)
    ensures |g.graphIndexMap| == |g.steps|
  {
    IndexOfDistinct(g.steps, i);
    OwnersDistinct(g.steps, |g.steps|);
    assert |g.graphIndexMap.Keys| == |g.graphIndexMap|;
  }
}
