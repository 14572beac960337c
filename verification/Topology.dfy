/** Topology: the two single-target shortest path searches. */
module Topologies {
  import opened Basics
  import opened TopologyGraph

  datatype Outcome = Done | NullTarget | AssertionFailed

  class Topology {
    const graph: Graph
    const dist: array<Dist>
    const outPath: array<Option<nat>>
    var target: Option<nat>

    ghost predicate Valid()
    {
      WellFormed(graph) && dist.Length == outPath.Length == |graph.nodes|
    }

    constructor (g: Graph)
      requires WellFormed(g)
      ensures Valid() && graph == g && fresh(dist) && fresh(outPath)
    {
      graph, target := g, None;
      dist, outPath := new Dist[|g.nodes|](_ => Infinite), new Option<nat>[|g.nodes|](_ => None);
    }

    /** The labels of all nodes but the target are cleared. */
    method Clear(t: nat)
      requires Valid() && t < |graph.nodes|
      modifies dist, outPath, this`target
      ensures target == Some(t) && dist[t] == ZERO && outPath[t] == None
      ensures forall v :: 0 <= v < |graph.nodes| ==> outPath[v] == None && (v != t ==> dist[v] == Infinite)
    {
      target := Some(t);
      for i := 0 to |graph.nodes|
        invariant target == Some(t)
        invariant forall v :: 0 <= v < i ==> outPath[v] == None && dist[v] == Infinite
      {
        dist[i], outPath[i] := Infinite, None;
      }
      dist[t] := ZERO;
    }

    /** src gets its new label. */
    method Relabel(src: nat, d: Dist, k: nat)
      requires Valid() && src < |graph.nodes|
      modifies dist, outPath
      ensures dist[..] == old(dist[..])[src := d] && outPath[..] == old(outPath[..])[src := Some(k)]
    {
      dist[src], outPath[src] := d, Some(k);
    }

    /** The place in the ordered queue for a node at distance d. */
    method FindPlace(q: seq<nat>, d: Dist) returns (j: nat)
      requires Valid() && Sorted(dist[..], q)
      ensures Place(dist[..], q, d, j)
    {
      j := 0;
      while j < |q| && !Less(d, dist[q[j]])
        invariant j <= |q| && forall i :: 0 <= i < j ==> AtMost(dist[q[i]], d)
      {
        j := j + 1;
      }
    }

    /** Relax link k, the i-th into dest, the node being expanded. */
    method Relax(t: nat, dest: nat, k: nat, q: seq<nat>, ghost order: seq<nat>, ghost i: nat)
      returns (ok: bool, q': seq<nat>)
      requires Valid() && Next(graph, t, dist[..], outPath[..], order, q, i, k) && dest == order[|order| - 1]
      requires AtMost(ZERO, graph.nodes[dest].weight)
      modifies dist, outPath
      ensures ok <==> !Usable(graph, k) || Less(ZERO, graph.links[k].weight)
      ensures ok ==> Searching(graph, t, dist[..], outPath[..], order, q', i + 1)
      ensures dist[dest] == old(dist[dest])
    {
      ok, q' := true, q;
      assert k in graph.nodes[dest].inLinks;
      var l := graph.links[k];
      var src := l.src;
      if !l.enabled || !graph.nodes[src].enabled {
        SkipKeeps(graph, t, dist[..], outPath[..], order, q, i, k);
        return;
      }
      if !Less(ZERO, l.weight) {
        ok := false;
        return;
      }
      var newdist := Add(dist[dest], l.weight);
      if dest != t {
        newdist := Add(newdist, graph.nodes[dest].weight);
      }
      assert newdist == Add(Step(graph, t, k), dist[dest]);
      if newdist != Infinite && Less(newdist, dist[src]) {
        NeverRelaxedAgain(graph, t, dist[..], outPath[..], order, q, i, k, newdist);
        assert Sorted(dist[..], q);
        if dist[src] != Infinite {
          assert src in q;
          q' := Remove(q, src);
        } else {
          RemoveAbsent(q, src);
        }
        RemoveSorted(dist[..], q, src);
        var j := FindPlace(q', newdist);
        ShorterKeeps(graph, t, dist[..], outPath[..], order, q, i, k, newdist, j);
        hide Searching, Sorted, Place;
        Relabel(src, newdist, k);
        q' := q'[..j] + [src] + q'[j..];
      } else {
        SkipKeeps(graph, t, dist[..], outPath[..], order, q, i, k);
      }
    }

    /** Relax the links into dest, the node just taken off the queue. */
    method Expand(t: nat, dest: nat, q: seq<nat>, ghost order: seq<nat>) returns (ok: bool, q': seq<nat>)
      requires Valid() && Searching(graph, t, dist[..], outPath[..], order, q, 0) && dest == order[|order| - 1]
      modifies dist, outPath
      ensures ok <==> WeightsFine(graph, dest)
      ensures ok ==> Between(graph, t, dist[..], outPath[..], order, q')
    {
      ok, q' := AtMost(ZERO, graph.nodes[dest].weight), q;
      if !ok {
        return;
      }
      var inLinks := graph.nodes[dest].inLinks;
      var i := 0;
      while i < |inLinks|
        invariant i <= |inLinks| && Searching(graph, t, dist[..], outPath[..], order, q', i)
        invariant forall j :: 0 <= j < i && Usable(graph, inLinks[j]) ==> Less(ZERO, graph.links[inLinks[j]].weight)
      {
        assert inLinks[i] in graph.nodes[dest].inLinks;
        ok, q' := Relax(t, dest, inLinks[i], q', order, i);
        if !ok {
          return;
        }
        i := i + 1;
      }
      ExpandedKeeps(graph, t, dist[..], outPath[..], order, q');
    }

    /** Dijkstra's algorithm with an ordered list. A null target is an error, and so is, exactly if
        there is one, a bad weight at a node that reaches the target at finite cost; otherwise all
        labels are shortest paths. */
    method CalculateWeightedSingleShortestPathsTo(t: Option<nat>) returns (r: Outcome)
      requires Valid() && (t.Some? ==> t.value < |graph.nodes|)
      modifies dist, outPath, this`target
      ensures r == NullTarget <==> t == None
      ensures r == Done ==> target == t && Shortest(graph, t.value, dist[..], outPath[..])
      ensures r == AssertionFailed <==> t.Some? && exists v :: Spoils(graph, v, t.value)
      ensures r == Done ==> forall v :: 0 <= v < |graph.nodes| && dist[v].Finite? ==> WeightsFine(graph, v)
    {
      if t == None {
        return NullTarget;
      }
      Clear(t.value);
      StartBetween(graph, t.value, dist[..], outPath[..]);
      var q := [t.value];
      ghost var order := [];
      hide Between, Searching, WeightsFine, Spoils, Shortest;
      while q != []
        invariant target == t && Between(graph, t.value, dist[..], outPath[..], order, q)
        decreases Unexpanded(graph, order)
      {
        var dest := q[0];
        PopKeeps(graph, t.value, dist[..], outPath[..], order, q);
        PopExpands(graph, t.value, dist[..], outPath[..], order, q);
        PopReaches(graph, t.value, dist[..], outPath[..], order, q);
        order := order + [dest];
        var ok;
        ok, q := Expand(t.value, dest, q[1..], order);
        if !ok {
          assert Spoils(graph, dest, t.value);
          return AssertionFailed;
        }
      }
      FinishedIsShortest(graph, t.value, dist[..], outPath[..], order);
      FinishedIsFine(graph, t.value, dist[..], outPath[..], order);
      forall v ensures !Spoils(graph, v, t.value) {
        NothingSpoils(graph, t.value, dist[..], outPath[..], v);
      }
      return Done;
    }

    /** Breadth-first search: w gets a label the first time it is met. */
    method Visit(t: nat, v: nat, k: nat, q: seq<nat>, ghost order: seq<nat>, ghost i: nat) returns (q': seq<nat>)
      requires Valid() && WellFormed(Unit(graph))
      requires Next(Unit(graph), t, dist[..], outPath[..], order, q, i, k) && v == order[|order| - 1]
      requires Near(dist[..], v)
      modifies dist, outPath
      ensures Searching(Unit(graph), t, dist[..], outPath[..], order, q', i + 1) && Near(dist[..], v)
    {
      hide Searching, Sorted, Place;
      q' := q;
      ghost var u := Unit(graph);
      NextFacts(u, t, dist[..], outPath[..], order, q, i, k);
      assert Step(u, t, k) == Finite(1.0) && Usable(u, k) == Usable(graph, k);
      var l := graph.links[k];
      var w := l.src;
      if !l.enabled || !graph.nodes[w].enabled {
        SkipKeeps(u, t, dist[..], outPath[..], order, q, i, k);
        return;
      }
      NearShorter(dist[..], q, v, w);
      if dist[w] == Infinite {
        var d := Finite(dist[v].value + 1.0);
        NeverRelaxedAgain(u, t, dist[..], outPath[..], order, q, i, k, d);
        RemoveAbsent(q, w);
        ShorterKeeps(u, t, dist[..], outPath[..], order, q, i, k, d, |q|);
        assert q[..|q|] + [w] + q[|q|..] == q + [w];
        Relabel(w, d, k);
        q' := q + [w];
      } else {
        SkipKeeps(u, t, dist[..], outPath[..], order, q, i, k);
      }
    }

    /** Visit the links into v. */
    method VisitAll(t: nat, v: nat, q: seq<nat>, ghost order: seq<nat>) returns (q': seq<nat>)
      requires Valid() && WellFormed(Unit(graph)) && Near(dist[..], v)
      requires Searching(Unit(graph), t, dist[..], outPath[..], order, q, 0) && v == order[|order| - 1]
      modifies dist, outPath
      ensures Layered(Unit(graph), t, dist[..], outPath[..], order, q')
    {
      q' := q;
      ghost var u := Unit(graph);
      UnitFine(graph);
      var inLinks := graph.nodes[v].inLinks;
      assert u.nodes[v].inLinks == inLinks;
      var i := 0;
      while i < |inLinks|
        invariant i <= |inLinks| && Searching(u, t, dist[..], outPath[..], order, q', i) && Near(dist[..], v)
      {
        assert inLinks[i] in u.nodes[v].inLinks;
        q' := Visit(t, v, inLinks[i], q', order, i);
        i := i + 1;
      }
      ExpandedKeeps(u, t, dist[..], outPath[..], order, q');
    }

    /** Breadth-first search labels every node with a path of fewest hops. */
    method CalculateUnweightedSingleShortestPathsTo(t: Option<nat>) returns (r: Outcome)
      requires Valid() && (t.Some? ==> t.value < |graph.nodes|)
      modifies dist, outPath, this`target
      ensures r == if t == None then NullTarget else Done
      ensures WellFormed(Unit(graph))
      ensures r == Done ==> target == t && Shortest(Unit(graph), t.value, dist[..], outPath[..])
    {
      UnitFine(graph);
      if t == None {
        return NullTarget;
      }
      Clear(t.value);
      ghost var u := Unit(graph);
      StartBetween(u, t.value, dist[..], outPath[..]);
      var q := [t.value];
      ghost var order := [];
      assert Layered(u, t.value, dist[..], outPath[..], order, q);
      assert u.nodes == Unit(graph).nodes && |u.nodes| == dist.Length;
      hide Layered, Between, Searching, WeightsFine, Near, Unit, WellFormed, Unexpanded, Shortest;
      while q != []
        invariant target == t && Layered(u, t.value, dist[..], outPath[..], order, q)
        decreases Unexpanded(u, order)
      {
        var v := q[0];
        PopLayered(u, t.value, dist[..], outPath[..], order, q);
        order := order + [v];
        q := VisitAll(t.value, v, q[1..], order);
      }
      LayeredIsShortest(u, t.value, dist[..], outPath[..], order);
      return Done;
    }
  }
}
