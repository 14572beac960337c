/** Graphs with weighted links and nodes, their paths, and what labelling every node with its
    shortest path to a target means. */
module TopologyGraph {
  import opened Basics

  /** A distance or weight: a real number or infinity. */
  datatype Dist = Finite(value: real) | Infinite

  const ZERO := Finite(0.0)

  function Add(a: Dist, b: Dist): Dist {
    if a.Finite? && b.Finite? then Finite(a.value + b.value) else Infinite
  }

  predicate Less(a: Dist, b: Dist) { a.Finite? && (b.Finite? ==> a.value < b.value) }

  predicate AtMost(a: Dist, b: Dist) { !Less(b, a) }

  datatype Link = Link(src: nat, dest: nat, weight: Dist, enabled: bool)

  datatype Node = Node(weight: Dist, enabled: bool, inLinks: seq<nat>)

  datatype Graph = Graph(nodes: seq<Node>, links: seq<Link>)

  /** Links join nodes of the graph, and each is listed with the node it leads to. */
  predicate WellFormed(g: Graph) {
    (forall k :: 0 <= k < |g.links| ==>
      g.links[k].src < |g.nodes| && g.links[k].dest < |g.nodes| && k in g.nodes[g.links[k].dest].inLinks) &&
    (forall v, i :: 0 <= v < |g.nodes| && 0 <= i < |g.nodes[v].inLinks| ==>
      g.nodes[v].inLinks[i] < |g.links| && g.links[g.nodes[v].inLinks[i]].dest == v)
  }

  /** A path may go along link k: it and the node it leaves are enabled. */
  predicate Usable(g: Graph, k: nat)
    requires WellFormed(g)
  {
    k < |g.links| && g.links[k].enabled && g.nodes[g.links[k].src].enabled
  }

  /** p is the list of links of a path from v to t. */
  predicate IsPath(g: Graph, p: seq<nat>, v: nat, t: nat)
    requires WellFormed(g)
  {
    if p == [] then v == t
    else Usable(g, p[0]) && g.links[p[0]].src == v && IsPath(g, p[1..], g.links[p[0]].dest, t)
  }

  /** The weights of the links and of the nodes strictly inside the path. */
  function Cost(g: Graph, p: seq<nat>, v: nat, t: nat): Dist
    requires WellFormed(g) && IsPath(g, p, v, t)
  {
    if p == [] then ZERO
    else
      var k := g.links[p[0]];
      Add(Add(k.weight, if |p| > 1 then g.nodes[k.dest].weight else ZERO), Cost(g, p[1..], k.dest, t))
  }

  /** What the search adds to dest's distance along link k towards target t. */
  function Step(g: Graph, t: nat, k: nat): Dist
    requires WellFormed(g) && k < |g.links|
  {
    var l := g.links[k];
    if l.dest == t then l.weight else Add(l.weight, g.nodes[l.dest].weight)
  }

  /** The weights met when node v is expanded pass the search's assertions. */
  predicate WeightsFine(g: Graph, v: nat)
    requires WellFormed(g) && v < |g.nodes|
  {
    AtMost(ZERO, g.nodes[v].weight) &&
    forall k :: k in g.nodes[v].inLinks && Usable(g, k) ==> Less(ZERO, g.links[k].weight)
  }

  // ---------- labels ----------

  /** dist is the least cost of a path to t, reached by a path whose every link is the outPath of
      its source; along it dist strictly decreases. */
  ghost predicate ShortestFrom(g: Graph, t: nat, dist: seq<Dist>, out: seq<Option<nat>>, v: nat)
    requires WellFormed(g) && |dist| == |out| == |g.nodes| && v < |g.nodes|
  {
    (forall p :: IsPath(g, p, v, t) ==> AtMost(dist[v], Cost(g, p, v, t))) &&
    (dist[v].Finite? ==> exists p :: IsPath(g, p, v, t) && Cost(g, p, v, t) == dist[v] && Chain(g, dist, out, p))
  }

  predicate Chain(g: Graph, dist: seq<Dist>, out: seq<Option<nat>>, p: seq<nat>)
    requires WellFormed(g) && |dist| == |out| == |g.nodes|
  {
    forall k :: k in p ==>
      k < |g.links| && out[g.links[k].src] == Some(k) && Less(dist[g.links[k].dest], dist[g.links[k].src])
  }

  ghost predicate Shortest(g: Graph, t: nat, dist: seq<Dist>, out: seq<Option<nat>>)
    requires WellFormed(g)
  {
    |dist| == |out| == |g.nodes| && forall v :: 0 <= v < |g.nodes| ==> ShortestFrom(g, t, dist, out, v)
  }

  /** No two labellings differ in their distances. */
  lemma ShortestUnique(g: Graph, t: nat, dist: seq<Dist>, out: seq<Option<nat>>, dist': seq<Dist>,
        out': seq<Option<nat>>)
    requires WellFormed(g) && Shortest(g, t, dist, out) && Shortest(g, t, dist', out')
    ensures dist == dist'
  {
    forall v | 0 <= v < |g.nodes| ensures dist[v] == dist'[v] {
      assert ShortestFrom(g, t, dist, out, v) && ShortestFrom(g, t, dist', out', v);
      assert AtMost(dist[v], dist'[v]) by {
        if dist'[v].Finite? {
          var p :| IsPath(g, p, v, t) && Cost(g, p, v, t) == dist'[v] && Chain(g, dist', out', p);
        }
      }
      assert AtMost(dist'[v], dist[v]) by {
        if dist[v].Finite? {
          var p :| IsPath(g, p, v, t) && Cost(g, p, v, t) == dist[v] && Chain(g, dist, out, p);
        }
      }
    }
  }

  ghost predicate CutOff(g: Graph, v: nat, t: nat)
    requires WellFormed(g)
  {
    forall p :: IsPath(g, p, v, t) ==> Cost(g, p, v, t).Infinite?
  }

  /** A node's distance is infinite exactly if no path of finite cost leads to the target. */
  lemma InfiniteIffCutOff(g: Graph, t: nat, dist: seq<Dist>, out: seq<Option<nat>>, v: nat)
    requires WellFormed(g) && Shortest(g, t, dist, out) && v < |g.nodes|
    ensures dist[v].Infinite? <==> CutOff(g, v, t)
  {
    assert ShortestFrom(g, t, dist, out, v);
    if dist[v].Finite? {
      var p :| IsPath(g, p, v, t) && Cost(g, p, v, t) == dist[v] && Chain(g, dist, out, p);
      assert !CutOff(g, v, t);
    }
  }

  // ---------- the search's invariant ----------

  /** Every finite label but the target's comes along its outPath from an expanded node. */
  ghost predicate LabelsFrom(g: Graph, t: nat, dist: seq<Dist>, out: seq<Option<nat>>, order: seq<nat>)
    requires WellFormed(g) && |dist| == |out| == |g.nodes|
  {
    t < |g.nodes| && dist[t] == ZERO && out[t] == None &&
    forall v :: 0 <= v < |g.nodes| && v != t ==> LabelFrom(g, t, dist, out, order, v)
  }

  predicate LabelFrom(g: Graph, t: nat, dist: seq<Dist>, out: seq<Option<nat>>, order: seq<nat>, v: nat)
    requires WellFormed(g) && |dist| == |out| == |g.nodes| && v < |g.nodes|
  {
    if dist[v].Infinite? then out[v] == None
    else
      out[v].Some? && Usable(g, out[v].value) && g.links[out[v].value].src == v &&
      var d := g.links[out[v].value].dest;
      d in order && dist[v] == Add(Step(g, t, out[v].value), dist[d]) && Less(dist[d], dist[v])
  }

  /** The first i of v's links have been relaxed. */
  predicate Relaxed(g: Graph, t: nat, dist: seq<Dist>, v: nat, i: nat)
    requires WellFormed(g) && |dist| == |g.nodes| && v < |g.nodes| && i <= |g.nodes[v].inLinks|
  {
    forall j :: 0 <= j < i && Usable(g, g.nodes[v].inLinks[j]) ==>
      var k := g.nodes[v].inLinks[j];
      AtMost(dist[g.links[k].src], Add(Step(g, t, k), dist[v]))
  }

  predicate Expanded(g: Graph, t: nat, dist: seq<Dist>, v: nat)
    requires WellFormed(g) && |dist| == |g.nodes|
  {
    v < |g.nodes| && WeightsFine(g, v) && Relaxed(g, t, dist, v, |g.nodes[v].inLinks|)
  }

  /** The queue is sorted by distance and holds nobody twice. */
  predicate Sorted(dist: seq<Dist>, q: seq<nat>) {
    (forall i :: 0 <= i < |q| ==> q[i] < |dist|) &&
    forall i, j :: 0 <= i < j < |q| ==> q[i] != q[j] && AtMost(dist[q[i]], dist[q[j]])
  }

  /** order: the nodes taken off the queue so far, the last one being expanded; q: the queue. */
  ghost predicate Queued(dist: seq<Dist>, order: seq<nat>, q: seq<nat>) {
    Sorted(dist, q) && (forall v :: v in order ==> v < |dist| && v !in q) &&
    (forall v :: 0 <= v < |dist| ==> (dist[v].Finite? <==> v in order || v in q)) &&
    (forall v, w :: v in order && w in q ==> AtMost(dist[v], dist[w]))
  }

  /** The nodes of order have been expanded, the last one only along its first i links. */
  ghost predicate Searching(g: Graph, t: nat, dist: seq<Dist>, out: seq<Option<nat>>, order: seq<nat>, q: seq<nat>,
        i: nat)
    requires WellFormed(g)
  {
    |dist| == |out| == |g.nodes| && LabelsFrom(g, t, dist, out, order) && Queued(dist, order, q) && order != [] &&
    var v := order[|order| - 1];
    t in order && v < |dist| && (forall u :: u in order ==> AtMost(dist[u], dist[v])) && v !in order[..|order| - 1] &&
    (forall u :: u in order[..|order| - 1] ==> Expanded(g, t, dist, u)) &&
    i <= |g.nodes[v].inLinks| && Relaxed(g, t, dist, v, i)
  }

  /** Taking x out of a list. */
  function Remove(q: seq<nat>, x: nat): (r: seq<nat>)
    ensures forall y :: y in r <==> y in q && y != x
  {
    if q == [] then [] else (if q[0] == x then [] else [q[0]]) + Remove(q[1..], x)
  }

  lemma {:induction false} RemoveAbsent(q: seq<nat>, x: nat)
    requires x !in q
    ensures Remove(q, x) == q
  {
    if q != [] {
      assert q[0] in q && forall y :: y in q[1..] ==> y in q;
      RemoveAbsent(q[1..], x);
    }
  }

  /** Everyone in a list is another node than v and no closer. */
  predicate Behind(dist: seq<Dist>, v: nat, q: seq<nat>)
    requires v < |dist|
  {
    forall w :: w in q ==> w < |dist| && w != v && AtMost(dist[v], dist[w])
  }

  lemma SortedTail(dist: seq<Dist>, q: seq<nat>)
    requires q != []
    ensures Sorted(dist, q) <==> q[0] < |dist| && Behind(dist, q[0], q[1..]) && Sorted(dist, q[1..])
  {
    assert q == [q[0]] + q[1..];
    assert forall i :: 0 < i < |q| ==> q[i] == q[1..][i - 1] && q[i] in q[1..];
  }

  lemma {:induction false} RemoveSorted(dist: seq<Dist>, q: seq<nat>, x: nat)
    requires Sorted(dist, q)
    ensures Sorted(dist, Remove(q, x))
  {
    if q != [] {
      SortedTail(dist, q);
      RemoveSorted(dist, q[1..], x);
      var r := Remove(q[1..], x);
      SortedTail(dist, [q[0]] + r);
      hide Sorted;
      assert ([q[0]] + r)[1..] == r;
    }
  }

  /** Putting x at place i, between those not farther than d and those farther. */
  lemma InsertSorted(dist: seq<Dist>, q: seq<nat>, x: nat, d: Dist, i: nat)
    requires Sorted(dist, q) && x !in q && x < |dist| && i <= |q|
    requires forall j :: 0 <= j < |q| ==> if j < i then AtMost(dist[q[j]], d) else AtMost(d, dist[q[j]])
    ensures Sorted(dist[x := d], q[..i] + [x] + q[i..])
  {
    var r, dist' := q[..i] + [x] + q[i..], dist[x := d];
    forall j | 0 <= j < |r| ensures r[j] == if j < i then q[j] else if j == i then x else q[j - 1] {}
    forall j | 0 <= j < |q| ensures dist'[q[j]] == dist[q[j]] { assert q[j] in q; }
  }

  /** Between expansions: all of order is expanded. */
  ghost predicate Between(g: Graph, t: nat, dist: seq<Dist>, out: seq<Option<nat>>, order: seq<nat>, q: seq<nat>)
    requires WellFormed(g)
  {
    |dist| == |out| == |g.nodes| && LabelsFrom(g, t, dist, out, order) && Queued(dist, order, q) &&
    (t in order || q == [t]) && forall u :: u in order ==> Expanded(g, t, dist, u)
  }

  lemma PopQueued(dist: seq<Dist>, order: seq<nat>, q: seq<nat>)
    requires Queued(dist, order, q) && q != []
    ensures q[0] < |dist| && q[0] !in order && Queued(dist, order + [q[0]], q[1..])
    ensures forall u :: u in order ==> u < |dist| && AtMost(dist[u], dist[q[0]])
  {
    var v, r := q[0], q[1..];
    SortedTail(dist, q);
    assert v in q;
    assert forall w :: w in q <==> w == v || w in r by { assert q == [v] + r; }
    hide Sorted;
  }

  lemma PopKeeps(g: Graph, t: nat, dist: seq<Dist>, out: seq<Option<nat>>, order: seq<nat>,
        q: seq<nat>)
    requires WellFormed(g) && Between(g, t, dist, out, order, q) && q != []
    ensures q[0] !in order && Searching(g, t, dist, out, order + [q[0]], q[1..], 0)
  {
    var o := order + [q[0]];
    PopQueued(dist, order, q);
    assert o[..|o| - 1] == order;
    hide Queued, Sorted, Expanded;
    forall u | 0 <= u < |g.nodes| && u != t ensures LabelFrom(g, t, dist, out, o, u) {
      assert LabelFrom(g, t, dist, out, order, u);
    }
  }

  lemma ExpandedKeeps(g: Graph, t: nat, dist: seq<Dist>, out: seq<Option<nat>>, order: seq<nat>,
        q: seq<nat>)
    requires WellFormed(g) && order != [] && order[|order| - 1] < |g.nodes| && WeightsFine(g, order[|order| - 1])
    requires Searching(g, t, dist, out, order, q, |g.nodes[order[|order| - 1]].inLinks|)
    ensures Between(g, t, dist, out, order, q)
  {
    hide Queued, LabelsFrom, Relaxed, WeightsFine;
    forall u | u in order ensures Expanded(g, t, dist, u) {
      assert u in order[..|order| - 1] || u == order[|order| - 1];
    }
  }

  /** Link k, the i-th into the node being expanded, is the next to look at. */
  ghost predicate Next(g: Graph, t: nat, dist: seq<Dist>, out: seq<Option<nat>>, order: seq<nat>, q: seq<nat>, i: nat,
        k: nat)
    requires WellFormed(g)
  {
    Searching(g, t, dist, out, order, q, i) && i < |g.nodes[order[|order| - 1]].inLinks| &&
    k == g.nodes[order[|order| - 1]].inLinks[i] && k < |g.links|
  }

  lemma NextFacts(g: Graph, t: nat, dist: seq<Dist>, out: seq<Option<nat>>, order: seq<nat>,
        q: seq<nat>, i: nat, k: nat)
    requires WellFormed(g) && Next(g, t, dist, out, order, q, i, k)
    ensures |dist| == |out| == |g.nodes| && order != [] && k < |g.links|
    ensures var v := order[|order| - 1];
      v < |g.nodes| && k in g.nodes[v].inLinks && g.links[k].dest == v && dist[v].Finite?
    ensures Sorted(dist, q) && forall u :: u in q ==> u < |dist| && dist[u].Finite?
  {
    assert order[|order| - 1] in order;
  }

  lemma SkipKeeps(g: Graph, t: nat, dist: seq<Dist>, out: seq<Option<nat>>, order: seq<nat>,
        q: seq<nat>, i: nat, k: nat)
    requires WellFormed(g) && Next(g, t, dist, out, order, q, i, k)
    requires Usable(g, k) ==> AtMost(dist[g.links[k].src], Add(Step(g, t, k), dist[order[|order| - 1]]))
    ensures Searching(g, t, dist, out, order, q, i + 1)
  {
    hide LabelsFrom, Queued, Expanded;
  }

  /** Link k finds a shorter way for its source. */
  ghost predicate Shorter(g: Graph, t: nat, dist: seq<Dist>, out: seq<Option<nat>>, order: seq<nat>, q: seq<nat>,
        i: nat, k: nat, d: Dist)
    requires WellFormed(g)
  {
    Next(g, t, dist, out, order, q, i, k) && Usable(g, k) && Less(ZERO, Step(g, t, k)) &&
    d == Add(Step(g, t, k), dist[order[|order| - 1]]) && Less(d, dist[g.links[k].src])
  }

  /** A node expanded before, the target among them, is never relaxed again; a labelled node that
      is waits in the queue. */
  lemma NeverRelaxedAgain(g: Graph, t: nat, dist: seq<Dist>, out: seq<Option<nat>>, order: seq<nat>,
                                             q: seq<nat>, i: nat, k: nat, d: Dist)
    requires WellFormed(g) && Shorter(g, t, dist, out, order, q, i, k, d)
    ensures g.links[k].src !in order && (dist[g.links[k].src].Finite? <==> g.links[k].src in q) && g.links[k].src != t
    ensures forall u :: u in order ==> Less(dist[u], d)
  {
  }

  lemma ShorterLabels(g: Graph, t: nat, dist: seq<Dist>, out: seq<Option<nat>>, order: seq<nat>,
                                         q: seq<nat>, i: nat, k: nat, d: Dist)
    requires WellFormed(g) && Shorter(g, t, dist, out, order, q, i, k, d)
    ensures var x := g.links[k].src;
      LabelsFrom(g, t, dist[x := d], out[x := Some(k)], order)
  {
    NeverRelaxedAgain(g, t, dist, out, order, q, i, k, d);
    var x, v := g.links[k].src, order[|order| - 1];
    assert g.links[k].dest == v && v in order by { assert k in g.nodes[v].inLinks; }
    var dist', out' := dist[x := d], out[x := Some(k)];
    hide Queued, Expanded, Relaxed, Step;
    forall u | 0 <= u < |g.nodes| && u != t ensures LabelFrom(g, t, dist', out', order, u) {
      assert LabelFrom(g, t, dist, out, order, u);
    }
  }

  lemma ShorterRelaxed(g: Graph, t: nat, dist: seq<Dist>, x: nat, d: Dist, u: nat, i: nat)
    requires WellFormed(g) && |dist| == |g.nodes| && x < |g.nodes| && u < |g.nodes| && u != x && AtMost(d, dist[x])
    requires i <= |g.nodes[u].inLinks| && Relaxed(g, t, dist, u, i)
    ensures Relaxed(g, t, dist[x := d], u, i)
  {
    hide Step;
  }

  lemma ShorterExpanded(g: Graph, t: nat, dist: seq<Dist>, x: nat, d: Dist, s: seq<nat>)
    requires WellFormed(g) && |dist| == |g.nodes| && x < |g.nodes| && x !in s && AtMost(d, dist[x])
    requires forall u :: u in s ==> Expanded(g, t, dist, u)
    ensures forall u :: u in s ==> Expanded(g, t, dist[x := d], u)
  {
    forall u | u in s ensures Expanded(g, t, dist[x := d], u) {
      assert Expanded(g, t, dist, u);
      hide WeightsFine, Relaxed;
      ShorterRelaxed(g, t, dist, x, d, u, |g.nodes[u].inLinks|);
    }
  }

  /** Place j of the queue is where a node at distance d goes. */
  predicate Place(dist: seq<Dist>, q: seq<nat>, d: Dist, j: nat) {
    j <= |q| && forall i :: 0 <= i < |q| ==>
      q[i] < |dist| && if i < j then AtMost(dist[q[i]], d) else AtMost(d, dist[q[i]])
  }

  lemma InsertMembers(r: seq<nat>, x: nat, j: nat)
    requires j <= |r|
    ensures forall w :: w in r[..j] + [x] + r[j..] <==> w == x || w in r
  {
    assert r == r[..j] + r[j..];
  }

  lemma {:induction false} EnqueueKeeps(dist: seq<Dist>, order: seq<nat>, q: seq<nat>, x: nat, d: Dist, j: nat)
    requires Queued(dist, order, q) && x < |dist| && x !in order && Place(dist, Remove(q, x), d, j) && d.Finite?
    requires forall u :: u in order ==> AtMost(dist[u], d)
    ensures Queued(dist[x := d], order, Remove(q, x)[..j] + [x] + Remove(q, x)[j..])
  {
    var r, dist' := Remove(q, x), dist[x := d];
    RemoveSorted(dist, q, x);
    InsertSorted(dist, r, x, d, j);
    InsertMembers(r, x, j);
    var q' := r[..j] + [x] + r[j..];
    hide Place, Remove;
    assert forall w :: w in q ==> w < |dist|;
    assert forall w :: w in q' <==> w == x || w in q;
    hide Sorted;
    forall u, w | u in order && w in q' ensures AtMost(dist'[u], dist'[w]) {
      if w != x { assert AtMost(dist[u], dist[w]); }
    }
  }

  lemma {:induction false} ShorterKeeps(g: Graph, t: nat, dist: seq<Dist>, out: seq<Option<nat>>, order: seq<nat>,
                                        q: seq<nat>, i: nat, k: nat, d: Dist, j: nat)
    requires WellFormed(g) && Shorter(g, t, dist, out, order, q, i, k, d) &&
             Place(dist, Remove(q, g.links[k].src), d, j)
    ensures var x := g.links[k].src;
      var r := Remove(q, x);
      Searching(g, t, dist[x := d], out[x := Some(k)], order, r[..j] + [x] + r[j..], i + 1)
  {
    var x, v := g.links[k].src, order[|order| - 1];
    NeverRelaxedAgain(g, t, dist, out, order, q, i, k, d);
    ShorterLabels(g, t, dist, out, order, q, i, k, d);
    EnqueueKeeps(dist, order, q, x, d, j);
    ShorterExpanded(g, t, dist, x, d, order[..|order| - 1]);
    ShorterRelaxed(g, t, dist, x, d, v, i);
    hide Queued, LabelsFrom, Expanded;
  }

  /** The initial labels, with the target queued. */
  lemma StartBetween(g: Graph, t: nat, dist: seq<Dist>, out: seq<Option<nat>>)
    requires WellFormed(g) && |dist| == |out| == |g.nodes| && t < |g.nodes| && dist[t] == ZERO && out[t] == None
    requires forall v :: 0 <= v < |g.nodes| ==> out[v] == None && (v != t ==> dist[v] == Infinite)
    ensures Between(g, t, dist, out, [], [t])
  {
  }

  function Nearer(dist: seq<Dist>, v: nat): set<nat>
    requires v < |dist|
  {
    set u | 0 <= u < |dist| && Less(dist[u], dist[v])
  }

  lemma {:induction false} FollowOutPath(g: Graph, t: nat, dist: seq<Dist>, out: seq<Option<nat>>, order: seq<nat>,
        v: nat)
    returns (p: seq<nat>)
    requires WellFormed(g) && |dist| == |out| == |g.nodes| && v < |g.nodes| && dist[v].Finite?
    requires LabelsFrom(g, t, dist, out, order)
    ensures IsPath(g, p, v, t) && Cost(g, p, v, t) == dist[v] && Chain(g, dist, out, p)
    decreases Nearer(dist, v)
  {
    if v == t {
      p := [];
    } else {
      assert LabelFrom(g, t, dist, out, order, v);
      var k := out[v].value;
      var d := g.links[k].dest;
      assert d in Nearer(dist, v) && d !in Nearer(dist, d) && Nearer(dist, d) <= Nearer(dist, v);
      var rest := FollowOutPath(g, t, dist, out, order, d);
      p := [k] + rest;
      assert p[1..] == rest;
    }
  }

  lemma {:induction false} NoCheaperPath(g: Graph, t: nat, dist: seq<Dist>, p: seq<nat>, v: nat)
    requires WellFormed(g) && |dist| == |g.nodes| && v < |g.nodes| && t < |g.nodes| && dist[t] == ZERO
    requires forall u :: 0 <= u < |g.nodes| && dist[u].Finite? ==> Expanded(g, t, dist, u)
    requires IsPath(g, p, v, t)
    ensures AtMost(dist[v], Cost(g, p, v, t))
    decreases |p|
  {
    if p != [] {
      var k := p[0];
      var d := g.links[k].dest;
      NoCheaperPath(g, t, dist, p[1..], d);
      if dist[d].Finite? {
        assert Expanded(g, t, dist, d) && Expanded(g, t, dist, t);
        var j :| 0 <= j < |g.nodes[d].inLinks| && g.nodes[d].inLinks[j] == k;
        assert AtMost(dist[v], Add(Step(g, t, k), dist[d]));
        assert |p| == 1 ==> p[1..] == [] && d == t;
      }
    }
  }

  /** With the queue empty the labels are the shortest paths. */
  lemma FinishedIsShortest(g: Graph, t: nat, dist: seq<Dist>, out: seq<Option<nat>>, order: seq<nat>)
    requires WellFormed(g) && Between(g, t, dist, out, order, [])
    ensures Shortest(g, t, dist, out)
  {
    LabelsTarget(g, t, dist, out, order);
    hide LabelsFrom, Expanded;
    forall v | 0 <= v < |g.nodes| ensures ShortestFrom(g, t, dist, out, v) {
      forall p | IsPath(g, p, v, t) ensures AtMost(dist[v], Cost(g, p, v, t)) { NoCheaperPath(g, t, dist, p, v); }
      if dist[v].Finite? { var p := FollowOutPath(g, t, dist, out, order, v); }
    }
  }

  lemma LabelsTarget(g: Graph, t: nat, dist: seq<Dist>, out: seq<Option<nat>>, order: seq<nat>)
    requires WellFormed(g) && |dist| == |out| == |g.nodes| && LabelsFrom(g, t, dist, out, order)
    ensures t < |g.nodes| && dist[t] == ZERO
  {
  }

  lemma FinishedIsFine(g: Graph, t: nat, dist: seq<Dist>, out: seq<Option<nat>>, order: seq<nat>)
    requires WellFormed(g) && Between(g, t, dist, out, order, [])
    ensures forall v :: 0 <= v < |g.nodes| && dist[v].Finite? ==> WeightsFine(g, v)
  {
    forall v | 0 <= v < |g.nodes| && dist[v].Finite? ensures WeightsFine(g, v) { assert Expanded(g, t, dist, v); }
  }

  /** Node v may reach t, and a weight met at it fails an assertion. */
  ghost predicate Spoils(g: Graph, v: nat, t: nat)
    requires WellFormed(g)
  {
    v < |g.nodes| && !CutOff(g, v, t) && !WeightsFine(g, v)
  }

  /** A node taken off the queue reaches the target, so it spoils the search if its weights are not fine. */
  lemma PopReaches(g: Graph, t: nat, dist: seq<Dist>, out: seq<Option<nat>>, order: seq<nat>,
        q: seq<nat>)
    requires WellFormed(g) && Between(g, t, dist, out, order, q) && q != []
    ensures q[0] < |g.nodes| && (Spoils(g, q[0], t) <==> !WeightsFine(g, q[0]))
  {
    hide WeightsFine;
    assert q[0] in q && dist[q[0]].Finite?;
    var p := FollowOutPath(g, t, dist, out, order, q[0]);
  }

  /** A search that has finished met no bad weight, for every node that reaches the target is expanded. */
  lemma NothingSpoils(g: Graph, t: nat, dist: seq<Dist>, out: seq<Option<nat>>, v: nat)
    requires WellFormed(g) && Shortest(g, t, dist, out)
    requires forall u :: 0 <= u < |g.nodes| && dist[u].Finite? ==> WeightsFine(g, u)
    ensures !Spoils(g, v, t)
  {
    hide WeightsFine;
    if v < |g.nodes| { InfiniteIffCutOff(g, t, dist, out, v); }
  }

  function Unexpanded(g: Graph, order: seq<nat>): set<nat> { set v | 0 <= v < |g.nodes| && v !in order }

  lemma PopExpands(g: Graph, t: nat, dist: seq<Dist>, out: seq<Option<nat>>, order: seq<nat>,
        q: seq<nat>)
    requires WellFormed(g) && Between(g, t, dist, out, order, q) && q != []
    ensures q[0] < |g.nodes| && Unexpanded(g, order + [q[0]]) < Unexpanded(g, order)
  {
    assert q[0] in q && q[0] in Unexpanded(g, order) && q[0] !in Unexpanded(g, order + [q[0]]);
  }

  // ---------- hop counts ----------

  /** The same graph with every link weighing 1 and every node 0. */
  function Unit(g: Graph): Graph {
    Graph(seq(|g.nodes|, i requires 0 <= i < |g.nodes| => Node(ZERO, g.nodes[i].enabled, g.nodes[i].inLinks)),
          seq(|g.links|,
              i requires 0 <= i < |g.links| => Link(g.links[i].src, g.links[i].dest, Finite(1.0), g.links[i].enabled)))
  }

  lemma UnitFine(g: Graph)
    requires WellFormed(g)
    ensures WellFormed(Unit(g)) && forall v :: 0 <= v < |g.nodes| ==> WeightsFine(Unit(g), v)
  {
    var u := Unit(g);
    assert forall v :: 0 <= v < |g.nodes| ==> u.nodes[v].inLinks == g.nodes[v].inLinks && u.nodes[v].weight == ZERO;
    forall k | 0 <= k < |u.links|
      ensures u.links[k].src < |u.nodes| && u.links[k].dest < |u.nodes| && k in u.nodes[u.links[k].dest].inLinks
    {
      assert k in g.nodes[g.links[k].dest].inLinks;
    }
  }

  /** Its paths are the same and cost as much as they have links. */
  lemma {:induction false} UnitCost(g: Graph, p: seq<nat>, v: nat, t: nat)
    requires WellFormed(g) && WellFormed(Unit(g))
    ensures IsPath(Unit(g), p, v, t) <==> IsPath(g, p, v, t)
    ensures IsPath(g, p, v, t) ==> Cost(Unit(g), p, v, t) == Finite(|p| as real)
    decreases |p|
  {
    if p != [] {
      assert Usable(Unit(g), p[0]) <==> Usable(g, p[0]);
      if Usable(g, p[0]) { UnitCost(g, p[1..], g.links[p[0]].dest, t); }
    }
  }

  /** Shortest paths of the unit graph are paths with fewest hops. */
  lemma {:induction false} UnitIsFewestHops(g: Graph, t: nat, dist: seq<Dist>, out: seq<Option<nat>>, v: nat)
    requires WellFormed(g) && WellFormed(Unit(g)) && Shortest(Unit(g), t, dist, out) && v < |g.nodes|
    ensures forall p :: IsPath(g, p, v, t) ==> dist[v].Finite? && dist[v].value <= |p| as real
    ensures dist[v].Finite? ==> exists p :: IsPath(g, p, v, t) && dist[v] == Finite(|p| as real)
  {
    var u := Unit(g);
    assert ShortestFrom(u, t, dist, out, v);
    forall p | IsPath(g, p, v, t) ensures dist[v].Finite? && dist[v].value <= |p| as real {
      UnitCost(g, p, v, t);
      assert AtMost(dist[v], Cost(u, p, v, t));
    }
    if dist[v].Finite? {
      var p :| IsPath(u, p, v, t) && Cost(u, p, v, t) == dist[v] && Chain(u, dist, out, p);
      UnitCost(g, p, v, t);
    }
  }

  /** While the unit graph is searched, no label is more than one beyond that of the node being
      expanded. */
  ghost predicate Near(dist: seq<Dist>, v: nat) {
    v < |dist| && dist[v].Finite? &&
    forall u :: 0 <= u < |dist| && dist[u].Finite? ==> dist[u].value <= dist[v].value + 1.0
  }

  /** So a node is due for a shorter label exactly if it has none, and goes to the queue's end. */
  lemma NearShorter(dist: seq<Dist>, q: seq<nat>, v: nat, w: nat)
    requires Near(dist, v) && w < |dist| && Sorted(dist, q) && forall u :: u in q ==> u < |dist| && dist[u].Finite?
    ensures Less(Finite(dist[v].value + 1.0), dist[w]) <==> dist[w].Infinite?
    ensures Place(dist, q, Finite(dist[v].value + 1.0), |q|)
  {
    assert forall i :: 0 <= i < |q| ==> q[i] in q;
  }

  /** Between expansions of the unit graph. */
  ghost predicate Layered(g: Graph, t: nat, dist: seq<Dist>, out: seq<Option<nat>>, order: seq<nat>, q: seq<nat>)
    requires WellFormed(g)
  {
    Between(g, t, dist, out, order, q) && Near(dist, if order != [] then order[|order| - 1] else t)
  }

  lemma PopLayered(g: Graph, t: nat, dist: seq<Dist>, out: seq<Option<nat>>, order: seq<nat>,
        q: seq<nat>)
    requires WellFormed(g) && Layered(g, t, dist, out, order, q) && q != []
    ensures Searching(g, t, dist, out, order + [q[0]], q[1..], 0) && Near(dist, q[0])
    ensures Unexpanded(g, order + [q[0]]) < Unexpanded(g, order)
  {
    PopKeeps(g, t, dist, out, order, q);
    PopExpands(g, t, dist, out, order, q);
    assert q[0] in q && dist[q[0]].Finite?;
    assert AtMost(dist[if order != [] then order[|order| - 1] else t], dist[q[0]]);
  }

  lemma LayeredIsShortest(g: Graph, t: nat, dist: seq<Dist>, out: seq<Option<nat>>, order: seq<nat>)
    requires WellFormed(g) && Layered(g, t, dist, out, order, [])
    ensures Shortest(g, t, dist, out)
  {
    FinishedIsShortest(g, t, dist, out, order);
  }

  /** Where all links weigh 1 and all nodes 0, breadth-first search and the weighted search find
      the same distances. */
  lemma SearchesAgree(g: Graph, t: nat, dist: seq<Dist>, out: seq<Option<nat>>, dist': seq<Dist>,
        out': seq<Option<nat>>)
    requires WellFormed(g) && WellFormed(Unit(g)) && Shortest(g, t, dist, out) && Shortest(Unit(g), t, dist', out')
    requires forall k :: 0 <= k < |g.links| ==> g.links[k].weight == Finite(1.0)
    requires forall v :: 0 <= v < |g.nodes| ==> g.nodes[v].weight == ZERO
    ensures dist == dist'
  {
    var u := Unit(g);
    assert u.nodes == g.nodes by { assert forall v :: 0 <= v < |g.nodes| ==> u.nodes[v] == g.nodes[v]; }
    assert u.links == g.links by { assert forall k :: 0 <= k < |g.links| ==> u.links[k] == g.links[k]; }
    assert u == g;
    ShortestUnique(g, t, dist, out, dist', out');
  }
}
