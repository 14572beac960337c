/** How the hand-made recursion stack of a query stands for the state of the walk. */
module IntervalTreeStack {
  import opened IntervalTreeShape
  import opened IntervalTreeMemory
  import opened IntervalTreeQuery

  datatype RecursionNode = RecursionNode(startNode: Ref, parentIndex: nat, tryRight: bool)

  /** The used part of the stack carries the frames and marks of the walk; every frame's parent
      is the slot below it. */
  predicate Mirrors(s: seq<RecursionNode>, w: Walk) {
    Shaped(w) && |s| == |w.flags| &&
    (forall i :: 0 <= i < |s| ==> s[i].tryRight == w.flags[i]) &&
    (forall i :: 0 < i < |s| ==> s[i].startNode == w.frames[i - 1].node && s[i].parentIndex == i - 1)
  }

  /** The slot on top stands for the frame on top. */
  lemma MirrorsTop(s: seq<RecursionNode>, w: Walk)
    requires Mirrors(s, w)
    ensures Shaped(w) && |s| == |w.frames| + 1
    ensures var n := |s| - 1;
      s[n].tryRight == w.flags[n] &&
      (n > 0 ==> s[n].startNode == w.frames[n - 1].node && s[n].parentIndex == n - 1)
  {
  }

  /** The stack with slot i marked. */
  function Marked(s: seq<RecursionNode>, i: nat): seq<RecursionNode>
    requires i < |s|
  {
    s[i := RecursionNode(s[i].startNode, s[i].parentIndex, true)]
  }

  /** What visiting x does to the stack. */
  function Visited(s: seq<RecursionNode>, x: Ref, hit: bool, goLeft: bool): seq<RecursionNode>
    requires |s| > 0
  {
    (if hit then Marked(s, |s| - 1) else s) + if goLeft then [RecursionNode(x, |s| - 1, false)] else []
  }

  lemma VisitMirrored(s: seq<RecursionNode>, w: Walk, low: int, high: int)
    requires Mirrors(s, w) && w.t.Node?
    ensures Mirrors(Visited(s, w.t.node, Overlap(low, high, w.t.ivl.low, w.t.ivl.high), MaxHigh(w.t.left) >= low),
                    Visit(w, low, high))
  {
  }

  /** What popping does to the stack. */
  function Popped(s: seq<RecursionNode>): seq<RecursionNode>
    requires |s| > 1
  {
    var n := |s| - 1;
    if s[n].tryRight then Marked(s[..n], n - 1) else s[..n]
  }

  lemma PopMirrored(s: seq<RecursionNode>, w: Walk)
    requires Mirrors(s, w) && w.t.Leaf? && |s| > 1
    ensures Mirrors(Popped(s), Pop(w))
  {
    var n := |s| - 1;
    var r, v := Popped(s), Pop(w);
    assert w.flags[n] == s[n].tryRight && Shaped(v) && |r| == |v.flags| == n && v.frames == w.frames[..n - 1];
    assert forall i :: 0 <= i < n ==> r[i] == if s[n].tryRight && i == n - 1 then s[i].(tryRight := true) else s[i];
  }

  /** The node to visit next and the frames are where the walk says, in the linked nodes. */
  ghost predicate Standing(m: Mem, c: Ctx, cs: seq<Ctx>, w: Walk, root: Ref, nil: Ref) {
    Shaped(w) && |cs| == |w.frames| && Spells(m, c, w.t, root, nil) &&
    forall i :: 0 <= i < |cs| ==> Spells(m, cs[i], w.frames[i], root, nil)
  }

  lemma VisitStanding(m: Mem, c: Ctx, cs: seq<Ctx>, w: Walk, root: Ref, nil: Ref, low: int,
        high: int)
    returns (c': Ctx, cs': seq<Ctx>)
    requires Standing(m, c, cs, w, root, nil) && w.t.Node?
    ensures Standing(m, c', cs', Visit(w, low, high), root, nil)
  {
    hide Spells;
    Opened(m, c, w.t, root, nil);
    if MaxHigh(w.t.left) >= low {
      c', cs' := InLeft(w.t.node, w.t.ivl, w.t.maxHigh, w.t.red, c, w.t.right), cs + [c];
    } else {
      c', cs' := InRight(w.t.node, w.t.ivl, w.t.maxHigh, w.t.red, w.t.left, c), cs;
    }
  }

  lemma PopStanding(m: Mem, c: Ctx, cs: seq<Ctx>, w: Walk, root: Ref, nil: Ref)
    returns (c': Ctx, cs': seq<Ctx>)
    requires Standing(m, c, cs, w, root, nil) && w.t.Leaf? && w.frames != []
    ensures Standing(m, c', cs', Pop(w), root, nil)
  {
    hide Spells;
    var n := |w.frames| - 1;
    var f := w.frames[n];
    Opened(m, cs[n], f, root, nil);
    cs' := cs[..n];
    c' := if w.flags[n + 1] then InRight(f.node, f.ivl, f.maxHigh, f.red, f.left, cs[n]) else c;
  }

  /** The fields the loop reads at the node to visit. */
  lemma StandingHere(m: Mem, c: Ctx, cs: seq<Ctx>, w: Walk, root: Ref, nil: Ref)
    requires Standing(m, c, cs, w, root, nil) && w.t.Node?
    ensures var x := w.t.node;
      x in m.left && x in m.right && x in m.interval && m.interval[x] == w.t.ivl &&
      m.left[x] == Head(w.t.left, nil) && m.right[x] == Head(w.t.right, nil) &&
      m.left[x] in m.maxHigh && m.maxHigh[m.left[x]] == MaxHigh(w.t.left)
  {
    LookDown(m, c, w.t, root, nil);
  }

  /** The fields read on popping. */
  lemma StandingTop(m: Mem, c: Ctx, cs: seq<Ctx>, w: Walk, root: Ref, nil: Ref)
    requires Standing(m, c, cs, w, root, nil) && w.frames != []
    ensures var f := w.frames[|w.frames| - 1];
      f.node in m.right && m.right[f.node] == Head(f.right, nil)
  {
    var n := |w.frames| - 1;
    LookDown(m, cs[n], w.frames[n], root, nil);
  }

  /** nil is met exactly where the walk has nothing to visit. */
  lemma StandingNil(m: Mem, c: Ctx, cs: seq<Ctx>, w: Walk, root: Ref, nil: Ref)
    requires Standing(m, c, cs, w, root, nil)
    ensures Head(w.t, nil) != nil <==> w.t.Node?
  {
    Look(m, c, w.t, root, nil);
  }
}
