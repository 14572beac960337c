/** The query's walk over a shape: it prunes left subtrees by max_high and right subtrees by
    the try_right_branch marks, and still reports every overlapping interval. */
module IntervalTreeQuery {
  import opened IntervalTreeShape

  predicate Overlap(a1: int, a2: int, b1: int, b2: int) {
    if a1 <= b1 then b1 <= a2 else a1 <= b2
  }

  predicate Contains(a: int, b: int, x: int) { a <= x <= b }

  /** For intervals in order, overlap means having a point in common. */
  lemma OverlapMeansCommonPoint(a1: int, a2: int, b1: int, b2: int)
    requires a1 <= a2 && b1 <= b2
    ensures Overlap(a1, a2, b1, b2) <==> exists x :: Contains(a1, a2, x) && Contains(b1, b2, x)
  {
    if Overlap(a1, a2, b1, b2) {
      var x := Max(a1, b1);
      assert Contains(a1, a2, x) && Contains(b1, b2, x);
    }
  }

  /** The overlapping ones of a list of intervals. */
  function Overlapping(s: seq<Interval>, low: int, high: int): seq<Interval> {
    if s == [] then []
    else (if Overlap(low, high, s[0].low, s[0].high) then [s[0]] else []) + Overlapping(s[1..], low, high)
  }

  lemma {:induction false} OverlappingConcat(a: seq<Interval>, b: seq<Interval>, low: int, high: int)
    ensures Overlapping(a + b, low, high) == Overlapping(a, low, high) + Overlapping(b, low, high)
  {
    if a == [] {
      assert a + b == b;
    } else {
      var hit := if Overlap(low, high, a[0].low, a[0].high) then [a[0]] else [];
      assert (a + b)[0] == a[0] && (a + b)[1..] == a[1..] + b;
      assert Overlapping(a + b, low, high) == hit + Overlapping(a[1..] + b, low, high);
      assert Overlapping(a, low, high) == hit + Overlapping(a[1..], low, high);
      OverlappingConcat(a[1..], b, low, high);
      hide Overlapping, Overlap;
    }
  }

  /** The intervals a query over subtree t has to report, in the order it reports them. */
  function Hits(t: Tree, low: int, high: int): seq<Interval> {
    match t
    case Leaf => []
    case Node(_, ivl, _, _, l, r) =>
      (if Overlap(low, high, ivl.low, ivl.high) then [ivl] else []) + Hits(l, low, high) + Hits(r, low, high)
  }

  lemma {:induction false} HitsArePreorder(t: Tree, low: int, high: int)
    ensures Hits(t, low, high) == Overlapping(Preorder(t), low, high)
  {
    match t
    case Leaf =>
    case Node(_, ivl, _, _, l, r) =>
      HitsArePreorder(l, low, high);
      HitsArePreorder(r, low, high);
      OverlappingConcat([ivl] + Preorder(l), Preorder(r), low, high);
      OverlappingConcat([ivl], Preorder(l), low, high);
      assert Overlapping([ivl], low, high) == if Overlap(low, high, ivl.low, ivl.high) then [ivl] else [];
  }

  // ---------- the walk ----------

  /** t: the subtree to visit next; frames: the nodes on the recursion stack, whose left subtrees
      are being visited; flags: their try_right_branch marks, behind that of the unused slot 0;
      out: the intervals reported. */
  datatype Walk = Walk(t: Tree, frames: seq<Tree>, flags: seq<bool>, out: seq<Interval>)

  predicate Shaped(w: Walk) {
    |w.flags| == |w.frames| + 1 && forall i :: 0 <= i < |w.frames| ==> w.frames[i].Node?
  }

  function Start(t: Tree, flag: bool): Walk { Walk(t, [], [flag], []) }

  /** Visit the node t: report it if it overlaps, then go left or right. */
  function Visit(w: Walk, low: int, high: int): (v: Walk)
    requires Shaped(w) && w.t.Node?
    ensures Shaped(v)
  {
    var hit := Overlap(low, high, w.t.ivl.low, w.t.ivl.high);
    var out := if hit then w.out + [w.t.ivl] else w.out;
    var flags := if hit then w.flags[|w.frames| := true] else w.flags;
    if MaxHigh(w.t.left) >= low then Walk(w.t.left, w.frames + [w.t], flags + [false], out)
    else Walk(w.t.right, w.frames, flags, out)
  }

  /** Nothing left here: pop a frame, and go to its right subtree if it is marked. */
  function Pop(w: Walk): (v: Walk)
    requires Shaped(w) && w.t.Leaf? && w.frames != []
    ensures Shaped(v)
  {
    var n := |w.frames| - 1;
    if w.flags[n + 1] then Walk(w.frames[n].right, w.frames[..n], w.flags[..n + 1][n := true], w.out)
    else Walk(Leaf, w.frames[..n], w.flags[..n + 1], w.out)
  }

  function Pending(frames: seq<Tree>): nat {
    if frames == [] then 0
    else
      var f := frames[|frames| - 1];
      (if f.Node? then 1 + 2 * Size(f.right) else 0) + Pending(frames[..|frames| - 1])
  }

  function Work(w: Walk): nat { 2 * Size(w.t) + Pending(w.frames) }

  lemma VisitWorks(w: Walk, low: int, high: int)
    requires Shaped(w) && w.t.Node?
    ensures Work(Visit(w, low, high)) < Work(w)
  {
    assert (w.frames + [w.t])[..|w.frames|] == w.frames;
  }

  lemma PopWorks(w: Walk)
    requires Shaped(w) && w.t.Leaf? && w.frames != []
    ensures Work(Pop(w)) < Work(w)
  {
  }

  /** The whole walk. */
  function Run(w: Walk, low: int, high: int): (v: Walk)
    requires Shaped(w)
    ensures Shaped(v) && v.t.Leaf? && v.frames == []
    decreases Work(w)
  {
    if w.t.Node? then
      VisitWorks(w, low, high);
      Run(Visit(w, low, high), low, high)
    else if w.frames != [] then
      PopWorks(w);
      Run(Pop(w), low, high)
    else w
  }

  lemma {:induction false} RunVisit(w: Walk, low: int, high: int)
    requires Shaped(w) && w.t.Node?
    ensures Run(w, low, high) == Run(Visit(w, low, high), low, high) && Work(Visit(w, low, high)) < Work(w)
    ensures Visit(w, low, high).out ==
            if Overlap(low, high, w.t.ivl.low, w.t.ivl.high) then w.out + [w.t.ivl] else w.out
  {
    VisitWorks(w, low, high);
  }

  lemma {:induction false} RunPop(w: Walk, low: int, high: int)
    requires Shaped(w) && w.t.Leaf? && w.frames != []
    ensures Run(w, low, high) == Run(Pop(w), low, high) && Work(Pop(w)) < Work(w)
  {
    PopWorks(w);
  }

  lemma {:induction false} RunOver(w: Walk, low: int, high: int)
    requires Shaped(w) && w.t.Leaf? && w.frames == []
    ensures Run(w, low, high) == w
  {
  }

  // ---------- what the walk finds ----------

  /** What the walk reports of a subtree: with the left part visited, the right part is visited
      only if something was reported there. */
  function Found(t: Tree, low: int, high: int): seq<Interval> {
    match t
    case Leaf => []
    case Node(_, ivl, _, _, l, r) =>
      (if Overlap(low, high, ivl.low, ivl.high) then [ivl] else []) +
      if MaxHigh(l) < low then Found(r, low, high)
      else Found(l, low, high) + if Found(l, low, high) != [] then Found(r, low, high) else []
  }

  /** What is reported while the frames are popped: a marked one visits its right subtree and marks
      the one below. */
  function Unwound(frames: seq<Tree>, flags: seq<bool>, low: int, high: int): seq<Interval>
    requires |flags| == |frames| + 1
    decreases |frames|
  {
    if frames == [] then []
    else
      var n := |frames| - 1;
      if flags[n + 1] && frames[n].Node? then
        Found(frames[n].right, low, high) + Unwound(frames[..n], flags[..n + 1][n := true], low, high)
      else Unwound(frames[..n], flags[..n + 1], low, high)
  }

  /** The marks once something has been reported or not. */
  function MarkTop(flags: seq<bool>, some: bool): seq<bool>
    requires flags != []
  {
    if some then flags[|flags| - 1 := true] else flags
  }

  /** Everything reported by the end, seen from any state of the walk. */
  function Total(w: Walk, low: int, high: int): seq<Interval>
    requires Shaped(w)
  {
    w.out + (Found(w.t, low, high) + Unwound(w.frames, MarkTop(w.flags, Found(w.t, low, high) != []), low, high))
  }

  lemma {:induction false} UnwoundPush(frames: seq<Tree>, t: Tree, flags: seq<bool>, some: bool, low: int, high: int)
    requires |flags| == |frames| + 1 && t.Node?
    ensures Unwound(frames + [t], flags + [some], low, high) ==
            (if some then Found(t.right, low, high) else []) + Unwound(frames, MarkTop(flags, some), low, high)
  {
    assert (frames + [t])[..|frames|] == frames && (flags + [some])[..|flags|] == flags;
  }

  lemma RegroupFound(out: seq<Interval>, hit: seq<Interval>, l: seq<Interval>, r: seq<Interval>,
        u: seq<Interval>)
    ensures out + ((hit + (l + r)) + u) == (out + hit) + (l + (r + u))
    ensures out + ((hit + r) + u) == (out + hit) + (r + u)
  {
  }

  lemma VisitTotal(w: Walk, low: int, high: int)
    requires Shaped(w) && w.t.Node?
    ensures Total(Visit(w, low, high), low, high) == Total(w, low, high)
  {
    var v, l, r := Visit(w, low, high), Found(w.t.left, low, high), Found(w.t.right, low, high);
    var hit := if Overlap(low, high, w.t.ivl.low, w.t.ivl.high) then [w.t.ivl] else [];
    var flags := MarkTop(w.flags, hit != []);
    assert v.out == w.out + hit;
    if MaxHigh(w.t.left) >= low {
      assert MarkTop(v.flags, l != []) == flags + [l != []];
      UnwoundPush(w.frames, w.t, flags, l != [], low, high);
      assert MarkTop(flags, l != []) == MarkTop(w.flags, hit + l != []);
      RegroupFound(w.out, hit, l, if l != [] then r else [], Unwound(w.frames, MarkTop(flags, l != []), low, high));
    } else {
      assert MarkTop(flags, r != []) == MarkTop(w.flags, hit + r != []);
      RegroupFound(w.out, hit, l, r, Unwound(w.frames, MarkTop(flags, r != []), low, high));
    }
  }

  lemma PopTotal(w: Walk, low: int, high: int)
    requires Shaped(w) && w.t.Leaf? && w.frames != []
    ensures Total(Pop(w), low, high) == Total(w, low, high)
  {
    var v, n := Pop(w), |w.frames| - 1;
    assert MarkTop(w.flags, false) == w.flags;
    assert w.flags[n + 1] ==> MarkTop(v.flags, Found(v.t, low, high) != []) == v.flags;
  }

  /** Whatever the tree and the query, the walk reports what Found says. */
  lemma {:induction false} RunFinds(w: Walk, low: int, high: int)
    requires Shaped(w)
    ensures Run(w, low, high).out == Total(w, low, high)
    decreases Work(w)
  {
    if w.t.Node? {
      VisitWorks(w, low, high);
      VisitTotal(w, low, high);
      RunFinds(Visit(w, low, high), low, high);
    } else if w.frames != [] {
      PopWorks(w);
      PopTotal(w, low, high);
      RunFinds(Pop(w), low, high);
    }
  }

  lemma {:induction false} WalkFinds(t: Tree, flag: bool, low: int, high: int)
    ensures Run(Start(t, flag), low, high).out == Found(t, low, high)
  {
    RunFinds(Start(t, flag), low, high);
  }

  // ---------- why nothing is lost ----------

  predicate Good(t: Tree) { Augmented(t) && SortedEntries(Inorder(t)) }

  lemma GoodParts(t: Tree)
    requires Good(t) && t.Node?
    ensures Good(t.left) && Good(t.right) && Proper(t.ivl)
    ensures forall e :: e in Inorder(t.left) ==> e.ivl.low <= t.ivl.low
    ensures forall e :: e in Inorder(t.right) ==> t.ivl.low <= e.ivl.low
  {
    assert Augmented(t.left) && Augmented(t.right);
    assert SortedEntries(Inorder(t));
    hide SortedEntries, Augmented;
    SortedAround(Inorder(t.left), Entry(t.node, t.ivl), Inorder(t.right), Inorder(t));
  }

  /** Below max_high nothing can overlap. */
  lemma {:induction false} NoHitsBelow(t: Tree, low: int, high: int)
    requires Good(t) && MaxHigh(t) < low
    ensures Hits(t, low, high) == []
  {
    if t.Node? {
      GoodParts(t);
      NoHitsBelow(t.left, low, high);
      NoHitsBelow(t.right, low, high);
    }
  }

  /** Beyond the query's high end nothing can overlap. */
  lemma {:induction false} NoHitsBeyond(t: Tree, low: int, high: int)
    requires Good(t) && low <= high && forall e :: e in Inorder(t) ==> high < e.ivl.low
    ensures Hits(t, low, high) == []
  {
    if t.Node? {
      GoodParts(t);
      var e := Entry(t.node, t.ivl);
      assert e in Inorder(t);
      NoHitsBeyond(t.left, low, high);
      NoHitsBeyond(t.right, low, high);
    }
  }

  /** If the left part reaches up to the query and yet holds no hit, some key in it lies beyond. */
  lemma {:induction false} MissBeyond(t: Tree, low: int, high: int) returns (e: Entry)
    requires Good(t) && NIL_HIGH < low <= high && low <= MaxHigh(t) && Hits(t, low, high) == []
    ensures e in Inorder(t) && high < e.ivl.low
  {
    GoodParts(t);
    e := Entry(t.node, t.ivl);
    if t.ivl.high != t.maxHigh {
      e := MissBeyond(if MaxHigh(t.left) == t.maxHigh then t.left else t.right, low, high);
    }
  }

  /** So skipping the right part loses nothing. */
  lemma {:induction false} SkipRight(t: Tree, low: int, high: int)
    requires t.Node? && Good(t) && NIL_HIGH < low <= high && low <= MaxHigh(t.left) && Hits(t.left, low, high) == []
    ensures Hits(t.right, low, high) == []
  {
    GoodParts(t);
    var e := MissBeyond(t.left, low, high);
    NoHitsBeyond(t.right, low, high);
  }

  lemma {:induction false} FoundAreHits(t: Tree, low: int, high: int)
    requires Good(t) && NIL_HIGH < low <= high
    ensures Found(t, low, high) == Hits(t, low, high)
  {
    if t.Node? {
      GoodParts(t);
      FoundAreHits(t.left, low, high);
      FoundAreHits(t.right, low, high);
      if MaxHigh(t.left) < low {
        NoHitsBelow(t.left, low, high);
      } else if Hits(t.left, low, high) == [] {
        SkipRight(t, low, high);
      }
    }
  }

  /** A query reports exactly the overlapping intervals, each once, in preorder. */
  lemma {:induction false} QueryIsComplete(t: Tree, flag: bool, low: int, high: int)
    requires Good(t) && NIL_HIGH < low <= high
    ensures Run(Start(t, flag), low, high).out == Overlapping(Preorder(t), low, high)
  {
    WalkFinds(t, flag, low, high);
    FoundAreHits(t, low, high);
    HitsArePreorder(t, low, high);
  }

  // ---------- queries from nil's max_high ----------

  /** No node without left child has a right child whose key the query reaches. */
  predicate NothingHidden(t: Tree, high: int) {
    match t
    case Leaf => true
    case Node(_, _, _, _, l, r) =>
      (l.Leaf? && r.Node? ==> high < r.ivl.low) && NothingHidden(l, high) && NothingHidden(r, high)
  }

  /** Next to a missing left child a balanced tree has at most one node. */
  lemma {:induction false} LoneRightChild(t: Tree)
    requires Balanced(t) && t.Node? && t.left.Leaf? && t.right.Node?
    ensures t.right.left.Leaf? && t.right.right.Leaf?
  {
    var r := t.right;
    assert BlackHeight(r) == BlackHeight(Leaf) == 0;
    assert r.red && BlackHeight(r.left) == 0 && BlackHeight(r.right) == 0;
    assert !IsRed(r.left) && !IsRed(r.right);
  }

  lemma {:induction false} LoneHit(r: Tree, high: int)
    requires Good(r) && r.Node? && r.left.Leaf? && r.right.Leaf? && NIL_HIGH <= high
    ensures Hits(r, NIL_HIGH, high) == [] <==> high < r.ivl.low
  {
    GoodParts(r);
    assert Hits(Leaf, NIL_HIGH, high) == [];
  }

  /** All there is has been found, or less than that. */
  predicate FoundAll(found: seq<Interval>, hits: seq<Interval>, all: bool) {
    if all then found == hits else |found| < |hits|
  }

  lemma FoundBoth(hit: seq<Interval>, found: seq<Interval>, hits: seq<Interval>, all: bool,
      found': seq<Interval>, hits': seq<Interval>, all': bool)
    requires FoundAll(found, hits, all) && FoundAll(found', hits', all') && (hits == [] ==> hits' == [])
    ensures FoundAll(hit + (found + if found != [] then found' else []), hit + hits + hits', all && all')
  {
  }

  lemma {:induction false} LeftMissing(t: Tree, high: int)
    requires t.Node? && t.left.Leaf? && Good(t) && Balanced(t) && NIL_HIGH <= high
    ensures FoundAll(Found(t, NIL_HIGH, high), Hits(t, NIL_HIGH, high), NothingHidden(t, high))
  {
    var r := t.right;
    GoodParts(t);
    if r.Node? {
      LoneRightChild(t);
      LoneHit(r, high);
    }
    hide Good, Balanced, Overlap;
    assert Found(Leaf, NIL_HIGH, high) == [] && Hits(Leaf, NIL_HIGH, high) == [];
    assert NothingHidden(r, high);
  }

  /** A query from nil's max_high finds everything if and only if nothing is hidden from it. */
  lemma {:induction false} FoundFromNil(t: Tree, high: int)
    requires Good(t) && Balanced(t) && NIL_HIGH <= high
    ensures FoundAll(Found(t, NIL_HIGH, high), Hits(t, NIL_HIGH, high), NothingHidden(t, high))
  {
    hide FoundAll;
    if t.Leaf? {
      NothingInLeaf(high);
    } else if t.left.Leaf? {
      LeftMissing(t, high);
    } else {
      var l, r := t.left, t.right;
      assert Balanced(l) && Balanced(r);
      hide Balanced;
      GoodParts(t);
      FoundFromNil(l, high);
      FoundFromNil(r, high);
      MaxHighFromNil(l);
      if Hits(l, NIL_HIGH, high) == [] { MissFromNil(t, high); }
      var hit := if Overlap(NIL_HIGH, high, t.ivl.low, t.ivl.high) then [t.ivl] else [];
      FoundBoth(hit, Found(l, NIL_HIGH, high), Hits(l, NIL_HIGH, high), NothingHidden(l, high),
        Found(r, NIL_HIGH, high), Hits(r, NIL_HIGH, high), NothingHidden(r, high));
    }
  }

  lemma {:induction false} NothingInLeaf(high: int)
    ensures FoundAll(Found(Leaf, NIL_HIGH, high), Hits(Leaf, NIL_HIGH, high), NothingHidden(Leaf, high))
  {
  }

  lemma MaxHighFromNil(t: Tree)
    requires Good(t)
    ensures NIL_HIGH <= MaxHigh(t)
  {
    if t.Node? { GoodParts(t); }
  }

  /** Where the left part holds no hit the right part holds none either. */
  lemma {:induction false} MissFromNil(t: Tree, high: int)
    requires t.Node? && Good(t) && t.left.Node? && NIL_HIGH <= high && Hits(t.left, NIL_HIGH, high) == []
    ensures Hits(t.right, NIL_HIGH, high) == []
  {
    GoodParts(t);
    GoodParts(t.left);
    assert Entry(t.left.node, t.left.ivl) in Inorder(t.left);
    assert high < t.left.ivl.low;
    NoHitsBeyond(t.right, NIL_HIGH, high);
  }

  /** On a balanced, augmented, sorted tree a query is exact if and only if it starts above nil's
      max_high or nothing is hidden from it. */
  lemma {:induction false} ExactIff(t: Tree, flag: bool, low: int, high: int)
    requires Good(t) && Balanced(t) && NIL_HIGH <= low <= high
    ensures Run(Start(t, flag), low, high).out == Overlapping(Preorder(t), low, high) <==>
            low != NIL_HIGH || NothingHidden(t, high)
  {
    if low == NIL_HIGH {
      WalkFinds(t, flag, low, high);
      HitsArePreorder(t, low, high);
      FoundFromNil(t, high);
    } else {
      QueryIsComplete(t, flag, low, high);
    }
  }

  /** Every balanced, augmented, sorted shape is answered exactly. */
  ghost predicate Exact(low: int, high: int) {
    forall t, flag ::
      Good(t) && Balanced(t) ==> Run(Start(t, flag), low, high).out == Overlapping(Preorder(t), low, high)
  }

  /** A single node, holding the least interval there is. */
  function Lone(address: nat, red: bool, right: Tree): Tree {
    Node(Ref(address), Interval(address, NIL_HIGH, NIL_HIGH), NIL_HIGH, red, Leaf, right)
  }

  lemma LoneIsGood()
    ensures var r := Lone(2, true, Leaf);
      Good(r) && Balanced(r) && BlackHeight(r) == 0 && Inorder(r) == [Entry(r.node, r.ivl)]
  {
    var r := Lone(2, true, Leaf);
    LeafFacts();
    assert Inorder(r) == [] + [Entry(r.node, r.ivl)] + [];
    assert Proper(r.ivl);
  }

  lemma LeafFacts()
    ensures Inorder(Leaf) == [] && Augmented(Leaf) && Balanced(Leaf) && BlackHeight(Leaf) == 0
    ensures !IsRed(Leaf) && MaxHigh(Leaf) == NIL_HIGH
  {
  }

  lemma PairIsGood()
    ensures var t := Lone(1, false, Lone(2, true, Leaf));
      Good(t) && Balanced(t)
  {
    var r := Lone(2, true, Leaf);
    var t := Lone(1, false, r);
    LeafFacts();
    LoneIsGood();
    assert Inorder(t) == [] + [Entry(t.node, t.ivl)] + Inorder(r);
    assert Proper(t.ivl);
    assert Inorder(t) == [Entry(t.node, t.ivl), Entry(r.node, r.ivl)];
  }

  /** A query from nil's own max_high on pushes a frame for a missing left child, whose mark
      nobody can set any more: the right child is never visited. */
  lemma {:induction false} LostRightChild(flag: bool, high: int)
    requires NIL_HIGH <= high
    ensures var t := Lone(1, false, Lone(2, true, Leaf));
      Good(t) && Balanced(t) && Run(Start(t, flag), NIL_HIGH, high).out != Overlapping(Preorder(t), NIL_HIGH, high)
  {
    var t := Lone(1, false, Lone(2, true, Leaf));
    PairIsGood();
    assert !NothingHidden(t, high);
    hide Good, Balanced;
    ExactIff(t, flag, NIL_HIGH, high);
  }

  /** So queries are exact on every tree if and only if they start above nil's max_high. */
  lemma ExactAboveNil(low: int, high: int)
    requires NIL_HIGH <= low <= high
    ensures Exact(low, high) <==> low != NIL_HIGH
  {
    hide Good, Balanced, Run;
    if low == NIL_HIGH {
      LostRightChild(false, high);
    } else {
      forall t, flag | Good(t) && Balanced(t)
        ensures Run(Start(t, flag), low, high).out == Overlapping(Preorder(t), low, high)
      {
        QueryIsComplete(t, flag, low, high);
      }
    }
  }
}
