/** The interval tree seen as a value: the shape a set of linked nodes spells out, the
    red-black and augmentation invariants on it, and zippers that name one position. */
module IntervalTreeShape {
  import opened Basics

  /** The largest simulation time. */
  const MAX_TIME: int := 0x7FFF_FFFF_FFFF_FFFF

  /** The nil sentinel's max_high, the lowest simulation time. */
  const NIL_HIGH: int := -MAX_TIME

  /** An interval [low, high]; intervals are told apart by their address. */
  datatype Interval = Interval(address: nat, low: int, high: int)

  /** The address of a tree node. */
  datatype Ref = Ref(address: nat)

  function Max(a: int, b: int): int { if a < b then b else a }

  // ---------- shapes ----------

  datatype Tree =
    | Leaf
    | Node(node: Ref, ivl: Interval, maxHigh: int, red: bool, left: Tree, right: Tree)

  /** A stored entry: the node and the interval it stores. */
  datatype Entry = Entry(node: Ref, ivl: Interval)

  function Refs(t: Tree): set<Ref> {
    match t
    case Leaf => {}
    case Node(n, _, _, _, l, r) => {n} + Refs(l) + Refs(r)
  }

  /** The entries in key order. */
  function Inorder(t: Tree): seq<Entry> {
    match t
    case Leaf => []
    case Node(n, ivl, _, _, l, r) => Inorder(l) + [Entry(n, ivl)] + Inorder(r)
  }

  function Preorder(t: Tree): seq<Interval> {
    match t
    case Leaf => []
    case Node(_, ivl, _, _, l, r) => [ivl] + Preorder(l) + Preorder(r)
  }

  function Size(t: Tree): nat {
    match t
    case Leaf => 0
    case Node(_, _, _, _, l, r) => 1 + Size(l) + Size(r)
  }

  function Height(t: Tree): nat {
    match t
    case Leaf => 0
    case Node(_, _, _, _, l, r) => 1 + Max(Height(l), Height(r))
  }

  /** No node occurs twice. */
  predicate Distinct(t: Tree) {
    match t
    case Leaf => true
    case Node(n, _, _, _, l, r) =>
      n !in Refs(l) && n !in Refs(r) && Refs(l) !! Refs(r) && Distinct(l) && Distinct(r)
  }

  /** An interval of simulation times whose ends are in order. */
  predicate Proper(ivl: Interval) { NIL_HIGH <= ivl.low <= ivl.high <= MAX_TIME }

  /** Proper entries sorted by low end; equal keys may stand on either side of each other. */
  predicate SortedEntries(s: seq<Entry>) {
    (forall i :: 0 <= i < |s| ==> Proper(s[i].ivl)) &&
    (forall i, j :: 0 <= i < j < |s| ==> s[i].ivl.low <= s[j].ivl.low)
  }

  // ---------- augmentation ----------

  function MaxHigh(t: Tree): int { if t.Leaf? then NIL_HIGH else t.maxHigh }

  predicate Augmented(t: Tree) {
    match t
    case Leaf => true
    case Node(_, ivl, m, _, l, r) =>
      m == Max(ivl.high, Max(MaxHigh(l), MaxHigh(r))) && Augmented(l) && Augmented(r)
  }

  // ---------- red-black balance ----------

  predicate IsRed(t: Tree) { t.Node? && t.red }

  function BlackHeight(t: Tree): nat {
    match t
    case Leaf => 0
    case Node(_, _, _, red, l, _) => BlackHeight(l) + if red then 0 else 1
  }

  /** No red node has a red child and all paths carry equally many black nodes. */
  predicate Balanced(t: Tree) {
    match t
    case Leaf => true
    case Node(_, _, _, red, l, r) =>
      (red ==> !IsRed(l) && !IsRed(r)) && BlackHeight(l) == BlackHeight(r) && Balanced(l) && Balanced(r)
  }

  // ---------- zippers ----------

  /** The path from a position up to the top, with the subtrees hanging off it. */
  datatype Ctx =
    | Top
    | InLeft(node: Ref, ivl: Interval, maxHigh: int, red: bool, up: Ctx, right: Tree)
    | InRight(node: Ref, ivl: Interval, maxHigh: int, red: bool, left: Tree, up: Ctx)

  function Fill(c: Ctx, t: Tree): Tree {
    match c
    case Top => t
    case InLeft(n, ivl, m, red, up, r) => Fill(up, Node(n, ivl, m, red, t, r))
    case InRight(n, ivl, m, red, l, up) => Fill(up, Node(n, ivl, m, red, l, t))
  }

  function Paint(t: Tree, red: bool): Tree {
    match t
    case Leaf => Leaf
    case Node(n, ivl, m, _, l, r) => Node(n, ivl, m, red, l, r)
  }

  /** One level of Fill. */
  function Plug(c: Ctx, t: Tree): (r: Tree)
    requires !c.Top?
    ensures r.Node?
  {
    if c.InLeft? then Node(c.node, c.ivl, c.maxHigh, c.red, t, c.right)
    else Node(c.node, c.ivl, c.maxHigh, c.red, c.left, t)
  }

  function CtxRefs(c: Ctx): set<Ref> {
    match c
    case Top => {}
    case InLeft(n, _, _, _, up, r) => {n} + Refs(r) + CtxRefs(up)
    case InRight(n, _, _, _, l, up) => {n} + Refs(l) + CtxRefs(up)
  }

  predicate CtxDistinct(c: Ctx) {
    match c
    case Top => true
    case InLeft(n, _, _, _, up, r) =>
      n !in Refs(r) && n !in CtxRefs(up) && Refs(r) !! CtxRefs(up) && Distinct(r) && CtxDistinct(up)
    case InRight(n, _, _, _, l, up) =>
      n !in Refs(l) && n !in CtxRefs(up) && Refs(l) !! CtxRefs(up) && Distinct(l) && CtxDistinct(up)
  }

  function Depth(c: Ctx): nat {
    match c
    case Top => 0
    case InLeft(_, _, _, _, up, _) => 1 + Depth(up)
    case InRight(_, _, _, _, _, up) => 1 + Depth(up)
  }

  /** The entries standing before, and after, the position in key order. */
  function Before(c: Ctx): seq<Entry> {
    match c
    case Top => []
    case InLeft(_, _, _, _, up, _) => Before(up)
    case InRight(n, ivl, _, _, l, up) => Before(up) + Inorder(l) + [Entry(n, ivl)]
  }

  function After(c: Ctx): seq<Entry> {
    match c
    case Top => []
    case InLeft(n, ivl, _, _, up, r) => [Entry(n, ivl)] + Inorder(r) + After(up)
    case InRight(_, _, _, _, _, up) => After(up)
  }

  /** Put one context inside another. */
  function Compose(inner: Ctx, outer: Ctx): Ctx {
    match inner
    case Top => outer
    case InLeft(n, ivl, m, red, up, r) => InLeft(n, ivl, m, red, Compose(up, outer), r)
    case InRight(n, ivl, m, red, l, up) => InRight(n, ivl, m, red, l, Compose(up, outer))
  }

  predicate CtxAugmented(c: Ctx, m: int) {
    match c
    case Top => true
    case InLeft(_, ivl, mx, _, up, r) =>
      mx == Max(ivl.high, Max(m, MaxHigh(r))) && Augmented(r) && CtxAugmented(up, mx)
    case InRight(_, ivl, mx, _, l, up) =>
      mx == Max(ivl.high, Max(MaxHigh(l), m)) && Augmented(l) && CtxAugmented(up, mx)
  }

  /** The subtrees off the path are augmented; the path itself may be stale. */
  predicate SidesAugmented(c: Ctx) {
    match c
    case Top => true
    case InLeft(_, _, _, _, up, r) => Augmented(r) && SidesAugmented(up)
    case InRight(_, _, _, _, l, up) => Augmented(l) && SidesAugmented(up)
  }

  /** The path with every max_high recomputed from below. */
  function Refresh(c: Ctx, m: int): Ctx {
    match c
    case Top => Top
    case InLeft(n, ivl, _, red, up, r) =>
      var mx := Max(ivl.high, Max(m, MaxHigh(r)));
      InLeft(n, ivl, mx, red, Refresh(up, mx), r)
    case InRight(n, ivl, _, red, l, up) =>
      var mx := Max(ivl.high, Max(MaxHigh(l), m));
      InRight(n, ivl, mx, red, l, Refresh(up, mx))
  }

  predicate CtxRed(c: Ctx) { !c.Top? && c.red }

  /** Filling the hole with a balanced tree of black height h and a suitable root colour
      gives a balanced tree with a black root. */
  predicate CtxBalanced(c: Ctx, h: nat) {
    match c
    case Top => true
    case InLeft(_, _, _, red, up, r) =>
      Balanced(r) && BlackHeight(r) == h && (red ==> !IsRed(r) && !up.Top? && !CtxRed(up)) &&
      CtxBalanced(up, if red then h else h + 1)
    case InRight(_, _, _, red, l, up) =>
      Balanced(l) && BlackHeight(l) == h && (red ==> !IsRed(l) && !up.Top? && !CtxRed(up)) &&
      CtxBalanced(up, if red then h else h + 1)
  }

  // ---------- how zippers and shapes relate ----------

  lemma Regroup<T>(a: seq<T>, b: seq<T>, c: seq<T>, d: seq<T>, e: seq<T>)
    ensures a + b + (c + d + e) == (a + b + c) + d + e
  {
  }

  lemma Regroup2<T>(a: seq<T>, b: seq<T>, c: seq<T>, d: seq<T>, e: seq<T>)
    ensures a + (b + c + d) + e == a + b + (c + d + e)
    ensures a + (b + c + d) + e == (a + b + c) + d + e
  {
  }

  lemma {:induction false} FillInorder(c: Ctx, t: Tree)
    ensures Inorder(Fill(c, t)) == Before(c) + Inorder(t) + After(c)
  {
    match c
    case Top =>
    case InLeft(n, ivl, m, red, up, r) =>
      FillInorder(up, Node(n, ivl, m, red, t, r));
      Regroup2(Before(up), Inorder(t), [Entry(n, ivl)], Inorder(r), After(up));
    case InRight(n, ivl, m, red, l, up) =>
      FillInorder(up, Node(n, ivl, m, red, l, t));
      Regroup2(Before(up), Inorder(l), [Entry(n, ivl)], Inorder(t), After(up));
  }

  lemma {:induction false} FillRefs(c: Ctx, t: Tree)
    ensures Refs(Fill(c, t)) == CtxRefs(c) + Refs(t)
    ensures Distinct(Fill(c, t)) <==> CtxDistinct(c) && Distinct(t) && CtxRefs(c) !! Refs(t)
  {
    match c
    case Top =>
    case InLeft(n, ivl, m, red, up, r) =>
      FillRefs(up, Node(n, ivl, m, red, t, r));
    case InRight(n, ivl, m, red, l, up) =>
      FillRefs(up, Node(n, ivl, m, red, l, t));
  }

  lemma {:induction false} FillAugmented(c: Ctx, t: Tree)
    ensures Augmented(Fill(c, t)) <==> Augmented(t) && CtxAugmented(c, MaxHigh(t))
  {
    match c
    case Top =>
    case InLeft(n, ivl, m, red, up, r) =>
      FillAugmented(up, Node(n, ivl, m, red, t, r));
    case InRight(n, ivl, m, red, l, up) =>
      FillAugmented(up, Node(n, ivl, m, red, l, t));
  }

  lemma {:induction false} FillSides(c: Ctx, t: Tree)
    requires Augmented(Fill(c, t))
    ensures SidesAugmented(c) && Augmented(t)
  {
    match c
    case Top =>
    case InLeft(n, ivl, m, red, up, r) =>
      FillSides(up, Node(n, ivl, m, red, t, r));
    case InRight(n, ivl, m, red, l, up) =>
      FillSides(up, Node(n, ivl, m, red, l, t));
  }

  lemma {:induction false} RefreshAugmented(c: Ctx, m: int)
    requires SidesAugmented(c)
    ensures CtxAugmented(Refresh(c, m), m)
  {
    match c
    case Top =>
    case InLeft(_, ivl, _, _, up, r) => RefreshAugmented(up, Max(ivl.high, Max(m, MaxHigh(r))));
    case InRight(_, ivl, _, _, l, up) => RefreshAugmented(up, Max(ivl.high, Max(MaxHigh(l), m)));
  }

  /** Recomputing max_high leaves everything else of the path alone. */
  lemma {:induction false} RefreshKeeps(c: Ctx, m: int)
    ensures var d := Refresh(c, m);
      CtxRefs(d) == CtxRefs(c) && (CtxDistinct(d) <==> CtxDistinct(c)) && d.Top? == c.Top? &&
      CtxRed(d) == CtxRed(c) && Before(d) == Before(c) && After(d) == After(c) && Depth(d) == Depth(c)
    ensures forall h: nat :: CtxBalanced(Refresh(c, m), h) <==> CtxBalanced(c, h)
  {
    match c
    case Top =>
    case InLeft(_, ivl, _, _, up, r) => RefreshKeeps(up, Max(ivl.high, Max(m, MaxHigh(r))));
    case InRight(_, ivl, _, _, l, up) => RefreshKeeps(up, Max(ivl.high, Max(MaxHigh(l), m)));
  }

  lemma {:induction false} FillBalanced(c: Ctx, t: Tree)
    requires Balanced(t) && CtxBalanced(c, BlackHeight(t))
    requires IsRed(t) ==> !c.Top? && !CtxRed(c)
    ensures Balanced(Fill(c, t)) && !IsRed(Fill(c, t))
  {
    match c
    case Top =>
    case InLeft(n, ivl, m, red, up, r) =>
      FillBalanced(up, Node(n, ivl, m, red, t, r));
    case InRight(n, ivl, m, red, l, up) =>
      FillBalanced(up, Node(n, ivl, m, red, l, t));
  }

  lemma {:induction false} UnfillBalanced(c: Ctx, t: Tree)
    requires Balanced(Fill(c, t)) && !IsRed(Fill(c, t))
    ensures Balanced(t) && CtxBalanced(c, BlackHeight(t))
    ensures IsRed(t) ==> !c.Top? && !CtxRed(c)
  {
    match c
    case Top =>
    case InLeft(n, ivl, m, red, up, r) =>
      UnfillBalanced(up, Node(n, ivl, m, red, t, r));
    case InRight(n, ivl, m, red, l, up) =>
      UnfillBalanced(up, Node(n, ivl, m, red, l, t));
  }

  lemma {:induction false} ComposeFill(a: Ctx, b: Ctx, t: Tree)
    ensures Fill(Compose(a, b), t) == Fill(b, Fill(a, t))
  {
    match a
    case Top =>
    case InLeft(n, ivl, m, red, up, r) => ComposeFill(up, b, Node(n, ivl, m, red, t, r));
    case InRight(n, ivl, m, red, l, up) => ComposeFill(up, b, Node(n, ivl, m, red, l, t));
  }

  lemma {:induction false} ComposeOrder(a: Ctx, b: Ctx)
    ensures Before(Compose(a, b)) == Before(b) + Before(a)
    ensures After(Compose(a, b)) == After(a) + After(b)
  {
    match a
    case Top =>
    case InLeft(n, ivl, m, red, up, r) => ComposeOrder(up, b);
    case InRight(n, ivl, m, red, l, up) => ComposeOrder(up, b);
  }

  /** Everything before the position has a key up to the given one, everything after it a larger one. */
  predicate Splits(c: Ctx, key: int) {
    (forall e :: e in Before(c) ==> e.ivl.low <= key) && (forall e :: e in After(c) ==> key < e.ivl.low)
  }

  lemma SortedAround(l: seq<Entry>, e: Entry, r: seq<Entry>, s: seq<Entry>)
    requires s == l + [e] + r && SortedEntries(s)
    ensures SortedEntries(l) && SortedEntries(r) && Proper(e.ivl)
    ensures forall x :: x in l ==> x.ivl.low <= e.ivl.low
    ensures forall x :: x in r ==> e.ivl.low <= x.ivl.low
  {
    assert s[|l|] == e;
    assert forall i :: 0 <= i < |l| ==> l[i] == s[i];
    assert forall i :: 0 <= i < |r| ==> r[i] == s[i + |l| + 1];
  }

  lemma {:induction false} FillAround(c: Ctx, t: Tree)
    requires t.Node?
    ensures Inorder(Fill(c, t)) ==
            (Before(c) + Inorder(t.left)) + [Entry(t.node, t.ivl)] + (Inorder(t.right) + After(c))
  {
    FillInorder(c, t);
    var b, l, e, r, d := Before(c), Inorder(t.left), [Entry(t.node, t.ivl)], Inorder(t.right), After(c);
    assert Inorder(Fill(c, t)) == b + (l + e + r) + d;
    hide Inorder, Before, After;
    assert b + (l + e + r) + d == (b + l) + e + (r + d);
  }

  lemma AllAbove(e: Entry, r: seq<Entry>, d: seq<Entry>, key: int)
    requires key < e.ivl.low && forall x :: x in r + d ==> e.ivl.low <= x.ivl.low
    ensures forall x :: x in [e] + r + d ==> key < x.ivl.low
  {
    assert [e] + r + d == [e] + (r + d);
  }

  /** Descending in a sorted tree as a search does narrows the position correctly. */
  lemma {:induction false} SplitsLeft(c: Ctx, t: Tree, key: int)
    requires t.Node? && SortedEntries(Inorder(Fill(c, t))) && Splits(c, key) && key < t.ivl.low
    ensures Splits(InLeft(t.node, t.ivl, t.maxHigh, t.red, c, t.right), key)
  {
    FillAround(c, t);
    var e, r, d := Entry(t.node, t.ivl), Inorder(t.right), After(c);
    var u := InLeft(t.node, t.ivl, t.maxHigh, t.red, c, t.right);
    assert After(u) == [e] + r + d && Before(u) == Before(c);
    hide SortedEntries, Inorder, Fill, After, Before;
    SortedAround(Before(c) + Inorder(t.left), e, r + d, Inorder(Fill(c, t)));
    AllAbove(e, r, d, key);
  }

  lemma AllBelow(b: seq<Entry>, l: seq<Entry>, e: Entry, key: int)
    requires e.ivl.low <= key && forall x :: x in b + l ==> x.ivl.low <= e.ivl.low
    ensures forall x :: x in b + l + [e] ==> x.ivl.low <= key
  {
    assert forall x :: x in b + l + [e] ==> x in b + l || x == e;
  }

  lemma {:induction false} SplitsRight(c: Ctx, t: Tree, key: int)
    requires t.Node? && SortedEntries(Inorder(Fill(c, t))) && Splits(c, key) && t.ivl.low <= key
    ensures Splits(InRight(t.node, t.ivl, t.maxHigh, t.red, t.left, c), key)
  {
    FillAround(c, t);
    var b, l, e := Before(c), Inorder(t.left), Entry(t.node, t.ivl);
    var u := InRight(t.node, t.ivl, t.maxHigh, t.red, t.left, c);
    assert Before(u) == b + l + [e] && After(u) == After(c);
    hide SortedEntries, Inorder, Fill, After, Before;
    SortedAround(b + l, e, Inorder(t.right) + After(c), Inorder(Fill(c, t)));
    AllBelow(b, l, e, key);
  }

  /** after is before with e put in at place k, behind every key up to its own and before every
      larger one. */
  predicate Inserted(before: seq<Entry>, after: seq<Entry>, e: Entry, k: nat) {
    k <= |before| && after == before[..k] + [e] + before[k..] &&
    (forall i :: 0 <= i < k ==> before[i].ivl.low <= e.ivl.low) &&
    (forall i :: k <= i < |before| ==> e.ivl.low < before[i].ivl.low)
  }

  lemma InsertedSorted(before: seq<Entry>, after: seq<Entry>, e: Entry, k: nat)
    requires SortedEntries(before) && Inserted(before, after, e, k) && Proper(e.ivl)
    ensures SortedEntries(after)
  {
    forall i | 0 <= i < |after| ensures Proper(after[i].ivl) {
      assert after[i] == if i < k then before[i] else if i == k then e else before[i - 1];
    }
    forall i, j | 0 <= i < j < |after| ensures after[i].ivl.low <= after[j].ivl.low {
      assert after[i] == if i < k then before[i] else if i == k then e else before[i - 1];
      assert after[j] == if j < k then before[j] else if j == k then e else before[j - 1];
    }
  }

  lemma InsertedBetween(b: seq<Entry>, e: Entry, a: seq<Entry>)
    requires (forall x :: x in b ==> x.ivl.low <= e.ivl.low) && (forall x :: x in a ==> e.ivl.low < x.ivl.low)
    ensures Inserted(b + a, b + [e] + a, e, |b|)
  {
    assert (b + a)[..|b|] == b && (b + a)[|b|..] == a;
  }

  lemma {:induction false} SplitsInserted(c: Ctx, n: Ref, ivl: Interval)
    requires SortedEntries(Inorder(Fill(c, Leaf))) && Splits(c, ivl.low) && Proper(ivl)
    ensures var s := Inorder(Fill(Refresh(c, ivl.high), Node(n, ivl, ivl.high, true, Leaf, Leaf)));
      Inserted(Inorder(Fill(c, Leaf)), s, Entry(n, ivl), |Before(c)|) && SortedEntries(s)
  {
    var t := Node(n, ivl, ivl.high, true, Leaf, Leaf);
    RefreshKeeps(c, ivl.high);
    FillInorder(Refresh(c, ivl.high), t);
    FillInorder(c, Leaf);
    assert Inorder(t) == [Entry(n, ivl)];
    assert Inorder(Fill(c, Leaf)) == Before(c) + After(c);
    InsertedBetween(Before(c), Entry(n, ivl), After(c));
    hide Inserted, SortedEntries, Inorder, Before, After;
    InsertedSorted(Inorder(Fill(c, Leaf)), Before(c) + [Entry(n, ivl)] + After(c), Entry(n, ivl), |Before(c)|);
  }

  /** The max_high that reaches the top of a refreshed path. */
  function TopHigh(c: Ctx, m: int): int {
    match c
    case Top => m
    case InLeft(_, ivl, _, _, up, r) => TopHigh(up, Max(ivl.high, Max(m, MaxHigh(r))))
    case InRight(_, ivl, _, _, l, up) => TopHigh(up, Max(ivl.high, Max(MaxHigh(l), m)))
  }

  lemma {:induction false} RefreshCompose(a: Ctx, b: Ctx, m: int)
    ensures Refresh(Compose(a, b), m) == Compose(Refresh(a, m), Refresh(b, TopHigh(a, m)))
  {
    match a
    case Top =>
    case InLeft(_, ivl, _, _, up, r) => RefreshCompose(up, b, Max(ivl.high, Max(m, MaxHigh(r))));
    case InRight(_, ivl, _, _, l, up) => RefreshCompose(up, b, Max(ivl.high, Max(MaxHigh(l), m)));
  }

  /** after is before without its entry at place k. */
  predicate Removed(before: seq<Entry>, after: seq<Entry>, k: nat) {
    k < |before| && after == before[..k] + before[k + 1..]
  }

  lemma RemovedSorted(before: seq<Entry>, after: seq<Entry>, k: nat)
    requires SortedEntries(before) && Removed(before, after, k)
    ensures SortedEntries(after)
  {
    forall i | 0 <= i < |after| ensures Proper(after[i].ivl) {
      assert after[i] == if i < k then before[i] else before[i + 1];
    }
    forall i, j | 0 <= i < j < |after| ensures after[i].ivl.low <= after[j].ivl.low {
      assert after[i] == if i < k then before[i] else before[i + 1];
      assert after[j] == if j < k then before[j] else before[j + 1];
    }
  }

  /** k is all there is below the head of t. */
  predicate OnlyBelow(t: Tree, k: Tree) {
    t.Node? && ((t.left == Leaf && k == t.right) || (t.right == Leaf && k == t.left))
  }

  lemma {:induction false} InorderRefs(t: Tree, n: Ref)
    ensures n in Refs(t) <==> exists i :: 0 <= i < |Inorder(t)| && Inorder(t)[i].node == n
  {
    if t.Node? {
      InorderRefs(t.left, n);
      InorderRefs(t.right, n);
      var s, a := Inorder(t), |Inorder(t.left)|;
      assert forall i :: 0 <= i < |s| ==>
        s[i] == if i < a then Inorder(t.left)[i] else if i == a then Entry(t.node, t.ivl)
          else Inorder(t.right)[i - a - 1];
      assert s[a].node == t.node;
      if n in Refs(t.left) {
        var i :| 0 <= i < a && Inorder(t.left)[i].node == n;
        assert s[i].node == n;
      } else if n in Refs(t.right) {
        var i :| 0 <= i < |Inorder(t.right)| && Inorder(t.right)[i].node == n;
        assert s[i + a + 1].node == n;
      }
    }
  }

  lemma {:induction false} InorderDistinct(t: Tree, i: nat, j: nat)
    requires Distinct(t) && i < j < |Inorder(t)|
    ensures Inorder(t)[i].node != Inorder(t)[j].node
  {
    var s, l, r := Inorder(t), Inorder(t.left), Inorder(t.right);
    var a := |l|;
    assert s == l + [Entry(t.node, t.ivl)] + r;
    if j < a {
      InorderDistinct(t.left, i, j);
    } else if i > a {
      InorderDistinct(t.right, i - a - 1, j - a - 1);
    } else {
      assert if i < a then s[i].node in Refs(t.left) else s[i].node == t.node by {
        if i < a {
          assert Inorder(t.left)[i].node == s[i].node;
          InorderRefs(t.left, s[i].node);
        }
      }
      assert if j > a then s[j].node in Refs(t.right) else s[j].node == t.node by {
        if j > a {
          assert Inorder(t.right)[j - a - 1].node == s[j].node;
          InorderRefs(t.right, s[j].node);
        }
      }
    }
  }

  /** Once its entry is gone the node is not part of the tree any more. */
  lemma {:induction false} RemovedRefs(t: Tree, u: Tree, k: nat)
    requires Distinct(t) && Removed(Inorder(t), Inorder(u), k)
    ensures Inorder(t)[k].node in Refs(t) && Inorder(t)[k].node !in Refs(u)
  {
    var s, r, n := Inorder(t), Inorder(u), Inorder(t)[k].node;
    InorderRefs(t, n);
    InorderRefs(u, n);
    if n in Refs(u) {
      var i :| 0 <= i < |r| && r[i].node == n;
      assert r[i] == if i < k then s[i] else s[i + 1];
      if i < k { InorderDistinct(t, i, k); } else { InorderDistinct(t, k, i + 1); }
    }
  }

  /** A node spliced out of the right subtree is in no part of what remains. */
  lemma {:induction false} MovedApart(c: Ctx, t: Tree, d: Ctx, u: Tree)
    requires Distinct(t) && CtxRefs(c) !! Refs(t) && t.Node? && Fill(d, u) == t.right && u.Node?
    ensures u.node !in CtxRefs(c) + Refs(t.(right := Fill(d, u.right))) && u.node in Refs(t)
    ensures !d.Top? ==> Fill(d, u.right).Node?
  {
    FillRefs(d, u);
    FillRefs(d, u.right);
    if !d.Top? { assert d.node in CtxRefs(d); }
  }

  lemma {:induction false} EntryAt(c: Ctx, t: Tree)
    requires t.Node?
    ensures var s, k := Inorder(Fill(c, t)), |Before(c)| + |Inorder(t.left)|; k < |s| && s[k] == Entry(t.node, t.ivl)
  {
    FillInorder(c, t);
  }

  /** A path that only turns left: nothing stands before it. */
  predicate Leftmost(c: Ctx) { c.Top? || (c.InLeft? && Leftmost(c.up)) }

  lemma {:induction false} LeftmostBefore(c: Ctx)
    requires Leftmost(c)
    ensures Before(c) == []
  {
    if !c.Top? { LeftmostBefore(c.up); }
  }

  /** The position of a node of a tree. */
  function Locate(t: Tree, n: Ref): (p: (Ctx, Tree))
    requires n in Refs(t)
    ensures Fill(p.0, p.1) == t && p.1.Node? && p.1.node == n
  {
    if t.node == n then (Top, t)
    else if n in Refs(t.left) then
      var (c, u) := Locate(t.left, n);
      var outer := InLeft(t.node, t.ivl, t.maxHigh, t.red, Top, t.right);
      ComposeFill(c, outer, u);
      (Compose(c, outer), u)
    else
      var (c, u) := Locate(t.right, n);
      var outer := InRight(t.node, t.ivl, t.maxHigh, t.red, t.left, Top);
      ComposeFill(c, outer, u);
      (Compose(c, outer), u)
  }

  // ---------- the height bound ----------

  lemma SquareMono(a: nat, b: nat)
    requires a <= b
    ensures a * a <= b * b
  {
    assert a * a <= b * a;
    assert b * a <= b * b;
  }

  lemma {:induction false} BalancedSizes(t: Tree)
    requires Balanced(t)
    ensures Pow2(BlackHeight(t)) <= Size(t) + 1
    ensures Height(t) <= 2 * BlackHeight(t) + if IsRed(t) then 1 else 0
  {
    if t.Node? {
      BalancedSizes(t.left);
      BalancedSizes(t.right);
    }
  }

  /** height <= 2 * log2(size + 1), written without logarithms. */
  lemma {:induction false} HeightIsLogarithmic(t: Tree)
    requires Balanced(t) && !IsRed(t)
    ensures Pow2(Height(t)) <= (Size(t) + 1) * (Size(t) + 1)
  {
    BalancedSizes(t);
    Pow2Mono(Height(t), 2 * BlackHeight(t));
    Pow2Add(BlackHeight(t), BlackHeight(t));
    SquareMono(Pow2(BlackHeight(t)), Size(t) + 1);
  }

  // ---------- rotations ----------

  /** x = t, y = t.right: y takes x's place and x becomes y's left child. */
  function RotateLeft(t: Tree): Tree
    requires t.Node? && t.right.Node?
  {
    var y := t.right;
    var x := t.(right := y.left, maxHigh := Max(MaxHigh(t.left), Max(MaxHigh(y.left), t.ivl.high)));
    y.(left := x, maxHigh := Max(x.maxHigh, Max(MaxHigh(y.right), y.ivl.high)))
  }

  /** The mirror image: y = t, x = t.left. */
  function RotateRight(t: Tree): Tree
    requires t.Node? && t.left.Node?
  {
    var x := t.left;
    var y := t.(left := x.right, maxHigh := Max(MaxHigh(x.right), Max(MaxHigh(t.right), t.ivl.high)));
    x.(right := y, maxHigh := Max(MaxHigh(x.left), Max(y.maxHigh, x.ivl.high)))
  }

  /** Rotations keep the entries and their order. */
  lemma {:induction false} RotateLeftInorder(t: Tree)
    requires t.Node? && t.right.Node?
    ensures Inorder(RotateLeft(t)) == Inorder(t)
  {
    var y := t.right;
    Regroup(Inorder(t.left), [Entry(t.node, t.ivl)], Inorder(y.left), [Entry(y.node, y.ivl)], Inorder(y.right));
  }

  lemma {:induction false} RotateRightInorder(t: Tree)
    requires t.Node? && t.left.Node?
    ensures Inorder(RotateRight(t)) == Inorder(t)
  {
    var x := t.left;
    Regroup(Inorder(x.left), [Entry(x.node, x.ivl)], Inorder(x.right), [Entry(t.node, t.ivl)], Inorder(t.right));
  }

  /** They keep the set of nodes. */
  lemma {:induction false} RotateLeftRefs(t: Tree)
    requires t.Node? && t.right.Node?
    ensures Refs(RotateLeft(t)) == Refs(t)
  {
    var r, y := RotateLeft(t), t.right;
    assert Refs(t) == {t.node} + Refs(t.left) + ({y.node} + Refs(y.left) + Refs(y.right));
    assert Refs(r) == {y.node} + Refs(r.left) + Refs(y.right);
  }

  lemma {:induction false} RotateLeftDistinct(t: Tree)
    requires t.Node? && t.right.Node? && Distinct(t)
    ensures Distinct(RotateLeft(t))
  {
    var r, y := RotateLeft(t), t.right;
    assert Refs(y) == {y.node} + Refs(y.left) + Refs(y.right);
    assert Distinct(y);
    assert Refs(r.left) == {t.node} + Refs(t.left) + Refs(y.left);
    assert Distinct(r.left);
  }

  lemma {:induction false} RotateRightRefs(t: Tree)
    requires t.Node? && t.left.Node?
    ensures Refs(RotateRight(t)) == Refs(t)
  {
    var r, x := RotateRight(t), t.left;
    assert Refs(t) == {t.node} + ({x.node} + Refs(x.left) + Refs(x.right)) + Refs(t.right);
    assert Refs(r) == {x.node} + Refs(x.left) + Refs(r.right);
  }

  lemma {:induction false} RotateRightDistinct(t: Tree)
    requires t.Node? && t.left.Node? && Distinct(t)
    ensures Distinct(RotateRight(t))
  {
    var r, x := RotateRight(t), t.left;
    assert Refs(x) == {x.node} + Refs(x.left) + Refs(x.right);
    assert Distinct(x);
    assert Refs(r.right) == {t.node} + Refs(x.right) + Refs(t.right);
    assert Distinct(r.right);
  }

  /** They keep the augmentation, and the maximum of the rotated subtree. */
  lemma {:induction false} RotateAugmented(t: Tree)
    requires t.Node? && Augmented(t)
    ensures t.right.Node? ==> Augmented(RotateLeft(t)) && MaxHigh(RotateLeft(t)) == MaxHigh(t)
    ensures t.left.Node? ==> Augmented(RotateRight(t)) && MaxHigh(RotateRight(t)) == MaxHigh(t)
  {
  }
}
