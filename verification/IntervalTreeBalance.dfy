/** What one step of the insertion and deletion fixups does to the balance of the shape. */
module IntervalTreeBalance {
  import opened IntervalTreeShape

  lemma {:induction false} PaintKeeps(t: Tree, red: bool)
    ensures Inorder(Paint(t, red)) == Inorder(t) && (Augmented(t) ==> Augmented(Paint(t, red)))
    ensures MaxHigh(Paint(t, red)) == MaxHigh(t) && (Balanced(t) ==> Balanced(Paint(t, false)))
  {
  }

  // ---------- insertion ----------

  /** insert's loop: t's root is the one red node that may hang below another red one. */
  predicate Inserting(c: Ctx, t: Tree) {
    t.Node? && t.red && Balanced(t) && CtxBalanced(c, BlackHeight(t)) && Augmented(t) && CtxAugmented(c, MaxHigh(t))
  }

  /** A red parent is never the root, and its own parent is black. */
  lemma RedParent(c: Ctx, t: Tree)
    requires Inserting(c, t) && CtxRed(c)
    ensures !c.up.Top? && !c.up.red
  {
  }

  /** The three nodes recoloured when the uncle is red, the parent being a left child. */
  function PushRedLeft(c: Ctx, t: Tree): Tree
    requires !c.Top? && c.up.InLeft? && c.up.right.Node?
  {
    Node(c.up.node, c.up.ivl, c.up.maxHigh, true, Paint(Plug(c, t), false), Paint(c.up.right, false))
  }

  lemma {:induction false} PushRedLeftKeeps(c: Ctx, t: Tree)
    requires Inserting(c, t) && CtxRed(c) && c.up.InLeft? && IsRed(c.up.right)
    ensures Inserting(c.up.up, PushRedLeft(c, t))
    ensures Inorder(Fill(c.up.up, PushRedLeft(c, t))) == Inorder(Fill(c, t))
  {
    var g := PushRedLeft(c, t);
    assert CtxBalanced(c.up, BlackHeight(t)) && CtxAugmented(c.up, c.maxHigh);
    FillInorder(c.up.up, g);
    FillInorder(c.up.up, Plug(c.up, Plug(c, t)));
  }

  /** Black uncle, inner grandchild: after rotating the parent the parent is the outer one. */
  function TurnOutLeft(c: Ctx, t: Tree): (Ctx, Tree)
    requires c.InRight? && t.Node?
  {
    var q := RotateLeft(Plug(c, t));
    (InLeft(q.node, q.ivl, q.maxHigh, q.red, c.up, q.right), q.left)
  }

  lemma {:induction false} TurnOutLeftKeeps(c: Ctx, t: Tree)
    requires Inserting(c, t) && c.InRight? && c.red && c.up.InLeft?
    ensures var (d, u) := TurnOutLeft(c, t);
      Inserting(d, u) && d.InLeft? && d.red && d.up == c.up &&
      Inorder(Fill(d, u)) == Inorder(Fill(c, t)) && Plug(d, u) == RotateLeft(Plug(c, t))
  {
    var (d, u) := TurnOutLeft(c, t);
    var p := Plug(c, t);
    RotateAugmented(p);
    RotateLeftInorder(p);
    FillInorder(c.up, p);
    FillInorder(c.up, RotateLeft(p));
    assert CtxBalanced(c.up, BlackHeight(t)) && CtxAugmented(c.up, c.maxHigh);
  }

  /** Black uncle, outer grandchild: one rotation at the grandparent ends the loop. */
  function LiftLeft(c: Ctx, t: Tree): Ctx
    requires c.InLeft? && c.up.InLeft?
  {
    var g := RotateRight(Node(c.up.node, c.up.ivl, c.up.maxHigh, true, Paint(Plug(c, t), false), c.up.right));
    InLeft(g.node, g.ivl, g.maxHigh, g.red, c.up.up, g.right)
  }

  lemma {:induction false} LiftLeftKeeps(c: Ctx, t: Tree)
    requires Inserting(c, t) && c.InLeft? && c.red && c.up.InLeft? && !IsRed(c.up.right)
    ensures Inserting(LiftLeft(c, t), t) && !CtxRed(LiftLeft(c, t)) &&
            Inorder(Fill(LiftLeft(c, t), t)) == Inorder(Fill(c, t))
  {
    var g := Node(c.up.node, c.up.ivl, c.up.maxHigh, true, Paint(Plug(c, t), false), c.up.right);
    assert CtxBalanced(c.up, BlackHeight(t)) && CtxAugmented(c.up, c.maxHigh) && Augmented(Paint(Plug(c, t), false));
    RotateAugmented(g);
    RotateRightInorder(g);
    FillInorder(c.up.up, g);
    FillInorder(c.up.up, RotateRight(g));
    FillInorder(c.up.up, Plug(c.up, Plug(c, t)));
    assert CtxBalanced(c.up, BlackHeight(t)) && CtxAugmented(c.up, c.maxHigh);
  }

  /** The three nodes recoloured when the uncle is red, the parent being a right child. */
  function PushRedRight(c: Ctx, t: Tree): Tree
    requires !c.Top? && c.up.InRight? && c.up.left.Node?
  {
    Node(c.up.node, c.up.ivl, c.up.maxHigh, true, Paint(c.up.left, false), Paint(Plug(c, t), false))
  }

  lemma {:induction false} PushRedRightKeeps(c: Ctx, t: Tree)
    requires Inserting(c, t) && CtxRed(c) && c.up.InRight? && IsRed(c.up.left)
    ensures Inserting(c.up.up, PushRedRight(c, t))
    ensures Inorder(Fill(c.up.up, PushRedRight(c, t))) == Inorder(Fill(c, t))
  {
    var g := PushRedRight(c, t);
    assert CtxBalanced(c.up, BlackHeight(t)) && CtxAugmented(c.up, c.maxHigh);
    FillInorder(c.up.up, g);
    FillInorder(c.up.up, Plug(c.up, Plug(c, t)));
  }

  /** Black uncle, inner grandchild: after rotating the parent the parent is the outer one. */
  function TurnOutRight(c: Ctx, t: Tree): (Ctx, Tree)
    requires c.InLeft? && t.Node?
  {
    var q := RotateRight(Plug(c, t));
    (InRight(q.node, q.ivl, q.maxHigh, q.red, q.left, c.up), q.right)
  }

  lemma {:induction false} TurnOutRightKeeps(c: Ctx, t: Tree)
    requires Inserting(c, t) && c.InLeft? && c.red && c.up.InRight?
    ensures var (d, u) := TurnOutRight(c, t);
      Inserting(d, u) && d.InRight? && d.red && d.up == c.up &&
      Inorder(Fill(d, u)) == Inorder(Fill(c, t)) && Plug(d, u) == RotateRight(Plug(c, t))
  {
    var (d, u) := TurnOutRight(c, t);
    var p := Plug(c, t);
    RotateAugmented(p);
    RotateRightInorder(p);
    FillInorder(c.up, p);
    FillInorder(c.up, RotateRight(p));
    assert CtxBalanced(c.up, BlackHeight(t)) && CtxAugmented(c.up, c.maxHigh);
  }

  /** Black uncle, outer grandchild: one rotation at the grandparent ends the loop. */
  function LiftRight(c: Ctx, t: Tree): Ctx
    requires c.InRight? && c.up.InRight?
  {
    var g := RotateLeft(Node(c.up.node, c.up.ivl, c.up.maxHigh, true, c.up.left, Paint(Plug(c, t), false)));
    InRight(g.node, g.ivl, g.maxHigh, g.red, g.left, c.up.up)
  }

  lemma {:induction false} LiftRightKeeps(c: Ctx, t: Tree)
    requires Inserting(c, t) && c.InRight? && c.red && c.up.InRight? && !IsRed(c.up.left)
    ensures Inserting(LiftRight(c, t), t) && !CtxRed(LiftRight(c, t)) &&
            Inorder(Fill(LiftRight(c, t), t)) == Inorder(Fill(c, t))
  {
    var g := Node(c.up.node, c.up.ivl, c.up.maxHigh, true, c.up.left, Paint(Plug(c, t), false));
    assert CtxBalanced(c.up, BlackHeight(t)) && CtxAugmented(c.up, c.maxHigh) && Augmented(Paint(Plug(c, t), false));
    RotateAugmented(g);
    RotateLeftInorder(g);
    FillInorder(c.up.up, g);
    FillInorder(c.up.up, RotateLeft(g));
    FillInorder(c.up.up, Plug(c.up, Plug(c, t)));
    assert CtxBalanced(c.up, BlackHeight(t)) && CtxAugmented(c.up, c.maxHigh);
  }

  /** A new black leaf in place of an empty subtree, its ancestors refreshed and then itself
      made red, is where the loop starts. */
  lemma {:induction false} StartInserting(c: Ctx, n: Ref, ivl: Interval)
    requires var s := Fill(c, Leaf); Balanced(s) && !IsRed(s) && Augmented(s)
    requires NIL_HIGH <= ivl.high
    ensures Inserting(Refresh(c, ivl.high), Node(n, ivl, ivl.high, true, Leaf, Leaf))
  {
    UnfillBalanced(c, Leaf);
    FillSides(c, Leaf);
    RefreshKeeps(c, ivl.high);
    RefreshAugmented(c, ivl.high);
  }

  /** Where it ends, blackening the root leaves a balanced shape. */
  lemma {:induction false} FinishInserting(c: Ctx, t: Tree)
    requires Inserting(c, t) && !CtxRed(c)
    ensures var w := Paint(Fill(c, t), false);
      Balanced(w) && !IsRed(w) && Augmented(w) && Inorder(w) == Inorder(Fill(c, t))
    ensures Fill(c, t).Node?
  {
    FillAugmented(c, t);
    PaintKeeps(Fill(c, t), false);
    FillInorder(c, t);
    if !c.Top? { FillBalanced(c, t); }
  }

  // ---------- deletion ----------

  /** deleteFixup's loop: the position lacks one black node, which a red root of t can supply. */
  predicate Deleting(c: Ctx, t: Tree) {
    Augmented(t) && CtxAugmented(c, MaxHigh(t)) && Balanced(Paint(t, false)) &&
    CtxBalanced(c, BlackHeight(Paint(t, false)) + if IsRed(t) then 0 else 1)
  }

  /** After the last case: balanced everywhere. */
  predicate Restored(c: Ctx, t: Tree) {
    Augmented(t) && CtxAugmented(c, MaxHigh(t)) && Balanced(t) && CtxBalanced(c, BlackHeight(t)) &&
    (IsRed(t) ==> !c.Top? && !CtxRed(c))
  }

  /** The sibling of a black position that lacks a black node is a real node. */
  lemma SiblingRight(c: Ctx, t: Tree)
    requires Deleting(c, t) && !IsRed(t) && c.InLeft?
    ensures c.right.Node? && (IsRed(c.right) ==> !c.red && c.right.left.Node? && !IsRed(c.right.left))
  {
  }

  /** Case 1, red sibling: rotating the parent gives the position a black one. */
  function SiblingUpLeft(c: Ctx, t: Tree): Tree
    requires c.InLeft? && c.right.Node?
  {
    RotateLeft(Node(c.node, c.ivl, c.maxHigh, true, t, Paint(c.right, false)))
  }

  function SiblingUpLeftCtx(c: Ctx, t: Tree): Ctx
    requires c.InLeft? && c.right.Node?
  {
    var s := SiblingUpLeft(c, t);
    var p := s.left;
    InLeft(p.node, p.ivl, p.maxHigh, p.red, InLeft(s.node, s.ivl, s.maxHigh, s.red, c.up, s.right), p.right)
  }

  lemma {:induction false} SiblingUpLeftKeeps(c: Ctx, t: Tree)
    requires Deleting(c, t) && !IsRed(t) && c.InLeft? && IsRed(c.right)
    ensures var d := SiblingUpLeftCtx(c, t);
      Deleting(d, t) && d.red && d.right.Node? && !IsRed(d.right) && Inorder(Fill(d, t)) == Inorder(Fill(c, t))
  {
    var w := c.right;
    var s := Node(c.node, c.ivl, c.maxHigh, true, t, Paint(w, false));
    assert Balanced(w) && Augmented(w) && Augmented(Paint(w, false)) && BlackHeight(w) == BlackHeight(t) + 1;
    assert CtxAugmented(c.up, c.maxHigh) && Augmented(s);
    RotateAugmented(s);
    RotateLeftInorder(s);
    FillInorder(c.up, RotateLeft(s));
    FillInorder(c.up, Plug(c, t));
  }

  /** Case 2, both nephews black: recolour the sibling and move up. */
  function SiblingRedLeft(c: Ctx, t: Tree): Tree
    requires c.InLeft?
  {
    Node(c.node, c.ivl, c.maxHigh, c.red, t, Paint(c.right, true))
  }

  lemma {:induction false} SiblingRedLeftKeeps(c: Ctx, t: Tree)
    requires Deleting(c, t) && !IsRed(t) && c.InLeft? && c.right.Node? && !IsRed(c.right)
    requires !IsRed(c.right.left) && !IsRed(c.right.right)
    ensures Deleting(c.up, SiblingRedLeft(c, t)) && Inorder(Fill(c.up, SiblingRedLeft(c, t))) == Inorder(Fill(c, t))
  {
    FillInorder(c.up, SiblingRedLeft(c, t));
    FillInorder(c.up, Plug(c, t));
  }

  /** Case 3, the far nephew black: rotate the sibling so that it becomes red. */
  function TurnSiblingLeft(c: Ctx): Ctx
    requires c.InLeft? && c.right.Node? && c.right.left.Node?
  {
    var w := c.right;
    c.(right := RotateRight(Node(w.node, w.ivl, w.maxHigh, true, Paint(w.left, false), w.right)))
  }

  lemma {:induction false} TurnSiblingLeftKeeps(c: Ctx, t: Tree)
    requires Deleting(c, t) && !IsRed(t) && c.InLeft? && c.right.Node? && !IsRed(c.right)
    requires IsRed(c.right.left) && !IsRed(c.right.right)
    ensures var d := TurnSiblingLeft(c);
      Deleting(d, t) && d.right.Node? && !IsRed(d.right) && IsRed(d.right.right) &&
      Inorder(Fill(d, t)) == Inorder(Fill(c, t))
  {
    var w := c.right;
    var v := Node(w.node, w.ivl, w.maxHigh, true, Paint(w.left, false), w.right);
    assert Balanced(w) && Augmented(w) && Balanced(w.left) && Augmented(w.left);
    PaintKeeps(w.left, false);
    assert Augmented(v) && MaxHigh(v) == MaxHigh(w) && Inorder(v) == Inorder(w);
    RotateAugmented(v);
    RotateRightInorder(v);
    assert Balanced(RotateRight(v).right) && Balanced(RotateRight(v)) && BlackHeight(RotateRight(v)) == BlackHeight(w);
    FillInorder(c.up, Plug(TurnSiblingLeft(c), t));
    FillInorder(c.up, Plug(c, t));
  }

  /** Case 4, the far nephew red: one rotation at the parent supplies the black node. */
  function CloseLeft(c: Ctx, t: Tree): Tree
    requires c.InLeft? && c.right.Node?
  {
    var w := c.right;
    RotateLeft(Node(c.node, c.ivl, c.maxHigh, false, t,
                    Node(w.node, w.ivl, w.maxHigh, c.red, w.left, Paint(w.right, false))))
  }

  lemma {:induction false} CloseLeftKeeps(c: Ctx, t: Tree)
    requires Deleting(c, t) && !IsRed(t) && c.InLeft? && c.right.Node? && !IsRed(c.right) && IsRed(c.right.right)
    ensures Restored(c.up, CloseLeft(c, t)) && Inorder(Fill(c.up, CloseLeft(c, t))) == Inorder(Fill(c, t))
  {
    var w := c.right;
    var v := Node(w.node, w.ivl, w.maxHigh, c.red, w.left, Paint(w.right, false));
    var s := Node(c.node, c.ivl, c.maxHigh, false, t, v);
    assert Balanced(w) && Augmented(w) && Balanced(w.right) && Augmented(w.right);
    PaintKeeps(w.right, false);
    assert Augmented(v) && MaxHigh(v) == MaxHigh(w) && Inorder(v) == Inorder(w) && Inorder(s) == Inorder(Plug(c, t));
    assert CtxAugmented(c.up, c.maxHigh) && Augmented(s);
    RotateAugmented(s);
    RotateLeftInorder(s);
    FillInorder(c.up, RotateLeft(s));
    FillInorder(c.up, Plug(c, t));
  }

  /** The sibling of a black position that lacks a black node is a real node. */
  lemma SiblingLeft(c: Ctx, t: Tree)
    requires Deleting(c, t) && !IsRed(t) && c.InRight?
    ensures c.left.Node? && (IsRed(c.left) ==> !c.red && c.left.right.Node? && !IsRed(c.left.right))
  {
  }

  /** Case 1, red sibling: rotating the parent gives the position a black one. */
  function SiblingUpRight(c: Ctx, t: Tree): Tree
    requires c.InRight? && c.left.Node?
  {
    RotateRight(Node(c.node, c.ivl, c.maxHigh, true, Paint(c.left, false), t))
  }

  function SiblingUpRightCtx(c: Ctx, t: Tree): Ctx
    requires c.InRight? && c.left.Node?
  {
    var s := SiblingUpRight(c, t);
    var p := s.right;
    InRight(p.node, p.ivl, p.maxHigh, p.red, p.left, InRight(s.node, s.ivl, s.maxHigh, s.red, s.left, c.up))
  }

  lemma {:induction false} SiblingUpRightKeeps(c: Ctx, t: Tree)
    requires Deleting(c, t) && !IsRed(t) && c.InRight? && IsRed(c.left)
    ensures var d := SiblingUpRightCtx(c, t);
      Deleting(d, t) && d.red && d.left.Node? && !IsRed(d.left) && Inorder(Fill(d, t)) == Inorder(Fill(c, t))
  {
    var w := c.left;
    var s := Node(c.node, c.ivl, c.maxHigh, true, Paint(w, false), t);
    assert Balanced(w) && Augmented(w) && Augmented(Paint(w, false)) && BlackHeight(w) == BlackHeight(t) + 1;
    assert CtxAugmented(c.up, c.maxHigh) && Augmented(s);
    RotateAugmented(s);
    RotateRightInorder(s);
    FillInorder(c.up, RotateRight(s));
    FillInorder(c.up, Plug(c, t));
  }

  /** Case 2, both nephews black: recolour the sibling and move up. */
  function SiblingRedRight(c: Ctx, t: Tree): Tree
    requires c.InRight?
  {
    Node(c.node, c.ivl, c.maxHigh, c.red, Paint(c.left, true), t)
  }

  lemma {:induction false} SiblingRedRightKeeps(c: Ctx, t: Tree)
    requires Deleting(c, t) && !IsRed(t) && c.InRight? && c.left.Node? && !IsRed(c.left)
    requires !IsRed(c.left.right) && !IsRed(c.left.left)
    ensures Deleting(c.up, SiblingRedRight(c, t)) && Inorder(Fill(c.up, SiblingRedRight(c, t))) == Inorder(Fill(c, t))
  {
    FillInorder(c.up, SiblingRedRight(c, t));
    FillInorder(c.up, Plug(c, t));
  }

  /** Case 3, the far nephew black: rotate the sibling so that it becomes red. */
  function TurnSiblingRight(c: Ctx): Ctx
    requires c.InRight? && c.left.Node? && c.left.right.Node?
  {
    var w := c.left;
    c.(left := RotateLeft(Node(w.node, w.ivl, w.maxHigh, true, w.left, Paint(w.right, false))))
  }

  lemma {:induction false} TurnSiblingRightKeeps(c: Ctx, t: Tree)
    requires Deleting(c, t) && !IsRed(t) && c.InRight? && c.left.Node? && !IsRed(c.left)
    requires IsRed(c.left.right) && !IsRed(c.left.left)
    ensures var d := TurnSiblingRight(c);
      Deleting(d, t) && d.left.Node? && !IsRed(d.left) && IsRed(d.left.left) &&
      Inorder(Fill(d, t)) == Inorder(Fill(c, t))
  {
    var w := c.left;
    var v := Node(w.node, w.ivl, w.maxHigh, true, w.left, Paint(w.right, false));
    assert Balanced(w) && Augmented(w) && Balanced(w.right) && Augmented(w.right);
    PaintKeeps(w.right, false);
    assert Augmented(v) && MaxHigh(v) == MaxHigh(w) && Inorder(v) == Inorder(w);
    RotateAugmented(v);
    RotateLeftInorder(v);
    assert Balanced(RotateLeft(v).left) && Balanced(RotateLeft(v)) && BlackHeight(RotateLeft(v)) == BlackHeight(w);
    FillInorder(c.up, Plug(TurnSiblingRight(c), t));
    FillInorder(c.up, Plug(c, t));
  }

  /** Case 4, the far nephew red: one rotation at the parent supplies the black node. */
  function CloseRight(c: Ctx, t: Tree): Tree
    requires c.InRight? && c.left.Node?
  {
    var w := c.left;
    RotateRight(Node(c.node, c.ivl, c.maxHigh, false,
                     Node(w.node, w.ivl, w.maxHigh, c.red, Paint(w.left, false), w.right), t))
  }

  lemma {:induction false} CloseRightKeeps(c: Ctx, t: Tree)
    requires Deleting(c, t) && !IsRed(t) && c.InRight? && c.left.Node? && !IsRed(c.left) && IsRed(c.left.left)
    ensures Restored(c.up, CloseRight(c, t)) && Inorder(Fill(c.up, CloseRight(c, t))) == Inorder(Fill(c, t))
  {
    var w := c.left;
    var v := Node(w.node, w.ivl, w.maxHigh, c.red, Paint(w.left, false), w.right);
    var s := Node(c.node, c.ivl, c.maxHigh, false, v, t);
    assert Balanced(w) && Augmented(w) && Balanced(w.left) && Augmented(w.left);
    PaintKeeps(w.left, false);
    assert Augmented(v) && MaxHigh(v) == MaxHigh(w) && Inorder(v) == Inorder(w) && Inorder(s) == Inorder(Plug(c, t));
    assert CtxAugmented(c.up, c.maxHigh) && Augmented(s);
    RotateAugmented(s);
    RotateRightInorder(s);
    FillInorder(c.up, RotateRight(s));
    FillInorder(c.up, Plug(c, t));
  }

  /** A red root, or the top, makes up for the missing black node. */
  lemma {:induction false} FinishDeleting(c: Ctx, t: Tree)
    requires Deleting(c, t) && (IsRed(t) || c.Top?)
    ensures var w := Fill(c, Paint(t, false));
      Balanced(w) && !IsRed(w) && Augmented(w) && Inorder(w) == Inorder(Fill(c, t))
    ensures !IsRed(t) ==> Paint(t, false) == t
  {
    PaintKeeps(t, false);
    FillBalanced(c, Paint(t, false));
    FillAugmented(c, Paint(t, false));
    FillInorder(c, Paint(t, false));
    FillInorder(c, t);
  }

  lemma {:induction false} FinishRestored(c: Ctx, t: Tree)
    requires Restored(c, t)
    ensures var w := Fill(c, t); Balanced(w) && !IsRed(w) && Augmented(w)
  {
    FillBalanced(c, t);
    FillAugmented(c, t);
  }

  lemma RemovedWithin(b: seq<Entry>, l: seq<Entry>, e: Entry, r: seq<Entry>, a: seq<Entry>)
    ensures var s := b + (l + [e] + r) + a; Removed(s, b + (l + r) + a, |b| + |l|) && s[|b| + |l|] == e
  {
  }

  /** Taking out a node with at most one child. */
  lemma {:induction false} SpliceBalance(c: Ctx, t: Tree, k: Tree)
    requires var s := Fill(c, t); Balanced(s) && !IsRed(s) && Augmented(s)
    requires OnlyBelow(t, k)
    ensures var d := Refresh(c, MaxHigh(k)); if t.red then Restored(d, k) else Deleting(d, k)
  {
    UnfillBalanced(c, t);
    FillSides(c, t);
    RefreshKeeps(c, MaxHigh(k));
    RefreshAugmented(c, MaxHigh(k));
    PaintKeeps(k, false);
  }

  lemma {:induction false} SpliceOrder(c: Ctx, t: Tree, k: Tree)
    requires OnlyBelow(t, k)
    ensures var s, j := Inorder(Fill(c, t)), |Before(c)| + |Inorder(t.left)|;
      Removed(s, Inorder(Fill(c, k)), j) && s[j] == Entry(t.node, t.ivl)
  {
    FillInorder(c, t);
    FillInorder(c, k);
    assert Inorder(k) == Inorder(t.left) + Inorder(t.right);
    assert Inorder(t) == Inorder(t.left) + [Entry(t.node, t.ivl)] + Inorder(t.right);
    hide Removed, Inorder, Before, After, Fill;
    RemovedWithin(Before(c), Inorder(t.left), Entry(t.node, t.ivl), Inorder(t.right), After(c));
  }

  /** The context of y's place: as z's, but headed by y with z's colour. */
  predicate SameBut(a: Ctx, b: Ctx) {
    a.InRight? && b.InRight? && a.red == b.red && a.left == b.left && a.up == b.up
  }

  lemma {:induction false} SameButBalanced(d: Ctx, a: Ctx, b: Ctx, h: nat)
    requires SameBut(a, b) && CtxBalanced(Compose(d, a), h)
    ensures CtxBalanced(Compose(d, b), h) && CtxRed(Compose(d, a)) == CtxRed(Compose(d, b))
  {
    if !d.Top? { SameButBalanced(d.up, a, b, if d.red then h else h + 1); }
  }

  lemma {:induction false} SameButSides(d: Ctx, a: Ctx, b: Ctx)
    requires SameBut(a, b) && SidesAugmented(Compose(d, a))
    ensures SidesAugmented(Compose(d, b))
  {
    if !d.Top? { SameButSides(d.up, a, b); }
  }

  /** Taking out a node with two children: u, the leftmost below its right child, is spliced out
      and its head takes the node's place and colour. */
  lemma {:induction false} ReplaceBalance(a: Ctx, b: Ctx, d: Ctx, u: Tree)
    requires var s := Fill(Compose(d, a), u); Balanced(s) && !IsRed(s) && Augmented(s)
    requires SameBut(a, b) && u.Node? && u.left == Leaf
    ensures var q := Refresh(Compose(d, b), MaxHigh(u.right));
      if u.red then Restored(q, u.right) else Deleting(q, u.right)
  {
    UnfillBalanced(Compose(d, a), u);
    FillSides(Compose(d, a), u);
    SameButBalanced(d, a, b, BlackHeight(u));
    SameButSides(d, a, b);
    RefreshedBalance(Compose(d, b), u);
  }

  lemma {:induction false} RefreshedBalance(c: Ctx, u: Tree)
    requires u.Node? && u.left == Leaf && Balanced(u) && Augmented(u) && CtxBalanced(c, BlackHeight(u)) &&
             SidesAugmented(c)
    ensures var q := Refresh(c, MaxHigh(u.right)); if u.red then Restored(q, u.right) else Deleting(q, u.right)
  {
    RefreshKeeps(c, MaxHigh(u.right));
    RefreshAugmented(c, MaxHigh(u.right));
    PaintKeeps(u.right, false);
  }

  lemma {:induction false} ReplaceOrder(c: Ctx, t: Tree, d: Ctx, u: Tree, m: int, red: bool)
    requires t.Node? && Fill(d, u) == t.right && Leftmost(d) && u.Node? && u.left == Leaf
    ensures var s, j := Inorder(Fill(c, t)), |Before(c)| + |Inorder(t.left)|;
      var r := Node(u.node, u.ivl, m, red, t.left, Fill(d, u.right));
      Removed(s, Inorder(Fill(c, r)), j) && s[j] == Entry(t.node, t.ivl)
  {
    var r := Node(u.node, u.ivl, m, red, t.left, Fill(d, u.right));
    MinimumFirst(d, u);
    FillInorder(c, t);
    FillInorder(c, r);
    assert Inorder(r) == Inorder(t.left) + Inorder(t.right) by {
      assert Inorder(r) == Inorder(t.left) + [Entry(u.node, u.ivl)] + Inorder(r.right);
    }
    assert Inorder(t) == Inorder(t.left) + [Entry(t.node, t.ivl)] + Inorder(t.right);
    hide Removed, Inorder, Before, After, Fill;
    RemovedWithin(Before(c), Inorder(t.left), Entry(t.node, t.ivl), Inorder(t.right), After(c));
  }

  lemma {:induction false} MinimumFirst(d: Ctx, u: Tree)
    requires Leftmost(d) && u.Node? && u.left == Leaf
    ensures Inorder(Fill(d, u)) == [Entry(u.node, u.ivl)] + Inorder(Fill(d, u.right))
  {
    LeftmostBefore(d);
    FillInorder(d, u);
    FillInorder(d, u.right);
  }

  /** What deleting a node with two children leaves to be repaired, and what it removes. */
  lemma {:induction false} InnerPlan(c: Ctx, t: Tree, d: Ctx, u: Tree)
    requires var s := Fill(c, t); Balanced(s) && !IsRed(s) && Augmented(s)
    requires t.Node? && Fill(d, u) == t.right && Leftmost(d) && u.Node? && u.left == Leaf
    ensures var q := Refresh(Compose(d, InRight(u.node, u.ivl, NIL_HIGH, t.red, t.left, c)), MaxHigh(u.right));
      (if u.red then Restored(q, u.right) else Deleting(q, u.right)) &&
      Removed(Inorder(Fill(c, t)), Inorder(Fill(q, u.right)), |Before(c)| + |Inorder(t.left)|)
  {
    var a, b := InRight(t.node, t.ivl, t.maxHigh, t.red, t.left, c), InRight(u.node, u.ivl, NIL_HIGH, t.red, t.left, c);
    var p, k := Compose(d, b), u.right;
    ComposeFill(d, a, u);
    ComposeFill(d, b, k);
    ReplaceBalance(a, b, d, u);
    ReplaceOrder(c, t, d, u, NIL_HIGH, t.red);
    RefreshKeeps(p, MaxHigh(k));
    FillInorder(p, k);
    FillInorder(Refresh(p, MaxHigh(k)), k);
  }
}
