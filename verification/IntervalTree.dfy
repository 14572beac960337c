/** IntervalTree: the red-black tree over linked nodes, and its range query. */
module IntervalTrees {
  import opened IntervalTreeShape
  import opened IntervalTreeMemory
  import opened IntervalTreeBalance
  import opened IntervalTreeQuery
  import opened IntervalTreeStack

  class IntervalTree {
    const root: Ref
    const nil: Ref
    var left: map<Ref, Ref>
    var right: map<Ref, Ref>
    var parent: map<Ref, Ref>
    var red: map<Ref, bool>
    var maxHigh: map<Ref, int>
    var interval: map<Ref, Interval>
    ghost var shape: Tree

    // the recursion stack of queries, allocated once; slot 0 stands for no parent
    var stack: array<RecursionNode>
    var stackTop: nat
    var currentParent: nat

    ghost function Nodes(): Mem
      reads this
    {
      Mem(left, right, parent, red, maxHigh, interval)
    }

    ghost predicate At(c: Ctx, t: Tree)
      reads this
    {
      Spells(Nodes(), c, t, root, nil)
    }

    /** The tree is linked properly, sorted, balanced and correctly augmented. */
    ghost predicate Valid()
      reads this
    {
      At(Top, shape) && SortedEntries(Inorder(shape)) && Balanced(shape) && !IsRed(shape) && Augmented(shape)
    }

    constructor ()
      ensures Valid() && shape == Leaf && StackReady() && fresh(stack)
    {
      stack, stackTop, currentParent := new RecursionNode[128], 1, 0;
      var n, r := Ref(0), Ref(1);
      nil, root, shape := n, r, Leaf;
      left, right, parent := map[n := n, r := n], map[n := n, r := n], map[n := n, r := n];
      red, maxHigh, interval := map[n := false, r := false], map[n := NIL_HIGH, r := MAX_TIME], map[];
    }

    /** c becomes x's right child; only a real node has its parent link set. */
    method AdoptRight(x: Ref, c: Ref)
      requires x in right && c in parent
      modifies this`right, this`parent
      ensures right == old(right)[x := c] && parent == Replace(old(parent), c != nil, c, x)
    {
      right := right[x := c];
      if c != nil {
        parent := parent[c := x];
      }
    }

    /** c becomes x's left child; only a real node has its parent link set. */
    method AdoptLeft(x: Ref, c: Ref)
      requires x in left && c in parent
      modifies this`left, this`parent
      ensures left == old(left)[x := c] && parent == Replace(old(parent), c != nil, c, x)
    {
      left := left[x := c];
      if c != nil {
        parent := parent[c := x];
      }
    }

    /** y hangs where x hung: it has x's parent, which now points to y. */
    method TakePlace(x: Ref, y: Ref)
      requires x in parent && x != y && parent[x] in left && parent[x] in right
      modifies this`left, this`right, this`parent
      ensures var p := old(parent[x]);
        parent == old(parent)[y := p] && left == Replace(old(left), x == old(left)[p], p, y) &&
        right == Replace(old(right), x != old(left)[p], p, y)
    {
      parent := parent[y := parent[x]];
      if x == left[parent[x]] {
        left := left[parent[x] := y];
      } else {
        right := right[parent[x] := y];
      }
    }

    /** max_high of x is recomputed from its own interval and its children. */
    method Recompute(x: Ref)
      requires x in left && x in right && left[x] in maxHigh && right[x] in maxHigh && x in interval
      modifies this`maxHigh
      ensures maxHigh == old(maxHigh)[x := Max(old(maxHigh)[left[x]], Max(old(maxHigh)[right[x]], interval[x].high))]
    {
      maxHigh := maxHigh[x := Max(maxHigh[left[x]], Max(maxHigh[right[x]], interval[x].high))];
    }

    method LeftRotate(x: Ref)
      requires CanLeftRotate(Nodes(), x)
      modifies this`left, this`right, this`parent, this`maxHigh
      ensures LeftRotated(old(Nodes()), Nodes(), x, nil)
    {
      var y := right[x];
      AdoptRight(x, left[y]);
      TakePlace(x, y);
      left := left[y := x];
      parent := parent[x := y];
      Recompute(x);
      Recompute(y);
    }

    /** leftRotate, seen as a rotation of the shape. */
    method LeftRotateAt(x: Ref, ghost c: Ctx, ghost t: Tree)
      requires At(c, t) && t.Node? && t.node == x && t.right.Node?
      modifies this`left, this`right, this`parent, this`maxHigh
      ensures At(c, RotateLeft(t)) && parent[nil] == old(parent[nil])
    {
      LeftRotateLinks(Nodes(), c, t, root, nil);
      LeftRotate(x);
      LeftRotateSpells(old(Nodes()), Nodes(), c, t, root, nil);
    }

    method RightRotate(x: Ref)
      requires CanRightRotate(Nodes(), x)
      modifies this`left, this`right, this`parent, this`maxHigh
      ensures RightRotated(old(Nodes()), Nodes(), x, nil)
    {
      var y := left[x];
      AdoptLeft(x, right[y]);
      TakePlace(x, y);
      right := right[y := x];
      parent := parent[x := y];
      Recompute(x);
      Recompute(y);
    }

    /** rightRotate, seen as a rotation of the shape. */
    method RightRotateAt(x: Ref, ghost c: Ctx, ghost t: Tree)
      requires At(c, t) && t.Node? && t.node == x && t.left.Node?
      modifies this`left, this`right, this`parent, this`maxHigh
      ensures At(c, RotateRight(t)) && parent[nil] == old(parent[nil])
    {
      RightRotateLinks(Nodes(), c, t, root, nil);
      RightRotate(x);
      RightRotateSpells(old(Nodes()), Nodes(), c, t, root, nil);
    }

    lemma GoUp(c: Ctx, t: Tree)
      requires !c.Top?
      ensures At(c, t) <==> At(c.up, Plug(c, t))
    {
      Up(Nodes(), c, t, root, nil);
    }

    lemma {:induction false} GoTop(c: Ctx, t: Tree)
      ensures At(c, t) <==> At(Top, Fill(c, t))
    {
      ToTop(Nodes(), c, t, root, nil);
    }

    method SetRed(n: Ref, v: bool, ghost c: Ctx, ghost t: Tree)
      requires At(c, t) && t.Node? && t.node == n
      modifies this`red
      ensures At(c, Paint(t, v))
    {
      Look(Nodes(), c, t, root, nil);
      red := red[n := v];
      Painted(old(Nodes()), Nodes(), c, t, root, nil, v, t.maxHigh);
    }

    /** Recolour the left child of the node at the position. */
    method SetLeftRed(n: Ref, v: bool, ghost c: Ctx, ghost t: Tree)
      requires At(c, t) && t.Node? && t.left.Node? && t.left.node == n
      modifies this`red
      ensures At(c, t.(left := Paint(t.left, v)))
    {
      ghost var d := InLeft(t.node, t.ivl, t.maxHigh, t.red, c, t.right);
      GoUp(d, t.left);
      SetRed(n, v, d, t.left);
      GoUp(d, Paint(t.left, v));
    }

    /** Recolour the right child of the node at the position. */
    method SetRightRed(n: Ref, v: bool, ghost c: Ctx, ghost t: Tree)
      requires At(c, t) && t.Node? && t.right.Node? && t.right.node == n
      modifies this`red
      ensures At(c, t.(right := Paint(t.right, v)))
    {
      ghost var d := InRight(t.node, t.ivl, t.maxHigh, t.red, t.left, c);
      GoUp(d, t.right);
      SetRed(n, v, d, t.right);
      GoUp(d, Paint(t.right, v));
    }

    method SetMaxHigh(n: Ref, ghost c: Ctx, ghost t: Tree)
      requires At(c, t) && t.Node? && t.node == n
      modifies this`maxHigh
      ensures At(c, t.(maxHigh := Max(t.ivl.high, Max(MaxHigh(t.left), MaxHigh(t.right)))))
    {
      LookDown(Nodes(), c, t, root, nil);
      Recompute(n);
      Painted(old(Nodes()), Nodes(), c, t, root, nil, t.red, maxHigh[n]);
    }

    /** The uncle of the position. */
    lemma LookUncle(c: Ctx, t: Tree)
      requires At(c, t) && !c.Top? && !c.up.Top?
      ensures var u := if c.up.InLeft? then c.up.right else c.up.left;
        Head(u, nil) in red && red[Head(u, nil)] == IsRed(u) && Head(u, nil) in parent
    {
      GoUp(c, t);
      GoUp(c.up, Plug(c, t));
      LookDown(Nodes(), c.up.up, Plug(c.up, Plug(c, t)), root, nil);
    }

    /** Red uncle: the parent and uncle become black, the grandparent red. */
    method PushRedLeftAt(x: Ref, y: Ref, ghost c: Ctx, ghost t: Tree)
      requires At(c, t) && Inserting(c, t) && t.node == x && CtxRed(c)
      requires c.up.InLeft? && c.up.right.Node? && c.up.right.node == y
      modifies this`red
      ensures At(c.up.up, PushRedLeft(c, t)) && parent[parent[x]] == c.up.node
    {
      hide Spells;
      ghost var g := c.up;
      LookUp(Nodes(), c, t, root, nil);
      GoUp(c, t);
      LookUp(Nodes(), g, Plug(c, t), root, nil);
      Look(Nodes(), c, t, root, nil);
      hide Inserting;
      SetRed(parent[x], false, g, Plug(c, t));
      ghost var p := Plug(g, Paint(Plug(c, t), false));
      GoUp(g, Paint(Plug(c, t), false));
      SetRightRed(y, false, g.up, p);
      SetRed(parent[parent[x]], true, g.up, p.(right := Paint(g.right, false)));
    }

    /** Black uncle, outer grandchild: recolour and rotate the grandparent. */
    method LiftLeftAt(x: Ref, ghost c: Ctx, ghost t: Tree)
      requires At(c, t) && Inserting(c, t) && t.node == x && c.InLeft? && c.red && c.up.InLeft?
      modifies this`left, this`right, this`parent, this`maxHigh, this`red
      ensures At(LiftLeft(c, t), t)
    {
      hide Spells;
      ghost var g := c.up;
      LookUp(Nodes(), c, t, root, nil);
      GoUp(c, t);
      LookUp(Nodes(), g, Plug(c, t), root, nil);
      Look(Nodes(), c, t, root, nil);
      hide Inserting;
      SetRed(parent[x], false, g, Plug(c, t));
      ghost var p := Paint(Plug(c, t), false);
      GoUp(g, p);
      SetRed(parent[parent[x]], true, g.up, Plug(g, p));
      RightRotateAt(parent[parent[x]], g.up, Paint(Plug(g, p), true));
      GoUp(LiftLeft(c, t), t);
    }

    /** One round of insert's loop for a parent that is a left child. */
    method InsertStepLeft(x: Ref, ghost c: Ctx, ghost t: Tree) returns (x': Ref, ghost c': Ctx, ghost t': Tree)
      requires At(c, t) && Inserting(c, t) && t.node == x && CtxRed(c) && c.up.InLeft?
      modifies this`left, this`right, this`parent, this`maxHigh, this`red
      ensures At(c', t') && Inserting(c', t') && t'.node == x'
      ensures Inorder(Fill(c', t')) == Inorder(Fill(c, t)) && Depth(c') < Depth(c)
    {
      hide Spells;
      Look(Nodes(), c, t, root, nil);
      LookUp(Nodes(), c, t, root, nil);
      GoUp(c, t);
      LookUp(Nodes(), c.up, Plug(c, t), root, nil);
      LookUncle(c, t);
      var y := right[parent[parent[x]]];
      if red[y] {
        PushRedLeftKeeps(c, t);
        PushRedLeftAt(x, y, c, t);
        x', c', t' := parent[parent[x]], c.up.up, PushRedLeft(c, t);
      } else {
        x', c', t' := x, c, t;
        if x == right[parent[x]] {
          x' := parent[x];
          TurnOutLeftKeeps(c, t);
          LeftRotateAt(x', c.up, Plug(c, t));
          c', t' := TurnOutLeft(c, t).0, TurnOutLeft(c, t).1;
          GoUp(c', t');
        }
        LiftLeftKeeps(c', t');
        LiftLeftAt(x', c', t');
        c' := LiftLeft(c', t');
      }
    }

    /** Red uncle: the parent and uncle become black, the grandparent red. */
    method PushRedRightAt(x: Ref, y: Ref, ghost c: Ctx, ghost t: Tree)
      requires At(c, t) && Inserting(c, t) && t.node == x && CtxRed(c)
      requires c.up.InRight? && c.up.left.Node? && c.up.left.node == y
      modifies this`red
      ensures At(c.up.up, PushRedRight(c, t)) && parent[parent[x]] == c.up.node
    {
      hide Spells;
      ghost var g := c.up;
      LookUp(Nodes(), c, t, root, nil);
      GoUp(c, t);
      LookUp(Nodes(), g, Plug(c, t), root, nil);
      Look(Nodes(), c, t, root, nil);
      hide Inserting;
      SetRed(parent[x], false, g, Plug(c, t));
      ghost var p := Plug(g, Paint(Plug(c, t), false));
      GoUp(g, Paint(Plug(c, t), false));
      SetLeftRed(y, false, g.up, p);
      SetRed(parent[parent[x]], true, g.up, p.(left := Paint(g.left, false)));
    }

    /** Black uncle, outer grandchild: recolour and rotate the grandparent. */
    method LiftRightAt(x: Ref, ghost c: Ctx, ghost t: Tree)
      requires At(c, t) && Inserting(c, t) && t.node == x && c.InRight? && c.red && c.up.InRight?
      modifies this`left, this`right, this`parent, this`maxHigh, this`red
      ensures At(LiftRight(c, t), t)
    {
      hide Spells;
      ghost var g := c.up;
      LookUp(Nodes(), c, t, root, nil);
      GoUp(c, t);
      LookUp(Nodes(), g, Plug(c, t), root, nil);
      Look(Nodes(), c, t, root, nil);
      hide Inserting;
      SetRed(parent[x], false, g, Plug(c, t));
      ghost var p := Paint(Plug(c, t), false);
      GoUp(g, p);
      SetRed(parent[parent[x]], true, g.up, Plug(g, p));
      LeftRotateAt(parent[parent[x]], g.up, Paint(Plug(g, p), true));
      GoUp(LiftRight(c, t), t);
    }

    /** One round of insert's loop for a parent that is a right child. */
    method InsertStepRight(x: Ref, ghost c: Ctx, ghost t: Tree) returns (x': Ref, ghost c': Ctx, ghost t': Tree)
      requires At(c, t) && Inserting(c, t) && t.node == x && CtxRed(c) && c.up.InRight?
      modifies this`left, this`right, this`parent, this`maxHigh, this`red
      ensures At(c', t') && Inserting(c', t') && t'.node == x'
      ensures Inorder(Fill(c', t')) == Inorder(Fill(c, t)) && Depth(c') < Depth(c)
    {
      hide Spells;
      Look(Nodes(), c, t, root, nil);
      LookUp(Nodes(), c, t, root, nil);
      GoUp(c, t);
      LookUp(Nodes(), c.up, Plug(c, t), root, nil);
      LookUncle(c, t);
      var y := left[parent[parent[x]]];
      if red[y] {
        PushRedRightKeeps(c, t);
        PushRedRightAt(x, y, c, t);
        x', c', t' := parent[parent[x]], c.up.up, PushRedRight(c, t);
      } else {
        x', c', t' := x, c, t;
        if x == left[parent[x]] {
          x' := parent[x];
          TurnOutRightKeeps(c, t);
          RightRotateAt(x', c.up, Plug(c, t));
          c', t' := TurnOutRight(c, t).0, TurnOutRight(c, t).1;
          GoUp(c', t');
        }
        LiftRightKeeps(c', t');
        LiftRightAt(x', c', t');
        c' := LiftRight(c', t');
      }
    }

    /** Descend from the root to the empty place where the key belongs. */
    method FindPlace(key: int) returns (y: Ref, ghost c: Ctx)
      requires At(Top, shape) && SortedEntries(Inorder(shape))
      ensures At(c, Leaf) && Fill(c, Leaf) == shape && Splits(c, key) && y == Above(c, root)
      ensures c.Top? || (y in interval && (interval[y].low > key <==> c.InLeft?))
    {
      hide Spells, SortedEntries;
      Look(Nodes(), Top, shape, root, nil);
      y := root;
      var x := left[root];
      ghost var t;
      c, t := Top, shape;
      assert Splits(c, key);
      hide Splits;
      while x != nil
        invariant At(c, t) && x == Head(t, nil) && y == Above(c, root)
        invariant Fill(c, t) == shape && Splits(c, key)
        invariant c.Top? || (y in interval && (interval[y].low > key <==> c.InLeft?))
        decreases t
      {
        LookDown(Nodes(), c, t, root, nil);
        Opened(Nodes(), c, t, root, nil);
        y := x;
        if interval[x].low > key {
          SplitsLeft(c, t, key);
          x := left[x];
          c, t := InLeft(t.node, t.ivl, t.maxHigh, t.red, c, t.right), t.left;
        } else {
          SplitsRight(c, t, key);
          x := right[x];
          c, t := InRight(t.node, t.ivl, t.maxHigh, t.red, t.left, c), t.right;
        }
      }
      Look(Nodes(), c, t, root, nil);
    }

    /** Hang z, a node with its own fields set, where its key belongs. */
    method RecursiveInsert(z: Ref) returns (ghost c: Ctx)
      requires At(Top, shape) && SortedEntries(Inorder(shape)) && z !in Refs(shape) + {root, nil}
      requires z in red && z in maxHigh && z in interval
      modifies this`left, this`right, this`parent
      ensures At(c, Node(z, interval[z], maxHigh[z], red[z], Leaf, Leaf))
      ensures Fill(c, Leaf) == shape && Splits(c, interval[z].low)
    {
      hide Spells;
      left, right := left[z := nil], right[z := nil];
      SpellsBeside(old(Nodes()), Nodes(), shape, z, root, nil);
      var y;
      y, c := FindPlace(interval[z].low);
      FillRefs(c, Leaf);
      HangBelow(z, y, c);
    }

    /** z becomes the child of y on the side its key belongs to. */
    method HangBelow(z: Ref, y: Ref, ghost c: Ctx)
      requires At(c, Leaf) && y == Above(c, root) && z !in CtxRefs(c) + {root, nil}
      requires z in red && z in maxHigh && z in interval && z in left && z in right && left[z] == right[z] == nil
      requires c.Top? || (y in interval && (interval[y].low > interval[z].low <==> c.InLeft?))
      modifies this`left, this`right, this`parent
      ensures At(c, Node(z, interval[z], maxHigh[z], red[z], Leaf, Leaf))
    {
      Look(Nodes(), c, Leaf, root, nil);
      if !c.Top? { LookUp(Nodes(), c, Leaf, root, nil); }
      parent := parent[z := y];
      if y == root || interval[y].low > interval[z].low {
        left := left[y := z];
      } else {
        right := right[y := z];
      }
      Grafted(old(Nodes()), Nodes(), c, z, root, nil);
    }

    /** Travel up to the root, recomputing max_high. */
    method FixupMaxHigh(x: Ref, ghost c: Ctx, ghost t: Tree)
      requires At(c, t) && x == Above(c, root)
      modifies this`maxHigh
      ensures At(Refresh(c, MaxHigh(t)), t)
    {
      var x' := x;
      ghost var d, u := c, t;
      while x' != root
        invariant At(d, u) && x' == Above(d, root)
        invariant Fill(Refresh(d, MaxHigh(u)), u) == Fill(Refresh(c, MaxHigh(t)), t)
        decreases Depth(d)
      {
        LookUp(Nodes(), d, u, root, nil);
        GoUp(d, u);
        ghost var p := Plug(d, u);
        SetMaxHigh(x', d.up, p);
        d, u := d.up, p.(maxHigh := Max(p.ivl.high, Max(MaxHigh(p.left), MaxHigh(p.right))));
        x' := parent[x'];
      }
      if !d.Top? { LookUp(Nodes(), d, u, root, nil); }
      GoTop(Refresh(c, MaxHigh(t)), t);
    }

    /** One round of insert's loop. */
    method InsertStep(x: Ref, ghost c: Ctx, ghost t: Tree) returns (x': Ref, ghost c': Ctx, ghost t': Tree)
      requires At(c, t) && Inserting(c, t) && t.node == x && CtxRed(c)
      modifies this`left, this`right, this`parent, this`maxHigh, this`red
      ensures At(c', t') && Inserting(c', t') && t'.node == x'
      ensures Inorder(Fill(c', t')) == Inorder(Fill(c, t)) && Depth(c') < Depth(c)
    {
      hide Spells;
      RedParent(c, t);
      GoUp(c, t);
      Look(Nodes(), c, t, root, nil);
      LookUp(Nodes(), c, t, root, nil);
      LookUp(Nodes(), c.up, Plug(c, t), root, nil);
      if parent[x] == left[parent[parent[x]]] {
        x', c', t' := InsertStepLeft(x, c, t);
      } else {
        x', c', t' := InsertStepRight(x, c, t);
      }
    }

    /** insert's loop and the statement after it. */
    method InsertFixup(z: Ref, ghost c: Ctx, ghost t: Tree)
      requires At(c, t) && Inserting(c, t) && t.node == z
      modifies this`left, this`right, this`parent, this`maxHigh, this`red, this`interval, this`shape
      ensures At(Top, shape) && Balanced(shape) && !IsRed(shape) && Augmented(shape)
      ensures Inorder(shape) == Inorder(Fill(c, t)) && interval == old(interval)
    {
      hide Spells, Balanced, Augmented;
      var x := z;
      ghost var d, u := c, t;
      Look(Nodes(), d, u, root, nil);
      while red[parent[x]]
        invariant At(d, u) && Inserting(d, u) && u.node == x && Inorder(Fill(d, u)) == Inorder(Fill(c, t))
        invariant interval == old(interval) && x in parent && parent[x] in red && (red[parent[x]] <==> CtxRed(d))
        decreases Depth(d)
      {
        x, d, u := InsertStep(x, d, u);
        Look(Nodes(), d, u, root, nil);
      }
      FinishInserting(d, u);
      GoTop(d, u);
      Look(Nodes(), Top, Fill(d, u), root, nil);
      SetRed(left[root], false, Top, Fill(d, u));
      shape := Paint(Fill(d, u), false);
    }

    /** Link the new node z in, with max_high right everywhere, and make it red. */
    method LinkNew(ivl: Interval, z: Ref) returns (ghost c: Ctx)
      requires Valid() && z !in Refs(shape) + {root, nil}
      modifies this`left, this`right, this`parent, this`maxHigh, this`red, this`interval
      ensures At(Refresh(c, ivl.high), Node(z, ivl, ivl.high, true, Leaf, Leaf)) && Fill(c, Leaf) == shape &&
              Splits(c, ivl.low)
    {
      hide Spells, Splits, SortedEntries, Balanced, Augmented;
      interval, maxHigh, red := interval[z := ivl], maxHigh[z := ivl.high], red[z := false];
      SpellsWithNew(old(Nodes()), Nodes(), shape, z, ivl, root, nil);
      c := RecursiveInsert(z);
      ghost var t := Node(z, ivl, ivl.high, false, Leaf, Leaf);
      Look(Nodes(), c, t, root, nil);
      FixupMaxHigh(parent[z], c, t);
      SetRed(z, true, Refresh(c, ivl.high), t);
    }

    /** Store an interval in the node at z, the address a new node was given. Afterwards the
        entries are the old ones in the same order, with the new one before the first larger key. */
    method Insert(ivl: Interval, z: Ref) returns (newNode: Ref, ghost k: nat)
      requires Valid() && z !in Refs(shape) + {root, nil} && Proper(ivl)
      modifies this`left, this`right, this`parent, this`maxHigh, this`red, this`interval, this`shape
      ensures Valid() && newNode == z
      ensures Inserted(old(Inorder(shape)), Inorder(shape), Entry(z, ivl), k)
    {
      ghost var s := shape;
      ghost var c := LinkNew(ivl, z);
      StartInserting(c, z, ivl);
      InsertFixup(z, Refresh(c, ivl.high), Node(z, ivl, ivl.high, true, Leaf, Leaf));
      newNode, k := z, |Before(c)|;
      SplitsInserted(c, z, ivl);
    }

    // ---------- deletion ----------

    /** x stands at the position; for the nil sentinel its parent link says which one. */
    ghost predicate Here(x: Ref, c: Ctx, t: Tree)
      reads this
    {
      At(c, t) && x == Head(t, nil) && x in parent && parent[x] == Above(c, root)
    }

    /** Red sibling: rotate the parent so that the sibling is black. */
    method SiblingUpLeftAt(x: Ref, w: Ref, ghost c: Ctx, ghost t: Tree)
      requires Here(x, c, t) && c.InLeft? && c.right.Node? && w == c.right.node
      modifies this`left, this`right, this`parent, this`maxHigh, this`red
      ensures Here(x, SiblingUpLeftCtx(c, t), t) && parent[x] == c.node
    {
      hide Spells;
      GoUp(c, t);
      ghost var p := Plug(c, t);
      SetRightRed(w, false, c.up, p);
      p := p.(right := Paint(c.right, false));
      SetRed(parent[x], true, c.up, p);
      LeftRotateAt(parent[x], c.up, Paint(p, true));
      ghost var d := SiblingUpLeftCtx(c, t);
      GoUp(d.up, SiblingUpLeft(c, t).left);
      GoUp(d, t);
      Look(Nodes(), d, t, root, nil);
    }

    /** Far nephew black: rotate the sibling. */
    method TurnSiblingLeftAt(x: Ref, w: Ref, ghost c: Ctx, ghost t: Tree)
      requires Here(x, c, t) && c.InLeft? && c.right.Node? && w == c.right.node && c.right.left.Node?
      modifies this`left, this`right, this`parent, this`maxHigh, this`red
      ensures Here(x, TurnSiblingLeft(c), t)
    {
      hide Spells;
      GoUp(c, t);
      ghost var side := InRight(c.node, c.ivl, c.maxHigh, c.red, t, c.up);
      GoUp(side, c.right);
      LookDown(Nodes(), side, c.right, root, nil);
      SetLeftRed(left[w], false, side, c.right);
      ghost var v := c.right.(left := Paint(c.right.left, false));
      SetRed(w, true, side, v);
      RightRotateAt(w, side, Paint(v, true));
      GoUp(side, RotateRight(Paint(v, true)));
      GoUp(TurnSiblingLeft(c), t);
      Look(Nodes(), TurnSiblingLeft(c), t, root, nil);
    }

    /** Far nephew red: rotate the parent. */
    method CloseLeftAt(x: Ref, w: Ref, ghost c: Ctx, ghost t: Tree)
      requires Here(x, c, t) && c.InLeft? && c.right.Node? && w == c.right.node && c.right.right.Node?
      modifies this`left, this`right, this`parent, this`maxHigh, this`red
      ensures At(c.up, CloseLeft(c, t)) && c.node in red && !red[c.node]
    {
      hide Spells;
      LookUp(Nodes(), c, t, root, nil);
      GoUp(c, t);
      SetRightRed(w, red[parent[x]], c.up, Plug(c, t));
      ghost var u := Paint(c.right, c.red);
      ghost var p := Plug(c, t).(right := u);
      SetRed(parent[x], false, c.up, p);
      p := Paint(p, false);
      ghost var side := InRight(p.node, p.ivl, p.maxHigh, p.red, t, c.up);
      GoUp(side, u);
      LookDown(Nodes(), side, u, root, nil);
      SetRightRed(right[w], false, side, u);
      u := u.(right := Paint(u.right, false));
      GoUp(side, u);
      LeftRotateAt(parent[x], c.up, Plug(side, u));
      ghost var s := CloseLeft(c, t);
      Opened(Nodes(), c.up, s, root, nil);
      Look(Nodes(), InLeft(s.node, s.ivl, s.maxHigh, s.red, c.up, s.right), s.left, root, nil);
    }

    /** Red sibling: rotate the parent so that the sibling is black. */
    method SiblingUpRightAt(x: Ref, w: Ref, ghost c: Ctx, ghost t: Tree)
      requires Here(x, c, t) && c.InRight? && c.left.Node? && w == c.left.node
      modifies this`left, this`right, this`parent, this`maxHigh, this`red
      ensures Here(x, SiblingUpRightCtx(c, t), t) && parent[x] == c.node
    {
      hide Spells;
      GoUp(c, t);
      ghost var p := Plug(c, t);
      SetLeftRed(w, false, c.up, p);
      p := p.(left := Paint(c.left, false));
      SetRed(parent[x], true, c.up, p);
      RightRotateAt(parent[x], c.up, Paint(p, true));
      ghost var d := SiblingUpRightCtx(c, t);
      GoUp(d.up, SiblingUpRight(c, t).right);
      GoUp(d, t);
      Look(Nodes(), d, t, root, nil);
    }

    /** Far nephew black: rotate the sibling. */
    method TurnSiblingRightAt(x: Ref, w: Ref, ghost c: Ctx, ghost t: Tree)
      requires Here(x, c, t) && c.InRight? && c.left.Node? && w == c.left.node && c.left.right.Node?
      modifies this`left, this`right, this`parent, this`maxHigh, this`red
      ensures Here(x, TurnSiblingRight(c), t)
    {
      hide Spells;
      GoUp(c, t);
      ghost var side := InLeft(c.node, c.ivl, c.maxHigh, c.red, c.up, t);
      GoUp(side, c.left);
      LookDown(Nodes(), side, c.left, root, nil);
      SetRightRed(right[w], false, side, c.left);
      ghost var v := c.left.(right := Paint(c.left.right, false));
      SetRed(w, true, side, v);
      LeftRotateAt(w, side, Paint(v, true));
      GoUp(side, RotateLeft(Paint(v, true)));
      GoUp(TurnSiblingRight(c), t);
      Look(Nodes(), TurnSiblingRight(c), t, root, nil);
    }

    /** Far nephew red: rotate the parent. */
    method CloseRightAt(x: Ref, w: Ref, ghost c: Ctx, ghost t: Tree)
      requires Here(x, c, t) && c.InRight? && c.left.Node? && w == c.left.node && c.left.left.Node?
      modifies this`left, this`right, this`parent, this`maxHigh, this`red
      ensures At(c.up, CloseRight(c, t)) && c.node in red && !red[c.node]
    {
      hide Spells;
      LookUp(Nodes(), c, t, root, nil);
      GoUp(c, t);
      SetLeftRed(w, red[parent[x]], c.up, Plug(c, t));
      ghost var u := Paint(c.left, c.red);
      ghost var p := Plug(c, t).(left := u);
      SetRed(parent[x], false, c.up, p);
      p := Paint(p, false);
      ghost var side := InLeft(p.node, p.ivl, p.maxHigh, p.red, c.up, t);
      GoUp(side, u);
      LookDown(Nodes(), side, u, root, nil);
      SetLeftRed(left[w], false, side, u);
      u := u.(left := Paint(u.left, false));
      GoUp(side, u);
      RightRotateAt(parent[x], c.up, Plug(side, u));
      ghost var s := CloseRight(c, t);
      Opened(Nodes(), c.up, s, root, nil);
      Look(Nodes(), InRight(s.node, s.ivl, s.maxHigh, s.red, s.left, c.up), s.right, root, nil);
    }

    lemma {:induction false} RestoredTop(c: Ctx, t: Tree)
      requires At(c, t) && Restored(c, t)
      ensures left[root] == TopMost(c, Head(t, nil)) && left[root] in red && !red[left[root]]
    {
      GoTop(c, t);
      FillBalanced(c, t);
      Look(Nodes(), Top, Fill(c, t), root, nil);
    }

    /** The sibling's fields. */
    lemma LookAcross(c: Ctx, t: Tree)
      requires At(c, t) && !c.Top?
      ensures var s := if c.InLeft? then c.right else c.left;
        Head(s, nil) in red && red[Head(s, nil)] == IsRed(s) &&
        (s.Leaf? ||
         (s.node in left && s.node in right && left[s.node] == Head(s.left, nil) &&
          right[s.node] == Head(s.right, nil) &&
                     Head(s.left, nil) in red && Head(s.right, nil) in red &&
                     red[Head(s.left, nil)] == IsRed(s.left) && red[Head(s.right, nil)] == IsRed(s.right)))
    {
      GoUp(c, t);
      LookDown(Nodes(), c.up, Plug(c, t), root, nil);
      var s := if c.InLeft? then c.right else c.left;
      if s.Node? {
        var side := if c.InLeft? then InRight(c.node, c.ivl, c.maxHigh, c.red, t, c.up)
                    else InLeft(c.node, c.ivl, c.maxHigh, c.red, c.up, t);
        GoUp(side, s);
        LookDown(Nodes(), side, s, root, nil);
      }
    }

    /** deleteFixup's cases 2 to 4: black sibling w, position on the left. */
    method DeleteCasesLeft(x: Ref, w: Ref, top: Ref, ghost c: Ctx, ghost t: Tree)
      returns (x': Ref, ghost c': Ctx, ghost t': Tree, ghost done: bool)
      requires Here(x, c, t) && Deleting(c, t) && !IsRed(t) && c.InLeft?
      requires c.right.Node? && !IsRed(c.right) && w == c.right.node
      modifies this`left, this`right, this`parent, this`maxHigh, this`red
      ensures Inorder(Fill(c', t')) == Inorder(Fill(c, t)) && c' == c.up
      ensures done ==> At(c', t') && Restored(c', t') && x' == top && c.node in red && !red[c.node]
      ensures !done ==> Here(x', c', t') && Deleting(c', t') && IsRed(t') == c.red && left == old(left)
    {
      hide Spells, Deleting, Restored;
      LookUp(Nodes(), c, t, root, nil);
      LookAcross(c, t);
      if !red[right[w]] && !red[left[w]] {
        SiblingRedLeftKeeps(c, t);
        GoUp(c, t);
        SetRightRed(w, true, c.up, Plug(c, t));
        x', c', t', done := parent[x], c.up, SiblingRedLeft(c, t), false;
        Look(Nodes(), c', t', root, nil);
      } else {
        ghost var d := c;
        var v := w;
        if !red[right[w]] {
          TurnSiblingLeftKeeps(c, t);
          TurnSiblingLeftAt(x, w, c, t);
          d := TurnSiblingLeft(c);
          LookUp(Nodes(), d, t, root, nil);
          v := right[parent[x]];
        }
        CloseLeftKeeps(d, t);
        CloseLeftAt(x, v, d, t);
        x', c', t', done := top, d.up, CloseLeft(d, t), true;
      }
    }

    /** One round of deleteFixup's loop for a position on the left. Either the position moves up,
        perhaps onto a red node, or all is repaired. */
    method DeleteStepLeft(x: Ref, top: Ref, ghost c: Ctx, ghost t: Tree)
      returns (x': Ref, ghost c': Ctx, ghost t': Tree, ghost done: bool)
      requires Here(x, c, t) && Deleting(c, t) && !IsRed(t) && c.InLeft? && top == left[root]
      modifies this`left, this`right, this`parent, this`maxHigh, this`red
      ensures Inorder(Fill(c', t')) == Inorder(Fill(c, t))
      ensures done ==> At(c', t') && Restored(c', t') && x' == top && top in red && !red[top]
      ensures !done ==>
          Here(x', c', t') && Deleting(c', t') && (IsRed(t') || (left[root] == top && Depth(c') < Depth(c)))
    {
      hide Spells, Deleting, Restored;
      SiblingRight(c, t);
      LookUp(Nodes(), c, t, root, nil);
      LookAcross(c, t);
      Placed(Nodes(), c, t, root, nil);
      var w := right[parent[x]];
      ghost var d := c;
      if red[w] {
        SiblingUpLeftKeeps(c, t);
        SiblingUpLeftAt(x, w, c, t);
        d := SiblingUpLeftCtx(c, t);
        LookUp(Nodes(), d, t, root, nil);
        w := right[parent[x]];
      }
      x', c', t', done := DeleteCasesLeft(x, w, top, d, t);
      if done {
        RestoredTop(c', t');
      }
    }

    /** deleteFixup's cases 2 to 4: black sibling w, position on the right. */
    method DeleteCasesRight(x: Ref, w: Ref, top: Ref, ghost c: Ctx, ghost t: Tree)
      returns (x': Ref, ghost c': Ctx, ghost t': Tree, ghost done: bool)
      requires Here(x, c, t) && Deleting(c, t) && !IsRed(t) && c.InRight?
      requires c.left.Node? && !IsRed(c.left) && w == c.left.node
      modifies this`left, this`right, this`parent, this`maxHigh, this`red
      ensures Inorder(Fill(c', t')) == Inorder(Fill(c, t)) && c' == c.up
      ensures done ==> At(c', t') && Restored(c', t') && x' == top && c.node in red && !red[c.node]
      ensures !done ==> Here(x', c', t') && Deleting(c', t') && IsRed(t') == c.red && left == old(left)
    {
      hide Spells, Deleting, Restored;
      LookUp(Nodes(), c, t, root, nil);
      LookAcross(c, t);
      if !red[right[w]] && !red[left[w]] {
        SiblingRedRightKeeps(c, t);
        GoUp(c, t);
        SetLeftRed(w, true, c.up, Plug(c, t));
        x', c', t', done := parent[x], c.up, SiblingRedRight(c, t), false;
        Look(Nodes(), c', t', root, nil);
      } else {
        ghost var d := c;
        var v := w;
        if !red[left[w]] {
          TurnSiblingRightKeeps(c, t);
          TurnSiblingRightAt(x, w, c, t);
          d := TurnSiblingRight(c);
          LookUp(Nodes(), d, t, root, nil);
          v := left[parent[x]];
        }
        CloseRightKeeps(d, t);
        CloseRightAt(x, v, d, t);
        x', c', t', done := top, d.up, CloseRight(d, t), true;
      }
    }

    /** One round of deleteFixup's loop for a position on the right. Either the position moves up,
        perhaps onto a red node, or all is repaired. */
    method DeleteStepRight(x: Ref, top: Ref, ghost c: Ctx, ghost t: Tree)
      returns (x': Ref, ghost c': Ctx, ghost t': Tree, ghost done: bool)
      requires Here(x, c, t) && Deleting(c, t) && !IsRed(t) && c.InRight? && top == left[root]
      modifies this`left, this`right, this`parent, this`maxHigh, this`red
      ensures Inorder(Fill(c', t')) == Inorder(Fill(c, t))
      ensures done ==> At(c', t') && Restored(c', t') && x' == top && top in red && !red[top]
      ensures !done ==>
          Here(x', c', t') && Deleting(c', t') && (IsRed(t') || (left[root] == top && Depth(c') < Depth(c)))
    {
      hide Spells, Deleting, Restored;
      SiblingLeft(c, t);
      LookUp(Nodes(), c, t, root, nil);
      LookAcross(c, t);
      Placed(Nodes(), c, t, root, nil);
      var w := left[parent[x]];
      ghost var d := c;
      if red[w] {
        SiblingUpRightKeeps(c, t);
        SiblingUpRightAt(x, w, c, t);
        d := SiblingUpRightCtx(c, t);
        LookUp(Nodes(), d, t, root, nil);
        w := left[parent[x]];
      }
      x', c', t', done := DeleteCasesRight(x, w, top, d, t);
      if done {
        RestoredTop(c', t');
      }
    }

    method DeleteStep(x: Ref, top: Ref, ghost c: Ctx, ghost t: Tree)
      returns (x': Ref, ghost c': Ctx, ghost t': Tree, ghost done: bool)
      requires Here(x, c, t) && Deleting(c, t) && !IsRed(t) && !c.Top? && top == left[root]
      modifies this`left, this`right, this`parent, this`maxHigh, this`red
      ensures Inorder(Fill(c', t')) == Inorder(Fill(c, t))
      ensures done ==> At(c', t') && Restored(c', t') && x' == top && top in red && !red[top]
      ensures !done ==>
          Here(x', c', t') && Deleting(c', t') && (IsRed(t') || (left[root] == top && Depth(c') < Depth(c)))
    {
      hide Spells, Deleting, Restored;
      LookUp(Nodes(), c, t, root, nil);
      BesideItself(c, t);
      if x == left[parent[x]] {
        x', c', t', done := DeleteStepLeft(x, top, c, t);
      } else {
        x', c', t', done := DeleteStepRight(x, top, c, t);
      }
    }

    /** A black position with nothing in it has a sibling, so the test for the left side is right. */
    lemma BesideItself(c: Ctx, t: Tree)
      requires At(c, t) && Deleting(c, t) && !IsRed(t) && !c.Top?
      ensures c.node in left && (Head(t, nil) == left[c.node] <==> c.InLeft?)
    {
      LookUp(Nodes(), c, t, root, nil);
      LookAcross(c, t);
      if c.InLeft? { SiblingRight(c, t); } else { SiblingLeft(c, t); }
      GoUp(c, t);
      LookDown(Nodes(), c.up, Plug(c, t), root, nil);
      if c.InRight? {
        Look(Nodes(), InLeft(c.node, c.ivl, c.maxHigh, c.red, c.up, t), c.left, root, nil) by {
          GoUp(InLeft(c.node, c.ivl, c.maxHigh, c.red, c.up, t), c.left);
        }
      }
    }

    method DeleteFixup(x: Ref, ghost c: Ctx, ghost t: Tree)
      requires Here(x, c, t) && Deleting(c, t)
      modifies this`left, this`right, this`parent, this`maxHigh, this`red, this`interval, this`shape
      ensures At(Top, shape) && Balanced(shape) && !IsRed(shape) && Augmented(shape)
      ensures Inorder(shape) == Inorder(Fill(c, t)) && interval == old(interval)
    {
      hide Spells, Deleting, Restored, Balanced, Augmented;
      Look(Nodes(), c, t, root, nil);
      var x', top := x, left[root];
      ghost var d, u, done := c, t, false;
      while !red[x'] && top != x'
        invariant Inorder(Fill(d, u)) == Inorder(Fill(c, t)) && interval == old(interval)
        invariant x' in red && root in left && (done ==> At(d, u) && Restored(d, u) && x' == top && !red[x'])
        invariant !done ==> Here(x', d, u) && Deleting(d, u) && red[x'] == IsRed(u) && (IsRed(u) || left[root] == top)
        decreases !done, if IsRed(u) then 0 else 1 + Depth(d)
      {
        OnlyAtTop(Nodes(), d, u, root, nil);
        x', d, u, done := DeleteStep(x', top, d, u);
        Look(Nodes(), d, u, root, nil);
      }
      OnlyAtTop(Nodes(), d, u, root, nil);
      BlackenLast(x', d, u, done);
    }

    /** The last statement of deleteFixup. */
    method BlackenLast(x: Ref, ghost c: Ctx, ghost t: Tree, ghost done: bool)
      requires x in red && (done ==> At(c, t) && Restored(c, t) && !red[x])
      requires !done ==> Here(x, c, t) && Deleting(c, t) && red[x] == IsRed(t) && (IsRed(t) || c.Top?)
      modifies this`red, this`shape
      ensures At(Top, shape) && Balanced(shape) && !IsRed(shape) && Augmented(shape)
      ensures Inorder(shape) == Inorder(Fill(c, t))
    {
      hide Spells, Deleting, Restored;
      ghost var u := if done then t else Paint(t, false);
      if red[x] {
        SetRed(x, false, c, t);
      } else {
        red := red[x := false];
        assert red == old(red);
      }
      if done { FinishRestored(c, t); } else { FinishDeleting(c, t); }
      GoTop(c, u);
      shape := Fill(c, u);
    }

    /** The leftmost node below the position, with its path from there. */
    method GetMinimum(x: Ref, ghost c: Ctx, ghost t: Tree) returns (y: Ref, ghost d: Ctx, ghost u: Tree)
      requires At(c, t) && t.Node? && t.node == x
      ensures Fill(d, u) == t && Leftmost(d) && u.Node? && u.left == Leaf && u.node == y && At(Compose(d, c), u)
    {
      hide Spells;
      y, d, u := x, Top, t;
      LookDown(Nodes(), Compose(d, c), u, root, nil);
      while left[y] != nil
        invariant At(Compose(d, c), u) && Fill(d, u) == t && Leftmost(d) && u.Node? && u.node == y
        invariant y in left && left[y] == Head(u.left, nil)
        decreases u
      {
        Opened(Nodes(), Compose(d, c), u, root, nil);
        y := left[y];
        d, u := InLeft(u.node, u.ivl, u.maxHigh, u.red, d, u.right), u.left;
        LookDown(Nodes(), Compose(d, c), u, root, nil);
      }
      if u.left.Node? {
        Opened(Nodes(), Compose(d, c), u, root, nil);
        Look(Nodes(), InLeft(u.node, u.ivl, u.maxHigh, u.red, Compose(d, c), u.right), u.left, root, nil);
      }
    }

    /** The next node in key order, or the root sentinel behind the last one. */
    method GetSuccessor(x: Ref, ghost c: Ctx, ghost t: Tree) returns (y: Ref, ghost d: Ctx, ghost u: Tree)
      requires At(c, t) && t.Node? && t.node == x
      ensures var s := Inorder(t.right) + After(c); y == if s == [] then root else s[0].node
      ensures t.right.Node? ==> Fill(d, u) == t.right && Leftmost(d) && u.Node? && u.left == Leaf && u.node == y
    {
      hide Spells;
      Look(Nodes(), c, t, root, nil);
      LookDown(Nodes(), c, t, root, nil);
      Opened(Nodes(), c, t, root, nil);
      ghost var r := InRight(t.node, t.ivl, t.maxHigh, t.red, t.left, c);
      if t.right.Node? { Look(Nodes(), r, t.right, root, nil); }
      if nil != right[x] {
        y, d, u := GetMinimum(right[x], r, t.right);
        FillInorder(d, u);
        LeftmostBefore(d);
        assert Inorder(t.right)[0] == Entry(u.node, u.ivl);
      } else {
        assert Inorder(t.right) == [];
        var x' := x;
        y, d, u := parent[x], c, t;
        while y != nil && x' == right[y]
          invariant At(d, u) && u.Node? && x' == u.node && y == Above(d, root) && y in right && After(d) == After(c)
          decreases Depth(d)
        {
          Look(Nodes(), d, u, root, nil);
          LookUp(Nodes(), d, u, root, nil);
          GoUp(d, u);
          x' := y;
          y := parent[y];
          d, u := d.up, Plug(d, u);
          Look(Nodes(), d, u, root, nil);
        }
        Look(Nodes(), d, u, root, nil);
        if !d.Top? { LookUp(Nodes(), d, u, root, nil); }
      }
    }

    /** Take y, which has at most one child, out of its place; x is that child. */
    method SpliceOut(y: Ref, ghost c: Ctx, ghost t: Tree, ghost k: Tree) returns (x: Ref)
      requires At(c, t) && t.Node? && t.node == y && OnlyBelow(t, k) && (t.left == Leaf ==> k == t.right)
      modifies this`left, this`right, this`parent
      ensures Here(x, c, k)
    {
      hide Spells;
      LookDown(Nodes(), c, t, root, nil);
      Opened(Nodes(), c, t, root, nil);
      ghost var e := InLeft(t.node, t.ivl, t.maxHigh, t.red, c, t.right);
      Look(Nodes(), e, t.left, root, nil);
      Look(Nodes(), c, t, root, nil);
      if !c.Top? { LookUp(Nodes(), c, t, root, nil); }
      x := if left[y] == nil then right[y] else left[y];
      parent := parent[x := parent[y]];
      if root == parent[x] {
        left := left[root := x];
      } else if y == left[parent[y]] {
        left := left[parent[y] := x];
      } else {
        right := right[parent[y] := x];
      }
      Spliced(old(Nodes()), Nodes(), c, t, k, root, nil);
    }

    /** y gets z's links, and the nodes around z point to y. */
    method HandOver(y: Ref, z: Ref)
      requires z in left && z in right && z in parent && y != z && left[z] != z && right[z] != z
      requires parent[z] in left && parent[z] in right && parent[z] != y
      modifies this`left, this`right, this`parent, this`maxHigh
      ensures var p, l, r := old(parent[z]), old(left[z]), old(right[z]);
        Nodes() == TookOver(old(Nodes()), y, p, z == old(left)[p], l, r)
    {
      maxHigh := maxHigh[y := NIL_HIGH];
      left := left[y := left[z]];
      right := right[y := right[z]];
      parent := parent[y := parent[z]];
      parent := parent[right[z] := y];
      parent := parent[left[z] := y];
      if z == left[parent[z]] {
        left := left[parent[z] := y];
      } else {
        right := right[parent[z] := y];
      }
    }

    /** y, taken out before, takes z's place in the shape. */
    method TakeOver(y: Ref, z: Ref, ghost c: Ctx, ghost t: Tree)
      requires At(c, t) && t.Node? && t.node == z && y !in CtxRefs(c) + Refs(t) + {root, nil} && y in red &&
               y in interval
      requires t.left.Node?
      modifies this`left, this`right, this`parent, this`maxHigh
      ensures At(c, Node(y, interval[y], NIL_HIGH, red[y], t.left, t.right))
      ensures nil in parent && parent[nil] == if t.right == Leaf then y else old(parent)[nil]
    {
      hide Spells;
      LookDown(Nodes(), c, t, root, nil);
      Look(Nodes(), c, t, root, nil);
      if !c.Top? { LookUp(Nodes(), c, t, root, nil); }
      Placed(Nodes(), c, t, root, nil);
      SwappedApart(Nodes(), c, t, root, nil);
      HandOver(y, z);
      Swapped(old(Nodes()), Nodes(), c, t, y, root, nil);
    }

    /** The repair after taking a node out of position c: x stands there now, and the node that
        went had the given colour. */
    method Repair(x: Ref, wasRed: bool, ghost c: Ctx, ghost k: Tree)
      requires Here(x, c, k) && if wasRed then Restored(c, k) else Deleting(c, k)
      modifies this`left, this`right, this`parent, this`maxHigh, this`red, this`interval, this`shape
      ensures At(Top, shape) && Balanced(shape) && !IsRed(shape) && Augmented(shape)
      ensures Inorder(shape) == Inorder(Fill(c, k)) && interval == old(interval)
    {
      if !wasRed {
        DeleteFixup(x, c, k);
      } else {
        FinishRestored(c, k);
        GoTop(c, k);
        shape := Fill(c, k);
      }
    }

    /** z has at most one child. */
    method DeleteOuter(z: Ref, ghost c: Ctx, ghost t: Tree)
      requires Valid() && Fill(c, t) == shape && t.Node? && t.node == z && (t.left == Leaf || t.right == Leaf)
      modifies this`left, this`right, this`parent, this`maxHigh, this`red, this`interval, this`shape
      ensures At(Top, shape) && Balanced(shape) && !IsRed(shape) && Augmented(shape) && interval == old(interval)
      ensures Removed(old(Inorder(shape)), Inorder(shape), |Before(c)| + |Inorder(t.left)|)
    {
      hide Spells, Deleting, Restored, Removed;
      ghost var k := if t.left == Leaf then t.right else t.left;
      GoTop(c, t);
      Look(Nodes(), c, t, root, nil);
      SpliceBalance(c, t, k);
      SpliceOrder(c, t, k);
      ghost var d := Refresh(c, MaxHigh(k));
      var x := SpliceOut(z, c, t, k);
      FixupMaxHigh(parent[x], c, k);
      RefreshKeeps(c, MaxHigh(k));
      RefreshAbove(c, MaxHigh(k), root);
      FillInorder(c, k);
      FillInorder(d, k);
      Repair(x, red[z], d, k);
    }

    lemma {:induction false} GoUpTo(d: Ctx, c: Ctx, t: Tree)
      ensures At(Compose(d, c), t) <==> At(c, Fill(d, t))
    {
      GoTop(Compose(d, c), t);
      GoTop(c, Fill(d, t));
      ComposeFill(d, c, t);
    }

    /** Move y, the leftmost node below z's right child, into z's place. Its old place now holds x,
        and the paths to it are still to be refreshed. */
    method MoveUp(z: Ref, y: Ref, ghost c: Ctx, ghost t: Tree, ghost d: Ctx, ghost u: Tree) returns (x: Ref)
      requires At(c, t) && t.Node? && t.node == z && t.left.Node? && Fill(d, u) == t.right && u.Node? &&
               u.left == Leaf && u.node == y
      modifies this`left, this`right, this`parent, this`maxHigh
      ensures Here(x, Compose(d, InRight(y, u.ivl, NIL_HIGH, u.red, t.left, c)), u.right)
      ensures z in red && red[z] == t.red
    {
      hide Spells;
      Look(Nodes(), c, t, root, nil);
      ghost var a := InRight(t.node, t.ivl, t.maxHigh, t.red, t.left, c);
      ghost var b := InRight(y, u.ivl, NIL_HIGH, u.red, t.left, c);
      ghost var r := Fill(d, u.right);
      Placed(Nodes(), c, t, root, nil);
      MovedApart(c, t, d, u);
      assert u.node != root && u.node != nil;
      Opened(Nodes(), c, t, root, nil);
      GoUpTo(d, a, u);
      Look(Nodes(), Compose(d, a), u, root, nil);
      x := SpliceOut(y, Compose(d, a), u, u.right);
      GoUpTo(d, a, u.right);
      GoUp(a, r);
      TakeOver(y, z, c, t.(right := r));
      GoUp(b, r);
      GoUpTo(d, b, u.right);
      Look(Nodes(), Compose(d, b), u.right, root, nil);
      ComposeAbove(d, a, root);
      ComposeAbove(d, b, root);
    }

    /** Recolour y, the head of context b, with the position further down at the end of d. */
    method RecolourAbove(y: Ref, v: bool, ghost d: Ctx, ghost b: Ctx, ghost k: Tree)
      requires At(Compose(d, b), k) && b.InRight? && b.node == y
      modifies this`red
      ensures At(Compose(d, InRight(y, b.ivl, b.maxHigh, v, b.left, b.up)), k)
    {
      hide Spells;
      ghost var b2 := InRight(y, b.ivl, b.maxHigh, v, b.left, b.up);
      GoUpTo(d, b, k);
      GoUp(b, Fill(d, k));
      SetRed(y, v, b.up, Plug(b, Fill(d, k)));
      GoUp(b2, Fill(d, k));
      GoUpTo(d, b2, k);
    }

    /** z has two children; its successor moves into its place. */
    method DeleteInner(z: Ref, ghost c: Ctx, ghost t: Tree)
      requires Valid() && Fill(c, t) == shape && t.Node? && t.node == z && t.left.Node? && t.right.Node?
      modifies this`left, this`right, this`parent, this`maxHigh, this`red, this`interval, this`shape
      ensures At(Top, shape) && Balanced(shape) && !IsRed(shape) && Augmented(shape) && interval == old(interval)
      ensures Removed(old(Inorder(shape)), Inorder(shape), |Before(c)| + |Inorder(t.left)|)
    {
      hide Spells, Deleting, Restored, Removed, Balanced, Augmented, SortedEntries;
      GoTop(c, t);
      ghost var d, u;
      var y;
      y, d, u := GetSuccessor(z, c, t);
      ghost var k, m := u.right, MaxHigh(u.right);
      ghost var b, b2 := InRight(y, u.ivl, NIL_HIGH, u.red, t.left, c), InRight(y, u.ivl, NIL_HIGH, t.red, t.left, c);
      InnerPlan(c, t, d, u);
      var x := MoveUp(z, y, c, t, d, u);
      FixupMaxHigh(parent[x], Compose(d, b), k);
      RefreshCompose(d, b, m);
      RefreshCompose(d, b2, m);
      RefreshAbove(Compose(d, b), m, root);
      RefreshAbove(Compose(d, b2), m, root);
      ComposeAbove(d, b, root);
      ComposeAbove(d, b2, root);
      ghost var e, f := Refresh(d, m), Refresh(b, TopHigh(d, m));
      LookHead(e, f, k);
      var wasRed := red[y];
      RecolourAbove(y, red[z], e, f, k);
      Repair(x, wasRed, Refresh(Compose(d, b2), m), k);
    }

    lemma {:induction false} LookHead(d: Ctx, b: Ctx, k: Tree)
      requires At(Compose(d, b), k) && b.InRight?
      ensures b.node in red && red[b.node] == b.red
    {
      GoUpTo(d, b, k);
      LookUp(Nodes(), b, Fill(d, k), root, nil);
    }

    /** `delete z`: the node's memory goes back. */
    method Free(z: Ref)
      requires At(Top, shape) && z !in Refs(shape) + {root, nil}
      modifies this`left, this`right, this`parent, this`red, this`maxHigh, this`interval
      ensures At(Top, shape)
    {
      left, right, parent := left - {z}, right - {z}, parent - {z};
      red, maxHigh, interval := red - {z}, maxHigh - {z}, interval - {z};
      SpellsWithout(old(Nodes()), Nodes(), Top, shape, z, root, nil);
    }

    /** Delete the node at z. Afterwards the entries are the old ones without its own, and the
        tree is as valid as before. */
    method DeleteNode(z: Ref) returns (deleted: Interval, ghost k: nat)
      requires Valid() && z in Refs(shape)
      modifies this`left, this`right, this`parent, this`maxHigh, this`red, this`interval, this`shape
      ensures Valid()
      ensures Removed(old(Inorder(shape)), Inorder(shape), k) && old(Inorder(shape))[k] == Entry(z, deleted)
      ensures z in old(interval) && deleted == old(interval)[z]
    {
      hide Spells, Removed, Balanced, Augmented, SortedEntries;
      ghost var s := shape;
      ghost var (c, t) := Locate(shape, z);
      GoTop(c, t);
      Placed(Nodes(), Top, s, root, nil);
      LookDown(Nodes(), c, t, root, nil);
      k := |Before(c)| + |Inorder(t.left)|;
      EntryAt(c, t);
      Opened(Nodes(), c, t, root, nil);
      Look(Nodes(), InLeft(t.node, t.ivl, t.maxHigh, t.red, c, t.right), t.left, root, nil);
      Look(Nodes(), InRight(t.node, t.ivl, t.maxHigh, t.red, t.left, c), t.right, root, nil);
      deleted := interval[z];
      if left[z] == nil || right[z] == nil {
        DeleteOuter(z, c, t);
      } else {
        DeleteInner(z, c, t);
      }
      RemovedRefs(s, shape, k);
      RemovedSorted(Inorder(s), Inorder(shape), k);
      Free(z);
    }

    /** The node storing the interval, the first in preorder, or the nil sentinel. */
    method RecursiveSearch(n: Ref, ivl: Interval, ghost c: Ctx, ghost t: Tree) returns (found: Ref)
      requires At(c, t) && n == Head(t, nil)
      ensures found == nil ==> ivl !in Preorder(t)
      ensures found != nil ==> found in Refs(t) && found in interval && interval[found] == ivl && ivl in Preorder(t)
      decreases t
    {
      found := nil;
      Look(Nodes(), c, t, root, nil);
      if n != nil {
        LookDown(Nodes(), c, t, root, nil);
        Opened(Nodes(), c, t, root, nil);
        ghost var l, r := InLeft(t.node, t.ivl, t.maxHigh, t.red, c, t.right),
          InRight(t.node, t.ivl, t.maxHigh, t.red, t.left, c);
        hide Spells;
        if interval[n] == ivl {
          return n;
        }
        found := RecursiveSearch(left[n], ivl, l, t.left);
        if found == nil {
          found := RecursiveSearch(right[n], ivl, r, t.right);
        }
      }
    }

    /** Delete a node storing the interval, if there is one. */
    method DeleteInterval(ivl: Interval) returns (ghost k: nat)
      requires Valid()
      modifies this`left, this`right, this`parent, this`maxHigh, this`red, this`interval, this`shape
      ensures Valid()
      ensures if ivl in old(Preorder(shape)) then
          Removed(old(Inorder(shape)), Inorder(shape), k) && old(Inorder(shape))[k].ivl == ivl
        else Inorder(shape) == old(Inorder(shape))
    {
      k := 0;
      // on the root sentinel, which stores no interval and has nothing on its right, the search
      // comes down to its left child
      Look(Nodes(), Top, shape, root, nil);
      var node := RecursiveSearch(left[root], ivl, Top, shape);
      if node != nil {
        var deleted;
        deleted, k := DeleteNode(node);
      }
    }

    // ---------- query ----------

    predicate StackReady()
      reads this`stack, this`stackTop
    {
      stack.Length > 0 && stackTop == 1
    }

    /** The used part of the recursion stack. */
    ghost function Used(): seq<RecursionNode>
      requires stackTop <= stack.Length
      reads this`stack, this`stackTop, stack
    {
      stack[..stackTop]
    }

    /** Push x, which becomes the current parent; a full stack is doubled first. */
    method Push(x: Ref)
      requires 0 < stackTop <= stack.Length
      modifies this`stack, this`stackTop, this`currentParent, stack
      ensures stack == old(stack) || fresh(stack)
      ensures stackTop == old(stackTop) + 1 <= stack.Length && currentParent == old(stackTop)
      ensures Used() == old(Used()) + [RecursionNode(x, old(currentParent), false)]
    {
      if stackTop == stack.Length {
        var bigger := new RecursionNode[2 * stack.Length];
        forall i | 0 <= i < stack.Length {
          bigger[i] := stack[i];
        }
        stack := bigger;
      }
      assert stack[..stackTop] == old(Used());
      stack[stackTop] := RecursionNode(x, currentParent, false);
      currentParent := stackTop;
      stackTop := stackTop + 1;
    }

    /** Set the try_right_branch mark of a slot. */
    method Mark(i: nat)
      requires i < stackTop <= stack.Length
      modifies stack
      ensures Used() == Marked(old(Used()), i)
    {
      stack[i] := RecursionNode(stack[i].startNode, stack[i].parentIndex, true);
    }

    /** Visit x: report whether it overlaps, and go on to its left or right child. */
    method VisitNode(x: Ref, low: int, high: int, ghost c: Ctx, ghost cs: seq<Ctx>, ghost w: Walk)
      returns (next: Ref, hit: bool, ghost c': Ctx, ghost cs': seq<Ctx>)
      requires 0 < stackTop <= stack.Length && currentParent == stackTop - 1 && Mirrors(Used(), w)
      requires Standing(Nodes(), c, cs, w, root, nil) && w.t.Node? && x == w.t.node
      modifies this`stack, this`stackTop, this`currentParent, stack
      ensures Nodes() == old(Nodes()) && (stack == old(stack) || fresh(stack))
      ensures 0 < stackTop <= stack.Length && currentParent == stackTop - 1
      ensures x in interval && interval[x] == w.t.ivl && hit == Overlap(low, high, interval[x].low, interval[x].high)
      ensures var v := Visit(w, low, high);
        Mirrors(Used(), v) && Standing(Nodes(), c', cs', v, root, nil) && next == Head(v.t, nil)
    {
      hide Standing, Mirrors, Overlap;
      ghost var m := Nodes();
      StandingHere(m, c, cs, w, root, nil);
      VisitMirrored(Used(), w, low, high);
      c', cs' := VisitStanding(m, c, cs, w, root, nil, low, high);
      hit := Overlap(low, high, interval[x].low, interval[x].high);
      if hit {
        Mark(currentParent);
      }
      if maxHigh[left[x]] >= low {
        Push(x);
        next := left[x];
      } else {
        next := right[x];
      }
      assert Used() == Visited(old(Used()), x, hit, MaxHigh(w.t.left) >= low);
      assert Nodes() == m;
    }

    /** Pop a frame; if it is marked, go to the right of its node. */
    method PopFrame(x: Ref, ghost c: Ctx, ghost cs: seq<Ctx>, ghost w: Walk)
      returns (next: Ref, ghost c': Ctx, ghost cs': seq<Ctx>)
      requires 1 < stackTop <= stack.Length && Mirrors(Used(), w) && Standing(Nodes(), c, cs, w, root, nil)
      requires w.t.Leaf? && x == nil
      modifies this`stackTop, this`currentParent, stack
      ensures Nodes() == old(Nodes()) && stackTop == old(stackTop) - 1
      ensures Mirrors(Used(), Pop(w)) && Standing(Nodes(), c', cs', Pop(w), root, nil) && next == Head(Pop(w).t, nil)
      ensures next != nil ==> currentParent == stackTop - 1
    {
      hide Standing, Mirrors;
      ghost var m, s := Nodes(), Used();
      MirrorsTop(s, w);
      StandingTop(m, c, cs, w, root, nil);
      PopMirrored(s, w);
      c', cs' := PopStanding(m, c, cs, w, root, nil);
      next := x;
      stackTop := stackTop - 1;
      assert Used() == s[..stackTop] && stack[stackTop] == s[stackTop];
      if stack[stackTop].tryRight {
        next := right[stack[stackTop].startNode];
        currentParent := stack[stackTop].parentIndex;
        Mark(currentParent);
      }
      assert Used() == Popped(s);
      assert Nodes() == m;
    }

    /** With nothing left to visit here, pop frames until a marked one has a right child. */
    method Backtrack(x: Ref, low: int, high: int, ghost c: Ctx, ghost cs: seq<Ctx>, ghost w: Walk)
      returns (next: Ref, ghost c': Ctx, ghost cs': seq<Ctx>, ghost v: Walk)
      requires 0 < stackTop <= stack.Length && currentParent == stackTop - 1 && Mirrors(Used(), w)
      requires Standing(Nodes(), c, cs, w, root, nil) && x == Head(w.t, nil)
      modifies this`stackTop, this`currentParent, stack
      ensures Nodes() == old(Nodes()) && 0 < stackTop <= stack.Length && Mirrors(Used(), v)
      ensures Standing(Nodes(), c', cs', v, root, nil) && next == Head(v.t, nil)
      ensures next == nil ==> v.t.Leaf? && v.frames == [] && stackTop == 1
      ensures next != nil ==> v.t.Node? && currentParent == stackTop - 1
      ensures Shaped(v) && v.out == w.out && Run(v, low, high) == Run(w, low, high) && Work(v) <= Work(w)
    {
      hide Standing, Run, Work, Mirrors;
      ghost var m := Nodes();
      next, c', cs', v := x, c, cs, w;
      StandingNil(m, c', cs', v, root, nil);
      MirrorsTop(Used(), v);
      var run := next != nil;
      while !run && stackTop > 1
        invariant Nodes() == m && 0 < stackTop <= stack.Length && Mirrors(Used(), v)
        invariant Standing(m, c', cs', v, root, nil) && next == Head(v.t, nil) && run == v.t.Node? == (next != nil)
        invariant run ==> currentParent == stackTop - 1
        invariant Shaped(v) && v.out == w.out && Run(v, low, high) == Run(w, low, high) && Work(v) <= Work(w)
        decreases stackTop
      {
        MirrorsTop(Used(), v);
        RunPop(v, low, high);
        next, c', cs' := PopFrame(next, c', cs', v);
        v := Pop(v);
        StandingNil(m, c', cs', v, root, nil);
        run := next != nil;
      }
      MirrorsTop(Used(), v);
      assert Nodes() == m;
    }

    /** The loop of a query, from any state of the walk that still has a node to visit. */
    method Search(start: Ref, low: int, high: int, ghost c0: Ctx, ghost w0: Walk) returns (result: seq<Interval>)
      requires stackTop == 1 <= stack.Length && currentParent == 0 && Mirrors(Used(), w0) && w0.out == []
      requires Standing(Nodes(), c0, [], w0, root, nil) && start == Head(w0.t, nil)
      modifies this`stack, this`stackTop, this`currentParent, stack
      ensures Nodes() == old(Nodes()) && StackReady() && (stack == old(stack) || fresh(stack))
      ensures result == Run(w0, low, high).out
    {
      hide Standing, Run, Visit, Mirrors, Work, Shaped;
      ghost var m := Nodes();
      ghost var c, cs, w := c0, [], w0;
      result := [];
      var x := start;
      MirrorsTop(Used(), w);
      StandingNil(m, c, cs, w, root, nil);
      var run := x != nil;
      if !run { RunOver(w, low, high); }
      while run
        invariant Nodes() == m && (stack == old(stack) || fresh(stack))
        invariant 0 < stackTop <= stack.Length && Mirrors(Used(), w) && Shaped(w)
        invariant Standing(m, c, cs, w, root, nil) && x == Head(w.t, nil) && run == w.t.Node?
        invariant if run then currentParent == stackTop - 1 else stackTop == 1 && Run(w, low, high) == w
        invariant result == w.out && Run(w, low, high) == Run(w0, low, high)
        decreases Work(w)
      {
        RunVisit(w, low, high);
        var hit, next;
        next, hit, c, cs := VisitNode(x, low, high, c, cs, w);
        if hit {
          result := result + [interval[x]];
        }
        w := Visit(w, low, high);
        x, c, cs, w := Backtrack(next, low, high, c, cs, w);
        run := x != nil;
        if !run { RunOver(w, low, high); }
      }
      assert Nodes() == m;
    }

    /** The stored intervals that overlap [low, high]. Whatever the query, the loop does what the
        walk over the shape does, and leaves nothing on the stack; from above nil's max_high on,
        that finds every overlapping interval of a valid tree once, in preorder. From nil's own
        max_high on it does so exactly if nothing is hidden from the query. */
    method Query(low: int, high: int) returns (result: seq<Interval>)
      requires Valid() && StackReady()
      modifies this`stack, this`stackTop, this`currentParent, stack
      ensures StackReady() && (stack == old(stack) || fresh(stack)) && Nodes() == old(Nodes()) && Valid()
      ensures result == Run(Start(shape, old(stack[0].tryRight)), low, high).out
      ensures NIL_HIGH < low <= high ==> result == Overlapping(Preorder(shape), low, high)
      ensures NIL_HIGH == low <= high ==>
          (result == Overlapping(Preorder(shape), low, high) <==> NothingHidden(shape, high))
    {
      hide Spells, SortedEntries, Balanced, Augmented, Run, Overlapping;
      ghost var w := Start(shape, stack[0].tryRight);
      if NIL_HIGH <= low <= high {
        ExactIff(shape, stack[0].tryRight, low, high);
      }
      Look(Nodes(), Top, shape, root, nil);
      currentParent := 0;
      result := Search(left[root], low, high, Top, w);
    }
  }
}
