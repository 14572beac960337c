/** The nodes of an interval tree in memory, and the shape their links spell out. */
module IntervalTreeMemory {
  import opened IntervalTreeShape

  // ---------- linked nodes that spell out a shape ----------

  /** The contents of the nodes, field by field: n->left is left[n], and so on. A node that
      stores no interval, as the two sentinels do, is not in interval; a node's key and high
      are the two ends of its interval. */
  datatype Mem = Mem(left: map<Ref, Ref>, right: map<Ref, Ref>, parent: map<Ref, Ref>, red: map<Ref, bool>,
                     maxHigh: map<Ref, int>, interval: map<Ref, Interval>)
  {
    ghost predicate Has(n: Ref) {
      n in left && n in right && n in parent && n in red && n in maxHigh
    }
  }

  function Head(t: Tree, nil: Ref): Ref {
    if t.Leaf? then nil else t.node
  }

  ghost predicate Holds(m: Mem, n: Ref, ivl: Interval, maxHigh: int, red: bool, left: Ref, right: Ref, parent: Ref) {
    m.Has(n) && n in m.interval && m.interval[n] == ivl && m.maxHigh[n] == maxHigh && m.red[n] == red &&
    m.left[n] == left && m.right[n] == right && m.parent[n] == parent
  }

  ghost predicate Linked(m: Mem, t: Tree, parent: Ref, nil: Ref) {
    match t
    case Leaf => true
    case Node(n, ivl, mx, red, l, r) =>
      Holds(m, n, ivl, mx, red, Head(l, nil), Head(r, nil), parent) && Linked(m, l, n, nil) && Linked(m, r, n, nil)
  }

  /** The node a position hangs from. */
  function Above(c: Ctx, root: Ref): Ref {
    if c.Top? then root else c.node
  }

  function TopMost(c: Ctx, child: Ref): Ref {
    if c.Top? then child else TopMost(c.up, c.node)
  }

  ghost predicate LinkedCtx(m: Mem, c: Ctx, child: Ref, root: Ref, nil: Ref) {
    match c
    case Top => true
    case InLeft(n, ivl, mx, red, up, r) =>
      Holds(m, n, ivl, mx, red, child, Head(r, nil), Above(up, root)) && Linked(m, r, n, nil) &&
      LinkedCtx(m, up, n, root, nil)
    case InRight(n, ivl, mx, red, l, up) =>
      Holds(m, n, ivl, mx, red, Head(l, nil), child, Above(up, root)) && Linked(m, l, n, nil) &&
      LinkedCtx(m, up, n, root, nil)
  }

  ghost predicate Same(m: Mem, m': Mem, n: Ref) {
    m.Has(n) && n in m.interval ==>
      Holds(m', n, m.interval[n], m.maxHigh[n], m.red[n], m.left[n], m.right[n], m.parent[n])
  }

  ghost predicate Agree(m: Mem, m': Mem, s: set<Ref>) {
    forall n :: n in s ==> Same(m, m', n)
  }

  lemma {:induction false} LinkedAgree(m: Mem, m': Mem, t: Tree, p: Ref, nil: Ref)
    requires Linked(m, t, p, nil) && Agree(m, m', Refs(t))
    ensures Linked(m', t, p, nil)
  {
    if t.Node? {
      assert Same(m, m', t.node);
      LinkedAgree(m, m', t.left, t.node, nil);
      LinkedAgree(m, m', t.right, t.node, nil);
    }
  }

  lemma {:induction false} LinkedCtxAgree(m: Mem, m': Mem, c: Ctx, child: Ref, root: Ref, nil: Ref)
    requires LinkedCtx(m, c, child, root, nil) && Agree(m, m', CtxRefs(c))
    ensures LinkedCtx(m', c, child, root, nil)
  {
    match c
    case Top =>
    case InLeft(n, _, _, _, up, r) =>
      assert Same(m, m', n);
      LinkedAgree(m, m', r, n, nil);
      LinkedCtxAgree(m, m', up, n, root, nil);
    case InRight(n, _, _, _, l, up) =>
      assert Same(m, m', n);
      LinkedAgree(m, m', l, n, nil);
      LinkedCtxAgree(m, m', up, n, root, nil);
  }

  /** Of the subtree only the parent link of its head changes. */
  lemma {:induction false} Reparented(m: Mem, m': Mem, t: Tree, p: Ref, q: Ref, nil: Ref)
    requires Linked(m, t, p, nil) && Distinct(t)
    requires t.Node? ==> Holds(m', t.node, t.ivl, t.maxHigh, t.red, Head(t.left, nil), Head(t.right, nil), q)
    requires t.Node? ==> Agree(m, m', Refs(t) - {t.node})
    ensures Linked(m', t, q, nil)
  {
    if t.Node? {
      LinkedAgree(m, m', t.left, t.node, nil);
      LinkedAgree(m, m', t.right, t.node, nil);
    }
  }

  /** Of the context only the link to the child changes. */
  lemma {:induction false} Relinked(m: Mem, m': Mem, c: Ctx, x: Ref, y: Ref, root: Ref, nil: Ref)
    requires LinkedCtx(m, c, x, root, nil) && CtxDistinct(c)
    requires !c.Top? ==> Agree(m, m', CtxRefs(c) - {c.node})
    requires c.InLeft? ==> Holds(m', c.node, c.ivl, c.maxHigh, c.red, y, Head(c.right, nil), Above(c.up, root))
    requires c.InRight? ==> Holds(m', c.node, c.ivl, c.maxHigh, c.red, Head(c.left, nil), y, Above(c.up, root))
    ensures LinkedCtx(m', c, y, root, nil)
  {
    match c
    case Top =>
    case InLeft(n, _, _, _, up, r) =>
      LinkedAgree(m, m', r, n, nil);
      LinkedCtxAgree(m, m', up, n, root, nil);
    case InRight(n, _, _, _, l, up) =>
      LinkedAgree(m, m', l, n, nil);
      LinkedCtxAgree(m, m', up, n, root, nil);
  }

  ghost predicate Sentinels(m: Mem, root: Ref, nil: Ref) {
    root != nil && m.Has(root) && m.Has(nil) && !m.red[root] && m.right[root] == nil &&
    !m.red[nil] && m.maxHigh[nil] == NIL_HIGH && nil !in m.interval && root !in m.interval
  }

  /** The nodes spell out Fill(c, t), seen from the position of t. */
  ghost predicate Spells(m: Mem, c: Ctx, t: Tree, root: Ref, nil: Ref) {
    Sentinels(m, root, nil) && {root, nil} !! CtxRefs(c) + Refs(t) &&
    CtxDistinct(c) && Distinct(t) && CtxRefs(c) !! Refs(t) &&
    m.left[root] == TopMost(c, Head(t, nil)) &&
    LinkedCtx(m, c, Head(t, nil), root, nil) && Linked(m, t, Above(c, root), nil)
  }

  /** The head of a subtree, or the nil sentinel in place of an empty one, is readable. */
  lemma {:induction false} HeadFields(m: Mem, t: Tree, p: Ref, root: Ref, nil: Ref)
    requires Sentinels(m, root, nil) && Linked(m, t, p, nil)
    ensures t.Node? ==> t.node in Refs(t) && m.parent[t.node] == p
    ensures m.Has(Head(t, nil)) && m.maxHigh[Head(t, nil)] == MaxHigh(t) && m.red[Head(t, nil)] == IsRed(t)
  {
  }

  // ---------- rotations on linked nodes ----------

  /** Let p point to y where it pointed to x. */
  function Replace(links: map<Ref, Ref>, c: bool, p: Ref, y: Ref): map<Ref, Ref> {
    if c then links[p := y] else links
  }

  /** Nodes x, y, the node p above and the subtrees a, b, d share nothing. */
  ghost predicate Apart(c: Ctx, x: Ref, y: Ref, p: Ref, a: Tree, b: Tree, d: Tree, nil: Ref) {
    x != y && x != p && x != nil && y != p && y != nil && p != nil &&
    {x, y, p, nil} !! Refs(a) && {x, y, p, nil} !! Refs(b) && {x, y, p, nil} !! Refs(d) && {x, y} !! CtxRefs(c) &&
    Refs(a) !! Refs(b) && Refs(b) !! Refs(d) && Refs(b) !! CtxRefs(c) && Refs(a) !! CtxRefs(c) && Refs(d) !! CtxRefs(c)
  }

  lemma {:induction false} LeftApart(m: Mem, c: Ctx, t: Tree, root: Ref, nil: Ref)
    requires Spells(m, c, t, root, nil) && t.Node? && t.right.Node?
    ensures Apart(c, t.node, t.right.node, Above(c, root), t.left, t.right.left, t.right.right, nil)
    ensures root !in Refs(t)
    ensures Linked(m, t.right, t.node, nil) && Distinct(t.right)
    ensures {t.node, t.right.node} <= Refs(t) && Refs(t.right.left) <= Refs(t)
  {
    assert Refs(t) == {t.node} + Refs(t.left) + Refs(t.right);
    assert Refs(t.right) == {t.right.node} + Refs(t.right.left) + Refs(t.right.right);
    assert !c.Top? ==> c.node in CtxRefs(c);
    assert Linked(m, t.right, t.node, nil) && Distinct(t.right);
  }

  /** The links leftRotate(x) follows lead to nodes. */
  ghost predicate CanLeftRotate(m: Mem, x: Ref) {
    m.Has(x) && m.Has(m.right[x]) && m.Has(m.left[m.right[x]]) && m.Has(m.parent[x]) && m.Has(m.left[x]) &&
    m.Has(m.right[m.right[x]]) && x in m.interval && m.right[x] in m.interval &&
    x != m.right[x] && m.parent[x] != x && m.parent[x] != m.right[x] &&
    m.left[m.right[x]] != x && m.left[m.right[x]] != m.right[x] && m.right[m.right[x]] != x && m.left[x] != x
  }

  /** What leftRotate(x) writes. */
  ghost predicate LeftRotated(m: Mem, m': Mem, x: Ref, nil: Ref)
    requires CanLeftRotate(m, x)
  {
    var y, p := m.right[x], m.parent[x];
    var b := m.left[y];
    var mx := Max(m.maxHigh[m.left[x]], Max(m.maxHigh[b], m.interval[x].high));
    var my := Max(mx, Max(m.maxHigh[m.right[y]], m.interval[y].high));
    m'.left == Replace(m.left, x == m.left[p], p, y)[y := x] &&
    m'.right == Replace(m.right[x := b], x != m.left[p], p, y) &&
    m'.parent == Replace(m.parent, b != nil, b, x)[y := p][x := y] &&
    m'.maxHigh == m.maxHigh[x := mx][y := my] && m'.red == m.red && m'.interval == m.interval
  }

  /** What leftRotate reads. */
  lemma LeftRotateLinks(m: Mem, c: Ctx, t: Tree, root: Ref, nil: Ref)
    requires Spells(m, c, t, root, nil) && t.Node? && t.right.Node?
    ensures CanLeftRotate(m, t.node) && m.right[t.node] == t.right.node
    ensures var x, y, p := t.node, t.right.node, Above(c, root);
      var a, b, d := Head(t.left, nil), Head(t.right.left, nil), Head(t.right.right, nil);
      Holds(m, x, t.ivl, t.maxHigh, t.red, a, y, p) &&
      Holds(m, y, t.right.ivl, t.right.maxHigh, t.right.red, b, d, x) &&
      m.maxHigh[a] == MaxHigh(t.left) && m.maxHigh[b] == MaxHigh(t.right.left) &&
      m.maxHigh[d] == MaxHigh(t.right.right) &&
      (x == m.left[p] <==> !c.InRight?)
  {
    LeftApart(m, c, t, root, nil);
    HeadFields(m, t.left, t.node, root, nil);
    HeadFields(m, t.right.left, t.right.node, root, nil);
    HeadFields(m, t.right.right, t.right.node, root, nil);
    if c.InRight? { HeadFields(m, c.left, c.node, root, nil); }
  }

  /** leftRotate leaves all other nodes alone, and of the middle subtree and of the node
      above it changes one link each. */
  lemma LeftRotatedFrame(m: Mem, m': Mem, x: Ref, nil: Ref)
    requires CanLeftRotate(m, x) && LeftRotated(m, m', x, nil)
    ensures var y, b, p := m.right[x], m.left[m.right[x]], m.parent[x];
      (forall n :: n != x && n != y && n != p && n != b ==> Same(m, m', n)) &&
      (b != nil && b != p && b in m.interval ==>
         Holds(m', b, m.interval[b], m.maxHigh[b], m.red[b], m.left[b], m.right[b], x)) &&
      (b != p && p in m.interval ==>
         Holds(m', p, m.interval[p], m.maxHigh[p], m.red[p], if x == m.left[p] then y else m.left[p],
               if x == m.left[p] then m.right[p] else y, m.parent[p]))
  {
  }

  lemma {:induction false} LeftRotateOuter(m: Mem, m': Mem, c: Ctx, t: Tree, root: Ref, nil: Ref)
    requires Spells(m, c, t, root, nil) && t.Node? && t.right.Node?
    requires CanLeftRotate(m, t.node) && LeftRotated(m, m', t.node, nil)
    ensures Linked(m', t.left, t.node, nil) && Linked(m', t.right.right, t.right.node, nil)
  {
    hide LeftRotated, CanLeftRotate, Same;
    LeftApart(m, c, t, root, nil);
    LeftRotateLinks(m, c, t, root, nil);
    HeadFields(m, t.right.left, t.right.node, root, nil);
    LeftRotatedFrame(m, m', t.node, nil);
    LinkedAgree(m, m', t.left, t.node, nil);
    LinkedAgree(m, m', t.right.right, t.right.node, nil);
  }

  lemma {:induction false} LeftRotateMiddle(m: Mem, m': Mem, c: Ctx, t: Tree, root: Ref, nil: Ref)
    requires Spells(m, c, t, root, nil) && t.Node? && t.right.Node?
    requires CanLeftRotate(m, t.node) && LeftRotated(m, m', t.node, nil)
    ensures Linked(m', t.right.left, t.node, nil)
  {
    hide LeftRotated, CanLeftRotate, Same, CtxRefs;
    LeftApart(m, c, t, root, nil);
    LeftRotateLinks(m, c, t, root, nil);
    HeadFields(m, t.right.left, t.right.node, root, nil);
    LeftRotatedFrame(m, m', t.node, nil);
    Reparented(m, m', t.right.left, t.right.node, t.node, nil);
  }

  lemma {:induction false} LeftRotateAbove(m: Mem, m': Mem, c: Ctx, t: Tree, root: Ref, nil: Ref)
    requires Spells(m, c, t, root, nil) && t.Node? && t.right.Node?
    requires CanLeftRotate(m, t.node) && LeftRotated(m, m', t.node, nil)
    ensures LinkedCtx(m', c, t.right.node, root, nil)
  {
    hide LeftRotated, CanLeftRotate, Same, Refs, Linked, Distinct;
    LeftApart(m, c, t, root, nil);
    LeftRotateLinks(m, c, t, root, nil);
    HeadFields(m, t.right.left, t.right.node, root, nil);
    LeftRotatedFrame(m, m', t.node, nil);
    Relinked(m, m', c, t.node, t.right.node, root, nil);
  }

  lemma {:induction false} LeftRotateSentinels(m: Mem, m': Mem, c: Ctx, t: Tree, root: Ref, nil: Ref)
    requires Spells(m, c, t, root, nil) && t.Node? && t.right.Node?
    requires CanLeftRotate(m, t.node) && LeftRotated(m, m', t.node, nil)
    ensures Sentinels(m', root, nil) && m'.left[root] == TopMost(c, t.right.node)
  {
    LeftApart(m, c, t, root, nil);
    LeftRotateLinks(m, c, t, root, nil);
  }

  lemma {:induction false} LeftRotateLinked(m: Mem, m': Mem, c: Ctx, t: Tree, root: Ref, nil: Ref)
    requires Spells(m, c, t, root, nil) && t.Node? && t.right.Node?
    requires CanLeftRotate(m, t.node) && LeftRotated(m, m', t.node, nil)
    ensures Linked(m', RotateLeft(t), Above(c, root), nil)
  {
    var u := RotateLeft(t);
    LeftRotateLinks(m, c, t, root, nil);
    LeftRotateOuter(m, m', c, t, root, nil);
    LeftRotateMiddle(m, m', c, t, root, nil);
    LeftApart(m, c, t, root, nil);
    hide Refs, CtxRefs, Distinct, CtxDistinct, LinkedCtx, TopMost, Spells;
    assert Linked(m', u.left, u.node, nil);
  }

  lemma LeftRotateSpells(m: Mem, m': Mem, c: Ctx, t: Tree, root: Ref, nil: Ref)
    requires Spells(m, c, t, root, nil) && t.Node? && t.right.Node?
    requires CanLeftRotate(m, t.node) && LeftRotated(m, m', t.node, nil)
    ensures Spells(m', c, RotateLeft(t), root, nil)
  {
    hide Refs, CtxRefs, Distinct, CtxDistinct, Linked, LinkedCtx, TopMost, LeftRotated, CanLeftRotate, Apart;
    LeftRotateLinked(m, m', c, t, root, nil);
    LeftRotateSentinels(m, m', c, t, root, nil);
    LeftRotateAbove(m, m', c, t, root, nil);
    RotateLeftRefs(t);
    RotateLeftDistinct(t);
  }

  lemma {:induction false} RightApart(m: Mem, c: Ctx, t: Tree, root: Ref, nil: Ref)
    requires Spells(m, c, t, root, nil) && t.Node? && t.left.Node?
    ensures Apart(c, t.node, t.left.node, Above(c, root), t.right, t.left.right, t.left.left, nil)
    ensures root !in Refs(t)
    ensures Linked(m, t.left, t.node, nil) && Distinct(t.left)
    ensures {t.node, t.left.node} <= Refs(t) && Refs(t.left.right) <= Refs(t)
  {
    assert Refs(t) == {t.node} + Refs(t.right) + Refs(t.left);
    assert Refs(t.left) == {t.left.node} + Refs(t.left.right) + Refs(t.left.left);
    assert !c.Top? ==> c.node in CtxRefs(c);
    assert Linked(m, t.left, t.node, nil) && Distinct(t.left);
  }

  /** The links rightRotate(x) follows lead to nodes. */
  ghost predicate CanRightRotate(m: Mem, x: Ref) {
    m.Has(x) && m.Has(m.left[x]) && m.Has(m.right[m.left[x]]) && m.Has(m.parent[x]) && m.Has(m.right[x]) &&
    m.Has(m.left[m.left[x]]) && x in m.interval && m.left[x] in m.interval &&
    x != m.left[x] && m.parent[x] != x && m.parent[x] != m.left[x] &&
    m.right[m.left[x]] != x && m.right[m.left[x]] != m.left[x] && m.left[m.left[x]] != x && m.right[x] != x
  }

  /** What rightRotate(x) writes. */
  ghost predicate RightRotated(m: Mem, m': Mem, x: Ref, nil: Ref)
    requires CanRightRotate(m, x)
  {
    var y, p := m.left[x], m.parent[x];
    var b := m.right[y];
    var mx := Max(m.maxHigh[m.right[x]], Max(m.maxHigh[b], m.interval[x].high));
    var my := Max(mx, Max(m.maxHigh[m.left[y]], m.interval[y].high));
    m'.left == Replace(m.left[x := b], x == m.left[p], p, y) &&
    m'.right == Replace(m.right, x != m.left[p], p, y)[y := x] &&
    m'.parent == Replace(m.parent, b != nil, b, x)[y := p][x := y] &&
    m'.maxHigh == m.maxHigh[x := mx][y := my] && m'.red == m.red && m'.interval == m.interval
  }

  /** What rightRotate reads. */
  lemma RightRotateLinks(m: Mem, c: Ctx, t: Tree, root: Ref, nil: Ref)
    requires Spells(m, c, t, root, nil) && t.Node? && t.left.Node?
    ensures CanRightRotate(m, t.node) && m.left[t.node] == t.left.node
    ensures var x, y, p := t.node, t.left.node, Above(c, root);
      var a, b, d := Head(t.right, nil), Head(t.left.right, nil), Head(t.left.left, nil);
      Holds(m, x, t.ivl, t.maxHigh, t.red, y, a, p) && Holds(m, y, t.left.ivl, t.left.maxHigh, t.left.red, d, b, x) &&
      m.maxHigh[a] == MaxHigh(t.right) && m.maxHigh[b] == MaxHigh(t.left.right) &&
      m.maxHigh[d] == MaxHigh(t.left.left) &&
      (x == m.left[p] <==> !c.InRight?)
  {
    RightApart(m, c, t, root, nil);
    HeadFields(m, t.right, t.node, root, nil);
    HeadFields(m, t.left.right, t.left.node, root, nil);
    HeadFields(m, t.left.left, t.left.node, root, nil);
    if c.InRight? { HeadFields(m, c.left, c.node, root, nil); }
  }

  /** rightRotate leaves all other nodes alone, and of the middle subtree and of the node
      above it changes one link each. */
  lemma RightRotatedFrame(m: Mem, m': Mem, x: Ref, nil: Ref)
    requires CanRightRotate(m, x) && RightRotated(m, m', x, nil)
    ensures var y, b, p := m.left[x], m.right[m.left[x]], m.parent[x];
      (forall n :: n != x && n != y && n != p && n != b ==> Same(m, m', n)) &&
      (b != nil && b != p && b in m.interval ==>
         Holds(m', b, m.interval[b], m.maxHigh[b], m.red[b], m.left[b], m.right[b], x)) &&
      (b != p && p in m.interval ==>
         Holds(m', p, m.interval[p], m.maxHigh[p], m.red[p], if x == m.left[p] then y else m.left[p],
               if x == m.left[p] then m.right[p] else y, m.parent[p]))
  {
  }

  lemma {:induction false} RightRotateOuter(m: Mem, m': Mem, c: Ctx, t: Tree, root: Ref, nil: Ref)
    requires Spells(m, c, t, root, nil) && t.Node? && t.left.Node?
    requires CanRightRotate(m, t.node) && RightRotated(m, m', t.node, nil)
    ensures Linked(m', t.right, t.node, nil) && Linked(m', t.left.left, t.left.node, nil)
  {
    hide RightRotated, CanRightRotate, Same;
    RightApart(m, c, t, root, nil);
    RightRotateLinks(m, c, t, root, nil);
    HeadFields(m, t.left.right, t.left.node, root, nil);
    RightRotatedFrame(m, m', t.node, nil);
    LinkedAgree(m, m', t.right, t.node, nil);
    LinkedAgree(m, m', t.left.left, t.left.node, nil);
  }

  lemma {:induction false} RightRotateMiddle(m: Mem, m': Mem, c: Ctx, t: Tree, root: Ref, nil: Ref)
    requires Spells(m, c, t, root, nil) && t.Node? && t.left.Node?
    requires CanRightRotate(m, t.node) && RightRotated(m, m', t.node, nil)
    ensures Linked(m', t.left.right, t.node, nil)
  {
    hide RightRotated, CanRightRotate, Same, CtxRefs;
    RightApart(m, c, t, root, nil);
    RightRotateLinks(m, c, t, root, nil);
    HeadFields(m, t.left.right, t.left.node, root, nil);
    RightRotatedFrame(m, m', t.node, nil);
    Reparented(m, m', t.left.right, t.left.node, t.node, nil);
  }

  lemma {:induction false} RightRotateAbove(m: Mem, m': Mem, c: Ctx, t: Tree, root: Ref, nil: Ref)
    requires Spells(m, c, t, root, nil) && t.Node? && t.left.Node?
    requires CanRightRotate(m, t.node) && RightRotated(m, m', t.node, nil)
    ensures LinkedCtx(m', c, t.left.node, root, nil)
  {
    hide RightRotated, CanRightRotate, Same, Refs, Linked, Distinct;
    RightApart(m, c, t, root, nil);
    RightRotateLinks(m, c, t, root, nil);
    HeadFields(m, t.left.right, t.left.node, root, nil);
    RightRotatedFrame(m, m', t.node, nil);
    Relinked(m, m', c, t.node, t.left.node, root, nil);
  }

  lemma {:induction false} RightRotateSentinels(m: Mem, m': Mem, c: Ctx, t: Tree, root: Ref, nil: Ref)
    requires Spells(m, c, t, root, nil) && t.Node? && t.left.Node?
    requires CanRightRotate(m, t.node) && RightRotated(m, m', t.node, nil)
    ensures Sentinels(m', root, nil) && m'.left[root] == TopMost(c, t.left.node)
  {
    RightApart(m, c, t, root, nil);
    RightRotateLinks(m, c, t, root, nil);
  }

  lemma {:induction false} RightRotateLinked(m: Mem, m': Mem, c: Ctx, t: Tree, root: Ref, nil: Ref)
    requires Spells(m, c, t, root, nil) && t.Node? && t.left.Node?
    requires CanRightRotate(m, t.node) && RightRotated(m, m', t.node, nil)
    ensures Linked(m', RotateRight(t), Above(c, root), nil)
  {
    var u := RotateRight(t);
    RightRotateLinks(m, c, t, root, nil);
    RightRotateOuter(m, m', c, t, root, nil);
    RightRotateMiddle(m, m', c, t, root, nil);
    RightApart(m, c, t, root, nil);
    hide Refs, CtxRefs, Distinct, CtxDistinct, LinkedCtx, TopMost, Spells;
    assert Linked(m', u.right, u.node, nil);
  }

  lemma RightRotateSpells(m: Mem, m': Mem, c: Ctx, t: Tree, root: Ref, nil: Ref)
    requires Spells(m, c, t, root, nil) && t.Node? && t.left.Node?
    requires CanRightRotate(m, t.node) && RightRotated(m, m', t.node, nil)
    ensures Spells(m', c, RotateRight(t), root, nil)
  {
    hide Refs, CtxRefs, Distinct, CtxDistinct, Linked, LinkedCtx, TopMost, RightRotated, CanRightRotate, Apart;
    RightRotateLinked(m, m', c, t, root, nil);
    RightRotateSentinels(m, m', c, t, root, nil);
    RightRotateAbove(m, m', c, t, root, nil);
    RotateRightRefs(t);
    RotateRightDistinct(t);
  }

  // ---------- moving the position ----------

  lemma {:induction false} PlugDistinct(c: Ctx, t: Tree)
    requires !c.Top?
    ensures CtxRefs(c) + Refs(t) == CtxRefs(c.up) + Refs(Plug(c, t))
    ensures CtxDistinct(c) && Distinct(t) && CtxRefs(c) !! Refs(t) <==>
            CtxDistinct(c.up) && Distinct(Plug(c, t)) && CtxRefs(c.up) !! Refs(Plug(c, t))
  {
  }

  /** The position may be moved one level without touching the nodes. */
  lemma Up(m: Mem, c: Ctx, t: Tree, root: Ref, nil: Ref)
    requires !c.Top?
    ensures Spells(m, c, t, root, nil) <==> Spells(m, c.up, Plug(c, t), root, nil)
  {
    hide Refs, CtxRefs, Distinct, CtxDistinct;
    PlugDistinct(c, t);
    assert Linked(m, Plug(c, t), Above(c.up, root), nil) && LinkedCtx(m, c.up, c.node, root, nil) <==>
           LinkedCtx(m, c, Head(t, nil), root, nil) && Linked(m, t, c.node, nil);
  }

  lemma {:induction false} ToTop(m: Mem, c: Ctx, t: Tree, root: Ref, nil: Ref)
    ensures Spells(m, c, t, root, nil) <==> Spells(m, Top, Fill(c, t), root, nil)
  {
    if !c.Top? {
      Up(m, c, t, root, nil);
      ToTop(m, c.up, Plug(c, t), root, nil);
    }
  }

  lemma PaintedFrame(m: Mem, m': Mem, x: Ref, red: bool, maxHigh: int)
    requires m.Has(x)
    requires m' == m.(red := m.red[x := red], maxHigh := m.maxHigh[x := maxHigh])
    ensures forall n :: n != x ==> Same(m, m', n)
  {
  }

  lemma {:induction false} PaintedApart(m: Mem, c: Ctx, t: Tree, root: Ref, nil: Ref, red: bool, maxHigh: int)
    requires Spells(m, c, t, root, nil) && t.Node?
    ensures t.node !in CtxRefs(c) && t.node !in Refs(t.left) && t.node !in Refs(t.right) && t.node != root &&
            t.node != nil
    ensures var u := t.(red := red, maxHigh := maxHigh); Refs(u) == Refs(t) && Distinct(u)
    ensures Linked(m, t.left, t.node, nil) && Linked(m, t.right, t.node, nil)
  {
  }

  /** Recolouring the node at the position, or giving it a new max_high, does as much to the shape. */
  lemma Painted(m: Mem, m': Mem, c: Ctx, t: Tree, root: Ref, nil: Ref, red: bool, maxHigh: int)
    requires Spells(m, c, t, root, nil) && t.Node?
    requires m' == m.(red := m.red[t.node := red], maxHigh := m.maxHigh[t.node := maxHigh])
    ensures Spells(m', c, t.(red := red, maxHigh := maxHigh), root, nil)
  {
    hide Refs, CtxRefs, Distinct, CtxDistinct, Same, TopMost;
    PaintedApart(m, c, t, root, nil, red, maxHigh);
    PaintedFrame(m, m', t.node, red, maxHigh);
    LinkedAgree(m, m', t.left, t.node, nil);
    LinkedAgree(m, m', t.right, t.node, nil);
    LinkedCtxAgree(m, m', c, t.node, root, nil);
  }

  /** The fields around a position. */
  lemma Look(m: Mem, c: Ctx, t: Tree, root: Ref, nil: Ref)
    requires Spells(m, c, t, root, nil)
    ensures Sentinels(m, root, nil) && m.Has(Head(t, nil)) && m.red[Head(t, nil)] == IsRed(t)
    ensures m.maxHigh[Head(t, nil)] == MaxHigh(t)
    ensures t.Node? ==> t.node != nil && t.node != root && t.node in m.interval && m.interval[t.node] == t.ivl
    ensures t.Node? ==>
        m.parent[t.node] == Above(c, root) && m.left[t.node] == Head(t.left, nil) &&
        m.right[t.node] == Head(t.right, nil)
    ensures c.Top? ==> m.left[root] == Head(t, nil)
    ensures m.Has(Above(c, root)) && m.red[Above(c, root)] == CtxRed(c) && Above(c, root) != nil
  {
    HeadFields(m, t, Above(c, root), root, nil);
  }

  /** No node occurs twice, and the topmost one hangs from the root sentinel. */
  lemma {:induction false} Placed(m: Mem, c: Ctx, t: Tree, root: Ref, nil: Ref)
    requires Spells(m, c, t, root, nil)
    ensures CtxDistinct(c) && Distinct(t) && CtxRefs(c) !! Refs(t) && {root, nil} !! CtxRefs(c) + Refs(t)
    ensures root in m.left && m.left[root] == TopMost(c, Head(t, nil))
    ensures !c.Top? ==> c.node in CtxRefs(c)
  {
  }

  /** The node above, its children and its own parent. */
  lemma LookUp(m: Mem, c: Ctx, t: Tree, root: Ref, nil: Ref)
    requires Spells(m, c, t, root, nil) && !c.Top?
    ensures c.node != nil && c.node != root && m.Has(c.node) && m.parent[c.node] == Above(c.up, root)
    ensures c.node in m.interval && m.interval[c.node] == c.ivl && m.red[c.node] == c.red
    ensures c.InLeft? ==> m.left[c.node] == Head(t, nil) && m.right[c.node] == Head(c.right, nil)
    ensures c.InRight? ==> m.left[c.node] == Head(c.left, nil) && m.right[c.node] == Head(t, nil)
    ensures t.Node? ==> (t.node == m.left[c.node] <==> c.InLeft?) && (t.node == m.right[c.node] <==> c.InRight?)
    ensures Head(t, nil) != c.node
  {
    Up(m, c, t, root, nil);
    Look(m, c.up, Plug(c, t), root, nil);
    var s := if c.InLeft? then c.right else c.left;
    assert s.Node? ==> s.node in Refs(s);
    assert t.Node? ==> t.node in Refs(t);
  }

  lemma Opened(m: Mem, c: Ctx, t: Tree, root: Ref, nil: Ref)
    requires Spells(m, c, t, root, nil) && t.Node?
    ensures Spells(m, InLeft(t.node, t.ivl, t.maxHigh, t.red, c, t.right), t.left, root, nil)
    ensures Spells(m, InRight(t.node, t.ivl, t.maxHigh, t.red, t.left, c), t.right, root, nil)
  {
    Up(m, InLeft(t.node, t.ivl, t.maxHigh, t.red, c, t.right), t.left, root, nil);
    Up(m, InRight(t.node, t.ivl, t.maxHigh, t.red, t.left, c), t.right, root, nil);
  }

  /** The two children of the node at the position. */
  lemma LookDown(m: Mem, c: Ctx, t: Tree, root: Ref, nil: Ref)
    requires Spells(m, c, t, root, nil) && t.Node?
    ensures m.Has(Head(t.left, nil)) && m.Has(Head(t.right, nil)) && m.Has(t.node)
    ensures m.left[t.node] == Head(t.left, nil) && m.right[t.node] == Head(t.right, nil)
    ensures m.maxHigh[Head(t.left, nil)] == MaxHigh(t.left) && m.maxHigh[Head(t.right, nil)] == MaxHigh(t.right)
    ensures m.red[Head(t.left, nil)] == IsRed(t.left) && m.red[Head(t.right, nil)] == IsRed(t.right)
    ensures m.parent[t.node] == Above(c, root) && t.node != nil && t.node != root
    ensures t.node in m.interval && m.interval[t.node] == t.ivl
  {
    Look(m, c, t, root, nil);
    HeadFields(m, t.left, t.node, root, nil);
    HeadFields(m, t.right, t.node, root, nil);
  }

  /** Nodes that are not part of the tree do not matter. */
  lemma {:induction false} SpellsAgree(m: Mem, m': Mem, c: Ctx, t: Tree, root: Ref, nil: Ref)
    requires Spells(m, c, t, root, nil) && Agree(m, m', CtxRefs(c) + Refs(t)) && Sentinels(m', root, nil)
    requires m'.left[root] == m.left[root]
    ensures Spells(m', c, t, root, nil)
  {
    LinkedAgree(m, m', t, Above(c, root), nil);
    LinkedCtxAgree(m, m', c, Head(t, nil), root, nil);
  }

  /** A fresh node, not yet linked. */
  lemma {:induction false} SpellsWithNew(m: Mem, m': Mem, t: Tree, z: Ref, ivl: Interval, root: Ref, nil: Ref)
    requires Spells(m, Top, t, root, nil) && z !in Refs(t) + {root, nil}
    requires m' == m.(interval := m.interval[z := ivl], maxHigh := m.maxHigh[z := ivl.high], red := m.red[z := false])
    ensures Spells(m', Top, t, root, nil)
  {
    assert forall n :: n != z ==> Same(m, m', n);
    SpellsAgree(m, m', Top, t, root, nil);
  }

  lemma {:induction false} SpellsBeside(m: Mem, m': Mem, t: Tree, z: Ref, root: Ref, nil: Ref)
    requires Spells(m, Top, t, root, nil) && z !in Refs(t) + {root, nil}
    requires m' == m.(left := m.left[z := nil], right := m.right[z := nil])
    ensures Spells(m', Top, t, root, nil)
  {
    assert forall n :: n != z ==> Same(m, m', n);
    SpellsAgree(m, m', Top, t, root, nil);
  }

  /** Hang the new node z into the empty position c. */
  lemma {:induction false} Grafted(m: Mem, m': Mem, c: Ctx, z: Ref, root: Ref, nil: Ref)
    requires Spells(m, c, Leaf, root, nil) && z !in CtxRefs(c) + {root, nil}
    requires z in m.red && z in m.maxHigh && z in m.interval && z in m.left && z in m.right &&
             m.left[z] == m.right[z] == nil
    requires m' == m.(parent := m.parent[z := Above(c, root)],
                      left := Replace(m.left, !c.InRight?, Above(c, root), z),
                      right := Replace(m.right, c.InRight?, Above(c, root), z))
    ensures Spells(m', c, Node(z, m.interval[z], m.maxHigh[z], m.red[z], Leaf, Leaf), root, nil)
  {
    var t := Node(z, m.interval[z], m.maxHigh[z], m.red[z], Leaf, Leaf);
    assert Refs(t) == {z};
    assert !c.Top? ==> c.node in CtxRefs(c);
    assert forall n :: n != z && n != Above(c, root) ==> Same(m, m', n);
    Relinked(m, m', c, nil, z, root, nil);
  }

  // ---------- taking nodes out ----------

  ghost function SplicedMem(m: Mem, p: Ref, isLeft: bool, x: Ref): Mem {
    m.(parent := m.parent[x := p], left := Replace(m.left, isLeft, p, x), right := Replace(m.right, !isLeft, p, x))
  }

  lemma SplicedFrame(m: Mem, p: Ref, isLeft: bool, x: Ref)
    requires m.Has(p) && p != x
    ensures var m' := SplicedMem(m, p, isLeft, x);
      (forall n :: n != p && n != x ==> Same(m, m', n)) &&
      (m.Has(x) && x in m.interval ==> Holds(m', x, m.interval[x], m.maxHigh[x], m.red[x], m.left[x], m.right[x], p)) &&
      (p in m.interval ==> Holds(m', p, m.interval[p], m.maxHigh[p], m.red[p], if isLeft then x else m.left[p],
                                 if isLeft then m.right[p] else x, m.parent[p]))
  {
  }

  lemma SplicedSentinels(m: Mem, p: Ref, isLeft: bool, x: Ref, root: Ref, nil: Ref)
    requires Sentinels(m, root, nil) && p != nil && (isLeft || p != root) && x != root
    ensures var m' := SplicedMem(m, p, isLeft, x);
      Sentinels(m', root, nil) && m'.left[root] == if p == root then x else m.left[root]
  {
  }

  lemma {:induction false} OnlyChild(m: Mem, c: Ctx, t: Tree, k: Tree, root: Ref, nil: Ref)
    requires Spells(m, c, t, root, nil) && OnlyBelow(t, k)
    ensures Refs(k) <= Refs(t) && t.node !in Refs(k) && Distinct(k) && Linked(m, k, t.node, nil) &&
            Head(k, nil) !in CtxRefs(c)
    ensures k.Node? ==> k.node in Refs(k)
  {
  }

  /** The node at the position has at most one child; let that child take its place. */
  lemma Spliced(m: Mem, m': Mem, c: Ctx, t: Tree, k: Tree, root: Ref, nil: Ref)
    requires Spells(m, c, t, root, nil) && OnlyBelow(t, k)
    requires m' == SplicedMem(m, Above(c, root), !c.InRight?, Head(k, nil))
    ensures Spells(m', c, k, root, nil)
  {
    hide SplicedMem, Same, Refs, CtxRefs, Distinct;
    var p := Above(c, root);
    SwappedApart(m, c, t, root, nil);
    OnlyChild(m, c, t, k, root, nil);
    assert p == root <==> c.Top?;
    SplicedFrame(m, p, !c.InRight?, Head(k, nil));
    SplicedSentinels(m, p, !c.InRight?, Head(k, nil), root, nil);
    assert Agree(m, m', CtxRefs(c) - {p}) && Agree(m, m', Refs(k) - {Head(k, nil)});
    Reparented(m, m', k, t.node, p, nil);
    Relinked(m, m', c, t.node, Head(k, nil), root, nil);
  }

  /** y gets x's place below p and x's children l and r. */
  ghost function TookOver(m: Mem, y: Ref, p: Ref, isLeft: bool, l: Ref, r: Ref): Mem {
    m.(maxHigh := m.maxHigh[y := NIL_HIGH], parent := m.parent[y := p][r := y][l := y],
       left := Replace(m.left[y := l], isLeft, p, y), right := Replace(m.right[y := r], !isLeft, p, y))
  }

  lemma TookOverFrame(m: Mem, y: Ref, p: Ref, isLeft: bool, l: Ref, r: Ref)
    requires p != y && l != y && r != y && m.Has(p)
    ensures var m' := TookOver(m, y, p, isLeft, l, r);
      (forall n :: n != p && n != y && n != l && n != r ==> Same(m, m', n)) &&
      (forall n :: (n == l || n == r) && n != p && m.Has(n) && n in m.interval ==>
         Holds(m', n, m.interval[n], m.maxHigh[n], m.red[n], m.left[n], m.right[n], y)) &&
      (p != l && p != r && p in m.interval ==>
         Holds(m', p, m.interval[p], m.maxHigh[p], m.red[p], if isLeft then y else m.left[p],
               if isLeft then m.right[p] else y, m.parent[p])) &&
      (y in m.red && y in m.interval ==> Holds(m', y, m.interval[y], NIL_HIGH, m.red[y], l, r, p))
  {
  }

  lemma {:induction false} SwappedApart(m: Mem, c: Ctx, t: Tree, root: Ref, nil: Ref)
    requires Spells(m, c, t, root, nil) && t.Node?
    ensures Above(c, root) !in Refs(t) && Above(c, root) != nil && m.Has(Above(c, root))
    ensures Linked(m, t.left, t.node, nil) && Linked(m, t.right, t.node, nil) && nil !in Refs(t) && nil !in CtxRefs(c)
    ensures Refs(t.left) !! Refs(t.right) && Refs(t.left) + Refs(t.right) <= Refs(t) && Distinct(t.left) &&
            Distinct(t.right)
    ensures t.left.Node? ==> t.left.node in Refs(t.left)
    ensures t.right.Node? ==> t.right.node in Refs(t.right)
  {
    assert !c.Top? ==> c.node in CtxRefs(c);
  }

  lemma {:induction false} SwappedChild(m: Mem, m': Mem, k: Tree, x: Ref, y: Ref, nil: Ref)
    requires Linked(m, k, x, nil) && Distinct(k)
    requires k.Node? && m.Has(k.node) && k.node in m.interval ==>
      Holds(m', k.node, m.interval[k.node], m.maxHigh[k.node], m.red[k.node], m.left[k.node], m.right[k.node], y)
    requires forall n :: n in Refs(k) && n != Head(k, nil) ==> Same(m, m', n)
    ensures Linked(m', k, y, nil)
  {
    Reparented(m, m', k, x, y, nil);
  }

  lemma {:induction false} SwappedChildren(m: Mem, c: Ctx, t: Tree, y: Ref, root: Ref, nil: Ref)
    requires Spells(m, c, t, root, nil) && t.Node? && y !in CtxRefs(c) + Refs(t) + {root, nil}
    requires y in m.red && y in m.interval
    ensures var m' := TookOver(m, y, Above(c, root), !c.InRight?, Head(t.left, nil), Head(t.right, nil));
      Linked(m', t.left, y, nil) && Linked(m', t.right, y, nil)
  {
    var p, l, r := Above(c, root), Head(t.left, nil), Head(t.right, nil);
    SwappedApart(m, c, t, root, nil);
    TookOverFrame(m, y, p, !c.InRight?, l, r);
    var m' := TookOver(m, y, p, !c.InRight?, l, r);
    hide Spells, TookOver, Refs, CtxRefs, Same, Holds, Linked, Distinct;
    SwappedChild(m, m', t.left, t.node, y, nil);
    SwappedChild(m, m', t.right, t.node, y, nil);
  }

  lemma TookOverSentinels(m: Mem, y: Ref, p: Ref, isLeft: bool, l: Ref, r: Ref, root: Ref, nil: Ref)
    requires Sentinels(m, root, nil) && y != root && y != nil && p != nil && (isLeft || p != root)
    ensures var m' := TookOver(m, y, p, isLeft, l, r);
      Sentinels(m', root, nil) && m'.left[root] == if p == root then y else m.left[root]
  {
  }

  lemma {:induction false} SwappedSentinels(m: Mem, c: Ctx, t: Tree, y: Ref, root: Ref, nil: Ref)
    requires Spells(m, c, t, root, nil) && t.Node? && y !in CtxRefs(c) + Refs(t) + {root, nil}
    requires y in m.red && y in m.interval
    ensures var m' := TookOver(m, y, Above(c, root), !c.InRight?, Head(t.left, nil), Head(t.right, nil));
      Sentinels(m', root, nil) && m'.left[root] == TopMost(c, y)
  {
    SwappedApart(m, c, t, root, nil);
    assert Above(c, root) == root <==> c.Top?;
    TookOverSentinels(m, y, Above(c, root), !c.InRight?, Head(t.left, nil), Head(t.right, nil), root, nil);
    hide TookOver, Linked, LinkedCtx, Refs, CtxRefs, Distinct, CtxDistinct;
  }

  lemma {:induction false} SwappedAgree(m: Mem, c: Ctx, t: Tree, y: Ref, root: Ref, nil: Ref)
    requires Spells(m, c, t, root, nil) && t.Node? && y !in CtxRefs(c) + Refs(t) + {root, nil}
    ensures var p := Above(c, root);
      Agree(m, TookOver(m, y, p, !c.InRight?, Head(t.left, nil), Head(t.right, nil)), CtxRefs(c) - {p}) &&
      p != Head(t.left, nil) && p != Head(t.right, nil)
  {
    var p, l, r := Above(c, root), Head(t.left, nil), Head(t.right, nil);
    SwappedApart(m, c, t, root, nil);
    TookOverFrame(m, y, p, !c.InRight?, l, r);
    assert l !in CtxRefs(c) && r !in CtxRefs(c) && y !in CtxRefs(c);
    hide Spells, TookOver, Refs, CtxRefs, Same;
  }

  lemma {:induction false} SwappedAbove(m: Mem, c: Ctx, t: Tree, y: Ref, root: Ref, nil: Ref)
    requires Spells(m, c, t, root, nil) && t.Node? && y !in CtxRefs(c) + Refs(t) + {root, nil}
    requires y in m.red && y in m.interval
    ensures var m' := TookOver(m, y, Above(c, root), !c.InRight?, Head(t.left, nil), Head(t.right, nil));
      LinkedCtx(m', c, y, root, nil)
  {
    var p, l, r := Above(c, root), Head(t.left, nil), Head(t.right, nil);
    SwappedApart(m, c, t, root, nil);
    TookOverFrame(m, y, p, !c.InRight?, l, r);
    var m' := TookOver(m, y, p, !c.InRight?, l, r);
    SwappedAgree(m, c, t, y, root, nil);
    hide Same, TookOver, Refs, CtxRefs, Distinct, Linked;
    Relinked(m, m', c, t.node, y, root, nil);
  }

  lemma {:induction false} SwappedRefs(c: Ctx, t: Tree, u: Tree)
    requires t.Node? && u.Node? && u.left == t.left && u.right == t.right
    requires Distinct(t) && CtxRefs(c) !! Refs(t) && u.node !in CtxRefs(c) + Refs(t)
    ensures Refs(u) == Refs(t) - {t.node} + {u.node} && Distinct(u) && CtxRefs(c) !! Refs(u)
  {
  }

  /** Node y, not in the tree, takes the place of the node at the position, children and all. */
  lemma {:induction false} Swapped(m: Mem, m': Mem, c: Ctx, t: Tree, y: Ref, root: Ref, nil: Ref)
    requires Spells(m, c, t, root, nil) && t.Node? && y !in CtxRefs(c) + Refs(t) + {root, nil}
    requires y in m.red && y in m.interval
    requires m' == TookOver(m, y, Above(c, root), !c.InRight?, Head(t.left, nil), Head(t.right, nil))
    ensures Spells(m', c, Node(y, m.interval[y], NIL_HIGH, m.red[y], t.left, t.right), root, nil)
  {
    var u := Node(y, m.interval[y], NIL_HIGH, m.red[y], t.left, t.right);
    SwappedChildren(m, c, t, y, root, nil);
    SwappedAbove(m, c, t, y, root, nil);
    SwappedSentinels(m, c, t, y, root, nil);
    SwappedApart(m, c, t, root, nil);
    TookOverFrame(m, y, Above(c, root), !c.InRight?, Head(t.left, nil), Head(t.right, nil));
    SwappedRefs(c, t, u);
    hide TookOver, Same, Refs, CtxRefs, Distinct, CtxDistinct, LinkedCtx, TopMost;
  }

  // ---------- freeing a node ----------

  lemma {:induction false} SpellsWithout(m: Mem, m': Mem, c: Ctx, t: Tree, z: Ref, root: Ref, nil: Ref)
    requires Spells(m, c, t, root, nil) && z !in CtxRefs(c) + Refs(t) + {root, nil}
    requires m' == Mem(m.left - {z}, m.right - {z}, m.parent - {z}, m.red - {z}, m.maxHigh - {z}, m.interval - {z})
    ensures Spells(m', c, t, root, nil)
  {
    assert forall n :: n != z ==> Same(m, m', n);
    SpellsAgree(m, m', c, t, root, nil);
  }

  /** The position holds the topmost node only at the top. */
  lemma OnlyAtTop(m: Mem, c: Ctx, t: Tree, root: Ref, nil: Ref)
    requires Spells(m, c, t, root, nil)
    ensures m.left[root] == Head(t, nil) <==> c.Top?
  {
    TopMostRefs(c, Head(t, nil));
    assert t.Node? ==> t.node in Refs(t);
  }

  lemma {:induction false} TopMostRefs(c: Ctx, child: Ref)
    ensures !c.Top? ==> TopMost(c, child) in CtxRefs(c)
  {
    if !c.Top? { TopMostRefs(c.up, c.node); }
  }

  lemma {:induction false} RefreshAbove(c: Ctx, m: int, root: Ref)
    ensures Above(Refresh(c, m), root) == Above(c, root)
  {
  }

  lemma {:induction false} ComposeAbove(d: Ctx, c: Ctx, root: Ref)
    ensures Above(Compose(d, c), root) == if d.Top? then Above(c, root) else d.node
  {
  }
}
