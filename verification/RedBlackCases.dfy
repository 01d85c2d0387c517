/** What the steps of insertion and removal do to the tree that the nodes stand for: its order, its colours and the
    cells that hold it. */
module RedBlackCases {
  import opened RedBlackShapes

  ghost predicate SortedBy(key: Ptr -> int, s: seq<Ptr>) {
    forall i, j :: 0 <= i < j < |s| ==> key(s[i]) < key(s[j])
  }

  ghost predicate InsertedAt(s: seq<Ptr>, s': seq<Ptr>, n: Ptr, i: nat) {
    i <= |s| && s' == s[..i] + [n] + s[i..]
  }

  ghost predicate RemovedAt(s: seq<Ptr>, s': seq<Ptr>, n: Ptr, i: nat) {
    i < |s| && s[i] == n && s' == s[..i] + s[i + 1..]
  }

  /** A red node was put where black heights already fit; it may still hang under a red one. */
  ghost predicate Pending(ctx: Context, t: Tree) {
    t.Node? && t.red && Balanced(t) && NoRedUnderRed(t) && ContextOk(ctx, BlackHeight(t))
  }

  /** The subtree in focus is one black node short. */
  ghost predicate Short(ctx: Context, t: Tree) {
    && Balanced(t) && ContextOk(ctx, BlackHeight(t) + 1)
    && (t.Node? ==> NoRedUnderRed(t.left) && NoRedUnderRed(t.right)) && (Black(t) ==> NoRedUnderRed(t))
  }

  ghost function Depth(ctx: Context): nat {
    if ctx.Top? then 0 else 1 + Depth(ctx.up)
  }

  /** Nodes x and y and the subtrees a, b and c around them are all different nodes. */
  ghost predicate AllApart(ctx: Context, x: Ptr, y: Ptr, a: Tree, b: Tree, c: Tree) {
    && x != y && x != NULL && y != NULL && Apart(a) && Apart(b) && Apart(c) && ContextApart(ctx)
    && {x, y} !! Ids(a) !! Ids(b) !! Ids(c) !! ContextIds(ctx)
  }

  ghost predicate Pieces(m: Cells, ctx: Context, x: Ptr, y: Ptr, hole: Ptr,
                         a: Tree, pa: Ptr, b: Tree, pb: Ptr, c: Tree, pc: Ptr) {
    && x in m && y in m && Around(m, ctx, hole) && Shape(m, a, pa) && Shape(m, b, pb) && Shape(m, c, pc)
  }

  lemma Parts(m: Cells, s: Side, id: Ptr, red: bool, near: Tree, far: Tree, parent: Ptr)
    ensures Shape(m, Mk(s, id, red, near, far), parent)
        <==> id in m && m[id] == CellOf(s, Id(near), Id(far), parent, red) && Shape(m, near, id) && Shape(m, far, id)
    ensures Ids(Mk(s, id, red, near, far)) == {id} + Ids(near) + Ids(far)
    ensures Apart(Mk(s, id, red, near, far))
        <==> id != NULL && {id} !! Ids(near) !! Ids(far) && Apart(near) && Apart(far)
  {
  }

  lemma Unpack(m: Cells, root: Ptr, ctx: Context, s: Side, x: Ptr, rx: bool, y: Ptr, ry: bool, a: Tree, b: Tree, c: Tree)
    requires Located(m, root, ctx, Mk(s, x, rx, a, Mk(s, y, ry, b, c)))
    ensures AllApart(ctx, x, y, a, b, c) && Pieces(m, ctx, x, y, x, a, x, b, y, c, y) && root == RootId(ctx, x)
    ensures m[x] == CellOf(s, Id(a), y, ParentOf(ctx), rx) && m[y] == CellOf(s, Id(b), Id(c), x, ry)
  {
    Parts(m, s, x, rx, a, Mk(s, y, ry, b, c), ParentOf(ctx));
    Parts(m, s, y, ry, b, c, x);
  }

  lemma Pack(m: Cells, root: Ptr, ctx: Context, s: Side, x: Ptr, rx: bool, y: Ptr, ry: bool, a: Tree, b: Tree, c: Tree)
    requires AllApart(ctx, x, y, a, b, c) && Pieces(m, ctx, x, y, y, a, x, b, x, c, y) && root == RootId(ctx, y)
    requires m[y] == CellOf(s, x, Id(c), ParentOf(ctx), ry) && m[x] == CellOf(s, Id(a), Id(b), y, rx)
    ensures Located(m, root, ctx, Mk(s, y, ry, Mk(s, x, rx, a, b), c))
  {
    Parts(m, s, y, ry, Mk(s, x, rx, a, b), c, ParentOf(ctx));
    Parts(m, s, x, rx, a, b, y);
  }

  ghost function Touched(ctx: Context, x: Ptr, y: Ptr, b: Tree): set<Ptr> {
    {x, y} + (if b.Node? then {b.id} else {}) + (if ctx.Under? then {ctx.id} else {})
  }

  /** The cells after a rotation. */
  ghost predicate Rotated(m: Cells, d: Cells, ctx: Context, s: Side, x: Ptr, y: Ptr, b: Tree) {
    && x in m && y in m && x in d && y in d && Rehung(m, d, ctx, y)
    && d[x] == SetKid(m[x], Opposite(s), Id(b)).(parent := y)
    && d[y] == SetKid(m[y], s, x).(parent := ParentOf(ctx))
    && (b.Node? ==> b.id in m && b.id in d && d[b.id] == m[b.id].(parent := x))
    && forall n :: n in m && n !in Touched(ctx, x, y, b) ==> n in d && d[n] == m[n]
  }

  lemma RotatedIsLocated(m: Cells, d: Cells, root: Ptr, root': Ptr, ctx: Context,
                         s: Side, x: Ptr, rx: bool, y: Ptr, ry: bool, a: Tree, b: Tree, c: Tree)
    requires Located(m, root, ctx, Mk(s, x, rx, a, Mk(s, y, ry, b, c)))
    requires Rotated(m, d, ctx, s, x, y, b) && root' == if ctx.Top? then y else root
    ensures Located(d, root', ctx, Mk(s, y, ry, Mk(s, x, rx, a, b), c))
  {
    Unpack(m, root, ctx, s, x, rx, y, ry, a, b, c);
    assert Ids(a) !! Touched(ctx, x, y, b) && Ids(c) !! Touched(ctx, x, y, b);
    assert (Ids(b) - {Id(b)}) !! Touched(ctx, x, y, b);
    assert (ContextIds(ctx) - {ParentOf(ctx)}) !! Touched(ctx, x, y, b);
    AroundRehung(m, d, ctx, x, y);
    ShapeKept(m, d, a, x);
    ShapeReparented(m, d, b, y, x);
    ShapeKept(m, d, c, y);
    Pack(d, root', ctx, s, x, rx, y, ry, a, b, c);
  }

  /** The slot in which the subtree in focus hangs. */
  ghost predicate InSlot(m: Cells, ctx: Context, n: Ptr) {
    ctx.Under? ==>
      && ctx.id in m && ctx.id != NULL && ctx.id != n
      && Kid(m[ctx.id], ctx.side) == n && Kid(m[ctx.id], Opposite(ctx.side)) != n
  }

  /** What a rotation needs to know of the pointers it follows. */
  ghost predicate CanRotate(m: Cells, ctx: Context, s: Side, x: Ptr, y: Ptr, b: Ptr) {
    && x in m && y in m && x != y && InSlot(m, ctx, x) && ParentOf(ctx) !in {x, y}
    && Kid(m[x], Opposite(s)) == y && m[x].parent == ParentOf(ctx) && Kid(m[y], s) == b
    && (b != NULL ==> b in m && b !in {x, y, ParentOf(ctx)})
  }

  lemma LocatedCanRotate(m: Cells, root: Ptr, ctx: Context,
                         s: Side, x: Ptr, rx: bool, y: Ptr, ry: bool, a: Tree, b: Tree, c: Tree)
    requires Located(m, root, ctx, Mk(s, x, rx, a, Mk(s, y, ry, b, c)))
    ensures CanRotate(m, ctx, s, x, y, Id(b)) && (b.Node? ==> b.id != NULL)
  {
    Unpack(m, root, ctx, s, x, rx, y, ry, a, b, c);
  }

  // ---------- Searching, on trees ----------

  /** A key belongs in the place of the subtree in focus. */
  ghost predicate Between(key: Ptr -> int, k: int, ctx: Context) {
    (forall n :: n in Before(ctx) ==> key(n) < k) && (forall n :: n in After(ctx) ==> k < key(n))
  }

  lemma DescendLeft(key: Ptr -> int, k: int, ctx: Context, t: Tree)
    requires t.Node? && SortedBy(key, Whole(ctx, t)) && Between(key, k, ctx) && k < key(t.id)
    ensures Between(key, k, Under(Left, t.id, t.red, t.right, ctx))
  {
    var w, b := Whole(ctx, t), |Before(ctx) + Inorder(t.left)|;
    assert w == Before(ctx) + Inorder(t.left) + [t.id] + Inorder(t.right) + After(ctx);
    assert w[b] == t.id;
    forall n | n in Inorder(t.right) ensures key(t.id) < key(n) {
      var i :| 0 <= i < |Inorder(t.right)| && Inorder(t.right)[i] == n;
      assert w[b + 1 + i] == n;
    }
  }

  lemma DescendRight(key: Ptr -> int, k: int, ctx: Context, t: Tree)
    requires t.Node? && SortedBy(key, Whole(ctx, t)) && Between(key, k, ctx) && key(t.id) < k
    ensures Between(key, k, Under(Right, t.id, t.red, t.left, ctx))
  {
    var w, b := Whole(ctx, t), |Before(ctx) + Inorder(t.left)|;
    assert w == Before(ctx) + Inorder(t.left) + [t.id] + Inorder(t.right) + After(ctx);
    assert w[b] == t.id;
    forall n | n in Inorder(t.left) ensures key(n) < key(t.id) {
      var i :| 0 <= i < |Inorder(t.left)| && Inorder(t.left)[i] == n;
      assert w[|Before(ctx)| + i] == n;
    }
  }

  /** Putting a node where its key belongs keeps the order. */
  lemma PutIn(key: Ptr -> int, n: Ptr, b: seq<Ptr>, a: seq<Ptr>, s: seq<Ptr>, s': seq<Ptr>)
    requires s == b + a && s' == b + [n] + a && SortedBy(key, s)
    requires (forall m :: m in b ==> key(m) < key(n)) && (forall m :: m in a ==> key(n) < key(m))
    ensures SortedBy(key, s') && InsertedAt(s, s', n, |b|) && forall m :: m in s ==> key(m) != key(n)
  {
    forall i, j | 0 <= i < j < |s'| ensures key(s'[i]) < key(s'[j]) {
      var i', j' := if i < |b| then i else i - 1, if j < |b| then j else j - 1;
      assert i != |b| ==> s'[i] == s[i'];
      assert j != |b| ==> s'[j] == s[j'];
    }
  }

  /** In order, a node whose key is at least k and before which all keys are below k is the least such. */
  lemma LeastFrom(key: Ptr -> int, k: int, b: seq<Ptr>, n: Ptr, a: seq<Ptr>, s: seq<Ptr>)
    requires s == b + [n] + a && SortedBy(key, s) && (key(n) == k || (k < key(n) && forall m :: m in b ==> key(m) < k))
    ensures IsLeastFrom(key, k, n, s)
  {
    assert s[|b|] == n;
    assert forall j :: 0 <= j < |b| ==> s[j] == b[j] && key(s[j]) < k;
  }

  ghost predicate IsLeastFrom(key: Ptr -> int, k: int, n: Ptr, s: seq<Ptr>) {
    n in s && key(n) >= k && forall m :: m in s && key(m) >= k ==> key(n) <= key(m)
  }

  lemma FirstAfter(key: Ptr -> int, k: int, ctx: Context, s: seq<Ptr>)
    requires s == Whole(ctx, Nil) && SortedBy(key, s) && Between(key, k, ctx)
    ensures After(ctx) != [] ==> After(ctx)[0] in s && IsLeastFrom(key, k, After(ctx)[0], s)
    ensures After(ctx) == [] ==> forall n :: n in s ==> key(n) < k
  {
    var a := After(ctx);
    WholeOfLeaf(ctx, NULL);
    if a != [] {
      assert s == Before(ctx) + [a[0]] + a[1..];
      LeastFrom(key, k, Before(ctx), a[0], a[1..], s);
    }
  }

  lemma WholeOfLeaf(ctx: Context, n: Ptr)
    ensures Whole(ctx, Nil) == Before(ctx) + After(ctx)
    ensures Whole(ctx, Node(n, true, Nil, Nil)) == Before(ctx) + [n] + After(ctx)
  {
  }

  lemma OnlyPlace(key: Ptr -> int, s: seq<Ptr>, i: nat, j: nat)
    requires SortedBy(key, s) && i < |s| && j < |s| && s[i] == s[j]
    ensures i == j
  {
  }

  lemma LeftOut(key: Ptr -> int, n: Ptr, b: seq<Ptr>, a: seq<Ptr>, s: seq<Ptr>, s': seq<Ptr>)
    requires s == b + [n] + a && s' == b + a && SortedBy(key, s)
    ensures SortedBy(key, s') && RemovedAt(s, s', n, |b|)
  {
    forall i, j | 0 <= i < j < |b + a| ensures key((b + a)[i]) < key((b + a)[j]) {
      var i', j' := if i < |b| then i else i + 1, if j < |b| then j else j + 1;
      assert s[i'] == (b + a)[i] && s[j'] == (b + a)[j];
    }
  }

  lemma {:induction false} NotAround(ctx: Context, n: Ptr)
    requires n !in Before(ctx) + After(ctx)
    ensures n !in ContextIds(ctx)
  {
    if ctx.Under? {
      InorderIds(ctx.other, n);
      assert ctx.side.Left? ==> After(ctx) == [ctx.id] + (Inorder(ctx.other) + After(ctx.up));
      NotAround(ctx.up, n);
    }
  }

  // ---------- Insertion, on trees ----------

  lemma Colours(s: Side, id: Ptr, red: bool, near: Tree, far: Tree)
    ensures Balanced(Mk(s, id, red, near, far)) <==> Balanced(near) && Balanced(far) && BlackHeight(near) == BlackHeight(far)
    ensures BlackHeight(near) == BlackHeight(far) ==>
              BlackHeight(Mk(s, id, red, near, far)) == BlackHeight(near) + if red then 0 else 1
    ensures NoRedUnderRed(Mk(s, id, red, near, far))
        <==> NoRedUnderRed(near) && NoRedUnderRed(far) && (red ==> Black(near) && Black(far))
  {
  }

  /** A red uncle: the red nodes move one level up and the problem two levels. */
  lemma PendingMovesUp(s0: Side, p: Ptr, o: Tree, s1: Side, g: Ptr, u: Tree, up: Context, t: Tree)
    requires u.Node? && u.red && Pending(Under(s0, p, true, o, Under(s1, g, false, u, up)), t)
    ensures Pending(up, Mk(s1, g, true, Mk(s0, p, false, t, o), u.(red := false)))
    ensures Whole(up, Mk(s1, g, true, Mk(s0, p, false, t, o), u.(red := false)))
         == Whole(Under(s0, p, true, o, Under(s1, g, false, u, up)), t)
  {
    assert ContextOk(Under(s1, g, false, u, up), BlackHeight(t));
    Colours(s0, p, false, t, o);
    Colours(s1, g, true, Mk(s0, p, false, t, o), u.(red := false));
    WholeUp(Under(s0, p, true, o, Under(s1, g, false, u, up)), t);
    WholeUp(Under(s1, g, false, u, up), Mk(s0, p, true, t, o));
    assert Inorder(Mk(s0, p, false, t, o)) == Inorder(Mk(s0, p, true, t, o));
    assert Inorder(u.(red := false)) == Inorder(u);
  }

  /** A black uncle and a child on the inner side: rotating the parent brings it to the outer side. */
  lemma PendingStraightened(s: Side, p: Ptr, o: Tree, up: Context, e: Ptr, b: Tree, c: Tree)
    requires Pending(Under(Opposite(s), p, true, o, up), Mk(s, e, true, b, c))
    ensures Pending(Under(s, e, true, c, up), Mk(s, p, true, o, b))
    ensures Whole(Under(s, e, true, c, up), Mk(s, p, true, o, b))
         == Whole(Under(Opposite(s), p, true, o, up), Mk(s, e, true, b, c))
  {
    WholeUp(Under(s, e, true, c, up), Mk(s, p, true, o, b));
    WholeUp(Under(Opposite(s), p, true, o, up), Mk(s, e, true, b, c));
    Flip(s, p, true, o, Mk(s, e, true, b, c));
    RotationKeepsOrder(s, p, true, e, true, o, b, c);
  }

  /** A black uncle and a child on the outer side: rotating the grandparent ends the matter. */
  lemma PendingSettled(s: Side, p: Ptr, o: Tree, g: Ptr, u: Tree, up: Context, t: Tree)
    requires Black(u) && Pending(Under(s, p, true, o, Under(s, g, false, u, up)), t)
    ensures Pending(Under(s, p, false, Mk(s, g, true, o, u), up), t)
    ensures Whole(Under(s, p, false, Mk(s, g, true, o, u), up), t)
         == Whole(Under(s, p, true, o, Under(s, g, false, u, up)), t)
  {
    assert ContextOk(Under(s, g, false, u, up), BlackHeight(t));
    Colours(s, g, true, o, u);
    WholeUp(Under(s, p, true, o, Under(s, g, false, u, up)), t);
    WholeUp(Under(s, g, false, u, up), Mk(s, p, true, t, o));
    WholeUp(Under(s, p, false, Mk(s, g, true, o, u), up), t);
    RotationKeepsOrder(Opposite(s), g, false, p, true, u, o, t);
    Flip(s, p, true, t, o);
    Flip(s, g, false, Mk(s, p, true, t, o), u);
    Flip(s, g, false, o, u);
    Flip(s, p, true, t, Mk(s, g, false, o, u));
    assert Inorder(Mk(s, g, false, o, u)) == Inorder(Mk(s, g, true, o, u));
    assert Inorder(Mk(s, p, false, t, Mk(s, g, true, o, u))) == Inorder(Mk(s, p, true, t, Mk(s, g, false, o, u)));
  }

  // ---------- Removal, on trees ----------

  /** A red sibling: rotating the parent gives the short subtree a black sibling. */
  lemma ShortGetsBlackSibling(s: Side, p: Ptr, w: Ptr, near: Tree, far: Tree, up: Context, t: Tree)
    requires Black(t) && Short(Under(s, p, false, Mk(s, w, true, near, far), up), t)
    ensures Short(Under(s, p, true, near, Under(s, w, false, far, up)), t) && Black(near) && near.Node?
    ensures Whole(Under(s, p, true, near, Under(s, w, false, far, up)), t)
         == Whole(Under(s, p, false, Mk(s, w, true, near, far), up), t)
  {
    Colours(s, w, true, near, far);
    WholeUp(Under(s, p, false, Mk(s, w, true, near, far), up), t);
    WholeUp(Under(s, p, true, near, Under(s, w, false, far, up)), t);
    WholeUp(Under(s, w, false, far, up), Mk(s, p, true, t, near));
    RotationKeepsOrder(s, p, false, w, true, t, near, far);
    assert Inorder(Mk(s, p, true, t, near)) == Inorder(Mk(s, p, false, t, near));
    assert Inorder(Mk(s, w, false, Mk(s, p, true, t, near), far)) == Inorder(Mk(s, w, true, Mk(s, p, false, t, near), far));
  }

  /** A black sibling with no red child turns red: the parent's subtree is short now. */
  lemma ShortMovesUp(s: Side, p: Ptr, red: bool, other: Tree, up: Context, t: Tree)
    requires Black(t) && Short(Under(s, p, red, other, up), t)
    requires other.Node? && !other.red && Black(other.left) && Black(other.right)
    ensures Short(up, Mk(s, p, red, t, other.(red := true)))
    ensures Whole(up, Mk(s, p, red, t, other.(red := true))) == Whole(Under(s, p, red, other, up), t)
  {
    WholeUp(Under(s, p, red, other, up), t);
    Colours(s, p, red, t, other.(red := true));
    assert Inorder(other.(red := true)) == Inorder(other);
    assert NoRedUnderRed(other.(red := true));
  }

  /** A black sibling whose only red child is the near one: rotating the sibling puts a red node on the far side. */
  lemma ShortTurned(s: Side, p: Ptr, red: bool, w: Ptr, n: Ptr, b: Tree, c: Tree, far: Tree, up: Context, t: Tree)
    requires Short(Under(s, p, red, Mk(s, w, false, Mk(s, n, true, b, c), far), up), t) && Black(far)
    ensures Short(Under(s, p, red, Mk(s, n, false, b, Mk(s, w, true, c, far)), up), t)
    ensures Whole(Under(s, p, red, Mk(s, n, false, b, Mk(s, w, true, c, far)), up), t)
         == Whole(Under(s, p, red, Mk(s, w, false, Mk(s, n, true, b, c), far), up), t)
  {
    Colours(s, n, true, b, c);
    Colours(s, w, false, Mk(s, n, true, b, c), far);
    Colours(s, w, true, c, far);
    Colours(s, n, false, b, Mk(s, w, true, c, far));
    RotationKeepsOrder(s, n, false, w, true, b, c, far);
    assert Inorder(Mk(s, w, true, Mk(s, n, false, b, c), far)) == Inorder(Mk(s, w, false, Mk(s, n, true, b, c), far)) by {
      assert Inorder(Mk(s, n, false, b, c)) == Inorder(Mk(s, n, true, b, c));
    }
  }

  /** A black sibling with a red far child: rotating the parent makes up for the missing black node. */
  lemma ShortSettled(s: Side, p: Ptr, red: bool, w: Ptr, near: Tree, far: Tree, up: Context, t: Tree)
    requires Black(t) && Short(Under(s, p, red, Mk(s, w, false, near, far), up), t) && far.Node? && far.red
    ensures FocusOk(up, Mk(s, w, red, Mk(s, p, false, t, near), far.(red := false)))
    ensures Whole(up, Mk(s, w, red, Mk(s, p, false, t, near), far.(red := false)))
         == Whole(Under(s, p, red, Mk(s, w, false, near, far), up), t)
  {
    Colours(s, w, false, near, far);
    Colours(s, p, false, t, near);
    Colours(s, w, red, Mk(s, p, false, t, near), far.(red := false));
    WholeUp(Under(s, p, red, Mk(s, w, false, near, far), up), t);
    RotationKeepsOrder(s, p, red, w, false, t, near, far);
    assert Inorder(Mk(s, p, false, t, near)) == Inorder(Mk(s, p, red, t, near));
    assert Inorder(far.(red := false)) == Inorder(far);
    assert Inorder(Mk(s, w, red, Mk(s, p, false, t, near), far.(red := false)))
        == Inorder(Mk(s, w, false, Mk(s, p, red, t, near), far));
  }

  /** The sibling of a short subtree is there, and its colours are what its cells say. */
  lemma SiblingCells(m: Cells, root: Ptr, ctx: Context, t: Tree)
    requires ctx.Under? && Located(m, root, ctx, t) && Short(ctx, t)
    ensures ctx.other.Node? && ctx.other.id in m && ctx.other.id != NULL && m[ctx.other.id].red == ctx.other.red
    ensures m[ctx.other.id].left == Id(ctx.other.left) && m[ctx.other.id].right == Id(ctx.other.right)
    ensures KnownColor(m, ctx.other.left) && KnownColor(m, ctx.other.right)
  {
    var o := ctx.other;
    assert Shape(m, o.left, o.id) && Shape(m, o.right, o.id) && Apart(o.left) && Apart(o.right);
  }

  ghost predicate KnownColor(m: Cells, t: Tree) {
    t.Node? ==> t.id != NULL && t.id in m && m[t.id].red == t.red
  }

  /** Colouring the short subtree's red root black adds the missing node; at the root nothing is missing. */
  lemma ShortPainted(ctx: Context, t: Tree)
    requires Short(ctx, t) && t.Node? && (ctx.Top? || t.red)
    ensures FocusOk(ctx, t.(red := false))
  {
  }

  /** Taking out a node with one subtree at most: nothing is missing when it was red. */
  lemma SplicedColours(ctx: Context, t: Tree, s: Side)
    requires t.Node? && SubTree(t, s).Nil? && FocusOk(ctx, t)
    ensures if t.red then FocusOk(ctx, SubTree(t, Opposite(s))) else Short(ctx, SubTree(t, Opposite(s)))
  {
    var k := SubTree(t, Opposite(s));
    assert NoRedUnderRed(k) && Balanced(k) && BlackHeight(k) == 0;
  }

  // The way down from a node to the least one of its right subtree: left children only.
  ghost predicate LeftSpine(spine: Context) {
    spine.Under? ==> spine.side.Left? && LeftSpine(spine.up)
  }

  ghost function Join(spine: Context, base: Context): Context {
    if spine.Top? then base else spine.(up := Join(spine.up, base))
  }

  lemma {:induction false} FocusToBase(m: Cells, root: Ptr, spine: Context, base: Context, t: Tree)
    requires Located(m, root, Join(spine, base), t)
    ensures Located(m, root, base, Plug(spine, t))
    decreases spine
  {
    if spine.Under? {
      FocusUp(m, root, Join(spine, base), t);
      FocusToBase(m, root, spine.up, base, Mk(spine.side, spine.id, spine.red, t, spine.other));
    }
  }

  lemma {:induction false} FocusFromBase(m: Cells, root: Ptr, spine: Context, base: Context, t: Tree)
    requires Located(m, root, base, Plug(spine, t))
    ensures Located(m, root, Join(spine, base), t)
    decreases spine
  {
    if spine.Under? {
      FocusFromBase(m, root, spine.up, base, Mk(spine.side, spine.id, spine.red, t, spine.other));
      FocusDown(m, root, Join(spine.up, base), spine.side, spine.id, spine.red, t, spine.other);
    }
  }

  lemma {:induction false} JoinIds(spine: Context, base: Context, t: Tree)
    ensures ContextIds(Join(spine, base)) == ContextIds(spine) + ContextIds(base)
    ensures Ids(Plug(spine, t)) == ContextIds(spine) + Ids(t)
    decreases spine
  {
    if spine.Under? {
      JoinIds(spine.up, base, Mk(spine.side, spine.id, spine.red, t, spine.other));
    }
  }

  lemma {:induction false} JoinOrder(spine: Context, base: Context)
    requires LeftSpine(spine)
    ensures Before(Join(spine, base)) == Before(base) && After(Join(spine, base)) == After(spine) + After(base)
  {
    if spine.Under? {
      JoinOrder(spine.up, base);
    }
  }

  /** The colours do not depend on which node stands at the foot of the spine. */
  lemma {:induction false} JoinColours(spine: Context, base: Context, base': Context, h: nat)
    requires base.Under? && base'.Under? && base' == base.(id := base'.id) && ContextOk(Join(spine, base), h)
    ensures ContextOk(Join(spine, base'), h)
    ensures Join(spine, base).Under? && Join(spine, base').Under? && Join(spine, base').red == Join(spine, base).red
    decreases spine
  {
    if spine.Under? {
      JoinColours(spine.up, base, base', h + if spine.red then 0 else 1);
    }
  }

  lemma SuccessorOrder(ctx: Context, t: Tree, spine: Context, m: Tree, base': Context)
    requires t.Node? && LeftSpine(spine) && m.Node? && m.left.Nil? && Plug(spine, m) == t.right
    requires base' == Under(Right, m.id, t.red, t.left, ctx)
    ensures Inorder(Plug(ctx, t)) == Before(ctx) + Inorder(t.left) + [t.id] + (Inorder(t.right) + After(ctx))
    ensures Whole(Join(spine, base'), m.right) == Before(ctx) + Inorder(t.left) + (Inorder(t.right) + After(ctx))
  {
    var b, l, r, a := Before(ctx), Inorder(t.left), Inorder(t.right), After(ctx);
    WholePlug(ctx, t);
    Regroup(b, l, [t.id], r, a);
    RightSubtreeOrder(spine, m);
    JoinOrder(spine, base');
    RegroupRight(b + l, [m.id], Inorder(m.right), After(spine), a);
  }

  lemma Regroup(b: seq<Ptr>, l: seq<Ptr>, x: seq<Ptr>, r: seq<Ptr>, a: seq<Ptr>)
    ensures b + (l + x + r) + a == b + l + x + (r + a)
  {
  }

  lemma RegroupRight(b: seq<Ptr>, x: seq<Ptr>, k: seq<Ptr>, e: seq<Ptr>, a: seq<Ptr>)
    ensures b + x + k + (e + a) == b + (x + k + e + a)
  {
  }

  lemma RightSubtreeOrder(spine: Context, m: Tree)
    requires LeftSpine(spine) && m.Node? && m.left.Nil?
    ensures Inorder(Plug(spine, m)) == [m.id] + Inorder(m.right) + After(spine)
  {
    WholePlug(spine, m);
    SpineBefore(spine);
    assert Inorder(m) == [m.id] + Inorder(m.right);
  }

  lemma {:induction false} SpineBefore(spine: Context)
    requires LeftSpine(spine)
    ensures Before(spine) == []
  {
    if spine.Under? {
      SpineBefore(spine.up);
    }
  }

  lemma SuccessorColours(ctx: Context, t: Tree, spine: Context, m: Tree, base: Context, base': Context)
    requires t.Node? && m.Node? && m.left.Nil? && Plug(spine, m) == t.right && RedBlack(Plug(ctx, t))
    requires base == Under(Right, t.id, t.red, t.left, ctx) && base' == Under(Right, m.id, t.red, t.left, ctx)
    ensures if m.red then FocusOk(Join(spine, base'), m.right) else Short(Join(spine, base'), m.right)
  {
    PlugJoin(spine, base, m);
    PlugIsRedBlack(Join(spine, base), m);
    SplicedColours(Join(spine, base), m, Left);
    JoinColours(spine, base, base', BlackHeight(m.right) + if m.red then 0 else 1);
  }

  lemma {:induction false} PlugJoin(spine: Context, base: Context, t: Tree)
    ensures Plug(Join(spine, base), t) == Plug(base, Plug(spine, t))
    decreases spine
  {
    if spine.Under? {
      PlugJoin(spine.up, base, Mk(spine.side, spine.id, spine.red, t, spine.other));
    }
  }

  lemma SuccessorApart(ctx: Context, t: Tree, spine: Context, m: Tree, base: Context)
    requires t.Node? && m.Node? && base == Under(Right, t.id, t.red, t.left, ctx)
    requires ContextApart(Join(spine, base)) && Apart(m) && Ids(m) !! ContextIds(Join(spine, base))
    ensures m.id != NULL && m.id !in {t.id} + Ids(t.left) + Ids(Plug(spine, m.right)) + ContextIds(ctx)
    ensures spine.Under? ==> spine.id != t.id
  {
    JoinIds(spine, base, m.right);
    if spine.Under? {
      JoinIds(spine.up, base, m.right);
    }
  }
}
