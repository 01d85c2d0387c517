/** Nodes linked by left, right and parent pointers, and what they stand for: a binary tree with one subtree in focus.
    The mirrored halves of the source share one treatment, parametrised by a side. */
module RedBlackShapes {

  type Ptr = nat
  const NULL: Ptr := 0

  datatype Side = Left | Right

  function Opposite(s: Side): Side {
    if s.Left? then Right else Left
  }

  datatype Cell = Cell(left: Ptr, right: Ptr, parent: Ptr, red: bool)

  function Kid(c: Cell, s: Side): Ptr {
    if s.Left? then c.left else c.right
  }

  function SetKid(c: Cell, s: Side, p: Ptr): Cell {
    if s.Left? then c.(left := p) else c.(right := p)
  }

  type Cells = map<Ptr, Cell>

  datatype Tree = Nil | Node(id: Ptr, red: bool, left: Tree, right: Tree)

  /** A node whose subtree on side `s` is `near`. */
  function Mk(s: Side, id: Ptr, red: bool, near: Tree, far: Tree): Tree {
    if s.Left? then Node(id, red, near, far) else Node(id, red, far, near)
  }

  function Id(t: Tree): Ptr {
    if t.Nil? then NULL else t.id
  }

  function SubTree(t: Tree, s: Side): Tree
    requires t.Node?
  {
    if s.Left? then t.left else t.right
  }

  /** What surrounds a subtree: it hangs on `side` of node `id`, whose other subtree is `other`. */
  datatype Context = Top | Under(side: Side, id: Ptr, red: bool, other: Tree, up: Context)

  function ParentOf(ctx: Context): Ptr {
    if ctx.Top? then NULL else ctx.id
  }

  function Plug(ctx: Context, t: Tree): Tree
    decreases ctx
  {
    if ctx.Top? then t else Plug(ctx.up, Mk(ctx.side, ctx.id, ctx.red, t, ctx.other))
  }

  function RootId(ctx: Context, hole: Ptr): Ptr
    decreases ctx
  {
    if ctx.Top? then hole else RootId(ctx.up, ctx.id)
  }

  ghost function Ids(t: Tree): set<Ptr> {
    if t.Nil? then {} else {t.id} + Ids(t.left) + Ids(t.right)
  }

  ghost function ContextIds(ctx: Context): set<Ptr> {
    if ctx.Top? then {} else {ctx.id} + Ids(ctx.other) + ContextIds(ctx.up)
  }

  /** No node occurs twice. */
  ghost predicate Apart(t: Tree) {
    t.Node? ==>
      && t.id != NULL && t.id !in Ids(t.left) && t.id !in Ids(t.right) && Ids(t.left) !! Ids(t.right)
      && Apart(t.left) && Apart(t.right)
  }

  ghost predicate ContextApart(ctx: Context) {
    ctx.Under? ==>
      && ctx.id != NULL && ctx.id !in Ids(ctx.other) && ctx.id !in ContextIds(ctx.up)
      && Ids(ctx.other) !! ContextIds(ctx.up) && Apart(ctx.other) && ContextApart(ctx.up)
  }

  function CellOf(s: Side, near: Ptr, far: Ptr, parent: Ptr, red: bool): Cell {
    if s.Left? then Cell(near, far, parent, red) else Cell(far, near, parent, red)
  }

  /** The cells hold this tree, hanging from `parent`. */
  ghost predicate Shape(c: Cells, t: Tree, parent: Ptr) {
    t.Node? ==>
      && t.id in c && c[t.id] == Cell(Id(t.left), Id(t.right), parent, t.red)
      && Shape(c, t.left, t.id) && Shape(c, t.right, t.id)
  }

  ghost predicate Around(c: Cells, ctx: Context, hole: Ptr)
    decreases ctx
  {
    ctx.Under? ==>
      && ctx.id in c && c[ctx.id] == CellOf(ctx.side, hole, Id(ctx.other), ParentOf(ctx.up), ctx.red)
      && Shape(c, ctx.other, ctx.id) && Around(c, ctx.up, ctx.id)
  }

  /** The cells under `root` hold the tree `Plug(ctx, t)`. */
  ghost predicate Located(c: Cells, root: Ptr, ctx: Context, t: Tree) {
    && root == RootId(ctx, Id(t)) && Around(c, ctx, Id(t)) && Shape(c, t, ParentOf(ctx))
    && Apart(t) && ContextApart(ctx) && Ids(t) !! ContextIds(ctx)
  }

  // ---------- Moving the focus ----------

  lemma FocusUp(c: Cells, root: Ptr, ctx: Context, t: Tree)
    requires ctx.Under? && Located(c, root, ctx, t)
    ensures Located(c, root, ctx.up, Mk(ctx.side, ctx.id, ctx.red, t, ctx.other))
  {
  }

  lemma FocusDown(c: Cells, root: Ptr, up: Context, s: Side, id: Ptr, red: bool, near: Tree, far: Tree)
    requires Located(c, root, up, Mk(s, id, red, near, far))
    ensures Located(c, root, Under(s, id, red, far, up), near)
  {
  }

  lemma Flip(s: Side, id: Ptr, red: bool, near: Tree, far: Tree)
    ensures Mk(Opposite(s), id, red, far, near) == Mk(s, id, red, near, far)
  {
  }

  lemma {:induction false} FocusTop(c: Cells, root: Ptr, ctx: Context, t: Tree)
    requires Located(c, root, ctx, t)
    ensures Located(c, root, Top, Plug(ctx, t))
    decreases ctx
  {
    if ctx.Under? {
      FocusUp(c, root, ctx, t);
      FocusTop(c, root, ctx.up, Mk(ctx.side, ctx.id, ctx.red, t, ctx.other));
    }
  }

  // ---------- Changing the cells ----------

  ghost predicate Agree(c: Cells, d: Cells, ids: set<Ptr>) {
    forall n :: n in ids && n in c ==> n in d && d[n] == c[n]
  }

  lemma {:induction false} ShapeKept(c: Cells, d: Cells, t: Tree, parent: Ptr)
    requires Shape(c, t, parent) && Agree(c, d, Ids(t))
    ensures Shape(d, t, parent)
  {
    if t.Node? {
      ShapeKept(c, d, t.left, t.id);
      ShapeKept(c, d, t.right, t.id);
    }
  }

  lemma {:induction false} AroundKept(c: Cells, d: Cells, ctx: Context, hole: Ptr)
    requires Around(c, ctx, hole) && Agree(c, d, ContextIds(ctx))
    ensures Around(d, ctx, hole)
    decreases ctx
  {
    if ctx.Under? {
      ShapeKept(c, d, ctx.other, ctx.id);
      AroundKept(c, d, ctx.up, ctx.id);
    }
  }

  /** Giving the subtree in focus another root and parent pointer: the slot above it must name the new root. */
  ghost predicate Rehung(c: Cells, d: Cells, ctx: Context, hole: Ptr) {
    ctx.Under? ==> ctx.id in c && ctx.id in d && d[ctx.id] == SetKid(c[ctx.id], ctx.side, hole)
  }

  lemma AroundRehung(c: Cells, d: Cells, ctx: Context, hole: Ptr, hole': Ptr)
    requires Around(c, ctx, hole) && ContextApart(ctx) && Rehung(c, d, ctx, hole')
    requires Agree(c, d, ContextIds(ctx) - {ParentOf(ctx)})
    ensures Around(d, ctx, hole') && (ctx.Under? ==> RootId(ctx, hole') == RootId(ctx, hole))
  {
    if ctx.Under? {
      ShapeKept(c, d, ctx.other, ctx.id);
      AroundKept(c, d, ctx.up, ctx.id);
    }
  }

  /** A tree is moved under another parent by setting the parent pointer of its root. */
  lemma ShapeReparented(c: Cells, d: Cells, t: Tree, parent: Ptr, parent': Ptr)
    requires Shape(c, t, parent) && Apart(t)
    requires Agree(c, d, Ids(t) - {Id(t)})
    requires t.Node? ==> t.id in d && d[t.id] == c[t.id].(parent := parent')
    ensures Shape(d, t, parent')
  {
    if t.Node? {
      ShapeKept(c, d, t.left, t.id);
      ShapeKept(c, d, t.right, t.id);
    }
  }

  /** A node's neighbours as the cells name them. */
  lemma FocusCells(c: Cells, root: Ptr, ctx: Context, t: Tree)
    requires Located(c, root, ctx, t)
    ensures ctx.Under? ==> ctx.id in c && c[ctx.id] == CellOf(ctx.side, Id(t), Id(ctx.other), ParentOf(ctx.up), ctx.red)
    ensures t.Node? ==> t.id in c && c[t.id] == Cell(Id(t.left), Id(t.right), ParentOf(ctx), t.red)
    ensures ctx.Under? ==> ctx.id != NULL && ctx.id != Id(t) && Id(ctx.other) != ctx.id
    ensures ctx.Under? && Id(t) == Id(ctx.other) ==> t.Nil? && ctx.other.Nil?
    ensures t.Node? ==> t.id != NULL && (t.left.Nil? <==> Id(t.left) == NULL) && (t.right.Nil? <==> Id(t.right) == NULL)
  {
    assert t.Node? ==> Apart(t.left) && Apart(t.right);
  }

  /** The subtree in focus is the root's exactly when nothing surrounds it. */
  lemma {:induction false} RootIsTop(ctx: Context, t: Tree)
    requires ContextApart(ctx) && Ids(t) !! ContextIds(ctx) && (t.Node? ==> t.id != NULL)
    ensures RootId(ctx, Id(t)) == Id(t) <==> ctx.Top?
    ensures ctx.Under? ==> RootId(ctx, Id(t)) in ContextIds(ctx) && RootId(ctx, Id(t)) != NULL
    decreases ctx
  {
    if ctx.Under? {
      RootAmong(ctx, Id(t));
    }
  }

  lemma {:induction false} RootAmong(ctx: Context, hole: Ptr)
    requires ctx.Under? && ContextApart(ctx)
    ensures RootId(ctx, hole) in ContextIds(ctx) && RootId(ctx, hole) != NULL
    decreases ctx
  {
    if ctx.up.Under? {
      RootAmong(ctx.up, ctx.id);
    }
  }

  // ---------- Order ----------

  ghost function Inorder(t: Tree): seq<Ptr> {
    if t.Nil? then [] else Inorder(t.left) + [t.id] + Inorder(t.right)
  }

  ghost function Before(ctx: Context): seq<Ptr> {
    if ctx.Top? then []
    else if ctx.side.Left? then Before(ctx.up)
    else Before(ctx.up) + Inorder(ctx.other) + [ctx.id]
  }

  ghost function After(ctx: Context): seq<Ptr> {
    if ctx.Top? then []
    else if ctx.side.Left? then [ctx.id] + Inorder(ctx.other) + After(ctx.up)
    else After(ctx.up)
  }

  ghost function Whole(ctx: Context, t: Tree): seq<Ptr> {
    Before(ctx) + Inorder(t) + After(ctx)
  }

  lemma WholeUp(ctx: Context, t: Tree)
    requires ctx.Under?
    ensures Whole(ctx, t) == Whole(ctx.up, Mk(ctx.side, ctx.id, ctx.red, t, ctx.other))
  {
    var b, i, o, a := Before(ctx.up), Inorder(t), Inorder(ctx.other), After(ctx.up);
    if ctx.side.Left? {
      assert b + i + ([ctx.id] + o + a) == b + (i + [ctx.id] + o) + a;
    } else {
      assert b + o + [ctx.id] + i + a == b + (o + [ctx.id] + i) + a;
    }
  }

  lemma {:induction false} WholePlug(ctx: Context, t: Tree)
    ensures Whole(ctx, t) == Inorder(Plug(ctx, t))
    decreases ctx
  {
    if ctx.Under? {
      WholeUp(ctx, t);
      WholePlug(ctx.up, Mk(ctx.side, ctx.id, ctx.red, t, ctx.other));
    }
  }

  /** Rotation does not change the order of the nodes. */
  lemma RotationKeepsOrder(s: Side, x: Ptr, rx: bool, y: Ptr, ry: bool, a: Tree, b: Tree, c: Tree)
    ensures Inorder(Mk(s, x, rx, a, Mk(s, y, ry, b, c))) == Inorder(Mk(s, y, ry, Mk(s, x, rx, a, b), c))
  {
    var i, j, k := Inorder(a), Inorder(b), Inorder(c);
    if s.Left? {
      assert i + [x] + (j + [y] + k) == (i + [x] + j) + [y] + k;
    } else {
      assert (k + [y] + j) + [x] + i == k + [y] + (j + [x] + i);
    }
  }

  lemma {:induction false} InorderIds(t: Tree, n: Ptr)
    ensures n in Inorder(t) <==> n in Ids(t)
  {
    if t.Node? {
      InorderIds(t.left, n);
      InorderIds(t.right, n);
    }
  }

  /** Every node of a tree can be brought into focus. */
  lemma {:induction false} Find(c: Cells, root: Ptr, ctx: Context, t: Tree, n: Ptr) returns (ctx': Context, t': Tree)
    requires Located(c, root, ctx, t) && n in Ids(t)
    ensures Located(c, root, ctx', t') && t'.Node? && t'.id == n
    ensures Plug(ctx', t') == Plug(ctx, t)
    decreases t
  {
    if t.id == n {
      ctx', t' := ctx, t;
    } else if n in Ids(t.left) {
      FocusDown(c, root, ctx, Left, t.id, t.red, t.left, t.right);
      ctx', t' := Find(c, root, Under(Left, t.id, t.red, t.right, ctx), t.left, n);
    } else {
      FocusDown(c, root, ctx, Right, t.id, t.red, t.right, t.left);
      ctx', t' := Find(c, root, Under(Right, t.id, t.red, t.left, ctx), t.right, n);
    }
  }

  // ---------- Colours ----------

  predicate Black(t: Tree) {
    t.Node? ==> !t.red
  }

  function BlackHeight(t: Tree): nat {
    if t.Nil? then 0 else BlackHeight(t.left) + if t.red then 0 else 1
  }

  predicate Balanced(t: Tree) {
    t.Node? ==> Balanced(t.left) && Balanced(t.right) && BlackHeight(t.left) == BlackHeight(t.right)
  }

  predicate NoRedUnderRed(t: Tree) {
    t.Node? ==> NoRedUnderRed(t.left) && NoRedUnderRed(t.right) && (t.red ==> Black(t.left) && Black(t.right))
  }

  ghost predicate RedBlack(t: Tree) {
    Balanced(t) && NoRedUnderRed(t) && Black(t)
  }

  /** The surroundings are coloured right for a subtree of black height h. */
  ghost predicate ContextOk(ctx: Context, h: nat)
    decreases ctx
  {
    ctx.Under? ==>
      && Balanced(ctx.other) && BlackHeight(ctx.other) == h && NoRedUnderRed(ctx.other)
      && (ctx.red ==> Black(ctx.other) && ctx.up.Under? && !ctx.up.red)
      && ContextOk(ctx.up, h + if ctx.red then 0 else 1)
  }

  /** The subtree and its surroundings are coloured right for each other. */
  ghost predicate FocusOk(ctx: Context, t: Tree) {
    && Balanced(t) && NoRedUnderRed(t) && ContextOk(ctx, BlackHeight(t))
    && (ctx.Top? || ctx.red ==> Black(t))
  }

  lemma {:induction false} PlugIsRedBlack(ctx: Context, t: Tree)
    ensures RedBlack(Plug(ctx, t)) <==> FocusOk(ctx, t)
    decreases ctx
  {
    if ctx.Under? {
      PlugIsRedBlack(ctx.up, Mk(ctx.side, ctx.id, ctx.red, t, ctx.other));
    }
  }

  // ---------- Height ----------

  function Size(t: Tree): nat {
    if t.Nil? then 0 else 1 + Size(t.left) + Size(t.right)
  }

  function Height(t: Tree): nat {
    if t.Nil? then 0
    else 1 + if Height(t.left) >= Height(t.right) then Height(t.left) else Height(t.right)
  }

  function Power2(n: nat): (p: nat)
    ensures p > 0
  {
    if n == 0 then 1 else 2 * Power2(n - 1)
  }

  lemma {:induction false} SizeFromBlackHeight(t: Tree)
    requires Balanced(t)
    ensures Power2(BlackHeight(t)) <= Size(t) + 1
  {
    if t.Node? {
      SizeFromBlackHeight(t.left);
      SizeFromBlackHeight(t.right);
    }
  }

  lemma {:induction false} HeightFromBlackHeight(t: Tree)
    requires Balanced(t) && NoRedUnderRed(t)
    ensures Height(t) <= 2 * BlackHeight(t) + if Black(t) then 0 else 1
  {
    if t.Node? {
      HeightFromBlackHeight(t.left);
      HeightFromBlackHeight(t.right);
    }
  }

  lemma {:induction false} Power2Add(m: nat, n: nat)
    ensures Power2(m + n) == Power2(m) * Power2(n)
  {
    if m > 0 {
      Power2Add(m - 1, n);
      assert Power2(m) * Power2(n) == 2 * (Power2(m - 1) * Power2(n));
    }
  }

  lemma {:induction false} Power2Grows(m: nat, n: nat)
    requires m <= n
    ensures Power2(m) <= Power2(n)
    decreases n
  {
    if m < n {
      Power2Grows(m, n - 1);
    }
  }

  /** A tree of n nodes is at most 2 lg(n + 1) high. */
  lemma HeightBound(t: Tree)
    requires RedBlack(t)
    ensures Power2(Height(t)) <= (Size(t) + 1) * (Size(t) + 1)
  {
    var h := BlackHeight(t);
    SizeFromBlackHeight(t);
    HeightFromBlackHeight(t);
    Power2Grows(Height(t), h + h);
    Power2Add(h, h);
    Squares(Power2(h), Size(t) + 1);
  }

  lemma Squares(x: nat, y: nat)
    requires x <= y
    ensures x * x <= y * y
  {
    assert x * x <= x * y <= y * y;
  }
}
