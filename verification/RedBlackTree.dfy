/** The red-black tree of the event loop: pointers rewritten in place. `cells` is the memory of the nodes; a node that
    was taken out keeps its stale cell. */
module RedBlackTree {
  import opened RedBlackShapes
  import opened RedBlackCases

  /** The cells after `elm` took over the place of `was`, which stood over l and r. */
  ghost predicate TookOver(c: Cells, d: Cells, ctx: Context, was: Ptr, elm: Ptr, l: Tree, r: Tree) {
    && was in c && elm in d && d[elm] == c[was]
    && Rehung(c, d, ctx, elm) && Agree(c, d, ContextIds(ctx) - {ParentOf(ctx)})
    && Adopted(c, d, l, elm) && Adopted(c, d, r, elm)
  }

  ghost predicate Adopted(c: Cells, d: Cells, t: Tree, elm: Ptr) {
    Agree(c, d, Ids(t) - {Id(t)}) && (t.Node? ==> t.id in c && t.id in d && d[t.id] == c[t.id].(parent := elm))
  }

  ghost predicate HungOver(c: Cells, d: Cells, ctx: Context, was: Ptr, elm: Ptr) {
    && was in c && elm in d && d[elm] == c[was] && Rehung(c, d, ctx, elm)
    && forall n :: n in c && n != elm && (ctx.Under? ==> n != ctx.id) ==> n in d && d[n] == c[n]
  }

  ghost predicate KidsAdopted(c: Cells, d: Cells, l: Tree, r: Tree, elm: Ptr) {
    && (forall n :: n in c && (l.Node? ==> n != l.id) && (r.Node? ==> n != r.id) ==> n in d && d[n] == c[n])
    && (l.Node? ==> l.id in c && l.id in d && d[l.id] == c[l.id].(parent := elm))
    && (r.Node? ==> r.id in c && r.id in d && d[r.id] == c[r.id].(parent := elm))
  }

  lemma TookOverInSteps(c: Cells, c1: Cells, d: Cells, ctx: Context, was: Ptr, elm: Ptr, red: bool, l: Tree, r: Tree)
    requires Apart(Node(was, red, l, r)) && ContextApart(ctx) && Ids(Node(was, red, l, r)) !! ContextIds(ctx)
    requires Around(c, ctx, was) && Shape(c, Node(was, red, l, r), ParentOf(ctx))
    requires elm != NULL && elm !in {was} + Ids(l) + Ids(r) + ContextIds(ctx)
    requires HungOver(c, c1, ctx, was, elm) && KidsAdopted(c1, d, l, r, elm)
    ensures TookOver(c, d, ctx, was, elm, l, r)
  {
    assert Apart(l) && Apart(r) && Shape(c, l, was) && Shape(c, r, was);
    assert ctx.Under? ==> ctx.id in ContextIds(ctx);
    AdoptedInSteps(c, c1, d, ctx, was, elm, l, r);
    AdoptedInSteps(c, c1, d, ctx, was, elm, r, l);
  }

  lemma AdoptedInSteps(c: Cells, c1: Cells, d: Cells, ctx: Context, was: Ptr, elm: Ptr, t: Tree, other: Tree)
    requires HungOver(c, c1, ctx, was, elm) && (KidsAdopted(c1, d, t, other, elm) || KidsAdopted(c1, d, other, t, elm))
    requires Ids(t) !! Ids(other) && elm !in Ids(t) && (ctx.Under? ==> ctx.id !in Ids(t)) && (t.Node? ==> t.id in c)
    ensures Adopted(c, d, t, elm)
  {
    assert t.Node? ==> t.id in Ids(t);
    assert other.Node? ==> other.id in Ids(other);
  }

  lemma TookOverIsLocated(c: Cells, d: Cells, root: Ptr, ctx: Context, was: Ptr, elm: Ptr, red: bool, l: Tree, r: Tree)
    requires Apart(Node(was, red, l, r)) && ContextApart(ctx) && Ids(Node(was, red, l, r)) !! ContextIds(ctx)
    requires Around(c, ctx, was) && Shape(c, Node(was, red, l, r), ParentOf(ctx)) && root == RootId(ctx, elm)
    requires elm != NULL && elm !in {was} + Ids(l) + Ids(r) + ContextIds(ctx) && TookOver(c, d, ctx, was, elm, l, r)
    ensures Located(d, root, ctx, Node(elm, red, l, r))
  {
    AroundRehung(c, d, ctx, was, elm);
    ShapeReparented(c, d, l, was, elm);
    ShapeReparented(c, d, r, was, elm);
  }


  class RbTree {
    var root: Ptr
    var cells: Cells
    const key: Ptr -> int
    ghost var tree: Tree

    ghost predicate Valid()
      reads this
    {
      Located(cells, root, Top, tree) && RedBlack(tree) && SortedBy(key, Inorder(tree))
    }

    constructor (key: Ptr -> int)
      ensures Valid() && Inorder(tree) == [] && this.key == key
    {
      root, cells, tree := NULL, map[], Nil;
      this.key := key;
    }

    method SetColor(n: Ptr, red: bool, ghost ctx: Context, ghost t: Tree)
      requires Located(cells, root, ctx, t) && t.Node? && t.id == n
      modifies this`cells
      ensures Located(cells, root, ctx, t.(red := red))
    {
      ghost var c := cells;
      cells := cells[n := cells[n].(red := red)];
      AroundKept(c, cells, ctx, n);
      ShapeKept(c, cells, t.left, n);
      ShapeKept(c, cells, t.right, n);
    }

    /** Makes the slot that held one node hold another. */
    method ReplaceChild(parent: Ptr, was: Ptr, now: Ptr, ghost ctx: Context)
      requires InSlot(cells, ctx, was) && parent == ParentOf(ctx)
      modifies this`cells, this`root
      ensures ctx.Top? ==> root == now && cells == old(cells)
      ensures ctx.Under? ==> root == old(root) && cells == old(cells)[ctx.id := SetKid(old(cells)[ctx.id], ctx.side, now)]
    {
      if parent != NULL {
        if cells[parent].left == was {
          cells := cells[parent := cells[parent].(left := now)];
        } else {
          cells := cells[parent := cells[parent].(right := now)];
        }
      } else {
        root := now;
      }
    }

    /** Moves node x down on side s; its other child takes its place. */
    method Rotate(s: Side, x: Ptr, ghost ctx: Context, ghost rx: bool, ghost y: Ptr, ghost ry: bool,
                  ghost a: Tree, ghost b: Tree, ghost c: Tree)
      requires Located(cells, root, ctx, Mk(s, x, rx, a, Mk(s, y, ry, b, c)))
      modifies this`cells, this`root
      ensures Located(cells, root, ctx, Mk(s, y, ry, Mk(s, x, rx, a, b), c))
    {
      ghost var c0, r0 := cells, root;
      LocatedCanRotate(cells, root, ctx, s, x, rx, y, ry, a, b, c);
      RotatePointers(s, x, ctx, y, b);
      RotatedIsLocated(c0, cells, r0, root, ctx, s, x, rx, y, ry, a, b, c);
    }

    method RotatePointers(s: Side, x: Ptr, ghost ctx: Context, ghost y: Ptr, ghost b: Tree)
      requires CanRotate(cells, ctx, s, x, y, Id(b)) && (b.Node? ==> b.id != NULL)
      modifies this`cells, this`root
      ensures Rotated(old(cells), cells, ctx, s, x, y, b) && root == if ctx.Top? then y else old(root)
    {
      var far := Opposite(s);
      var tmp := Kid(cells[x], far);
      var moved := Kid(cells[tmp], s);
      cells := cells[x := SetKid(cells[x], far, moved)];
      if moved != NULL {
        cells := cells[moved := cells[moved].(parent := x)];
      }
      cells := cells[tmp := cells[tmp].(parent := cells[x].parent)];
      ReplaceChild(cells[x].parent, x, tmp, ctx);
      cells := cells[tmp := SetKid(cells[tmp], s, x)];
      cells := cells[x := cells[x].(parent := tmp)];
    }

    /** Brings the other subtree under the same parent into focus. */
    ghost method SwapFocus(ctx: Context, t: Tree)
      requires ctx.Under? && Located(cells, root, ctx, t)
      ensures Located(cells, root, Under(Opposite(ctx.side), ctx.id, ctx.red, t, ctx.up), ctx.other)
    {
      FocusUp(cells, root, ctx, t);
      Flip(ctx.side, ctx.id, ctx.red, t, ctx.other);
      FocusDown(cells, root, ctx.up, Opposite(ctx.side), ctx.id, ctx.red, ctx.other, t);
    }

    method PushRedUp(parent: Ptr, gparent: Ptr, uncle: Ptr,
                     ghost s0: Side, ghost o: Tree, ghost s1: Side, ghost u: Tree, ghost up: Context, ghost t: Tree)
      requires Located(cells, root, Under(s0, parent, true, o, Under(s1, gparent, false, u, up)), t)
      requires u.Node? && u.id == uncle
      modifies this`cells
      ensures Located(cells, root, up, Mk(s1, gparent, true, Mk(s0, parent, false, t, o), u.(red := false)))
    {
      ghost var pt := Mk(s0, parent, true, t, o);
      FocusUp(cells, root, Under(s0, parent, true, o, Under(s1, gparent, false, u, up)), t);
      SwapFocus(Under(s1, gparent, false, u, up), pt);
      SetColor(uncle, false, Under(Opposite(s1), gparent, false, pt, up), u);
      SwapFocus(Under(Opposite(s1), gparent, false, pt, up), u.(red := false));
      SetColor(parent, false, Under(s1, gparent, false, u.(red := false), up), pt);
      FocusUp(cells, root, Under(s1, gparent, false, u.(red := false), up), Mk(s0, parent, false, t, o));
      SetColor(gparent, true, up, Mk(s1, gparent, false, Mk(s0, parent, false, t, o), u.(red := false)));
    }

    method Settle(s: Side, parent: Ptr, gparent: Ptr, ghost o: Tree, ghost u: Tree, ghost up: Context, ghost t: Tree)
      requires Located(cells, root, Under(s, parent, true, o, Under(s, gparent, false, u, up)), t)
      modifies this`cells, this`root
      ensures Located(cells, root, Under(s, parent, false, Mk(s, gparent, true, o, u), up), t)
    {
      ghost var pt := Mk(s, parent, false, t, o);
      FocusUp(cells, root, Under(s, parent, true, o, Under(s, gparent, false, u, up)), t);
      SetColor(parent, false, Under(s, gparent, false, u, up), Mk(s, parent, true, t, o));
      FocusUp(cells, root, Under(s, gparent, false, u, up), pt);
      SetColor(gparent, true, up, Mk(s, gparent, false, pt, u));
      Flip(s, gparent, true, pt, u);
      Flip(s, parent, false, t, o);
      Rotate(Opposite(s), gparent, up, true, parent, false, u, o, t);
      Flip(s, parent, false, t, Mk(s, gparent, true, o, u));
      Flip(s, gparent, true, o, u);
      FocusDown(cells, root, up, s, parent, false, t, Mk(s, gparent, true, o, u));
    }

    /** Removes a red node under a red one, after insertion. */
    method InsertColor(n: Ptr, ghost ctx0: Context, ghost t0: Tree)
      requires Located(cells, root, ctx0, t0) && t0.Node? && t0.id == n && Pending(ctx0, t0)
      modifies this
      ensures Located(cells, root, Top, tree) && RedBlack(tree) && Inorder(tree) == Whole(ctx0, t0)
    {
      var elm := n;
      ghost var ctx, t := ctx0, t0;
      FocusCells(cells, root, ctx, t);
      while cells[elm].parent != NULL && cells[cells[elm].parent].red
        invariant Located(cells, root, ctx, t) && t.Node? && t.id == elm && Pending(ctx, t)
        invariant Whole(ctx, t) == Whole(ctx0, t0)
        invariant elm in cells && cells[elm].parent == ParentOf(ctx)
        invariant ctx.Under? ==> ctx.id != NULL && ctx.id in cells && cells[ctx.id].red == ctx.red
        decreases Depth(ctx)
      {
        elm, ctx, t := InsertColorStep(elm, ctx, t);
        FocusCells(cells, root, ctx, t);
      }
      FocusTop(cells, root, ctx, t);
      WholePlug(ctx, t);
      tree := Plug(ctx, t);
      if ctx.Under? {
        PlugIsRedBlack(ctx, t);
      }
      SetColor(root, false, Top, tree);
      tree := tree.(red := false);
    }

    method InsertColorStep(n: Ptr, ghost ctx0: Context, ghost t0: Tree) returns (elm: Ptr, ghost ctx: Context, ghost t: Tree)
      requires Located(cells, root, ctx0, t0) && t0.Node? && t0.id == n && Pending(ctx0, t0) && ctx0.Under? && ctx0.red
      modifies this`cells, this`root
      ensures Located(cells, root, ctx, t) && t.Node? && t.id == elm && Pending(ctx, t)
      ensures Whole(ctx, t) == Whole(ctx0, t0) && Depth(ctx) < Depth(ctx0)
    {
      elm := n;
      ghost var s0, o, s1, u, up := ctx0.side, ctx0.other, ctx0.up.side, ctx0.up.other, ctx0.up.up;
      FocusCells(cells, root, ctx0, t0);
      var parent := cells[elm].parent;
      FocusUp(cells, root, ctx0, t0);
      FocusCells(cells, root, ctx0.up, Mk(s0, parent, true, t0, o));
      var gparent := cells[parent].parent;
      var side := if cells[gparent].left == parent then Left else Right;
      assert side == s1;
      SwapFocus(ctx0.up, Mk(s0, parent, true, t0, o));
      FocusCells(cells, root, Under(Opposite(s1), gparent, false, Mk(s0, parent, true, t0, o), up), u);
      var tmp := Kid(cells[gparent], Opposite(side));
      if tmp != NULL && cells[tmp].red {
        PushRedUp(parent, gparent, tmp, s0, o, s1, u, up, t0);
        PendingMovesUp(s0, parent, o, s1, gparent, u, up, t0);
        elm, ctx, t := gparent, up, Mk(s1, gparent, true, Mk(s0, parent, false, t0, o), u.(red := false));
      } else {
        elm, ctx, t := TurnAndSettle(side, elm, parent, gparent, s0, o, u, up, t0);
      }
    }

    /** The uncle is black: a rotation or two and the insertion is done. */
    method TurnAndSettle(side: Side, n: Ptr, p: Ptr, gparent: Ptr,
                         ghost s0: Side, ghost o: Tree, ghost u: Tree, ghost up: Context, ghost t0: Tree)
      returns (elm: Ptr, ghost ctx: Context, ghost t: Tree)
      requires Located(cells, root, Under(s0, p, true, o, Under(side, gparent, false, u, up)), t0)
      requires Pending(Under(s0, p, true, o, Under(side, gparent, false, u, up)), t0) && t0.id == n && Black(u)
      modifies this`cells, this`root
      ensures Located(cells, root, ctx, t) && t.Node? && t.id == elm && Pending(ctx, t) && Depth(ctx) == 1 + Depth(up)
      ensures Whole(ctx, t) == Whole(Under(s0, p, true, o, Under(side, gparent, false, u, up)), t0)
    {
      elm, t := n, t0;
      var parent := p;
      ghost var o', above := o, Under(side, gparent, false, u, up);
      FocusCells(cells, root, Under(s0, p, true, o, above), t);
      if Kid(cells[parent], Opposite(side)) == elm {
        ghost var b, c := SubTree(t0, side), SubTree(t0, Opposite(side));
        PendingStraightened(side, parent, o, above, elm, b, c);
        FocusUp(cells, root, Under(s0, p, true, o, above), t);
        Flip(side, parent, true, o, t0);
        Rotate(side, parent, above, true, elm, true, o, b, c);
        FocusDown(cells, root, above, side, elm, true, Mk(side, parent, true, o, b), c);
        t, o' := Mk(side, parent, true, o, b), c;
        parent, elm := elm, parent;
      }
      PendingSettled(side, parent, o', gparent, u, up, t);
      Settle(side, parent, gparent, o', u, up, t);
      ctx := Under(side, parent, false, Mk(side, gparent, true, o', u), up);
    }

    /** Links a new red leaf into the empty slot in focus. */
    method Attach(n: Ptr, parent: Ptr, side: Side, ghost ctx: Context)
      requires Located(cells, root, ctx, Nil) && parent == ParentOf(ctx) && n != NULL && n !in ContextIds(ctx)
      requires ctx.Under? ==> side == ctx.side
      modifies this`cells, this`root
      ensures Located(cells, root, ctx, Node(n, true, Nil, Nil))
    {
      ghost var c0 := cells;
      FocusCells(cells, root, ctx, Nil);
      cells := cells[n := Cell(NULL, NULL, parent, true)];
      if parent != NULL {
        cells := cells[parent := SetKid(cells[parent], side, n)];
      } else {
        root := n;
      }
      AroundRehung(c0, cells, ctx, NULL, n);
    }

    /** One step of a search: the focus moves to the side where the key belongs. */
    ghost method Descend(k: int, ctx: Context, t: Tree) returns (ctx': Context, t': Tree)
      requires Located(cells, root, ctx, t) && t.Node? && k != key(t.id)
      requires SortedBy(key, Whole(ctx, t)) && Between(key, k, ctx)
      ensures ctx' == if k < key(t.id) then Under(Left, t.id, t.red, t.right, ctx) else Under(Right, t.id, t.red, t.left, ctx)
      ensures t' == if k < key(t.id) then t.left else t.right
      ensures Located(cells, root, ctx', t') && Between(key, k, ctx') && Whole(ctx', t') == Whole(ctx, t)
      ensures Plug(ctx', t') == Plug(ctx, t)
    {
      if k < key(t.id) {
        DescendLeft(key, k, ctx, t);
        FocusDown(cells, root, ctx, Left, t.id, t.red, t.left, t.right);
        ctx', t' := Under(Left, t.id, t.red, t.right, ctx), t.left;
      } else {
        DescendRight(key, k, ctx, t);
        FocusDown(cells, root, ctx, Right, t.id, t.red, t.right, t.left);
        ctx', t' := Under(Right, t.id, t.red, t.left, ctx), t.right;
      }
      WholeUp(ctx', t');
    }

    /** Looks for a node with key k; without one, ends in the slot where it belongs. */
    method Search(k: int) returns (tmp: Ptr, parent: Ptr, side: Side, ghost ctx: Context, ghost t: Tree)
      requires Valid()
      ensures Located(cells, root, ctx, t) && tmp == Id(t) && parent == ParentOf(ctx) && (ctx.Under? ==> side == ctx.side)
      ensures Plug(ctx, t) == tree && Whole(ctx, t) == Inorder(tree)
      ensures tmp == NULL ==> t.Nil? && Between(key, k, ctx)
      ensures tmp != NULL ==> t.Node? && key(tmp) == k && tmp in Inorder(tree)
    {
      tmp, parent, side := root, NULL, Left;
      ctx, t := Top, tree;
      while tmp != NULL
        invariant Located(cells, root, ctx, t) && tmp == Id(t) && parent == ParentOf(ctx) && (ctx.Under? ==> side == ctx.side)
        invariant Plug(ctx, t) == tree && Whole(ctx, t) == Inorder(tree) && Between(key, k, ctx)
        decreases t
      {
        FocusCells(cells, root, ctx, t);
        if k < key(tmp) {
          ctx, t := Descend(k, ctx, t);
          parent, side, tmp := tmp, Left, cells[tmp].left;
        } else if k > key(tmp) {
          ctx, t := Descend(k, ctx, t);
          parent, side, tmp := tmp, Right, cells[tmp].right;
        } else {
          assert tmp in Inorder(t);
          return;
        }
      }
      FocusCells(cells, root, ctx, t);
    }

    /** Inserts a node, unless one with an equal key is there already; then returns that one. */
    method Insert(n: Ptr) returns (r: Ptr)
      requires Valid() && n != NULL && n !in Inorder(tree)
      modifies this
      ensures Valid()
      ensures r != NULL <==> exists m :: m in old(Inorder(tree)) && key(m) == key(n)
      ensures r != NULL ==> r in old(Inorder(tree)) && key(r) == key(n) && unchanged(this)
      ensures r == NULL ==> exists i :: InsertedAt(old(Inorder(tree)), Inorder(tree), n, i)
    {
      ghost var s := Inorder(tree);
      var tmp, parent, side, ctx, t := Search(key(n));
      if tmp != NULL {
        return tmp;
      }
      WholeOfLeaf(ctx, n);
      NotAround(ctx, n);
      PlugIsRedBlack(ctx, t);
      Attach(n, parent, side, ctx);
      InsertColor(n, ctx, Node(n, true, Nil, Nil));
      PutIn(key, n, Before(ctx), After(ctx), s, Inorder(tree));
      return NULL;
    }

    /** Gives the short subtree a black sibling when its sibling is red. */
    method RaiseSibling(s: Side, parent: Ptr, tmp: Ptr, ghost near: Tree, ghost far: Tree, ghost up: Context, ghost t: Tree)
      requires Located(cells, root, Under(s, parent, false, Mk(s, tmp, true, near, far), up), t)
      modifies this`cells, this`root
      ensures Located(cells, root, Under(s, parent, true, near, Under(s, tmp, false, far, up)), t)
    {
      SwapFocus(Under(s, parent, false, Mk(s, tmp, true, near, far), up), t);
      SetColor(tmp, false, Under(Opposite(s), parent, false, t, up), Mk(s, tmp, true, near, far));
      SwapFocus(Under(Opposite(s), parent, false, t, up), Mk(s, tmp, false, near, far));
      FocusUp(cells, root, Under(s, parent, false, Mk(s, tmp, false, near, far), up), t);
      SetColor(parent, true, up, Mk(s, parent, false, t, Mk(s, tmp, false, near, far)));
      Rotate(s, parent, up, true, tmp, false, t, near, far);
      FocusDown(cells, root, up, s, tmp, false, Mk(s, parent, true, t, near), far);
      FocusDown(cells, root, Under(s, tmp, false, far, up), s, parent, true, t, near);
    }

    method PaintSibling(s: Side, parent: Ptr, tmp: Ptr, ghost red: bool, ghost other: Tree, ghost up: Context, ghost t: Tree)
      requires Located(cells, root, Under(s, parent, red, other, up), t) && other.Node? && other.id == tmp
      modifies this`cells
      ensures Located(cells, root, up, Mk(s, parent, red, t, other.(red := true)))
    {
      SwapFocus(Under(s, parent, red, other, up), t);
      SetColor(tmp, true, Under(Opposite(s), parent, red, t, up), other);
      SwapFocus(Under(Opposite(s), parent, red, t, up), other.(red := true));
      FocusUp(cells, root, Under(s, parent, red, other.(red := true), up), t);
    }

    /** Puts a red node on the far side of the sibling. */
    method TurnSibling(s: Side, tmp: Ptr, ghost n: Ptr, ghost b: Tree, ghost c: Tree, ghost far: Tree, ghost ctx: Context)
      requires Located(cells, root, ctx, Mk(s, tmp, false, Mk(s, n, true, b, c), far))
      modifies this`cells, this`root
      ensures Located(cells, root, ctx, Mk(s, n, false, b, Mk(s, tmp, true, c, far)))
    {
      ghost var nt := Mk(s, n, true, b, c);
      Parts(cells, s, tmp, false, nt, far, ParentOf(ctx));
      var oleft := Kid(cells[tmp], s);
      FocusDown(cells, root, ctx, s, tmp, false, nt, far);
      if oleft != NULL {
        SetColor(oleft, false, Under(s, tmp, false, far, ctx), nt);
      }
      FocusUp(cells, root, Under(s, tmp, false, far, ctx), Mk(s, n, false, b, c));
      SetColor(tmp, true, ctx, Mk(s, tmp, false, Mk(s, n, false, b, c), far));
      Flip(s, tmp, true, Mk(s, n, false, b, c), far);
      Flip(s, n, false, b, c);
      Rotate(Opposite(s), tmp, ctx, true, n, false, far, c, b);
      Flip(s, tmp, true, c, far);
      Flip(s, n, false, b, Mk(s, tmp, true, c, far));
    }

    /** Makes up for the missing black node when the sibling's far child is red. */
    method SettleShort(s: Side, parent: Ptr, tmp: Ptr, ghost red: bool,
                       ghost near: Tree, ghost far: Tree, ghost up: Context, ghost t: Tree)
      requires Located(cells, root, Under(s, parent, red, Mk(s, tmp, false, near, far), up), t) && far.Node?
      modifies this`cells, this`root
      ensures Located(cells, root, up, Mk(s, tmp, red, Mk(s, parent, false, t, near), far.(red := false)))
    {
      ghost var ctx := Under(s, parent, red, Mk(s, tmp, false, near, far), up);
      ghost var far' := far.(red := false);
      FocusCells(cells, root, ctx, t);
      SwapFocus(ctx, t);
      SetColor(tmp, cells[parent].red, Under(Opposite(s), parent, red, t, up), Mk(s, tmp, false, near, far));
      SwapFocus(Under(Opposite(s), parent, red, t, up), Mk(s, tmp, red, near, far));
      FocusUp(cells, root, Under(s, parent, red, Mk(s, tmp, red, near, far), up), t);
      SetColor(parent, false, up, Mk(s, parent, red, t, Mk(s, tmp, red, near, far)));
      FocusDown(cells, root, up, s, parent, false, t, Mk(s, tmp, red, near, far));
      SwapFocus(Under(s, parent, false, Mk(s, tmp, red, near, far), up), t);
      SetFarBlack(s, tmp, red, near, far, Under(Opposite(s), parent, false, t, up));
      SwapFocus(Under(Opposite(s), parent, false, t, up), Mk(s, tmp, red, near, far'));
      FocusUp(cells, root, Under(s, parent, false, Mk(s, tmp, red, near, far'), up), t);
      Rotate(s, parent, up, false, tmp, red, t, near, far');
    }

    method SetFarBlack(s: Side, tmp: Ptr, ghost red: bool, ghost near: Tree, ghost far: Tree, ghost ctx: Context)
      requires Located(cells, root, ctx, Mk(s, tmp, red, near, far)) && far.Node?
      modifies this`cells
      ensures Located(cells, root, ctx, Mk(s, tmp, red, near, far.(red := false)))
    {
      Parts(cells, s, tmp, red, near, far, ParentOf(ctx));
      var kid := Kid(cells[tmp], Opposite(s));
      FocusDown(cells, root, ctx, s, tmp, red, near, far);
      SwapFocus(Under(s, tmp, red, far, ctx), near);
      FocusCells(cells, root, Under(Opposite(s), tmp, red, near, ctx), far);
      if kid != NULL {
        SetColor(kid, false, Under(Opposite(s), tmp, red, near, ctx), far);
      }
      SwapFocus(Under(Opposite(s), tmp, red, near, ctx), far.(red := false));
      FocusUp(cells, root, Under(s, tmp, red, far.(red := false), ctx), near);
    }

    predicate IsBlack(p: Ptr)
      requires p != NULL ==> p in cells
      reads this
    {
      p == NULL || !cells[p].red
    }

    method RemoveColorStep(elm: Ptr, parent: Ptr, ghost ctx: Context, ghost t: Tree)
      returns (elm': Ptr, parent': Ptr, done: bool, ghost ctx': Context, ghost t': Tree)
      requires Located(cells, root, ctx, t) && elm == Id(t) && parent == ParentOf(ctx)
      requires Short(ctx, t) && Black(t) && ctx.Under?
      modifies this`cells, this`root
      ensures Located(cells, root, ctx', t') && elm' == Id(t') && Whole(ctx', t') == Whole(ctx, t)
      ensures if done then ctx'.Top? && RedBlack(t')
              else parent' == ParentOf(ctx') && Short(ctx', t') && (!Black(t') || Depth(ctx') < Depth(ctx))
    {
      var s := SideOf(elm, parent, ctx, t);
      var tmp;
      tmp, ctx' := BlackSibling(s, parent, ctx, t);
      SiblingCells(cells, root, ctx', t);
      if IsBlack(cells[tmp].left) && IsBlack(cells[tmp].right) {
        parent', t' := PassUp(s, parent, tmp, ctx', t);
        ctx' := ctx'.up;
        elm', done := parent, false;
      } else {
        t' := TurnAndSettleShort(s, parent, tmp, ctx', t);
        ctx' := Top;
        elm', parent', done := root, parent, true;
      }
    }

    /** The side of its parent that holds the node. */
    method SideOf(elm: Ptr, parent: Ptr, ghost ctx: Context, ghost t: Tree) returns (s: Side)
      requires Located(cells, root, ctx, t) && elm == Id(t) && parent == ParentOf(ctx) && ctx.Under? && Short(ctx, t)
      ensures s == ctx.side
    {
      FocusCells(cells, root, ctx, t);
      SiblingCells(cells, root, ctx, t);
      s := if cells[parent].left == elm then Left else Right;
    }

    /** The sibling has no red child: it turns red, and the shortage passes to the parent. */
    method PassUp(s: Side, parent: Ptr, tmp: Ptr, ghost ctx: Context, ghost t: Tree) returns (parent': Ptr, ghost t': Tree)
      requires Located(cells, root, ctx, t) && Short(ctx, t) && Black(t) && ctx.Under? && s == ctx.side && parent == ctx.id
      requires ctx.other.Node? && ctx.other.id == tmp && Black(ctx.other) && Black(ctx.other.left) && Black(ctx.other.right)
      modifies this`cells, this`root
      ensures Located(cells, root, ctx.up, t') && Short(ctx.up, t') && Whole(ctx.up, t') == Whole(ctx, t)
      ensures Id(t') == parent && parent' == ParentOf(ctx.up) && (ctx.red ==> !Black(t'))
    {
      ghost var red, other, up := ctx.red, ctx.other, ctx.up;
      ShortMovesUp(s, parent, red, other, up, t);
      PaintSibling(s, parent, tmp, red, other, up, t);
      t' := Mk(s, parent, red, t, other.(red := true));
      FocusCells(cells, root, up, t');
      parent' := cells[parent].parent;
    }

    /** The sibling, after a rotation if it was red: now it is black. */
    method BlackSibling(s: Side, parent: Ptr, ghost ctx: Context, ghost t: Tree) returns (tmp: Ptr, ghost ctx': Context)
      requires Located(cells, root, ctx, t) && Short(ctx, t) && Black(t) && ctx.Under? && s == ctx.side && parent == ctx.id
      modifies this`cells, this`root
      ensures Located(cells, root, ctx', t) && Short(ctx', t) && Whole(ctx', t) == Whole(ctx, t)
      ensures ctx'.Under? && ctx'.side == s && ctx'.id == parent && (ctx'.red || ctx'.up == ctx.up)
      ensures ctx'.other.Node? && ctx'.other.id == tmp && Black(ctx'.other)
    {
      FocusCells(cells, root, ctx, t);
      SiblingCells(cells, root, ctx, t);
      tmp, ctx' := Kid(cells[parent], Opposite(s)), ctx;
      if cells[tmp].red {
        ghost var up, near, far := ctx.up, SubTree(ctx.other, s), SubTree(ctx.other, Opposite(s));
        RaiseSibling(s, parent, tmp, near, far, up, t);
        ShortGetsBlackSibling(s, parent, tmp, near, far, up, t);
        ctx' := Under(s, parent, true, near, Under(s, tmp, false, far, up));
        FocusCells(cells, root, ctx', t);
        tmp := Kid(cells[parent], Opposite(s));
      }
    }

    /** The sibling has a red child: a rotation or two and the removal is done. */
    method TurnAndSettleShort(s: Side, parent: Ptr, tmp0: Ptr, ghost ctx: Context, ghost t: Tree) returns (ghost t': Tree)
      requires Located(cells, root, ctx, t) && Short(ctx, t) && Black(t) && ctx.Under? && s == ctx.side && parent == ctx.id
      requires ctx.other.Node? && ctx.other.id == tmp0 && Black(ctx.other)
      requires !Black(ctx.other.left) || !Black(ctx.other.right)
      modifies this`cells, this`root
      ensures Located(cells, root, Top, t') && RedBlack(t') && Inorder(t') == Whole(ctx, t)
    {
      ghost var red, up := ctx.red, ctx.up;
      var tmp, near, far := FarRed(s, parent, tmp0, ctx, t);
      ShortSettled(s, parent, red, tmp, near, far, up, t);
      SettleShort(s, parent, tmp, red, near, far, up, t);
      ghost var settled := Mk(s, tmp, red, Mk(s, parent, false, t, near), far.(red := false));
      PlugIsRedBlack(up, settled);
      WholePlug(up, settled);
      FocusTop(cells, root, up, settled);
      t' := Plug(up, settled);
    }

    /** Makes sure that the red child of a black sibling is the far one. */
    method FarRed(s: Side, parent: Ptr, tmp: Ptr, ghost ctx: Context, ghost t: Tree)
      returns (tmp': Ptr, ghost near: Tree, ghost far: Tree)
      requires Located(cells, root, ctx, t) && Short(ctx, t) && ctx.Under? && s == ctx.side && parent == ctx.id
      requires ctx.other.Node? && ctx.other.id == tmp && Black(ctx.other)
      requires !Black(ctx.other.left) || !Black(ctx.other.right)
      modifies this`cells, this`root
      ensures far.Node? && far.red && Located(cells, root, ctx.(other := Mk(s, tmp', false, near, far)), t)
      ensures Short(ctx.(other := Mk(s, tmp', false, near, far)), t)
      ensures Whole(ctx.(other := Mk(s, tmp', false, near, far)), t) == Whole(ctx, t)
    {
      tmp', near, far := tmp, SubTree(ctx.other, s), SubTree(ctx.other, Opposite(s));
      SiblingCells(cells, root, ctx, t);
      if IsBlack(Kid(cells[tmp], Opposite(s))) {
        ghost var n, b, c := near.id, SubTree(near, s), SubTree(near, Opposite(s));
        ShortTurned(s, parent, ctx.red, tmp, n, b, c, far, ctx.up, t);
        SwapFocus(ctx, t);
        ghost var around := Under(Opposite(s), parent, ctx.red, t, ctx.up);
        TurnSibling(s, tmp, n, b, c, far, around);
        SwapFocus(around, Mk(s, n, false, b, Mk(s, tmp, true, c, far)));
        near, far := b, Mk(s, tmp, true, c, far);
        FocusCells(cells, root, ctx.(other := Mk(s, n, false, near, far)), t);
        tmp' := Kid(cells[parent], Opposite(s));
      }
    }

    /** Makes up for a black node taken out just above the subtree in focus. */
    method RemoveColor(parent0: Ptr, elm0: Ptr, ghost ctx0: Context, ghost t0: Tree)
      requires Located(cells, root, ctx0, t0) && elm0 == Id(t0) && parent0 == ParentOf(ctx0) && Short(ctx0, t0)
      modifies this
      ensures Located(cells, root, Top, tree) && RedBlack(tree) && Inorder(tree) == Whole(ctx0, t0)
    {
      var elm, parent, done := elm0, parent0, false;
      ghost var ctx, t := ctx0, t0;
      FocusCells(cells, root, ctx, t);
      RootIsTop(ctx, t);
      while IsBlack(elm) && elm != root && !done
        invariant Located(cells, root, ctx, t) && elm == Id(t) && Whole(ctx, t) == Whole(ctx0, t0)
        invariant if done then ctx.Top? && RedBlack(t) else parent == ParentOf(ctx) && Short(ctx, t)
        invariant (elm != NULL ==> elm in cells && cells[elm].red == !Black(t)) && (elm == NULL ==> t.Nil?)
        invariant elm == root <==> ctx.Top?
        decreases !done, Black(t), Depth(ctx)
      {
        elm, parent, done, ctx, t := RemoveColorStep(elm, parent, ctx, t);
        FocusCells(cells, root, ctx, t);
        RootIsTop(ctx, t);
      }
      if elm != NULL {
        if !done {
          ShortPainted(ctx, t);
        }
        SetColor(elm, false, ctx, t);
        t := t.(red := false);
      }
      PlugIsRedBlack(ctx, t);
      WholePlug(ctx, t);
      FocusTop(cells, root, ctx, t);
      tree := Plug(ctx, t);
    }

    /** Puts the only subtree of a node, or nothing, in its place. */
    method Splice(elm: Ptr, child: Ptr, ghost ctx: Context, ghost t: Tree, ghost s: Side) returns (parent: Ptr, red: bool)
      requires Located(cells, root, ctx, t) && t.Node? && t.id == elm
      requires SubTree(t, s).Nil? && child == Id(SubTree(t, Opposite(s)))
      modifies this`cells, this`root
      ensures Located(cells, root, ctx, SubTree(t, Opposite(s))) && parent == ParentOf(ctx) && red == t.red
    {
      ghost var c0, k := cells, SubTree(t, Opposite(s));
      FocusCells(cells, root, ctx, t);
      assert Shape(cells, k, elm) && Apart(k);
      parent, red := cells[elm].parent, cells[elm].red;
      if child != NULL {
        cells := cells[child := cells[child].(parent := parent)];
      }
      ReplaceChild(parent, elm, child, ctx);
      AroundRehung(c0, cells, ctx, elm, child);
      ShapeReparented(c0, cells, k, elm, parent);
    }

    /** Lets a node that is not in the tree take over the place, the links and the colour of another. */
    method TakeOver(was: Ptr, elm: Ptr, ghost ctx: Context, ghost red: bool, ghost l: Tree, ghost r: Tree)
      requires Located(cells, root, ctx, Node(was, red, l, r)) && l.Node?
      requires elm != NULL && elm !in {was} + Ids(l) + Ids(r) + ContextIds(ctx)
      modifies this`cells, this`root
      ensures Located(cells, root, ctx, Node(elm, red, l, r))
    {
      ghost var c0 := cells;
      FocusCells(cells, root, ctx, Node(was, red, l, r));
      assert Shape(cells, l, was) && Shape(cells, r, was);
      cells := cells[elm := cells[was]];
      ReplaceChild(cells[was].parent, was, elm, ctx);
      ghost var c1 := cells;
      assert HungOver(c0, c1, ctx, was, elm);
      AdoptChildren(was, elm, l, r);
      TookOverInSteps(c0, c1, cells, ctx, was, elm, red, l, r);
      TookOverIsLocated(c0, cells, root, ctx, was, elm, red, l, r);
    }

    /** The children of one node become those of another. */
    method AdoptChildren(was: Ptr, elm: Ptr, ghost l: Tree, ghost r: Tree)
      requires was in cells && cells[was].left == Id(l) && cells[was].right == Id(r) && l.Node? && l.id in cells && l.id != was
      requires (r.Nil? <==> Id(r) == NULL) && (r.Node? ==> r.id in cells && r.id != l.id)
      modifies this`cells
      ensures KidsAdopted(old(cells), cells, l, r, elm)
    {
      cells := cells[cells[was].left := cells[cells[was].left].(parent := elm)];
      if cells[was].right != NULL {
        cells := cells[cells[was].right := cells[cells[was].right].(parent := elm)];
      }
    }

    /** The least node of a right subtree. */
    method Successor(n: Ptr, ghost ctx: Context, ghost t: Tree) returns (elm: Ptr, ghost spine: Context, ghost m: Tree)
      requires Located(cells, root, ctx, t) && t.Node? && t.id == n && t.right.Node?
      ensures LeftSpine(spine) && m.Node? && m.id == elm && m.left.Nil?
      ensures Located(cells, root, Join(spine, Under(Right, n, t.red, t.left, ctx)), m)
      ensures Plug(spine, m) == t.right
    {
      ghost var base := Under(Right, n, t.red, t.left, ctx);
      FocusDown(cells, root, ctx, Right, n, t.red, t.right, t.left);
      FocusCells(cells, root, ctx, t);
      elm, spine, m := cells[n].right, Top, t.right;
      FocusCells(cells, root, Join(spine, base), m);
      while cells[elm].left != NULL
        invariant LeftSpine(spine) && m.Node? && m.id == elm && elm in cells && cells[elm].left == Id(m.left)
        invariant m.left.Nil? <==> Id(m.left) == NULL
        invariant Located(cells, root, Join(spine, base), m) && Plug(spine, m) == t.right
        decreases m
      {
        FocusDown(cells, root, Join(spine, base), Left, m.id, m.red, m.left, m.right);
        elm, spine, m := cells[elm].left, Under(Left, m.id, m.red, m.right, spine), m.left;
        FocusCells(cells, root, Join(spine, base), m);
      }
    }

    method Remove(n: Ptr) returns (r: Ptr)
      requires Valid() && n in Inorder(tree)
      modifies this
      ensures Valid() && r == n && exists i :: RemovedAt(old(Inorder(tree)), Inorder(tree), n, i)
    {
      InorderIds(tree, n);
      ghost var ctx, t := Find(cells, root, Top, tree, n);
      ghost var b, a;
      ghost var s := Inorder(tree);
      FocusCells(cells, root, ctx, t);
      if cells[n].left == NULL {
        b, a := RemoveOne(n, cells[n].right, ctx, t, Left);
      } else if cells[n].right == NULL {
        b, a := RemoveOne(n, cells[n].left, ctx, t, Right);
      } else {
        b, a := RemoveTwo(n, ctx, t);
      }
      LeftOut(key, n, b, a, s, Inorder(tree));
      return n;
    }

    method RemoveOne(n: Ptr, child: Ptr, ghost ctx: Context, ghost t: Tree, ghost s: Side)
      returns (ghost b: seq<Ptr>, ghost a: seq<Ptr>)
      requires Located(cells, root, ctx, t) && t.Node? && t.id == n && Plug(ctx, t) == tree && RedBlack(tree)
      requires SubTree(t, s).Nil? && child == Id(SubTree(t, Opposite(s)))
      modifies this
      ensures Located(cells, root, Top, tree) && RedBlack(tree)
      ensures old(Inorder(tree)) == b + [n] + a && Inorder(tree) == b + a
    {
      ghost var k := SubTree(t, Opposite(s));
      PlugIsRedBlack(ctx, t);
      WholePlug(ctx, t);
      SplicedColours(ctx, t, s);
      b, a := Before(ctx) + Inorder(t.left), Inorder(t.right) + After(ctx);
      assert Whole(ctx, t) == b + [n] + a;
      assert Whole(ctx, k) == b + a;
      var parent, red := Splice(n, child, ctx, t, s);
      Recolour(parent, child, red, ctx, k);
    }

    /** What both ways of removing end with. */
    method Recolour(parent: Ptr, child: Ptr, red: bool, ghost ctx: Context, ghost k: Tree)
      requires Located(cells, root, ctx, k) && child == Id(k) && parent == ParentOf(ctx)
      requires if red then FocusOk(ctx, k) else Short(ctx, k)
      modifies this
      ensures Located(cells, root, Top, tree) && RedBlack(tree) && Inorder(tree) == Whole(ctx, k)
    {
      if !red {
        RemoveColor(parent, child, ctx, k);
      } else {
        FocusTop(cells, root, ctx, k);
        PlugIsRedBlack(ctx, k);
        WholePlug(ctx, k);
        tree := Plug(ctx, k);
      }
    }

    method RemoveTwo(n: Ptr, ghost ctx: Context, ghost t: Tree) returns (ghost b: seq<Ptr>, ghost a: seq<Ptr>)
      requires Located(cells, root, ctx, t) && t.Node? && t.id == n && t.left.Node? && t.right.Node?
      requires Plug(ctx, t) == tree && RedBlack(tree)
      modifies this
      ensures Located(cells, root, Top, tree) && RedBlack(tree)
      ensures old(Inorder(tree)) == b + [n] + a && Inorder(tree) == b + a
    {
      var elm, spine, m := Successor(n, ctx, t);
      ghost var base, base' := Under(Right, n, t.red, t.left, ctx), Under(Right, elm, t.red, t.left, ctx);
      ghost var k := m.right;
      SuccessorOrder(ctx, t, spine, m, base');
      SuccessorColours(ctx, t, spine, m, base, base');
      b, a := Before(ctx) + Inorder(t.left), Inorder(t.right) + After(ctx);
      FocusCells(cells, root, Join(spine, base), m);
      SuccessorApart(ctx, t, spine, m, base);
      var child := cells[elm].right;
      var parent, red := Splice(elm, child, Join(spine, base), m, Left);
      if parent == n {
        parent := elm;
      }
      FocusToBase(cells, root, spine, base, k);
      FocusUp(cells, root, base, Plug(spine, k));
      TakeOver(n, elm, ctx, t.red, t.left, Plug(spine, k));
      FocusDown(cells, root, ctx, Right, elm, t.red, Plug(spine, k), t.left);
      FocusFromBase(cells, root, spine, base', k);
      Recolour(parent, child, red, Join(spine, base'), k);
    }

    method FindKey(k: int) returns (r: Ptr)
      requires Valid()
      ensures r != NULL ==> r in Inorder(tree) && key(r) == k
      ensures r == NULL ==> forall n :: n in Inorder(tree) ==> key(n) != k
    {
      var tmp, parent, side, ctx, t := Search(k);
      return tmp;
    }

    /** The first node whose key is at least k. */
    method NFind(k: int) returns (r: Ptr)
      requires Valid()
      ensures r != NULL ==> IsLeastFrom(key, k, r, Inorder(tree))
      ensures r == NULL ==> forall n :: n in Inorder(tree) ==> key(n) < k
    {
      var tmp := root;
      ghost var ctx, t := Top, tree;
      r := NULL;
      while tmp != NULL
        invariant Located(cells, root, ctx, t) && tmp == Id(t) && Whole(ctx, t) == Inorder(tree) && Between(key, k, ctx)
        invariant r == if After(ctx) == [] then NULL else After(ctx)[0]
        invariant r == NULL <==> After(ctx) == []
        decreases t
      {
        FocusCells(cells, root, ctx, t);
        if k < key(tmp) {
          ctx, t := Descend(k, ctx, t);
          r, tmp := tmp, cells[tmp].left;
        } else if k > key(tmp) {
          ctx, t := Descend(k, ctx, t);
          tmp := cells[tmp].right;
        } else {
          Regroup(Before(ctx), Inorder(t.left), [tmp], Inorder(t.right), After(ctx));
          LeastFrom(key, k, Before(ctx) + Inorder(t.left), tmp, Inorder(t.right) + After(ctx), Inorder(tree));
          return tmp;
        }
      }
      FocusCells(cells, root, ctx, t);
      FirstAfter(key, k, ctx, Inorder(tree));
    }

    /** The next node in order, or NULL after the last one. */
    method Next(n: Ptr, ghost i: nat) returns (r: Ptr)
      requires Valid() && i < |Inorder(tree)| && Inorder(tree)[i] == n
      ensures r == if i + 1 < |Inorder(tree)| then Inorder(tree)[i + 1] else NULL
    {
      InorderIds(tree, n);
      ghost var ctx, t := Find(cells, root, Top, tree, n);
      ghost var b, a := Before(ctx) + Inorder(t.left), Inorder(t.right) + After(ctx);
      WholePlug(ctx, t);
      Regroup(Before(ctx), Inorder(t.left), [n], Inorder(t.right), After(ctx));
      OnlyPlace(key, Inorder(tree), i, |b|);
      FocusCells(cells, root, ctx, t);
      if cells[n].right != NULL {
        ghost var spine, m;
        r, spine, m := Successor(n, ctx, t);
        RightSubtreeOrder(spine, m);
      } else {
        r := ClimbRight(n, ctx, t);
      }
    }

    method ClimbRight(n: Ptr, ghost ctx0: Context, ghost t0: Tree) returns (r: Ptr)
      requires Located(cells, root, ctx0, t0) && t0.Node? && t0.id == n
      ensures r == if After(ctx0) == [] then NULL else After(ctx0)[0]
    {
      var elm := n;
      ghost var ctx, t := ctx0, t0;
      FocusCells(cells, root, ctx, t);
      while cells[elm].parent != NULL && cells[cells[elm].parent].right == elm
        invariant Located(cells, root, ctx, t) && t.Node? && t.id == elm && After(ctx) == After(ctx0)
        invariant elm in cells && cells[elm].parent == ParentOf(ctx)
        invariant ctx.Under? ==> ctx.id in cells && ctx.id != NULL && (cells[ctx.id].right == elm <==> ctx.side.Right?)
        decreases Depth(ctx)
      {
        FocusUp(cells, root, ctx, t);
        elm, ctx, t := cells[elm].parent, ctx.up, Mk(ctx.side, ctx.id, ctx.red, t, ctx.other);
        FocusCells(cells, root, ctx, t);
      }
      r := cells[elm].parent;
    }
  }
}
