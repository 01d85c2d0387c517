/** libuv's binary heap of linked nodes (src/heap-inl.h). The nodes stand for a complete tree in level order: node 1 is
    the root and node i has the children 2i and 2i+1. */
module BinaryHeap {

  type Ptr = nat
  const NULL: Ptr := 0

  datatype Cell = Cell(left: Ptr, right: Ptr, parent: Ptr)
  type Cells = map<Ptr, Cell>

  /** The i-th node in level order, counted from 1; NULL beyond the last. */
  function Nth(a: seq<Ptr>, i: int): Ptr {
    if 1 <= i <= |a| then a[i - 1] else NULL
  }

  function CellOf(a: seq<Ptr>, i: int): Cell {
    Cell(Nth(a, 2 * i), Nth(a, 2 * i + 1), Nth(a, i / 2))
  }

  ghost predicate Distinct(a: seq<Ptr>) {
    && (forall i :: 1 <= i <= |a| ==> Nth(a, i) != NULL)
    && (forall i, j :: 1 <= i < j <= |a| ==> Nth(a, i) != Nth(a, j))
  }

  ghost predicate HoldsAt(c: Cells, a: seq<Ptr>, i: int) {
    Nth(a, i) in c && c[Nth(a, i)] == CellOf(a, i)
  }

  /** The cells under `min` hold the complete tree `a`. */
  ghost predicate Holds(c: Cells, min: Ptr, a: seq<Ptr>) {
    && min == Nth(a, 1) && Distinct(a)
    && forall i :: 1 <= i <= |a| ==> HoldsAt(c, a, i)
  }

  // ----- the path to a slot ----------------------------------------------------------------------------------------

  /** n shifted right by k. */
  function Shifted(n: nat, k: nat): nat {
    if k == 0 then n else Shifted(n / 2, k - 1)
  }

  lemma {:induction false} ShiftedStep(n: nat, k: nat)
    ensures Shifted(n, k + 1) == Shifted(n, k) / 2
  {
    if k > 0 {
      ShiftedStep(n / 2, k - 1);
    }
  }

  /** The k lowest bits of n in reverse. */
  function Path(n: nat, k: nat): nat {
    if k == 0 then 0 else 2 * Path(n, k - 1) + Shifted(n, k - 1) % 2
  }

  /** The bits of a slot's number below the first, lowest bit last to be used. */
  method PathTo(slot: nat) returns (k: nat, path: nat)
    requires slot >= 1
    ensures path == Path(slot, k) && Shifted(slot, k) == 1
  {
    path, k := 0, 0;
    var n := slot;
    while n >= 2
      invariant n >= 1 && n == Shifted(slot, k) && path == Path(slot, k)
    {
      path := 2 * path + n % 2;
      ShiftedStep(slot, k);
      k, n := k + 1, n / 2;
    }
  }

  // ----- swapping --------------------------------------------------------------------------------------------------

  function Swapped(a: seq<Ptr>, i: int, j: int): seq<Ptr>
    requires 1 <= i <= |a| && 1 <= j <= |a|
  {
    a[i - 1 := a[j - 1]][j - 1 := a[i - 1]]
  }

  lemma NthSwapped(a: seq<Ptr>, i: int, j: int, k: int)
    requires 1 <= i <= |a| && 1 <= j <= |a|
    ensures Nth(Swapped(a, i, j), k) == if k == i then Nth(a, j) else if k == j then Nth(a, i) else Nth(a, k)
  {
  }

  lemma SwappedDistinct(a: seq<Ptr>, i: int, j: int)
    requires Distinct(a) && 1 <= i < j <= |a|
    ensures Distinct(Swapped(a, i, j)) && multiset(Swapped(a, i, j)) == multiset(a)
  {
    forall k | 1 <= k <= |a| ensures Nth(Swapped(a, i, j), k) != NULL {
      NthSwapped(a, i, j, k);
    }
    forall k, l | 1 <= k < l <= |a| ensures Nth(Swapped(a, i, j), k) != Nth(Swapped(a, i, j), l) {
      NthSwapped(a, i, j, k);
      NthSwapped(a, i, j, l);
    }
  }

  /** The pointers that a swap of node p with its child q follows. */
  ghost predicate Around(c: Cells, a: seq<Ptr>, p: int, q: int) {
    && 1 <= p < q <= |a| && q / 2 == p && Distinct(a)
    && (forall i :: 1 <= i <= |a| ==> HoldsAt(c, a, i))
  }

  ghost predicate SwapDone(c: Cells, d: Cells, a: seq<Ptr>, p: int, q: int)
    requires 1 <= p <= |a| && 1 <= q <= |a| && forall i :: 1 <= i <= |a| ==> Nth(a, i) in c
  {
    var x, y := Nth(a, p), Nth(a, q);
    && x in d && y in d && d[y] == CellOf(Swapped(a, p, q), p) && d[x] == CellOf(Swapped(a, p, q), q)
    && forall i :: 1 <= i <= |a| && i != p && i != q ==>
         Nth(a, i) in d && d[Nth(a, i)] == CellOf(Swapped(a, p, q), i)
  }

  lemma SwapDoneHolds(c: Cells, d: Cells, a: seq<Ptr>, p: int, q: int)
    requires Around(c, a, p, q) && (forall i :: 1 <= i <= |a| ==> Nth(a, i) in c) && SwapDone(c, d, a, p, q)
    ensures forall i :: 1 <= i <= |a| ==> HoldsAt(d, Swapped(a, p, q), i)
  {
    forall i | 1 <= i <= |a| ensures HoldsAt(d, Swapped(a, p, q), i) {
      NthSwapped(a, p, q, i);
    }
  }

  /** Where a node's pointers lead after the swap: to the other one of the two where they led to one of them. */
  lemma CellAfterSwap(a: seq<Ptr>, p: int, q: int, i: int)
    requires Distinct(a) && 1 <= p < q <= |a| && q / 2 == p && 1 <= i <= |a| && i != p && i != q
    ensures var x, y := Nth(a, p), Nth(a, q);
            CellOf(Swapped(a, p, q), i)
              == Cell(if 2 * i == p then y else Nth(a, 2 * i), if 2 * i + 1 == p then y else Nth(a, 2 * i + 1),
                      if i / 2 == p then y else if i / 2 == q then x else Nth(a, i / 2))
  {
    NthSwapped(a, p, q, 2 * i);
    NthSwapped(a, p, q, 2 * i + 1);
    NthSwapped(a, p, q, i / 2);
  }

  lemma CellsOfSwapped(a: seq<Ptr>, p: int, q: int)
    requires Distinct(a) && 1 <= p < q <= |a| && q / 2 == p
    ensures var x, y := Nth(a, p), Nth(a, q);
            && CellOf(Swapped(a, p, q), q) == Cell(Nth(a, 2 * q), Nth(a, 2 * q + 1), y)
            && CellOf(Swapped(a, p, q), p)
                 == Cell(if q == 2 * p then x else Nth(a, 2 * p), if q == 2 * p + 1 then x else Nth(a, 2 * p + 1), Nth(a, p / 2))
  {
    NthSwapped(a, p, q, 2 * q);
    NthSwapped(a, p, q, 2 * q + 1);
    NthSwapped(a, p, q, p);
    NthSwapped(a, p, q, 2 * p);
    NthSwapped(a, p, q, 2 * p + 1);
    NthSwapped(a, p, q, p / 2);
  }

  lemma NthInjective(a: seq<Ptr>, i: int, j: int)
    requires Distinct(a) && 1 <= i <= |a|
    ensures Nth(a, i) == Nth(a, j) <==> i == j
  {
  }

  // ----- order -----------------------------------------------------------------------------------------------------

  ghost predicate InOrderAt(key: Ptr -> int, a: seq<Ptr>, i: int) {
    key(Nth(a, i / 2)) <= key(Nth(a, i))
  }

  ghost predicate MinHeap(key: Ptr -> int, a: seq<Ptr>) {
    forall i :: 2 <= i <= |a| ==> InOrderAt(key, a, i)
  }

  lemma {:induction false} RootIsLeast(key: Ptr -> int, a: seq<Ptr>, i: int)
    requires MinHeap(key, a) && 1 <= i <= |a|
    ensures key(Nth(a, 1)) <= key(Nth(a, i))
    decreases i
  {
    if i > 1 {
      assert InOrderAt(key, a, i);
      RootIsLeast(key, a, i / 2);
    }
  }

  /** In order everywhere, except that node i may be too small for its parent. */
  ghost predicate OrderedButUp(key: Ptr -> int, a: seq<Ptr>, i: int) {
    && (forall j :: 2 <= j <= |a| && j != i ==> InOrderAt(key, a, j))
    && (forall j :: 2 <= j <= |a| && j / 2 == i && i >= 2 ==> key(Nth(a, i / 2)) <= key(Nth(a, j)))
  }

  /** In order everywhere, except that node i may be too large for its children. */
  ghost predicate OrderedButDown(key: Ptr -> int, a: seq<Ptr>, i: int) {
    && (forall j :: 2 <= j <= |a| && j / 2 != i && j != i ==> InOrderAt(key, a, j))
    && (forall j :: 2 <= j <= |a| && j / 2 == i && i >= 2 ==> key(Nth(a, i / 2)) <= key(Nth(a, j)))
  }

  lemma UpStep(key: Ptr -> int, a: seq<Ptr>, i: int)
    requires 2 <= i <= |a| && OrderedButUp(key, a, i) && key(Nth(a, i)) < key(Nth(a, i / 2))
    ensures OrderedButUp(key, Swapped(a, i / 2, i), i / 2)
  {
    var p, b := i / 2, Swapped(a, i / 2, i);
    forall j | 2 <= j <= |b| ensures j != p ==> InOrderAt(key, b, j) {
      NthSwapped(a, p, i, j);
      NthSwapped(a, p, i, j / 2);
      if j != i { assert InOrderAt(key, a, j); }
    }
    forall j | 2 <= j <= |b| && j / 2 == p && p >= 2 ensures key(Nth(b, p / 2)) <= key(Nth(b, j)) {
      NthSwapped(a, p, i, j);
      NthSwapped(a, p, i, p / 2);
      assert InOrderAt(key, a, p);
      if j != i { assert InOrderAt(key, a, j); }
    }
  }

  lemma UpDone(key: Ptr -> int, a: seq<Ptr>, i: int)
    requires 1 <= i <= |a| && OrderedButUp(key, a, i) && (i == 1 || key(Nth(a, i / 2)) <= key(Nth(a, i)))
    ensures MinHeap(key, a)
  {
  }

  /** Node i goes down by swapping with its least child c. */
  lemma DownStep(key: Ptr -> int, a: seq<Ptr>, i: int, c: int)
    requires 1 <= i <= |a| && c / 2 == i && 2 <= c <= |a| && OrderedButDown(key, a, i)
    requires key(Nth(a, c)) < key(Nth(a, i))
    requires forall j :: 2 <= j <= |a| && j / 2 == i ==> key(Nth(a, c)) <= key(Nth(a, j))
    ensures OrderedButDown(key, Swapped(a, i, c), c) && (i >= 2 ==> InOrderAt(key, Swapped(a, i, c), i))
  {
    var b := Swapped(a, i, c);
    forall j | 2 <= j <= |b| ensures j / 2 != c && j != c ==> InOrderAt(key, b, j) {
      NthSwapped(a, i, c, j);
      NthSwapped(a, i, c, j / 2);
      if j / 2 != i && j != i { assert InOrderAt(key, a, j); }
    }
    forall j | 2 <= j <= |b| && j / 2 == c ensures key(Nth(b, c / 2)) <= key(Nth(b, j)) {
      NthSwapped(a, i, c, j);
      NthSwapped(a, i, c, c / 2);
      assert InOrderAt(key, a, j);
    }
  }

  class Heap {
    var min: Ptr
    var nelts: nat
    var cells: Cells
    const key: Ptr -> int
    ghost var a: seq<Ptr>

    ghost predicate Linked()
      reads this
    {
      Holds(cells, min, a) && nelts == |a|
    }

    ghost predicate Valid()
      reads this
    {
      Linked() && MinHeap(key, a)
    }

    constructor (key: Ptr -> int)
      ensures Valid() && a == [] && this.key == key
    {
      min, nelts, cells, a := NULL, 0, map[], [];
      this.key := key;
    }

    /** The child moves closer to the root, the parent away from it. */
    method NodeSwap(parent: Ptr, child: Ptr, ghost p: int, ghost q: int)
      requires Linked() && 1 <= p < q <= |a| && q / 2 == p && parent == Nth(a, p) && child == Nth(a, q)
      modifies this`min, this`cells, this`a
      ensures Linked() && a == Swapped(old(a), p, q)
    {
      ghost var c := cells;
      assert HoldsAt(c, a, p) && HoldsAt(c, a, q);
      NthInjective(a, p, q);
      SwapOwnCells(parent, child, p, q);
      RedirectNeighbours(c, parent, child, p, q);
      SwapDoneHolds(c, cells, a, p, q);
      SwappedDistinct(a, p, q);
      NthSwapped(a, p, q, 1);
      a := Swapped(a, p, q);
    }

    method SwapOwnCells(parent: Ptr, child: Ptr, ghost p: int, ghost q: int)
      requires Holds(cells, min, a) && 1 <= p < q <= |a| && q / 2 == p && parent == Nth(a, p) && child == Nth(a, q)
      modifies this`cells
      ensures cells == old(cells)[child := CellOf(Swapped(a, p, q), p)][parent := CellOf(Swapped(a, p, q), q)]
    {
      CellsOfSwapped(a, p, q);
      assert HoldsAt(cells, a, p) && HoldsAt(cells, a, q);
      NthInjective(a, q, p);
      NthInjective(a, q, 2 * p);
      NthInjective(a, q, 2 * p + 1);
      var t := cells[parent];
      cells := cells[parent := cells[child]];
      cells := cells[child := t];
      cells := cells[parent := cells[parent].(parent := child)];
      if cells[child].left == child {
        cells := cells[child := cells[child].(left := parent)];
      } else {
        cells := cells[child := cells[child].(right := parent)];
      }
    }

    /** The sibling, the child's children and the grandparent still point at the one that moved away. */
    method RedirectNeighbours(ghost c: Cells, parent: Ptr, child: Ptr, ghost p: int, ghost q: int)
      requires Holds(c, min, a) && 1 <= p < q <= |a| && q / 2 == p && parent == Nth(a, p) && child == Nth(a, q)
      requires cells == c[child := CellOf(Swapped(a, p, q), p)][parent := CellOf(Swapped(a, p, q), q)]
      modifies this`cells, this`min
      ensures forall i :: 1 <= i <= |a| ==> Nth(a, i) in c
      ensures SwapDone(c, cells, a, p, q) && min == Nth(Swapped(a, p, q), 1)
    {
      assert forall i :: 1 <= i <= |a| ==> HoldsAt(c, a, i);
      CellsOfSwapped(a, p, q);
      ghost var sib := if q == 2 * p then 2 * p + 1 else 2 * p;
      OthersDiffer(a, p, q, sib);
      NeighboursKnown(c, a, p, q, sib);
      ghost var d := cells;
      var sibling := if cells[child].left == parent then cells[child].right else cells[child].left;
      RedirectPointers(parent, child, sibling, cells[parent].left, cells[parent].right, cells[child].parent);
      NthSwapped(a, p, q, 1);
      RedirectedRight(c, d, cells, a, p, q, sib);
    }

    method RedirectPointers(parent: Ptr, child: Ptr, sibling: Ptr, l: Ptr, r: Ptr, above: Ptr)
      requires NeighboursApart(parent, child, sibling, l, r, above)
      requires forall n :: n in {sibling, l, r, above} && n != NULL ==> n in cells
      modifies this`cells, this`min
      ensures AllFixed(old(cells), cells, parent, child, sibling, l, r, above)
      ensures min == if above == NULL then child else old(min)
    {
      if sibling != NULL {
        cells := cells[sibling := cells[sibling].(parent := child)];
      }
      if l != NULL {
        cells := cells[l := cells[l].(parent := parent)];
      }
      if r != NULL {
        cells := cells[r := cells[r].(parent := parent)];
      }
      if above == NULL {
        min := child;
      } else if cells[above].left == parent {
        cells := cells[above := cells[above].(left := child)];
      } else {
        cells := cells[above := cells[above].(right := child)];
      }
    }

    /** Follows the path bits to a slot of the tree, the next free one at most: the owner of the slot and its side. */
    method FindSlot(slot: nat) returns (owner: Ptr, right: bool)
      requires Linked() && 1 <= slot <= |a| + 1
      ensures slot == 1 ==> owner == NULL
      ensures slot > 1 ==> owner == Nth(a, slot / 2) && right == (slot % 2 == 1)
    {
      var k, path := PathTo(slot);
      var here := min;
      owner, right := NULL, false;
      while k > 0
        invariant path == Path(slot, k) && Shifted(slot, k) >= 1 && here == Nth(a, Shifted(slot, k))
        invariant Shifted(slot, k) == 1 || (owner == Nth(a, Shifted(slot, k) / 2) && right == (Shifted(slot, k) % 2 == 1))
        invariant Shifted(slot, k) == 1 ==> owner == NULL
      {
        ShiftedStep(slot, k - 1);
        ShiftedBound(slot, k);
        assert HoldsAt(cells, a, Shifted(slot, k));
        owner, right := here, path % 2 == 1;
        here := if right then cells[here].right else cells[here].left;
        path, k := path / 2, k - 1;
      }
    }

    /** Sets the slot on one side of its owner, or the root. */
    method SetSlot(owner: Ptr, right: bool, n: Ptr)
      requires owner != NULL ==> owner in cells
      modifies this`min, this`cells
      ensures owner == NULL ==> min == n && cells == old(cells)
      ensures owner != NULL ==> min == old(min)
      ensures owner != NULL ==>
                cells == old(cells)[owner := if right then old(cells)[owner].(right := n) else old(cells)[owner].(left := n)]
    {
      if owner == NULL {
        min := n;
      } else if right {
        cells := cells[owner := cells[owner].(right := n)];
      } else {
        cells := cells[owner := cells[owner].(left := n)];
      }
    }

    /** Up as long as the node is smaller than its parent. */
    method SiftUp(n: Ptr, ghost at: int)
      requires Linked() && 1 <= at <= |a| && n == Nth(a, at) && OrderedButUp(key, a, at)
      modifies this`min, this`cells, this`a
      ensures Valid() && multiset(a) == multiset(old(a))
    {
      ghost var i := at;
      assert HoldsAt(cells, a, i);
      while cells[n].parent != NULL && key(n) < key(cells[n].parent)
        invariant Linked() && 1 <= i <= |a| && n == Nth(a, i) && OrderedButUp(key, a, i) && multiset(a) == multiset(old(a))
        invariant n in cells && cells[n].parent == Nth(a, i / 2) && |a| == |old(a)|
        decreases i
      {
        UpStep(key, a, i);
        SwappedDistinct(a, i / 2, i);
        NthSwapped(a, i / 2, i, i / 2);
        NodeSwap(cells[n].parent, n, i / 2, i);
        i := i / 2;
        assert HoldsAt(cells, a, i);
      }
      UpDone(key, a, i);
    }

    method Insert(n: Ptr)
      requires Valid() && n != NULL && n !in a
      modifies this
      ensures Valid() && multiset(a) == multiset(old(a)) + multiset{n} && nelts == old(nelts) + 1
    {
      var owner, right := FindSlot(1 + nelts);
      Append(n, owner, right);
      AppendOrdered(key, old(a), n);
      SiftUp(n, |a|);
    }

    /** Takes out a node: the last node of the tree takes its place and moves down or up to where it belongs. */
    method Remove(n: Ptr)
      requires Valid() && (nelts > 0 ==> n in a)
      modifies this
      ensures Valid() && multiset(a) == multiset(old(a)) - multiset{n} && |a| == if old(nelts) == 0 then 0 else old(nelts) - 1
    {
      if nelts == 0 {
        assert a == [];
        return;
      }
      DroppedHeap(key, a);
      var child := UnlinkLast();
      assert old(a) == a + [child];
      if child == n {
        return;
      }
      PutInPlace(n, child, old(a));
    }

    method PutInPlace(n: Ptr, child: Ptr, ghost before: seq<Ptr>)
      requires Valid() && child != NULL && child !in a && n in before && n != child && before == a + [child]
      modifies this`min, this`cells, this`a
      ensures Valid() && multiset(a) == multiset(before) - multiset{n} && |a| == |before| - 1
    {
      ghost var i := PlaceOf(a, n);
      assert a == before[..|before| - 1];
      RemovedContents(before, a, i, n);
      ReplacedOrder(key, a, i, child);
      Replace(n, child, i);
      ghost var at := SiftDown(child, i);
      SiftUp(child, at);
    }

    /** Cuts the last node off; its cell stays as it was. */
    method UnlinkLast() returns (child: Ptr)
      requires Linked() && nelts > 0
      modifies this
      ensures Linked() && a == old(a)[..|old(a)| - 1] && child == Nth(old(a), |old(a)|) && child != NULL && child !in a
      ensures child in cells
    {
      ghost var c, slot := cells, |a|;
      var owner, right := FindSlot(nelts);
      assert HoldsAt(c, a, slot) && (slot > 1 ==> HoldsAt(c, a, slot / 2));
      child := if owner == NULL then min else if right then cells[owner].right else cells[owner].left;
      nelts := nelts - 1;
      SetSlot(owner, right, NULL);
      DroppedDistinct(a);
      ghost var b := a[..slot - 1];
      forall i | 1 <= i < slot ensures HoldsAt(cells, b, i) {
        DroppedCell(a, i);
        assert HoldsAt(c, a, i);
        NthInjective(a, i, slot / 2);
      }
      a := b;
    }

    /** Lets a node from outside take the place of node i. */
    method Replace(n: Ptr, child: Ptr, ghost i: int)
      requires Linked() && 1 <= i <= |a| && n == Nth(a, i) && child != NULL && child !in a
      modifies this`min, this`cells, this`a
      ensures Linked() && a == old(a)[i - 1 := child]
    {
      ghost var c, b := cells, a[i - 1 := child];
      assert HoldsAt(c, a, i);
      NodeDiffers(c, a, i, child);
      ReplacePointers(n, child, cells[n].left, cells[n].right, cells[n].parent);
      ReplacedDistinct(a, i, child);
      forall j | 1 <= j <= |a| ensures HoldsAt(cells, b, j) {
        ReplacedAt(c, cells, a, i, child, j);
      }
      a := b;
    }

    method ReplacePointers(n: Ptr, child: Ptr, l: Ptr, r: Ptr, above: Ptr)
      requires n in cells && cells[n] == Cell(l, r, above) && child != n && child !in {l, r, above} && n !in {l, r, above}
      requires (l != NULL ==> l !in {r, above}) && (r != NULL ==> r != above)
      requires forall m :: m in {l, r, above} && m != NULL ==> m in cells
      modifies this`cells, this`min
      ensures AllReplaced(old(cells), cells, n, child, l, r, above) && min == if above == NULL then child else old(min)
    {
      cells := cells[child := Cell(cells[n].left, cells[n].right, cells[n].parent)];
      if cells[child].left != NULL {
        cells := cells[cells[child].left := cells[cells[child].left].(parent := child)];
      }
      if cells[child].right != NULL {
        cells := cells[cells[child].right := cells[cells[child].right].(parent := child)];
      }
      if cells[n].parent == NULL {
        min := child;
      } else if cells[cells[n].parent].left == n {
        cells := cells[cells[n].parent := cells[cells[n].parent].(left := child)];
      } else {
        cells := cells[cells[n].parent := cells[cells[n].parent].(right := child)];
      }
    }

    /** Down, past the smaller child, as long as one is smaller. */
    method SiftDown(child: Ptr, ghost start: int) returns (ghost at: int)
      requires Linked() && 1 <= start <= |a| && child == Nth(a, start) && OrderedButDown(key, a, start)
      modifies this`min, this`cells, this`a
      ensures Linked() && 1 <= at <= |a| && child == Nth(a, at) && OrderedButUp(key, a, at) && multiset(a) == multiset(old(a))
      ensures |a| == |old(a)|
    {
      at := start;
      var done := false;
      while !done
        invariant Linked() && 1 <= at <= |a| && child == Nth(a, at) && multiset(a) == multiset(old(a)) && |a| == |old(a)|
        invariant if done then OrderedButUp(key, a, at) else OrderedButDown(key, a, at)
        decreases !done, |a| - at
      {
        assert HoldsAt(cells, a, at);
        var smallest := child;
        ghost var s := at;
        if cells[child].left != NULL && key(cells[child].left) < key(smallest) {
          smallest, s := cells[child].left, 2 * at;
        }
        if cells[child].right != NULL && key(cells[child].right) < key(smallest) {
          smallest, s := cells[child].right, 2 * at + 1;
        }
        LeastOfThree(key, a, at, s);
        if smallest == child {
          NthInjective(a, at, s);
          DownDone(key, a, at);
          done := true;
        } else {
          DownStep(key, a, at, s);
          SwappedDistinct(a, at, s);
          NthSwapped(a, at, s, s);
          NodeSwap(child, smallest, at, s);
          at := s;
        }
      }
    }

    /** Links the new node into the free slot. */
    method Append(n: Ptr, owner: Ptr, right: bool)
      requires Linked() && n != NULL && n !in a
      requires if nelts == 0 then owner == NULL else owner == Nth(a, (nelts + 1) / 2) && right == ((nelts + 1) % 2 == 1)
      modifies this
      ensures Linked() && a == old(a) + [n]
    {
      ghost var c, slot := cells, |a| + 1;
      assert nelts > 0 ==> HoldsAt(c, a, slot / 2);
      cells := cells[n := Cell(NULL, NULL, owner)];
      SetSlot(owner, right, n);
      nelts := nelts + 1;
      AppendedDistinct(a, n);
      forall i | 1 <= i <= slot ensures HoldsAt(cells, a + [n], i) {
        AppendedCell(a, n, i);
        if i < slot {
          assert HoldsAt(c, a, i);
          NthInjective(a, i, slot / 2);
        }
      }
      a := a + [n];
    }
  }

  lemma PlaceOf(a: seq<Ptr>, n: Ptr) returns (i: int)
    requires n in a
    ensures 1 <= i <= |a| && Nth(a, i) == n
  {
    var k :| 0 <= k < |a| && a[k] == n;
    i := k + 1;
  }

  lemma DroppedCell(a: seq<Ptr>, i: int)
    requires 1 <= i < |a|
    ensures var b, slot := a[..|a| - 1], |a|;
            && Nth(b, i) == Nth(a, i)
            && (i != slot / 2 ==> CellOf(b, i) == CellOf(a, i))
            && (i == slot / 2 ==>
                  CellOf(b, i) == if slot % 2 == 1 then CellOf(a, i).(right := NULL) else CellOf(a, i).(left := NULL))
  {
  }

  lemma DroppedDistinct(a: seq<Ptr>)
    requires Distinct(a) && a != []
    ensures Distinct(a[..|a| - 1]) && Nth(a, |a|) !in a[..|a| - 1]
  {
    var b := a[..|a| - 1];
    forall i | 1 <= i <= |b| ensures Nth(b, i) == Nth(a, i) && Nth(b, i) != Nth(a, |a|) {
    }
    forall k | 0 <= k < |b| ensures b[k] != Nth(a, |a|) {
      assert b[k] == Nth(b, k + 1);
    }
  }

  /** Node i of a tree is replaced by a node from outside. */
  lemma ReplacedDistinct(b: seq<Ptr>, i: int, x: Ptr)
    requires Distinct(b) && 1 <= i <= |b| && x != NULL && x !in b
    ensures Distinct(b[i - 1 := x])
    ensures multiset(b[i - 1 := x]) == multiset(b) - multiset{Nth(b, i)} + multiset{x}
  {
    var d := b[i - 1 := x];
    forall j | 1 <= j <= |d| ensures Nth(d, j) == (if j == i then x else Nth(b, j)) && Nth(b, j) != x {
      assert b[j - 1] in b;
    }
  }

  lemma ReplacedCell(b: seq<Ptr>, i: int, x: Ptr, j: int)
    requires Distinct(b) && 1 <= i <= |b| && 1 <= j <= |b|
    ensures var d := b[i - 1 := x];
            && Nth(d, j) == (if j == i then x else Nth(b, j))
            && (j == i ==> CellOf(d, j) == CellOf(b, i))
            && (j != i && j / 2 == i ==> CellOf(d, j) == CellOf(b, j).(parent := x))
            && (j != i && 2 * j == i ==> CellOf(d, j) == CellOf(b, j).(left := x))
            && (j != i && 2 * j + 1 == i ==> CellOf(d, j) == CellOf(b, j).(right := x))
            && (j != i && j / 2 != i && 2 * j != i && 2 * j + 1 != i ==> CellOf(d, j) == CellOf(b, j))
  {
  }

  lemma DroppedHeap(key: Ptr -> int, a: seq<Ptr>)
    requires MinHeap(key, a) && a != []
    ensures MinHeap(key, a[..|a| - 1])
  {
    var b := a[..|a| - 1];
    forall j | 2 <= j <= |b| ensures InOrderAt(key, b, j) {
      assert InOrderAt(key, a, j);
    }
  }

  lemma ReplacedOrder(key: Ptr -> int, b: seq<Ptr>, i: int, x: Ptr)
    requires MinHeap(key, b) && 1 <= i <= |b|
    ensures OrderedButDown(key, b[i - 1 := x], i)
  {
    var d := b[i - 1 := x];
    forall j | 2 <= j <= |d| && j / 2 != i && j != i ensures InOrderAt(key, d, j) {
      assert InOrderAt(key, b, j);
    }
    forall j | 2 <= j <= |d| && j / 2 == i && i >= 2 ensures key(Nth(d, i / 2)) <= key(Nth(d, j)) {
      assert InOrderAt(key, b, j) && InOrderAt(key, b, i);
    }
  }

  lemma DownDone(key: Ptr -> int, a: seq<Ptr>, i: int)
    requires 1 <= i <= |a| && OrderedButDown(key, a, i)
    requires forall j :: 2 <= j <= |a| && j / 2 == i ==> key(Nth(a, i)) <= key(Nth(a, j))
    ensures OrderedButUp(key, a, i)
  {
    forall j | 2 <= j <= |a| && j != i ensures InOrderAt(key, a, j) {
    }
  }

  lemma LastForOne(l: seq<Ptr>, n: Ptr, r: seq<Ptr>, x: Ptr)
    ensures multiset(l + [x] + r) == multiset(l + [n] + r + [x]) - multiset{n}
  {
  }

  lemma RemovedContents(a: seq<Ptr>, b: seq<Ptr>, i: int, n: Ptr)
    requires a != [] && b == a[..|a| - 1] && 1 <= i <= |b| && Nth(b, i) == n
    ensures multiset(b[i - 1 := Nth(a, |a|)]) == multiset(a) - multiset{n}
  {
    var x, l, r := Nth(a, |a|), b[..i - 1], b[i..];
    assert a == l + [n] + r + [x] && b[i - 1 := x] == l + [x] + r;
    LastForOne(l, n, r, x);
  }

  /** The new node has the old one's cell, and the neighbours point at it. */
  ghost predicate AllReplaced(c: Cells, d: Cells, n: Ptr, x: Ptr, l: Ptr, r: Ptr, g: Ptr) {
    && x in d && d[x] == Cell(l, r, g)
    && forall m :: m in c && m != x ==> m in d && d[m] == Repointed(c[m], m, n, x, l, r, g)
  }

  function Repointed(cell: Cell, m: Ptr, n: Ptr, x: Ptr, l: Ptr, r: Ptr, g: Ptr): Cell {
    if m == NULL then cell
    else if m == l || m == r then cell.(parent := x)
    else if m == g then (if cell.left == n then cell.(left := x) else cell.(right := x))
    else cell
  }

  lemma ReplacedAt(c: Cells, d: Cells, a: seq<Ptr>, i: int, x: Ptr, j: int)
    requires Distinct(a) && 1 <= i <= |a| && 1 <= j <= |a| && x != NULL && x !in a && HoldsAt(c, a, j)
    requires AllReplaced(c, d, Nth(a, i), x, Nth(a, 2 * i), Nth(a, 2 * i + 1), Nth(a, i / 2))
    ensures HoldsAt(d, a[i - 1 := x], j)
  {
    ReplacedCell(a, i, x, j);
    assert a[j - 1] in a;
    NthInjective(a, j, i);
    NthInjective(a, j, 2 * i);
    NthInjective(a, j, 2 * i + 1);
    NthInjective(a, j, i / 2);
    NthInjective(a, i, 2 * j);
    NthInjective(a, i, 2 * j + 1);
  }

  /** The node that the two comparisons choose is not larger than either child. */
  lemma LeastOfThree(key: Ptr -> int, a: seq<Ptr>, i: int, s: int)
    requires 1 <= i <= |a| && s in {i, 2 * i, 2 * i + 1}
    requires Nth(a, 2 * i) != NULL ==> key(Nth(a, s)) <= key(Nth(a, 2 * i))
    requires Nth(a, 2 * i + 1) != NULL ==> key(Nth(a, s)) <= key(Nth(a, 2 * i + 1))
    requires Distinct(a)
    ensures forall j :: 2 <= j <= |a| && j / 2 == i ==> key(Nth(a, s)) <= key(Nth(a, j))
  {
  }

  lemma NodeDiffers(c: Cells, a: seq<Ptr>, i: int, x: Ptr)
    requires Distinct(a) && (forall j :: 1 <= j <= |a| ==> HoldsAt(c, a, j)) && 1 <= i <= |a| && x != NULL && x !in a
    ensures forall j :: 1 <= j <= |a| ==> Nth(a, j) != x && Nth(a, j) in c
    ensures Nth(a, 2 * i) != NULL ==> Nth(a, 2 * i) !in {Nth(a, i), Nth(a, 2 * i + 1), Nth(a, i / 2)}
    ensures Nth(a, 2 * i + 1) != NULL ==> Nth(a, 2 * i + 1) !in {Nth(a, i), Nth(a, i / 2)}
    ensures Nth(a, i / 2) != Nth(a, i)
  {
    forall j | 1 <= j <= |a| ensures Nth(a, j) != x && Nth(a, j) in c {
      assert a[j - 1] in a && HoldsAt(c, a, j);
    }
  }

  ghost predicate NeighboursApart(x: Ptr, y: Ptr, s: Ptr, l: Ptr, r: Ptr, g: Ptr) {
    && (s != NULL ==> s !in {l, r, g}) && (l != NULL ==> l !in {r, g}) && (r != NULL ==> r != g)
  }

  /** A cell after its node was told that x and y changed places. */
  function Fixed(cell: Cell, n: Ptr, x: Ptr, y: Ptr, s: Ptr, l: Ptr, r: Ptr, g: Ptr): Cell {
    if n == NULL then cell
    else if n == s then cell.(parent := y)
    else if n == l || n == r then cell.(parent := x)
    else if n == g then (if cell.left == x then cell.(left := y) else cell.(right := y))
    else cell
  }

  lemma NeighboursKnown(c: Cells, a: seq<Ptr>, p: int, q: int, sib: int)
    requires (forall i :: 1 <= i <= |a| ==> HoldsAt(c, a, i)) && 1 <= p < q <= |a| && q / 2 == p
    ensures forall i :: i in {sib, 2 * q, 2 * q + 1, p / 2} && Nth(a, i) != NULL ==> Nth(a, i) in c
  {
    forall i | 1 <= i <= |a| ensures Nth(a, i) in c {
      assert HoldsAt(c, a, i);
    }
  }

  ghost predicate AllFixed(d: Cells, e: Cells, x: Ptr, y: Ptr, s: Ptr, l: Ptr, r: Ptr, g: Ptr) {
    forall n :: n in d ==> n in e && e[n] == Fixed(d[n], n, x, y, s, l, r, g)
  }

  lemma RedirectedRight(c: Cells, d: Cells, e: Cells, a: seq<Ptr>, p: int, q: int, sib: int)
    requires Distinct(a) && (forall i :: 1 <= i <= |a| ==> HoldsAt(c, a, i)) && 1 <= p < q <= |a| && q / 2 == p
    requires sib == if q == 2 * p then 2 * p + 1 else 2 * p
    requires d == c[Nth(a, q) := CellOf(Swapped(a, p, q), p)][Nth(a, p) := CellOf(Swapped(a, p, q), q)]
    requires AllFixed(d, e, Nth(a, p), Nth(a, q), Nth(a, sib), Nth(a, 2 * q), Nth(a, 2 * q + 1), Nth(a, p / 2))
    ensures (forall i :: 1 <= i <= |a| ==> Nth(a, i) in c) && SwapDone(c, e, a, p, q)
  {
    OthersDiffer(a, p, q, sib);
    forall i | 1 <= i <= |a| ensures Nth(a, i) in c {
      assert HoldsAt(c, a, i);
    }
    forall i | 1 <= i <= |a| && i != p && i != q ensures Nth(a, i) in e && e[Nth(a, i)] == CellOf(Swapped(a, p, q), i) {
      RedirectedAt(c, a, p, q, sib, i);
      NthInjective(a, i, p);
      NthInjective(a, i, q);
      assert Nth(a, i) in d && d[Nth(a, i)] == c[Nth(a, i)];
    }
  }

  lemma RedirectedAt(c: Cells, a: seq<Ptr>, p: int, q: int, sib: int, i: int)
    requires Distinct(a) && 1 <= p < q <= |a| && q / 2 == p && 1 <= i <= |a| && i != p && i != q && HoldsAt(c, a, i)
    requires sib == if q == 2 * p then 2 * p + 1 else 2 * p
    ensures Fixed(c[Nth(a, i)], Nth(a, i), Nth(a, p), Nth(a, q), Nth(a, sib), Nth(a, 2 * q), Nth(a, 2 * q + 1), Nth(a, p / 2))
         == CellOf(Swapped(a, p, q), i)
  {
    CellAfterSwap(a, p, q, i);
    NthInjective(a, i, sib);
    NthInjective(a, i, 2 * q);
    NthInjective(a, i, 2 * q + 1);
    NthInjective(a, i, p / 2);
    NthInjective(a, p, 2 * i);
    NthInjective(a, p, 2 * i + 1);
    NthInjective(a, p, i / 2);
  }

  lemma OthersDiffer(a: seq<Ptr>, p: int, q: int, sib: int)
    requires Distinct(a) && 1 <= p < q <= |a| && q / 2 == p && sib == if q == 2 * p then 2 * p + 1 else 2 * p
    ensures Nth(a, p) != Nth(a, q) && Nth(a, sib) != Nth(a, p) && Nth(a, sib) != Nth(a, q)
    ensures Nth(a, 2 * q) !in {Nth(a, p), Nth(a, q)} && Nth(a, 2 * q + 1) !in {Nth(a, p), Nth(a, q)}
    ensures Nth(a, p / 2) !in {Nth(a, p), Nth(a, q)}
    ensures Nth(a, sib) != NULL ==> Nth(a, sib) !in {Nth(a, 2 * q), Nth(a, 2 * q + 1), Nth(a, p / 2)}
    ensures Nth(a, 2 * q) != NULL ==> Nth(a, 2 * q) !in {Nth(a, 2 * q + 1), Nth(a, p / 2)}
    ensures Nth(a, 2 * q + 1) != NULL ==> Nth(a, 2 * q + 1) != Nth(a, p / 2)
    ensures Nth(a, p / 2) == NULL <==> p == 1
  {
  }

  lemma {:induction false} ShiftedBound(n: nat, k: nat)
    requires k > 0
    ensures Shifted(n, k) <= n / 2
    decreases k
  {
    if k > 1 {
      ShiftedBound(n / 2, k - 1);
    }
  }

  lemma AppendedDistinct(a: seq<Ptr>, n: Ptr)
    requires Distinct(a) && n != NULL && n !in a
    ensures Distinct(a + [n]) && Nth(a + [n], 1) == if a == [] then n else Nth(a, 1)
  {
    forall i | 1 <= i <= |a| ensures Nth(a + [n], i) == Nth(a, i) && Nth(a, i) != n {
    }
  }

  /** The new last node is known to its parent only. */
  lemma AppendedCell(a: seq<Ptr>, n: Ptr, i: int)
    requires 1 <= i <= |a| + 1
    ensures var slot := |a| + 1;
            && (i == slot ==> Nth(a + [n], i) == n && CellOf(a + [n], i) == Cell(NULL, NULL, Nth(a, slot / 2)))
            && (i < slot ==> Nth(a + [n], i) == Nth(a, i))
            && (i < slot && i != slot / 2 ==> CellOf(a + [n], i) == CellOf(a, i))
            && (i < slot && i == slot / 2 ==>
                  CellOf(a + [n], i) == if slot % 2 == 1 then CellOf(a, i).(right := n) else CellOf(a, i).(left := n))
  {
  }

  lemma AppendOrdered(key: Ptr -> int, a: seq<Ptr>, n: Ptr)
    requires MinHeap(key, a)
    ensures OrderedButUp(key, a + [n], |a| + 1)
  {
    forall j | 2 <= j <= |a| ensures InOrderAt(key, a + [n], j) {
      assert InOrderAt(key, a, j);
    }
  }
}
