/** The memtable's skip list: one writer links a node level by level while readers search without locks
    (db/skiplist.h). */
module SkipLists {

  type Ptr = nat
  const NULL: Ptr := 0
  const HEAD: Ptr := 1
  const MAX_HEIGHT := 12

  /** The nodes: their keys and their links, one per level of the node's height. */
  datatype Memory = Memory(key: map<Ptr, int>, next: map<Ptr, seq<Ptr>>)

  /** Position 0 of a level is the head, position j its j-th node, and after the last node comes NULL. */
  function At(c: seq<Ptr>, j: nat): Ptr {
    if j == 0 then HEAD else if j <= |c| then c[j - 1] else NULL
  }

  ghost predicate Linked(m: Memory, c: seq<Ptr>, i: nat, j: nat) {
    At(c, j) in m.next && i < |m.next[At(c, j)]| && m.next[At(c, j)][i] == At(c, j + 1)
  }

  ghost predicate NodesOk(m: Memory, c: seq<Ptr>) {
    forall n :: n in c ==> n in m.key && n != NULL && n != HEAD
  }

  ghost predicate SortedKeys(m: Memory, c: seq<Ptr>)
    requires NodesOk(m, c)
  {
    forall j, k :: 0 <= j < k < |c| ==> m.key[c[j]] < m.key[c[k]]
  }

  /** Level i is the list `c`, strictly sorted. */
  ghost predicate LevelOk(m: Memory, c: seq<Ptr>, i: nat) {
    NodesOk(m, c) && SortedKeys(m, c) && forall j :: 0 <= j <= |c| ==> Linked(m, c, i, j)
  }

  ghost predicate Inside(upper: seq<Ptr>, lower: seq<Ptr>) {
    forall n :: n in upper ==> n in lower
  }

  /** Every level is a sorted list, and being sorted alike a subsequence of the level below. A node may be taller than
      the levels it is linked into so far. */
  ghost predicate Valid(m: Memory, chains: seq<seq<Ptr>>) {
    && |chains| == MAX_HEIGHT
    && (forall i :: 0 <= i < MAX_HEIGHT ==> LevelOk(m, chains[i], i))
    && (forall i :: 0 <= i < MAX_HEIGHT - 1 ==> Inside(chains[i + 1], chains[i]))
  }

  /** Position j of a level is the last one before the target. */
  ghost predicate SplitAt(m: Memory, c: seq<Ptr>, target: int, j: nat)
    requires NodesOk(m, c)
  {
    && j <= |c|
    && (forall k :: 0 <= k < j ==> m.key[c[k]] < target)
    && (forall k :: j <= k < |c| ==> target <= m.key[c[k]])
  }

  /** A reader's place: the head, or a node linked at the reader's level and before the target. */
  ghost predicate ReaderOk(m: Memory, chains: seq<seq<Ptr>>, target: int, x: Ptr, level: nat)
    requires Valid(m, chains)
  {
    level < MAX_HEIGHT && (x == HEAD || (x in chains[level] && x in m.key && m.key[x] < target))
  }

  lemma PlaceOf(m: Memory, chains: seq<seq<Ptr>>, target: int, x: Ptr, level: nat) returns (j: nat)
    requires Valid(m, chains) && ReaderOk(m, chains, target, x, level)
    ensures j <= |chains[level]| && At(chains[level], j) == x && Linked(m, chains[level], level, j)
    ensures forall k :: 0 <= k < j ==> m.key[chains[level][k]] < target
  {
    assert LevelOk(m, chains[level], level);
    if x == HEAD {
      j := 0;
    } else {
      var c := chains[level];
      var k :| 0 <= k < |c| && c[k] == x;
      j := k + 1;
    }
  }

  /** What one read of a link tells a reader. */
  lemma NextOf(m: Memory, chains: seq<seq<Ptr>>, target: int, x: Ptr, level: nat) returns (j: nat)
    requires Valid(m, chains) && ReaderOk(m, chains, target, x, level)
    ensures x in m.next && level < |m.next[x]|
    ensures j <= |chains[level]| && At(chains[level], j) == x && m.next[x][level] == At(chains[level], j + 1)
    ensures j < |chains[level]| ==> chains[level][j] in m.key && chains[level][j] != NULL && chains[level][j] in chains[level]
    ensures j < |chains[level]| && m.key[chains[level][j]] < target ==> ReaderOk(m, chains, target, chains[level][j], level)
    ensures j == |chains[level]| || target <= m.key[chains[level][j]] ==> SplitAt(m, chains[level], target, j)
    ensures level > 0 ==> ReaderOk(m, chains, target, x, level - 1)
  {
    j := PlaceOf(m, chains, target, x, level);
    var c := chains[level];
    assert LevelOk(m, c, level);
    if level > 0 {
      assert Inside(chains[level - 1 + 1], chains[level - 1]);
    }
    if j < |c| {
      assert c[j] in c;
      assert forall k :: j < k < |c| ==> m.key[c[j]] < m.key[c[k]];
    }
  }

  // ----- linking a node ------------------------------------------------------------------------------------------

  function LinkedAt(c: seq<Ptr>, j: nat, x: Ptr): seq<Ptr>
    requires j <= |c|
  {
    c[..j] + [x] + c[j..]
  }

  /** The two stores of one level: the new node's link first, then the link to it. */
  function Publish(m: Memory, x: Ptr, prev: Ptr, i: nat): Memory
    requires x in m.next && prev in m.next && i < |m.next[x]| && i < |m.next[prev]|
  {
    var next := m.next[x := m.next[x][i := m.next[prev][i]]];
    m.(next := next[prev := next[prev][i := x]])
  }

  lemma PublishKeepsOthers(m: Memory, chains: seq<seq<Ptr>>, x: Ptr, prev: Ptr, i: nat, l: nat)
    requires Valid(m, chains) && x in m.next && prev in m.next && i < |m.next[x]| && i < |m.next[prev]|
    requires l < MAX_HEIGHT && l != i
    ensures LevelOk(Publish(m, x, prev, i), chains[l], l)
  {
    var m' := Publish(m, x, prev, i);
    assert LevelOk(m, chains[l], l);
    forall j | 0 <= j <= |chains[l]| ensures Linked(m', chains[l], l, j) {
      assert Linked(m, chains[l], l, j);
    }
  }

  lemma PublishLinks(m: Memory, c: seq<Ptr>, x: Ptr, i: nat, j: nat)
    requires LevelOk(m, c, i) && j <= |c| && x !in c && x != NULL && x != HEAD && x in m.key
    requires x in m.next && i < |m.next[x]| && SplitAt(m, c, m.key[x], j)
    requires forall k :: j <= k < |c| ==> m.key[x] < m.key[c[k]]
    ensures At(c, j) in m.next && i < |m.next[At(c, j)]|
    ensures LevelOk(Publish(m, x, At(c, j), i), LinkedAt(c, j, x), i)
  {
    assert Linked(m, c, i, j);
    var c', m' := LinkedAt(c, j, x), Publish(m, x, At(c, j), i);
    PublishOrder(m, c, x, j);
    forall k | 0 <= k <= |c'| ensures Linked(m', c', i, k) {
      PublishLink(m, c, x, i, j, k);
    }
  }

  lemma PublishOrder(m: Memory, c: seq<Ptr>, x: Ptr, j: nat)
    requires NodesOk(m, c) && SortedKeys(m, c) && x != NULL && x != HEAD && x in m.key && SplitAt(m, c, m.key[x], j)
    requires forall k :: j <= k < |c| ==> m.key[x] < m.key[c[k]]
    ensures NodesOk(m, LinkedAt(c, j, x)) && SortedKeys(m, LinkedAt(c, j, x))
  {
    var c' := LinkedAt(c, j, x);
    forall n | n in c' ensures n in c || n == x {
      assert n in c[..j] || n == x || n in c[j..];
    }
    forall a, b | 0 <= a < b < |c'| ensures m.key[c'[a]] < m.key[c'[b]] {
      var a', b' := if a < j then a else a - 1, if b < j then b else b - 1;
      assert a != j ==> c'[a] == c[a'];
      assert b != j ==> c'[b] == c[b'];
    }
  }

  lemma PublishLink(m: Memory, c: seq<Ptr>, x: Ptr, i: nat, j: nat, k: nat)
    requires LevelOk(m, c, i) && j <= |c| && x !in c && x != NULL && x != HEAD && k <= |c| + 1
    requires x in m.next && i < |m.next[x]| && At(c, j) in m.next && i < |m.next[At(c, j)]|
    ensures Linked(Publish(m, x, At(c, j), i), LinkedAt(c, j, x), i, k)
  {
    var c' := LinkedAt(c, j, x);
    assert Linked(m, c, i, j);
    AtAfterLink(c, j, x, k);
    AtAfterLink(c, j, x, k + 1);
    if k <= j {
      assert Linked(m, c, i, k);
      AtDiffers(m, c, k, j, x);
    } else {
      assert Linked(m, c, i, k - 1);
      AtDiffers(m, c, k - 1, j, x);
      AtDiffers(m, c, j, j, x);
    }
  }

  lemma AtAfterLink(c: seq<Ptr>, j: nat, x: Ptr, k: nat)
    requires j <= |c|
    ensures At(LinkedAt(c, j, x), k) == if k <= j then At(c, k) else if k == j + 1 then x else At(c, k - 1)
  {
  }

  lemma AtDiffers(m: Memory, c: seq<Ptr>, k: nat, j: nat, x: Ptr)
    requires NodesOk(m, c) && SortedKeys(m, c) && k <= |c| && j <= |c| && x !in c && x != HEAD
    ensures At(c, k) != x && (k != j ==> At(c, k) != At(c, j))
  {
    assert forall p :: 0 <= p < |c| ==> c[p] in c;
  }

  /** Publishing the node in a level keeps every level a sorted list inside the one below. */
  lemma PublishKeepsValid(m: Memory, chains: seq<seq<Ptr>>, x: Ptr, i: nat, j: nat)
    requires Valid(m, chains) && i < MAX_HEIGHT && x in m.key && x in m.next && i < |m.next[x]| && x != NULL && x != HEAD
    requires SplitAt(m, chains[i], m.key[x], j) && (forall n :: n in chains[i] ==> n in m.key && m.key[n] != m.key[x])
    requires i > 0 ==> x in chains[i - 1]
    ensures At(chains[i], j) in m.next && i < |m.next[At(chains[i], j)]|
    ensures Valid(Publish(m, x, At(chains[i], j), i), chains[i := LinkedAt(chains[i], j, x)])
  {
    var c := chains[i];
    assert LevelOk(m, c, i);
    assert forall k :: 0 <= k < |c| ==> c[k] in c;
    PublishLinks(m, c, x, i, j);
    var m', chains' := Publish(m, x, At(c, j), i), chains[i := LinkedAt(c, j, x)];
    forall l | 0 <= l < MAX_HEIGHT ensures LevelOk(m', chains'[l], l) {
      if l != i {
        PublishKeepsOthers(m, chains, x, At(c, j), i, l);
      }
    }
    assert forall n :: n in LinkedAt(c, j, x) <==> n in c || n == x by {
      assert c == c[..j] + c[j..];
    }
    forall l | 0 <= l < MAX_HEIGHT - 1 ensures Inside(chains'[l + 1], chains'[l]) {
      assert Inside(chains[l + 1], chains[l]);
    }
  }

  /** A reader's place stays good while a node is published anywhere: links only ever lead to more nodes. */
  lemma ReaderSurvivesPublish(m: Memory, chains: seq<seq<Ptr>>, x: Ptr, i: nat, j: nat, target: int, y: Ptr, level: nat)
    requires Valid(m, chains) && i < MAX_HEIGHT && x in m.key && x in m.next && i < |m.next[x]| && x != NULL && x != HEAD
    requires SplitAt(m, chains[i], m.key[x], j) && (forall n :: n in chains[i] ==> n in m.key && m.key[n] != m.key[x])
    requires i > 0 ==> x in chains[i - 1]
    requires ReaderOk(m, chains, target, y, level)
    ensures At(chains[i], j) in m.next && i < |m.next[At(chains[i], j)]|
    ensures Valid(Publish(m, x, At(chains[i], j), i), chains[i := LinkedAt(chains[i], j, x)])
    ensures ReaderOk(Publish(m, x, At(chains[i], j), i), chains[i := LinkedAt(chains[i], j, x)], target, y, level)
  {
    PublishKeepsValid(m, chains, x, i, j);
    var c := chains[i];
    assert c == c[..j] + c[j..];
  }

  class SkipList {
    var mem: Memory
    var maxHeight: nat
    ghost var chains: seq<seq<Ptr>>

    ghost predicate Ok()
      reads this
    {
      Valid(mem, chains) && 1 <= maxHeight <= MAX_HEIGHT && HEAD !in mem.key
      && (forall i :: maxHeight <= i < MAX_HEIGHT ==> chains[i] == [])
    }

    constructor ()
      ensures Ok() && chains[0] == []
    {
      mem := Memory(map[], map[HEAD := seq(MAX_HEIGHT, _ => NULL)]);
      maxHeight := 1;
      chains := seq(MAX_HEIGHT, _ => []);
      new;
      forall i | 0 <= i < MAX_HEIGHT ensures LevelOk(mem, chains[i], i) {
        assert Linked(mem, [], i, 0);
      }
    }

    predicate IsAfter(target: int, n: Ptr)
      requires n != NULL ==> n in mem.key
      reads this
    {
      n != NULL && mem.key[n] < target
    }

    /** The first linked node whose key is at least the target, in every state between two publications and for every
        height a reader may have seen; `prev` holds, per level, the last node before it. */
    method FindGreaterOrEqual(target: int, height: nat) returns (r: Ptr, prev: seq<Ptr>, ghost places: seq<nat>)
      requires Valid(mem, chains) && 1 <= height <= MAX_HEIGHT
      ensures |prev| == |places| == height
      ensures forall i :: 0 <= i < height ==> SplitAt(mem, chains[i], target, places[i]) && prev[i] == At(chains[i], places[i])
      ensures r == At(chains[0], places[0] + 1)
    {
      var x, level := HEAD, height - 1;
      prev, places := seq(height, _ => NULL), seq(height, _ => 0);
      var done := false;
      ghost var j: nat := PlaceOf(mem, chains, target, x, level);
      r := NULL;
      while !done
        invariant level < height && |prev| == |places| == height && ReaderOk(mem, chains, target, x, level)
        invariant j <= |chains[level]| && At(chains[level], j) == x
        invariant forall i :: level < i < height ==>
                    SplitAt(mem, chains[i], target, places[i]) && prev[i] == At(chains[i], places[i])
        invariant done ==> level == 0 && SplitAt(mem, chains[0], target, places[0]) && prev[0] == At(chains[0], places[0])
        invariant done ==> r == At(chains[0], places[0] + 1)
        decreases !done, level, |chains[level]| - j
      {
        ghost var k: nat := NextOf(mem, chains, target, x, level);
        SamePlace(mem, chains, level, j, k);
        var next := mem.next[x][level];
        if IsAfter(target, next) {
          x := next;
          j := j + 1;
        } else {
          prev, places := prev[level := x], places[level := j];
          if level == 0 {
            r := next;
            done := true;
          } else {
            level := level - 1;
            j := PlaceOf(mem, chains, target, x, level);
          }
        }
      }
    }

    /** Links a new node of the given height, bottom level first. */
    method Insert(x: Ptr, key: int, height: nat)
      requires Ok() && 1 <= height <= MAX_HEIGHT && x != NULL && x != HEAD && x !in mem.key && x !in mem.next
      requires forall n :: n in chains[0] ==> n in mem.key && mem.key[n] != key
      modifies this
      ensures Ok() && x in mem.key && mem.key[x] == key
      ensures exists j :: 0 <= j <= |old(chains)[0]| && chains[0] == LinkedAt(old(chains)[0], j, x)
      ensures Joined(old(chains), chains, x, height)
      ensures forall n :: n in old(mem).key ==> n in mem.key && mem.key[n] == old(mem).key[n]
    {
      var prev, places := Allocate(x, key, height);
      for i := 0 to height
        invariant Ok() && height <= maxHeight && mem.key == old(mem).key[x := key]
        invariant x in mem.next && |mem.next[x]| == height && Bystanders(mem, chains, x)
        invariant Awaited(mem, chains, x, key, prev, places, i, height)
        invariant i > 0 ==> x in chains[i - 1] && places[0] <= |old(chains)[0]|
        invariant chains[0] == if i == 0 then old(chains)[0] else LinkedAt(old(chains)[0], places[0], x)
        invariant Joined(old(chains), chains, x, i)
      {
        ghost var m, before := mem, chains;
        assert SplitAt(mem, chains[i], key, places[i]);
        Link(x, prev[i], i, places[i]);
        AwaitedNext(m, before, mem, chains, x, key, prev, places, i, height);
        JoinedNext(old(chains), before, chains, x, i);
      }
    }

    /** Finds the place of a key in every level, makes the list high enough and allocates the node. */
    method Allocate(x: Ptr, key: int, height: nat) returns (prev: seq<Ptr>, ghost places: seq<nat>)
      requires Ok() && 1 <= height <= MAX_HEIGHT && x != NULL && x != HEAD && x !in mem.key && x !in mem.next
      requires forall n :: n in chains[0] ==> n in mem.key && mem.key[n] != key
      modifies this`mem, this`maxHeight
      ensures Ok() && height <= maxHeight && height <= |places| && height <= |prev| && mem.key == old(mem).key[x := key]
      ensures x in mem.next && |mem.next[x]| == height && Bystanders(mem, chains, x)
      ensures Awaited(mem, chains, x, key, prev, places, 0, height)
    {
      var r;
      r, prev, places := FindGreaterOrEqual(key, maxHeight);
      LevelsInside(mem, chains, key);
      if height > maxHeight {
        prev := prev + seq(height - maxHeight, _ => HEAD);
        places := places + seq(height - maxHeight, _ => 0);
        maxHeight := height;
      }
      mem := Memory(mem.key[x := key], mem.next[x := seq(height, _ => NULL)]);
      NewNodeKeepsValid(old(mem), mem, chains, x);
      SplitsStay(old(mem), mem, chains, key, height, places, prev);
    }

    /** Publishes the node in one level. Readers may search before and after. */
    method Link(x: Ptr, prev: Ptr, i: nat, ghost place: nat)
      requires Ok() && i < maxHeight && x in mem.key && x in mem.next && i < |mem.next[x]| && x != NULL && x != HEAD
      requires SplitAt(mem, chains[i], mem.key[x], place) && prev == At(chains[i], place)
      requires Bystanders(mem, chains, x) && x !in chains[i] && (i > 0 ==> x in chains[i - 1])
      modifies this`mem, this`chains
      ensures Ok() && mem.key == old(mem.key) && chains == old(chains)[i := LinkedAt(old(chains)[i], place, x)]
      ensures x in mem.next && |mem.next[x]| == |old(mem).next[x]| && x in chains[i] && Bystanders(mem, chains, x)
      ensures forall n :: n in chains[i] <==> n in old(chains)[i] || n == x
    {
      PublishKeepsValid(mem, chains, x, i, place);
      mem := Publish(mem, x, prev, i);
      ghost var c := chains[i];
      assert c == c[..place] + c[place..];
      chains := chains[i := LinkedAt(c, place, x)];
    }

    method Contains(key: int) returns (r: bool)
      requires Ok()
      ensures r <==> exists n :: n in chains[0] && n in mem.key && mem.key[n] == key
    {
      var x, prev, places := FindGreaterOrEqual(key, maxHeight);
      assert LevelOk(mem, chains[0], 0);
      assert places[0] < |chains[0]| ==> x == chains[0][places[0]] && x in chains[0];
      r := x != NULL && mem.key[x] == key;
    }

    /** The iterator's Next, at the j-th node. */
    method Next(n: Ptr, ghost j: nat) returns (r: Ptr)
      requires Ok() && 1 <= j <= |chains[0]| && n == At(chains[0], j)
      ensures r == At(chains[0], j + 1)
    {
      assert LevelOk(mem, chains[0], 0) && Linked(mem, chains[0], 0, j);
      r := mem.next[n][0];
    }

    /** The iterator's Prev, which searches for the last node before this one: it undoes Next. */
    method Prev(n: Ptr, ghost j: nat) returns (r: Ptr)
      requires Ok() && 1 <= j <= |chains[0]| && n == At(chains[0], j)
      ensures r == if j == 1 then NULL else At(chains[0], j - 1)
    {
      assert LevelOk(mem, chains[0], 0);
      assert n == chains[0][j - 1] && n in chains[0];
      var x, prev, places := FindGreaterOrEqual(mem.key[n], maxHeight);
      assert places[0] == j - 1;
      assert j > 1 ==> chains[0][j - 2] in chains[0];
      r := if prev[0] == HEAD then NULL else prev[0];
    }
  }

  /** The places of levels i and up where the node is still to be linked. */
  ghost predicate Awaited(m: Memory, chains: seq<seq<Ptr>>, x: Ptr, key: int, prev: seq<Ptr>, places: seq<nat>, i: nat, height: nat) {
    && height <= |prev| && height <= |places| && height <= |chains|
    && forall l :: i <= l < height ==>
         NodesOk(m, chains[l]) && SplitAt(m, chains[l], key, places[l]) && prev[l] == At(chains[l], places[l]) && x !in chains[l]
  }

  lemma AwaitedNext(m: Memory, chains: seq<seq<Ptr>>, m': Memory, chains': seq<seq<Ptr>>, x: Ptr, key: int,
                    prev: seq<Ptr>, places: seq<nat>, i: nat, height: nat)
    requires Awaited(m, chains, x, key, prev, places, i, height) && i < height && m'.key == m.key
    requires |chains'| == |chains| && chains' == chains[i := chains'[i]]
    ensures Awaited(m', chains', x, key, prev, places, i + 1, height)
  {
  }

  /** The node is in the first `height` levels, and nothing else changed in any level. */
  ghost predicate Joined(chains: seq<seq<Ptr>>, chains': seq<seq<Ptr>>, x: Ptr, height: nat) {
    && |chains| == |chains'| == MAX_HEIGHT
    && forall l, n :: 0 <= l < MAX_HEIGHT ==> (n in chains'[l] <==> n in chains[l] || (l < height && n == x))
  }

  lemma JoinedNext(chains: seq<seq<Ptr>>, before: seq<seq<Ptr>>, after: seq<seq<Ptr>>, x: Ptr, i: nat)
    requires Joined(chains, before, x, i) && i < MAX_HEIGHT == |after| && after == before[i := after[i]]
    requires forall n :: n in after[i] <==> n in before[i] || n == x
    ensures Joined(chains, after, x, i + 1)
  {
  }

  /** No other linked node has the key of x. */
  ghost predicate Bystanders(m: Memory, chains: seq<seq<Ptr>>, x: Ptr) {
    x in m.key && forall l, n :: 0 <= l < |chains| && n in chains[l] && n != x ==> n in m.key && m.key[n] != m.key[x]
  }

  lemma SamePlace(m: Memory, chains: seq<seq<Ptr>>, level: nat, j: nat, k: nat)
    requires Valid(m, chains) && level < MAX_HEIGHT && j <= |chains[level]| && k <= |chains[level]|
    requires At(chains[level], j) == At(chains[level], k)
    ensures j == k
  {
    var c := chains[level];
    assert LevelOk(m, c, level);
    assert forall p :: 0 <= p < |c| ==> c[p] in c;
  }

  lemma {:induction false} LevelInBottom(m: Memory, chains: seq<seq<Ptr>>, l: nat)
    requires Valid(m, chains) && l < MAX_HEIGHT
    ensures Inside(chains[l], chains[0])
  {
    if l > 0 {
      LevelInBottom(m, chains, l - 1);
      assert Inside(chains[l - 1 + 1], chains[l - 1]);
    }
  }

  lemma LevelsInside(m: Memory, chains: seq<seq<Ptr>>, key: int)
    requires Valid(m, chains) && forall n :: n in chains[0] ==> n in m.key && m.key[n] != key
    ensures forall l, n :: 0 <= l < MAX_HEIGHT && n in chains[l] ==> n in m.key && m.key[n] != key
  {
    forall l, n | 0 <= l < MAX_HEIGHT && n in chains[l] ensures n in m.key && m.key[n] != key {
      LevelInBottom(m, chains, l);
    }
  }

  lemma SplitsStay(m: Memory, m': Memory, chains: seq<seq<Ptr>>, key: int, height: nat, places: seq<nat>, prev: seq<Ptr>)
    requires Valid(m, chains) && Valid(m', chains) && height <= MAX_HEIGHT && height <= |places| && height <= |prev|
    requires forall n :: n in m.key ==> n in m'.key && m'.key[n] == m.key[n]
    requires forall l :: 0 <= l < height ==> SplitAt(m, chains[l], key, places[l])
    ensures forall l :: 0 <= l < height ==> SplitAt(m', chains[l], key, places[l])
  {
    forall l | 0 <= l < height ensures SplitAt(m', chains[l], key, places[l]) {
      assert LevelOk(m, chains[l], l);
      assert forall k :: 0 <= k < |chains[l]| ==> chains[l][k] in chains[l];
    }
  }

  lemma NewNodeKeepsValid(m: Memory, m': Memory, chains: seq<seq<Ptr>>, x: Ptr)
    requires Valid(m, chains) && x !in m.key && x !in m.next && x in m'.key && x in m'.next
    requires forall n :: n in m.key ==> n in m'.key && m'.key[n] == m.key[n]
    requires forall n :: n in m.next ==> n in m'.next && m'.next[n] == m.next[n]
    ensures Valid(m', chains)
  {
    forall i | 0 <= i < MAX_HEIGHT ensures LevelOk(m', chains[i], i) {
      assert LevelOk(m, chains[i], i);
      forall j | 0 <= j <= |chains[i]| ensures Linked(m', chains[i], i, j) {
        assert Linked(m, chains[i], i, j);
      }
    }
  }
}
