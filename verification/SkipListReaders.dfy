/** A reader searches the skip list while the writer allocates nodes and publishes them, level by level, between any two
    of the reader's reads (db/skiplist.h). */
module SkipListReaders {
  import opened Sequences
  import opened SkipLists

  /** The list, and where the reader is; `result` is what its last read found. */
  datatype World = World(m: Memory, chains: seq<seq<Ptr>>, x: Ptr, level: nat, result: Option<Ptr>)

  datatype Event =
    | Allocate(n: Ptr, key: int, height: nat)
    | PublishAt(n: Ptr, i: nat, place: nat)
    | Read

  /** The writer may publish the node at this place of level i. */
  ghost predicate CanPublish(m: Memory, chains: seq<seq<Ptr>>, n: Ptr, i: nat, place: nat)
    requires Valid(m, chains)
  {
    && i < MAX_HEIGHT && n in m.key && n in m.next && i < |m.next[n]| && n != NULL && n != HEAD
    && SplitAt(m, chains[i], m.key[n], place) && (forall k :: k in chains[i] ==> k in m.key && m.key[k] != m.key[n])
    && (i > 0 ==> n in chains[i - 1])
    && At(chains[i], place) in m.next && i < |m.next[At(chains[i], place)]|
  }

  /** One read of a link, and what FindGreaterOrEqual does next. */
  ghost predicate ReadStep(w: World, target: int, w': World) {
    && w.result.None? && w.x in w.m.next && w.level < |w.m.next[w.x]|
    && var next := w.m.next[w.x][w.level];
       if next != NULL && next in w.m.key && w.m.key[next] < target then w' == w.(x := next)
       else if w.level == 0 then w' == w.(result := Some(next))
       else w' == w.(level := w.level - 1)
  }

  ghost predicate Step(w: World, target: int, e: Event, w': World) {
    && Valid(w.m, w.chains)
    && match e
       case Allocate(n, key, height) =>
         && n !in w.m.key && n !in w.m.next
         && w' == w.(m := Memory(w.m.key[n := key], w.m.next[n := seq(height, _ => NULL)]))
       case PublishAt(n, i, place) =>
         && CanPublish(w.m, w.chains, n, i, place)
         && w' == w.(m := Publish(w.m, n, At(w.chains[i], place), i), chains := w.chains[i := LinkedAt(w.chains[i], place, n)])
       case Read => ReadStep(w, target, w')
  }

  ghost predicate Searching(w: World, target: int) {
    Valid(w.m, w.chains) && ReaderOk(w.m, w.chains, target, w.x, w.level)
  }

  lemma AllocateKeepsReader(w: World, target: int, n: Ptr, key: int, height: nat, w': World)
    requires Searching(w, target) && Step(w, target, Allocate(n, key, height), w')
    ensures Searching(w', target)
  {
    NewNodeKeepsValid(w.m, w'.m, w.chains, n);
  }

  lemma PublishKeepsReader(w: World, target: int, n: Ptr, i: nat, place: nat, w': World)
    requires Searching(w, target) && Step(w, target, PublishAt(n, i, place), w')
    ensures Searching(w', target)
  {
    ReaderSurvivesPublish(w.m, w.chains, n, i, place, target, w.x, w.level);
  }

  /** A read leaves the reader at a good place, or gives the first node linked now whose key is at least the target. */
  lemma ReadFinds(w: World, target: int, w': World)
    requires Searching(w, target) && Step(w, target, Read, w')
    ensures Searching(w', target)
    ensures w'.result.Some? ==> IsFirstFrom(w.m, w.chains[0], target, w'.result.value)
  {
    var j := NextOf(w.m, w.chains, target, w.x, w.level);
    assert w'.result.Some? ==> SplitAt(w.m, w.chains[0], target, j);
  }

  /** `r` is the first node of the list whose key is at least the target, or NULL if there is none. */
  ghost predicate IsFirstFrom(m: Memory, c: seq<Ptr>, target: int, r: Ptr) {
    NodesOk(m, c) && exists j: nat :: SplitAt(m, c, target, j) && r == At(c, j + 1)
  }

  lemma StepKeepsSearching(w: World, target: int, e: Event, w': World)
    requires Searching(w, target) && Step(w, target, e, w')
    ensures Searching(w', target) && Grows(w, w')
  {
    match e
    case Allocate(n, key, height) => AllocateKeepsReader(w, target, n, key, height, w');
    case PublishAt(n, i, place) =>
      PublishKeepsReader(w, target, n, i, place, w');
      var c := w.chains[i];
      assert c == c[..place] + c[place..];
    case Read => ReadFinds(w, target, w');
  }

  /** Keys never change, and what is linked stays linked. */
  ghost predicate Grows(w: World, w': World) {
    && |w.chains| == |w'.chains| == MAX_HEIGHT
    && (forall n :: n in w.m.key ==> n in w'.m.key && w'.m.key[n] == w.m.key[n])
    && (forall n :: n in w.chains[0] ==> n in w'.chains[0])
  }

  ghost predicate StepAt(ws: seq<World>, target: int, es: seq<Event>, i: nat)
    requires i < |es| < |ws|
  {
    Step(ws[i], target, es[i], ws[i + 1])
  }

  /** The reader starts at the head, at some level. */
  ghost predicate IsRun(ws: seq<World>, target: int, es: seq<Event>) {
    && |ws| == |es| + 1 && Valid(ws[0].m, ws[0].chains)
    && ws[0].x == HEAD && ws[0].level < MAX_HEIGHT && ws[0].result == None
    && forall i :: 0 <= i < |es| ==> StepAt(ws, target, es, i)
  }

  lemma {:induction false} RunKeepsSearching(ws: seq<World>, target: int, es: seq<Event>, n: nat)
    requires IsRun(ws, target, es) && n <= |es|
    ensures Searching(ws[n], target) && Grows(ws[0], ws[n])
  {
    if n > 0 {
      RunKeepsSearching(ws, target, es, n - 1);
      assert StepAt(ws, target, es, n - 1);
      StepKeepsSearching(ws[n - 1], target, es[n - 1], ws[n]);
    }
  }

  /** Whatever was allocated and published during the search: its last read gives the first node linked at that moment
      whose key is at least the target. */
  lemma SearchAmongInsertions(ws: seq<World>, target: int, es: seq<Event>, n: nat)
    requires IsRun(ws, target, es) && n < |es| && es[n].Read? && ws[n + 1].result.Some?
    ensures Valid(ws[n].m, ws[n].chains)
    ensures IsFirstFrom(ws[n].m, ws[n].chains[0], target, ws[n + 1].result.value)
  {
    RunKeepsSearching(ws, target, es, n);
    assert StepAt(ws, target, es, n);
    ReadFinds(ws[n], target, ws[n + 1]);
  }

  /** So no node that was linked when the search began is missed. */
  lemma NothingMissed(ws: seq<World>, target: int, es: seq<Event>, n: nat, k: Ptr)
    requires IsRun(ws, target, es) && n < |es| && es[n].Read? && ws[n + 1].result.Some?
    requires k in ws[0].chains[0] && k in ws[0].m.key && target <= ws[0].m.key[k]
    ensures var r := ws[n + 1].result.value; r != NULL && r in ws[n].m.key && target <= ws[n].m.key[r] <= ws[0].m.key[k]
  {
    RunKeepsSearching(ws, target, es, n);
    SearchAmongInsertions(ws, target, es, n);
    var m, c := ws[n].m, ws[n].chains[0];
    var j: nat :| SplitAt(m, c, target, j) && ws[n + 1].result.value == At(c, j + 1);
    assert LevelOk(m, c, 0);
    assert k in c;
    var i :| 0 <= i < |c| && c[i] == k;
    assert j <= i;
    assert c[j] in c;
  }
}
