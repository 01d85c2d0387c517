/** What a compaction does to readers: exactly when every live snapshot still sees the same map. */
module CompactionMeaning {
  import opened Sequences
  import opened DbFormat
  import opened Versions
  import opened CompactionInputs
  import opened CompactionLoop

  // ----- rows kept and dropped -----------------------------------------------------------------------

  lemma {:induction false} KeptMembers(v: Levels, l: nat, input: seq<Entry>, snap: SequenceNumber, n: nat, e: Entry)
    requires n <= |input|
    ensures e in KeptRows(v, l, input, snap, n) <==>
              exists i :: 0 <= i < n && input[i] == e && !Dropped(v, l, input, snap, i)
  {
    if n > 0 {
      KeptMembers(v, l, input, snap, n - 1, e);
    }
  }

  lemma {:induction false} KeptSorted(v: Levels, l: nat, input: seq<Entry>, snap: SequenceNumber, n: nat)
    requires SortedRun(input) && n <= |input|
    ensures SortedRun(KeptRows(v, l, input, snap, n))
  {
    if n > 0 {
      KeptSorted(v, l, input, snap, n - 1);
      forall e | e in KeptRows(v, l, input, snap, n - 1) ensures Precedes(e.key, input[n - 1].key) {
        KeptMembers(v, l, input, snap, n - 1, e);
      }
    }
  }

  ghost predicate Hidden(input: seq<Entry>, snap: SequenceNumber, e: Entry) {
    exists x :: x in input && x.key.user == e.key.user && e.key.seqno < x.key.seqno <= snap
  }

  /** A row is dropped if an input row at or below the snapshot hides it; otherwise only tombstones go. */
  lemma WhyDropped(v: Levels, l: nat, input: seq<Entry>, snap: SequenceNumber, e: Entry)
    requires SortedRun(input) && snap < MAX_SEQUENCE && e in input
    requires e !in KeptRows(v, l, input, snap, |input|)
    ensures Hidden(input, snap, e) || (e.key.kind.Deletion? && e.key.seqno <= snap && IsBaseLevel(v, l, e.key.user))
  {
    var i :| 0 <= i < |input| && input[i] == e;
    KeptMembers(v, l, input, snap, |input|, e);
    assert Dropped(v, l, input, snap, i);
    if PreviousSequence(input, i) <= snap {
      assert Precedes(input[i - 1].key, input[i].key);
      assert input[i - 1] in input;
    }
  }

  /** Everything older than an input row at or below the snapshot is dropped. */
  lemma HiddenIsDropped(v: Levels, l: nat, input: seq<Entry>, snap: SequenceNumber, x: Entry, e: Entry)
    requires SortedRun(input) && x in input && e in input
    requires x.key.user == e.key.user && e.key.seqno < x.key.seqno <= snap
    ensures e !in KeptRows(v, l, input, snap, |input|)
  {
    KeptMembers(v, l, input, snap, |input|, e);
    forall i | 0 <= i < |input| && input[i] == e ensures Dropped(v, l, input, snap, i) {
      var j :| 0 <= j < |input| && input[j] == x;
      assert j < i;
      assert j == i - 1 || Precedes(input[j].key, input[i - 1].key);
      assert Precedes(input[i - 1].key, input[i].key);
    }
  }

  /** A row is dropped exactly if an input row at or below the snapshot hides it, or if it is a tombstone at or below the
      snapshot with no file further down whose range includes its key. */
  lemma DroppedExactly(v: Levels, l: nat, input: seq<Entry>, snap: SequenceNumber, e: Entry)
    requires SortedRun(input) && snap < MAX_SEQUENCE && e in input
    ensures e !in KeptRows(v, l, input, snap, |input|) <==>
              || Hidden(input, snap, e)
              || (e.key.kind.Deletion? && e.key.seqno <= snap && forall m, f :: l + 2 <= m < |v| && f in v[m] ==>
                    e.key.user < f.smallest.user || f.largest.user < e.key.user)
  {
    if e !in KeptRows(v, l, input, snap, |input|) {
      WhyDropped(v, l, input, snap, e);
      if !Hidden(input, snap, e) {
        forall m, f | l + 2 <= m < |v| && f in v[m] ensures e.key.user < f.smallest.user || f.largest.user < e.key.user {
          assert !Holds(f, e.key.user);
        }
      }
    } else {
      KeptMembers(v, l, input, snap, |input|, e);
      var i :| 0 <= i < |input| && input[i] == e && !Dropped(v, l, input, snap, i);
      if x :| x in input && x.key.user == e.key.user && e.key.seqno < x.key.seqno <= snap {
        HiddenIsDropped(v, l, input, snap, x, e);
      }
    }
  }

  /** With the snapshot at the largest sequence number the loop would drop everything: the start value of
      last_sequence_for_key must lie above it. */
  lemma {:induction false} TopSnapshotDropsAll(v: Levels, l: nat, input: seq<Entry>, n: nat)
    requires n <= |input|
    ensures KeptRows(v, l, input, MAX_SEQUENCE, n) == []
  {
    if n > 0 {
      TopSnapshotDropsAll(v, l, input, n - 1);
    }
  }

  // ----- the other rows of the store -------------------------------------------------------------------

  /** A compaction of level l of version v: its input files, the rows the merging iterator yields from them,
      the rows of the memtables above the version, and the smallest live snapshot. */
  datatype Job = Job(t: Tables, v: Levels, l: nat, in0: seq<FileMeta>, in1: seq<FileMeta>,
                     input: seq<Entry>, above: iset<Entry>, snap: SequenceNumber)

  ghost function Kept(c: Job): seq<Entry> {
    KeptRows(c.v, c.l, c.input, c.snap, |c.input|)
  }

  ghost predicate IsInput(c: Job, m: int, f: FileMeta) {
    (m == c.l && f in c.in0) || (m == c.l + 1 && f in c.in1)
  }

  ghost predicate LeftOut(c: Job, m: int, f: FileMeta, e: Entry) {
    InVersion(c.t, c.v, m, f, e) && !IsInput(c, m, f)
  }

  ghost function Rest(c: Job): iset<Entry> {
    iset e, m, f | LeftOut(c, m, f, e) :: e
  }

  /** `input` is what the merging iterator over the input files yields. */
  ghost predicate IsMergeOf(c: Job) {
    && SortedRun(c.input)
    && (forall e :: e in c.input <==> exists f :: (f in c.in0 || f in c.in1) && e in Rows(c.t, f))
  }

  /** Files whose ranges of user keys have nothing in common. */
  ghost predicate KeysApart(f: FileMeta, g: FileMeta) {
    f.largest.user < g.smallest.user || g.largest.user < f.smallest.user
  }

  ghost predicate ApartFromInputs(c: Job, g: FileMeta) {
    forall f :: f in c.in0 || f in c.in1 ==> KeysApart(f, g)
  }

  /** A file that came to level l+1 after the inputs were chosen, between the files compacted. */
  ghost predicate Newcomer(c: Job, g: FileMeta)
    requires c.l + 1 < |c.v|
  {
    g in c.v[c.l + 1] && g !in c.in1 && TouchesHull(c.in0, g)
  }

  /** What a compaction's inputs must satisfy: files left out at level l hold newer rows than the inputs there,
      and level l+1 takes part with the files that meet the range of the level-l inputs, but for newcomers apart
      from every input. */
  ghost predicate InputsClosed(c: Job) {
    && c.l + 1 < |c.v| && c.in0 != []
    && (forall f :: f in c.in0 ==> f in c.v[c.l])
    && (forall f, g :: f in c.v[c.l] && f !in c.in0 && g in c.in0 ==> NewerFile(c.t, f, g))
    && (forall g :: g in c.in1 ==> g in c.v[c.l + 1] && TouchesHull(c.in0, g))
    && (forall g :: Newcomer(c, g) ==> ApartFromInputs(c, g))
  }

  lemma SelectedIsClosed(c: Job)
    requires ValidVersion(c.t, c.v) && Selected(c.v, c.l, c.in0, c.in1)
    ensures InputsClosed(c)
  {
    forall f, g | f in c.v[c.l] && f !in c.in0 && g in c.in0 ensures NewerFile(c.t, f, g) {
      assert ValidFile(c.t, f) && ValidFile(c.t, g);
      forall x, y | x in Rows(c.t, f) && y in Rows(c.t, g) && x.key.user == y.key.user ensures x.key.seqno > y.key.seqno {
        RowInBounds(c.t, f, x);
        RowInBounds(c.t, g, y);
      }
    }
  }

  /** A compaction in progress, below rows `above` that are newer than the whole version (the memtables). */
  ghost predicate Compacting(c: Job) {
    && ValidVersion(c.t, c.v) && InputsClosed(c) && IsMergeOf(c)
    && UniqueSeqs(c.above)
    && (forall x, y :: x in c.above && y in VersionEntries(c.t, c.v) && x.key.user == y.key.user ==> x.key.seqno > y.key.seqno)
  }

  ghost function Before(c: Job): iset<Entry> {
    c.above + VersionEntries(c.t, c.v)
  }

  ghost function After(c: Job): iset<Entry> {
    c.above + Rest(c) + Members(Kept(c))
  }

  lemma InputHasFile(c: Job, e: Entry)
    returns (m: int, f: FileMeta)
    requires InputsClosed(c) && IsMergeOf(c) && e in c.input
    ensures InVersion(c.t, c.v, m, f, e) && IsInput(c, m, f)
  {
    f :| (f in c.in0 || f in c.in1) && e in Rows(c.t, f);
    m := if f in c.in0 then c.l else c.l + 1;
  }

  /** The version is the left-out rows and the input rows together. */
  lemma VersionSplits(c: Job, e: Entry)
    requires InputsClosed(c) && IsMergeOf(c)
    ensures e in VersionEntries(c.t, c.v) <==> e in Rest(c) || e in c.input
  {
    if e in VersionEntries(c.t, c.v) {
      var m, f :| InVersion(c.t, c.v, m, f, e);
      assert IsInput(c, m, f) || LeftOut(c, m, f, e);
    }
    if e in c.input {
      var m, f := InputHasFile(c, e);
    }
  }

  /** A level l+1 file the compaction left out that holds an older row of the tombstone's user key. */
  ghost predicate Continuation(c: Job, d: Entry, g: FileMeta)
    requires c.l + 1 < |c.v|
  {
    g in c.v[c.l + 1] && g !in c.in1 && g.smallest.user == d.key.user && g.smallest.seqno < d.key.seqno
  }

  lemma SortedEitherWay(fs: seq<FileMeta>, f: FileMeta, g: FileMeta)
    requires DisjointSorted(fs) && f in fs && g in fs && f != g
    ensures Precedes(f.largest, g.smallest) || Precedes(g.largest, f.smallest)
  {
  }

  /** A left-out row older than an input row of its user key is either below level l+1, or in a level l+1
      file that goes on with that user key after the inputs. */
  lemma OlderLeftOut(c: Job, m: int, g: FileMeta, x: Entry, e: Entry)
    requires ValidVersion(c.t, c.v) && InputsClosed(c) && IsMergeOf(c)
    requires LeftOut(c, m, g, x) && e in c.input
    requires x.key.user == e.key.user && x.key.seqno <= e.key.seqno
    ensures m >= c.l + 1
    ensures m == c.l + 1 ==> Continuation(c, e, g)
    ensures m >= c.l + 2 ==> !IsBaseLevel(c.v, c.l, e.key.user)
  {
    var n, f := InputHasFile(c, e);
    assert ValidFile(c.t, f) && ValidFile(c.t, g);
    RowInBounds(c.t, f, e);
    RowInBounds(c.t, g, x);
    assert m < n ==> NewerFile(c.t, g, f);
    assert m == n == c.l ==> NewerFile(c.t, g, f);
    assert m == c.l + 1 && Newcomer(c, g) ==> KeysApart(f, g);
    assert m == c.l + 1 && n == c.l ==> TouchesHull(c.in0, g);
    if m == n == c.l + 1 {
      SortedEitherWay(c.v[m], f, g);
    }
    assert m >= c.l + 2 ==> Holds(g, e.key.user);
  }

  lemma BeforeUnique(c: Job)
    requires Compacting(c)
    ensures UniqueSeqs(Before(c))
  {
    VersionUniqueSeqs(c.t, c.v);
  }

  lemma AfterIsSubset(c: Job)
    requires Compacting(c)
    ensures After(c) <= Before(c)
  {
    forall e | e in After(c) ensures e in Before(c) {
      KeptMembers(c.v, c.l, c.input, c.snap, |c.input|, e);
      VersionSplits(c, e);
    }
  }

  // ----- when a deleted key comes back -------------------------------------------------------------------

  /** The compaction drops the tombstone `d` that readers at `floor` rely on, while the next older row of that
      user key is a value at the head of a level l+1 file outside the compaction. */
  ghost predicate ResurrectsBy(c: Job, floor: SequenceNumber, d: Entry, g: FileMeta)
    requires c.l + 1 < |c.v|
  {
    && d in c.input && d.key.kind.Deletion? && d.key.seqno <= c.snap && IsNewest(Before(c), d.key.user, floor, d)
    && IsBaseLevel(c.v, c.l, d.key.user)
    && Continuation(c, d, g)
    && (forall h :: Continuation(c, d, h) ==> h.smallest.seqno <= g.smallest.seqno)
    && g.smallest.kind.Put?
  }

  ghost predicate Resurrects(c: Job, floor: SequenceNumber)
    requires c.l + 1 < |c.v|
  {
    exists d, g :: ResurrectsBy(c, floor, d, g)
  }

  /** Rows of the tombstone's key that survive it were left out of the compaction, and are older. */
  lemma SurvivorLeftOut(c: Job, s: SequenceNumber, d: Entry, y: Entry)
    requires Compacting(c)
    requires d in c.input && d.key.seqno <= c.snap && IsNewest(Before(c), d.key.user, s, d)
    requires d !in Kept(c)
    requires Candidate(After(c), d.key.user, s, y)
    ensures y in Rest(c) && y.key.seqno <= d.key.seqno
  {
    AfterIsSubset(c);
    assert Candidate(Before(c), d.key.user, s, y);
    VersionSplits(c, d);
    assert y !in c.above;
    if y in Kept(c) {
      KeptMembers(c.v, c.l, c.input, c.snap, |c.input|, y);
      VersionSplits(c, y);
      VersionUniqueSeqs(c.t, c.v);
      assert y.key.seqno != d.key.seqno;
      HiddenIsDropped(c.v, c.l, c.input, c.snap, d, y);
    }
  }

  /** Once the tombstone is gone, a reader finds at best the head of a continuation. */
  lemma NextOlderRow(c: Job, s: SequenceNumber, d: Entry, y: Entry)
    returns (g: FileMeta)
    requires Compacting(c)
    requires d in c.input && d.key.seqno <= c.snap && IsNewest(Before(c), d.key.user, s, d)
    requires d !in Kept(c) && IsBaseLevel(c.v, c.l, d.key.user)
    requires Candidate(After(c), d.key.user, s, y)
    ensures Continuation(c, d, g) && y in Rows(c.t, g)
    ensures y.key == g.smallest || y.key.seqno < g.smallest.seqno
  {
    SurvivorLeftOut(c, s, d, y);
    var m;
    m, g :| LeftOut(c, m, g, y);
    OlderLeftOut(c, m, g, y, d);
    assert ValidFile(c.t, g);
    RowInBounds(c.t, g, y);
  }

  lemma PreservedAt(c: Job, floor: SequenceNumber, k: UserKey, s: SequenceNumber)
    requires Compacting(c) && c.snap < MAX_SEQUENCE && c.snap <= floor <= s
    requires !Resurrects(c, floor)
    ensures View(After(c), k, s) == View(Before(c), k, s)
  {
    var before, after := Before(c), After(c);
    BeforeUnique(c);
    AfterIsSubset(c);
    if e0 :| Candidate(before, k, s, e0) {
      var e := NewestExists(before, k, s, e0);
      ViewOfNewest(before, k, s, e);
      if e in after {
        assert IsNewest(after, k, s, e);
        ViewOfNewest(after, k, s, e);
      } else {
        TombstoneGone(c, floor, k, s, e);
      }
    }
  }

  lemma TombstoneGone(c: Job, floor: SequenceNumber, k: UserKey, s: SequenceNumber, e: Entry)
    requires Compacting(c) && c.snap < MAX_SEQUENCE && c.snap <= floor <= s
    requires !Resurrects(c, floor)
    requires IsNewest(Before(c), k, s, e) && e !in After(c)
    ensures e.key.kind.Deletion?
    ensures View(After(c), k, s) == None
  {
    var before, after := Before(c), After(c);
    BeforeUnique(c);
    AfterIsSubset(c);
    VersionSplits(c, e);
    WhyDropped(c.v, c.l, c.input, c.snap, e);
    forall x | x in c.input && x.key.user == e.key.user ensures !(e.key.seqno < x.key.seqno <= c.snap) {
      VersionSplits(c, x);
      assert x.key.seqno <= s ==> Candidate(before, k, s, x);
    }
    if y0 :| Candidate(after, k, s, y0) {
      var y := NewestExists(after, k, s, y0);
      var g := NextOlderRow(c, s, e, y);
      HeadIsNewest(c, s, e, y, g);
      assert IsNewest(before, k, floor, e) by {
        assert forall x :: Candidate(before, k, floor, x) ==> Candidate(before, k, s, x);
      }
      assert !ResurrectsBy(c, floor, e, g);
      ViewOfNewest(after, k, s, y);
    }
  }

  /** The newest surviving row is the head of the newest continuation. */
  lemma HeadIsNewest(c: Job, s: SequenceNumber, d: Entry, y: Entry, g: FileMeta)
    requires Compacting(c) && c.snap <= s && d.key.seqno <= c.snap
    requires IsNewest(After(c), d.key.user, s, y)
    requires Continuation(c, d, g) && y in Rows(c.t, g)
    requires y.key == g.smallest || y.key.seqno < g.smallest.seqno
    ensures y.key == g.smallest
    ensures forall h :: Continuation(c, d, h) ==> h.smallest.seqno <= g.smallest.seqno
  {
    var after := After(c);
    forall h | Continuation(c, d, h) ensures h.smallest.seqno <= y.key.seqno {
      assert ValidFile(c.t, h);
      var head := Rows(c.t, h)[0];
      assert head in Rows(c.t, h);
      assert LeftOut(c, c.l + 1, h, head);
      assert Candidate(after, d.key.user, s, head);
    }
  }

  lemma BrokenBy(c: Job, floor: SequenceNumber, d: Entry, g: FileMeta)
    requires Compacting(c) && c.snap < MAX_SEQUENCE && c.snap <= floor
    requires ResurrectsBy(c, floor, d, g)
    ensures View(Before(c), d.key.user, floor) == None
    ensures View(After(c), d.key.user, floor).Some?
  {
    var k := d.key.user;
    var before, after := Before(c), After(c);
    BeforeUnique(c);
    AfterIsSubset(c);
    ViewOfNewest(before, k, floor, d);
    KeptMembers(c.v, c.l, c.input, c.snap, |c.input|, d);
    assert d !in Kept(c);
    assert ValidFile(c.t, g);
    var head := Rows(c.t, g)[0];
    assert head in Rows(c.t, g);
    assert LeftOut(c, c.l + 1, g, head);
    assert Candidate(after, k, floor, head);
    var y := NewestExists(after, k, floor, head);
    var h := NextOlderRow(c, floor, d, y);
    HeadIsNewest(c, floor, d, y, h);
    assert y == head by {
      assert head.key.seqno <= y.key.seqno;
      assert head in before && y in before;
    }
    ViewOfNewest(after, k, floor, y);
  }

  /** Every reader from `floor` on sees the same map after the compaction as before it, if and only if the
      compaction does not resurrect a key deleted for the readers at `floor`. */
  lemma CompactionPreservesViewsIff(c: Job, floor: SequenceNumber)
    requires Compacting(c) && c.snap < MAX_SEQUENCE && c.snap <= floor
    ensures (forall k, s: SequenceNumber :: floor <= s ==> View(After(c), k, s) == View(Before(c), k, s))
            <==> !Resurrects(c, floor)
  {
    if Resurrects(c, floor) {
      var d, g :| ResurrectsBy(c, floor, d, g);
      BrokenBy(c, floor, d, g);
    } else {
      forall k, s: SequenceNumber | floor <= s ensures View(After(c), k, s) == View(Before(c), k, s) {
        PreservedAt(c, floor, k, s);
      }
    }
  }
}
