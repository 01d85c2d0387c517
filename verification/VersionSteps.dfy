/** The three edits background work makes to a version, and why each leaves it valid: a flushed memtable
    is added, a file moves down one level, a compaction replaces its inputs (db/db_impl.cc). */
module VersionSteps {
  import opened Sequences
  import opened DbFormat
  import opened Versions
  import opened CompactionInputs
  import opened CompactionLoop
  import opened CompactionMeaning
  import opened VersionBuilder

  ghost predicate AllOrdered(v: Levels) {
    forall l :: 0 <= l < |v| ==> Ordered(v[l])
  }

  /** The version that applying `edit` to `v` yields. */
  ghost predicate Applied(v: Levels, edit: VersionEdit, v': Levels) {
    && EditInRange(edit, |v|) && |v'| == |v|
    && forall l :: 0 <= l < |v| ==> Lists(v'[l], ApplyEdit(FileSets(v), edit)[l])
  }

  // ----- validity, level by level as sets ------------------------------------------------------------------

  ghost predicate Apart(f: FileMeta, g: FileMeta) {
    Precedes(f.largest, g.smallest) || Precedes(g.largest, f.smallest)
  }

  ghost predicate PairOk(t: Tables, l: nat, f: FileMeta, m: nat, g: FileMeta) {
    && (l < m ==> NewerFile(t, f, g))
    && (l == m > 0 && f != g ==> Apart(f, g))
    && (l == m == 0 && f != g ==> f.number != g.number)
    && (l == m == 0 && f.number > g.number ==> NewerFile(t, f, g))
  }

  ghost predicate PairsOk(t: Tables, c: Contents) {
    forall l, f, m, g :: 0 <= l <= m < |c| && f in c[l] && g in c[m] ==> PairOk(t, l, f, m, g)
  }

  ghost predicate AllValid(t: Tables, c: Contents) {
    forall l, f :: 0 <= l < |c| && f in c[l] ==> ValidFile(t, f)
  }

  lemma FilesOfLevel(v: Levels, l: nat, f: FileMeta)
    requires l < |v|
    ensures f in FileSets(v)[l] <==> f in v[l]
  {
  }

  lemma ValidToPairs(t: Tables, v: Levels)
    requires ValidVersion(t, v)
    ensures AllValid(t, FileSets(v)) && PairsOk(t, FileSets(v))
  {
    var c := FileSets(v);
    forall l, f, m, g | 0 <= l <= m < |c| && f in c[l] && g in c[m] ensures PairOk(t, l, f, m, g) {
      FilesOfLevel(v, l, f);
      FilesOfLevel(v, m, g);
      if l == m > 0 && f != g {
        SortedEitherWay(v[l], f, g);
      }
      if l == m == 0 && f != g {
        var i :| 0 <= i < |v[0]| && v[0][i] == f;
        var j :| 0 <= j < |v[0]| && v[0][j] == g;
        assert f.number != g.number;
      }
    }
  }

  lemma OrderedApart(t: Tables, fs: seq<FileMeta>)
    requires Ordered(fs) && forall f :: f in fs ==> ValidFile(t, f)
    requires forall f, g :: f in fs && g in fs && f != g ==> Apart(f, g)
    ensures DisjointSorted(fs)
  {
    forall i | 0 <= i < |fs| ensures WellFormedMeta(fs[i]) {
      assert fs[i] in fs;
      RowInBounds(t, fs[i], Rows(t, fs[i])[0]);
    }
    forall i, j | 0 <= i < j < |fs| ensures Precedes(fs[i].largest, fs[j].smallest) {
      assert BySmallestKey(fs[i], fs[j]);
      assert WellFormedMeta(fs[i]) && WellFormedMeta(fs[j]);
      assert fs[i] in fs && fs[j] in fs;
      assert Apart(fs[i], fs[j]);
    }
  }

  lemma PairsToValid(t: Tables, v: Levels, c: Contents)
    requires |v| == |c| == NUM_LEVELS && forall l :: 0 <= l < |v| ==> Lists(v[l], c[l])
    requires AllValid(t, c) && PairsOk(t, c)
    ensures ValidVersion(t, v)
  {
    forall l | 1 <= l < |v| ensures DisjointSorted(v[l]) {
      forall f, g | f in v[l] && g in v[l] && f != g ensures Apart(f, g) {
        assert PairOk(t, l, f, l, g);
      }
      OrderedApart(t, v[l]);
    }
    forall i, j | 0 <= i < j < |v[0]| ensures v[0][i].number != v[0][j].number {
      assert BySmallestKey(v[0][i], v[0][j]);
      assert v[0][i] in v[0] && v[0][j] in v[0];
      assert PairOk(t, 0, v[0][i], 0, v[0][j]);
    }
    forall f, g | f in v[0] && g in v[0] && f.number > g.number ensures NewerFile(t, f, g) {
      assert PairOk(t, 0, f, 0, g);
    }
    forall l, m, f, g | 0 <= l < m < |v| && f in v[l] && g in v[m] ensures NewerFile(t, f, g) {
      assert PairOk(t, l, f, m, g);
    }
  }

  // ----- what the edits do to the levels -------------------------------------------------------------------

  /** Membership after an edit. */
  lemma EditMembers(v: Levels, edit: VersionEdit, v': Levels, l: nat, f: FileMeta)
    requires Applied(v, edit, v') && l < |v|
    ensures f in v'[l] <==>
              || (f in v[l] && (l, f.number) !in edit.deletedFiles)
              || (exists i :: 0 <= i < |edit.newFiles| && edit.newFiles[i] == (l, f))
  {
    AddedMembers(RemoveAll(FileSets(v), edit.deletedFiles), edit.newFiles, l, f);
  }

  ghost predicate GainsFile(files: seq<FileMeta>, meta: FileMeta, files': seq<FileMeta>) {
    forall f :: f in files' <==> f in files || f == meta
  }

  /** New tables under unused numbers do not disturb what the old files hold. */
  ghost predicate Extends(t: Tables, t': Tables) {
    forall n :: n in t ==> n in t' && t'[n] == t[n]
  }

  lemma OldFileStays(t: Tables, t': Tables, f: FileMeta)
    requires Extends(t, t') && ValidFile(t, f)
    ensures Rows(t', f) == Rows(t, f) && ValidFile(t', f)
  {
  }

  lemma OldPairStays(t: Tables, t': Tables, v: Levels, l: nat, f: FileMeta, m: nat, g: FileMeta)
    requires Extends(t, t') && ValidVersion(t, v) && l <= m < |v| && f in v[l] && g in v[m]
    ensures PairOk(t', l, f, m, g)
  {
    ValidToPairs(t, v);
    FilesOfLevel(v, l, f);
    FilesOfLevel(v, m, g);
    OldFileStays(t, t', f);
    OldFileStays(t, t', g);
    assert PairOk(t, l, f, m, g);
  }

  /** Valid files, pairwise in order, make a valid version. */
  lemma EditKeepsValid(t: Tables, v: Levels, edit: VersionEdit, v': Levels)
    requires Applied(v, edit, v') && |v| == NUM_LEVELS
    requires FilesValid(t, v')
    requires forall l, f, m, g :: 0 <= l <= m < |v'| && f in v'[l] && g in v'[m] ==> PairOk(t, l, f, m, g)
    ensures ValidVersion(t, v') && AllOrdered(v')
  {
    PairsToValid(t, v', ApplyEdit(FileSets(v), edit));
  }

  // ----- flush ---------------------------------------------------------------------------------------------

  /** A memtable written as table `meta` and put in at level `p`. */
  ghost predicate IsFlush(t: Tables, v: Levels, rows: seq<Entry>, meta: FileMeta, p: nat,
                          t': Tables, edit: VersionEdit, v': Levels) {
    && meta.number !in t && t' == t[meta.number := rows] && ValidFile(t', meta)
    && (forall l, f :: 0 <= l < |v| && f in v[l] ==> f.number < meta.number && Newer(rows, Rows(t, f)))
    && p < NUM_LEVELS
    && (p > 0 ==> forall l, f :: 0 <= l <= p && l < |v| && f in v[l] ==>
          !Overlaps(f, Some(meta.smallest.user), Some(meta.largest.user)))
    && edit.deletedFiles == {} && edit.newFiles == [(p, meta)] && Applied(v, edit, v')
  }

  lemma NoOverlapNoKey(t: Tables, f: FileMeta, g: FileMeta, x: Entry, y: Entry)
    requires ValidFile(t, f) && ValidFile(t, g) && !Overlaps(f, Some(g.smallest.user), Some(g.largest.user))
    requires x in Rows(t, f) && y in Rows(t, g)
    ensures x.key.user != y.key.user && Apart(f, g)
  {
    RowInBounds(t, f, x);
    RowInBounds(t, g, y);
  }

  lemma FlushPair(t: Tables, v: Levels, rows: seq<Entry>, meta: FileMeta, p: nat,
                  t': Tables, edit: VersionEdit, v': Levels, l: nat, f: FileMeta)
    requires ValidVersion(t, v) && IsFlush(t, v, rows, meta, p, t', edit, v') && l < |v| && f in v[l]
    ensures l <= p ==> PairOk(t', l, f, p, meta)
    ensures p <= l ==> PairOk(t', p, meta, l, f)
  {
    assert ValidFile(t, f);
    OldFileStays(t, t', f);
    assert Newer(rows, Rows(t, f));
    if l <= p && p > 0 {
      NoOverlapNoKey(t', f, meta, Rows(t', f)[0], Rows(t', meta)[0]);
      forall x, y | x in Rows(t', f) && y in Rows(t', meta) ensures x.key.user != y.key.user {
        NoOverlapNoKey(t', f, meta, x, y);
      }
    }
  }

  lemma FlushKeepsValid(t: Tables, v: Levels, rows: seq<Entry>, meta: FileMeta, p: nat, t': Tables, edit: VersionEdit, v': Levels)
    requires ValidVersion(t, v) && IsFlush(t, v, rows, meta, p, t', edit, v')
    ensures ValidVersion(t', v') && AllOrdered(v')
    ensures VersionEntries(t', v') == VersionEntries(t, v) + Members(rows)
  {
    forall l, f | 0 <= l < |v| ensures f in v'[l] <==> f in v[l] || (l == p && f == meta) {
      EditMembers(v, edit, v', l, f);
    }
    forall l, f | 0 <= l < |v'| && f in v'[l] ensures ValidFile(t', f) && (f != meta ==> Rows(t', f) == Rows(t, f)) {
      if f != meta { OldFileStays(t, t', f); }
    }
    forall l, f, m, g | 0 <= l <= m < |v'| && f in v'[l] && g in v'[m] ensures PairOk(t', l, f, m, g) {
      if f in v[l] && g in v[m] {
        OldPairStays(t, t', v, l, f, m, g);
      } else if f in v[l] {
        FlushPair(t, v, rows, meta, p, t', edit, v', l, f);
      } else if g in v[m] {
        FlushPair(t, v, rows, meta, p, t', edit, v', m, g);
      }
    }
    EditKeepsValid(t', v, edit, v');
    FlushedEntries(t, v, rows, meta, p, t', edit, v');
  }

  lemma FlushedEntries(t: Tables, v: Levels, rows: seq<Entry>, meta: FileMeta, p: nat, t': Tables, edit: VersionEdit, v': Levels)
    requires ValidVersion(t, v) && IsFlush(t, v, rows, meta, p, t', edit, v')
    ensures VersionEntries(t', v') == VersionEntries(t, v) + Members(rows)
  {
    forall l, f | 0 <= l < |v|
      ensures (f in v'[l] <==> f in v[l] || (l == p && f == meta)) && (f in v[l] ==> Rows(t', f) == Rows(t, f))
    {
      EditMembers(v, edit, v', l, f);
      if f in v[l] {
        assert ValidFile(t, f);
        OldFileStays(t, t', f);
      }
    }
    forall e ensures e in VersionEntries(t', v') <==> e in VersionEntries(t, v) || e in rows {
      if e in VersionEntries(t, v) {
        var l, f :| InVersion(t, v, l, f, e);
        assert InVersion(t', v', l, f, e);
      }
      if e in rows { assert InVersion(t', v', p, meta, e); }
      if e in VersionEntries(t', v') {
        var l, f :| InVersion(t', v', l, f, e);
        assert InVersion(t, v, l, f, e) || f == meta;
      }
    }
  }

  // ----- trivial move --------------------------------------------------------------------------------------

  lemma SameNumberSameFile(t: Tables, v: Levels, l: nat, f: FileMeta, g: FileMeta)
    requires ValidVersion(t, v) && l < |v| && f in v[l] && g in v[l] && f.number == g.number
    ensures f == g
  {
    ValidToPairs(t, v);
    FilesOfLevel(v, l, f);
    FilesOfLevel(v, l, g);
    assert PairOk(t, l, f, l, g);
    assert ValidFile(t, f) && ValidFile(t, g);
    RowInBounds(t, f, Rows(t, f)[0]);
  }

  ghost predicate IsMove(v: Levels, l: nat, f: FileMeta, edit: VersionEdit, v': Levels) {
    && Selected(v, l, [f], [])
    && edit.deletedFiles == {(l, f.number)} && edit.newFiles == [(l + 1, f)] && Applied(v, edit, v')
  }

  lemma MovedPair(t: Tables, v: Levels, l: nat, f: FileMeta, m: nat, g: FileMeta)
    requires ValidVersion(t, v) && Selected(v, l, [f], []) && m < |v| && g in v[m] && !(m == l && g == f)
    ensures m <= l + 1 ==> PairOk(t, m, g, l + 1, f)
    ensures l + 1 <= m ==> PairOk(t, l + 1, f, m, g)
  {
    assert f in [f] && ValidFile(t, f) && ValidFile(t, g);
    ValidToPairs(t, v);
    FilesOfLevel(v, l, f);
    FilesOfLevel(v, m, g);
    assert m <= l ==> PairOk(t, m, g, l, f);
    assert l <= m ==> PairOk(t, l, f, m, g);
    if m == l {
      forall x, y | x in Rows(t, g) && y in Rows(t, f) && x.key.user == y.key.user ensures x.key.seqno > y.key.seqno {
        RowInBounds(t, g, x);
        RowInBounds(t, f, y);
      }
    }
    if m == l + 1 {
      assert !TouchesHull([f], g);
      assert f.smallest.user > g.largest.user || g.smallest.user > f.largest.user;
    }
  }

  lemma MoveKeepsValid(t: Tables, v: Levels, l: nat, f: FileMeta, edit: VersionEdit, v': Levels)
    requires ValidVersion(t, v) && IsMove(v, l, f, edit, v')
    ensures ValidVersion(t, v') && AllOrdered(v')
    ensures VersionEntries(t, v') == VersionEntries(t, v)
  {
    assert f in [f];
    forall m, g | 0 <= m < |v| ensures g in v'[m] <==> (g in v[m] && !(m == l && g == f)) || (m == l + 1 && g == f) {
      EditMembers(v, edit, v', m, g);
      if m == l && g in v[l] && g.number == f.number { SameNumberSameFile(t, v, l, f, g); }
    }
    forall m, g, n, h | 0 <= m <= n < |v'| && g in v'[m] && h in v'[n] ensures PairOk(t, m, g, n, h) {
      if m == l + 1 && g == f && n == l + 1 && h == f {
      } else if m == l + 1 && g == f {
        MovedPair(t, v, l, f, n, h);
      } else if n == l + 1 && h == f {
        MovedPair(t, v, l, f, m, g);
      } else {
        OldPairStays(t, t, v, m, g, n, h);
      }
    }
    EditKeepsValid(t, v, edit, v');
    forall e ensures e in VersionEntries(t, v') <==> e in VersionEntries(t, v) {
      if e in VersionEntries(t, v) {
        var m, g :| InVersion(t, v, m, g, e);
        assert InVersion(t, v', if m == l && g == f then l + 1 else m, g, e);
      }
      if e in VersionEntries(t, v') {
        var m, g :| InVersion(t, v', m, g, e);
        assert InVersion(t, v, if m == l + 1 && g == f then l else m, g, e);
      }
    }
  }

  // ----- compaction ----------------------------------------------------------------------------------------

  ghost function InputPairs(c: Job): set<(nat, nat)> {
    (set f | f in c.in0 :: (c.l, f.number)) + (set f | f in c.in1 :: (c.l + 1, f.number))
  }

  function OutputAdds(level: nat, outs: seq<FileMeta>): (r: seq<(nat, FileMeta)>)
    ensures |r| == |outs| && forall i :: 0 <= i < |outs| ==> r[i] == (level, outs[i])
  {
    if outs == [] then [] else OutputAdds(level, outs[..|outs| - 1]) + [(level, outs[|outs| - 1])]
  }

  /** The metadata of each output file matches its rows. */
  ghost predicate Describes(parts: seq<seq<Entry>>, outs: seq<FileMeta>) {
    && |outs| == |parts|
    && forall i :: 0 <= i < |outs| ==>
         && parts[i] != [] && outs[i].smallest == parts[i][0].key
         && outs[i].largest == parts[i][|parts[i]| - 1].key
  }

  /** Each output file is stored under a number not used before. */
  ghost predicate StoredAs(t: Tables, parts: seq<seq<Entry>>, outs: seq<FileMeta>, t': Tables) {
    && Extends(t, t') && |outs| == |parts|
    && forall i :: 0 <= i < |outs| ==> outs[i].number !in t && Rows(t', outs[i]) == parts[i]
  }

  /** The outputs of a compaction with result `kept`, cut anywhere, installed in place of its inputs. */
  ghost predicate Installs(c: Job, kept: seq<Entry>, parts: seq<seq<Entry>>, outs: seq<FileMeta>,
                           t': Tables, edit: VersionEdit, v': Levels) {
    && Flatten(parts) == kept && Describes(parts, outs) && StoredAs(c.t, parts, outs, t')
    && edit.deletedFiles == InputPairs(c) && edit.newFiles == OutputAdds(c.l + 1, outs)
    && Applied(c.v, edit, v')
  }

  ghost predicate IsCompaction(c: Job, parts: seq<seq<Entry>>, outs: seq<FileMeta>, t': Tables, edit: VersionEdit, v': Levels) {
    Installs(c, Kept(c), parts, outs, t', edit, v')
  }

  lemma SortedConcat(a: seq<Entry>, b: seq<Entry>)
    requires SortedRun(a + b)
    ensures SortedRun(a) && SortedRun(b)
    ensures forall x, y :: x in a && y in b ==> Precedes(x.key, y.key)
  {
    assert forall i :: 0 <= i < |a| ==> (a + b)[i] == a[i];
    assert forall i :: 0 <= i < |b| ==> (a + b)[|a| + i] == b[i];
    forall x, y | x in a && y in b ensures Precedes(x.key, y.key) {
      var i :| 0 <= i < |a| && a[i] == x;
      var j :| 0 <= j < |b| && b[j] == y;
      assert Precedes((a + b)[i].key, (a + b)[|a| + j].key);
    }
  }

  lemma {:induction false} FlattenMembers(parts: seq<seq<Entry>>, e: Entry)
    ensures e in Flatten(parts) <==> exists i :: 0 <= i < |parts| && e in parts[i]
  {
    if parts != [] {
      FlattenMembers(parts[..|parts| - 1], e);
    }
  }

  lemma {:induction false} PartSorted(parts: seq<seq<Entry>>, i: nat)
    requires SortedRun(Flatten(parts)) && i < |parts|
    ensures SortedRun(parts[i])
  {
    var n := |parts| - 1;
    SortedConcat(Flatten(parts[..n]), parts[n]);
    if i < n {
      PartSorted(parts[..n], i);
    }
  }

  /** In a sorted concatenation the parts follow each other. */
  lemma {:induction false} PartsFollow(parts: seq<seq<Entry>>, i: nat, j: nat, x: Entry, y: Entry)
    requires SortedRun(Flatten(parts)) && i < j < |parts| && x in parts[i] && y in parts[j]
    ensures Precedes(x.key, y.key)
  {
    var n := |parts| - 1;
    SortedConcat(Flatten(parts[..n]), parts[n]);
    if j < n {
      PartsFollow(parts[..n], i, j, x, y);
    } else {
      assert parts[..n][i] == parts[i];
      FlattenMembers(parts[..n], x);
    }
  }

  /** A level l+1 file outside the range compacted lies wholly before, or wholly after, everything compacted. */
  lemma SideOfInputs(c: Job, g: FileMeta)
    requires Compacting(c) && g in c.v[c.l + 1] && g !in c.in1 && !TouchesHull(c.in0, g)
    ensures (forall e :: e in c.input ==> Precedes(g.largest, e.key)) || (forall e :: e in c.input ==> Precedes(e.key, g.smallest))
  {
    if forall x :: x in c.in0 ==> x.smallest.user > g.largest.user {
      forall e | e in c.input ensures Precedes(g.largest, e.key) {
        SideOfRow(c, g, e);
      }
    } else {
      forall e | e in c.input ensures Precedes(e.key, g.smallest) {
        SideOfRow(c, g, e);
      }
    }
  }

  lemma SideOfRow(c: Job, g: FileMeta, e: Entry)
    requires Compacting(c) && g in c.v[c.l + 1] && g !in c.in1 && !TouchesHull(c.in0, g) && e in c.input
    ensures (forall x :: x in c.in0 ==> x.smallest.user > g.largest.user) ==> Precedes(g.largest, e.key)
    ensures (forall y :: y in c.in0 ==> g.smallest.user > y.largest.user) ==> Precedes(e.key, g.smallest)
  {
    var m, f := InputHasFile(c, e);
    assert ValidFile(c.t, f) && ValidFile(c.t, g);
    RowInBounds(c.t, f, e);
    RowInBounds(c.t, g, Rows(c.t, g)[0]);
    if m == c.l + 1 {
      SortedEitherWay(c.v[m], f, g);
      assert TouchesHull(c.in0, f);
    }
  }

  /** Output rows keep the age order with every file that stays. */
  lemma RowAge(c: Job, m: nat, g: FileMeta, x: Entry, e: Entry)
    requires Compacting(c) && LeftOut(c, m, g, x) && e in c.input && x.key.user == e.key.user
    ensures m <= c.l ==> x.key.seqno > e.key.seqno
    ensures m >= c.l + 2 ==> x.key.seqno < e.key.seqno
  {
    var n, f := InputHasFile(c, e);
    assert m < n ==> NewerFile(c.t, g, f);
    assert n < m ==> NewerFile(c.t, f, g);
    assert m == n == c.l ==> NewerFile(c.t, g, f);
  }

  lemma OutputRow(c: Job, parts: seq<seq<Entry>>, i: nat, e: Entry)
    requires Flatten(parts) == Kept(c) && i < |parts| && e in parts[i]
    ensures e in c.input
  {
    FlattenMembers(parts, e);
    KeptMembers(c.v, c.l, c.input, c.snap, |c.input|, e);
  }

  lemma OutputValid(c: Job, parts: seq<seq<Entry>>, outs: seq<FileMeta>, t': Tables, edit: VersionEdit, v': Levels, i: nat)
    requires Compacting(c) && IsCompaction(c, parts, outs, t', edit, v') && i < |outs|
    ensures ValidFile(t', outs[i])
  {
    KeptSorted(c.v, c.l, c.input, c.snap, |c.input|);
    PartSorted(parts, i);
  }

  /** No output overlaps a file that came to level l+1 while the compaction ran. */
  ghost predicate OutputsClear(c: Job, outs: seq<FileMeta>)
    requires c.l + 1 < |c.v|
  {
    forall g, i :: Newcomer(c, g) && 0 <= i < |outs| ==> KeysApart(outs[i], g)
  }

  /** Seen from a file outside the range compacted, all outputs lie where the inputs lay. */
  lemma OutputSide(c: Job, parts: seq<seq<Entry>>, i: nat, g: FileMeta)
    requires Compacting(c) && Flatten(parts) == Kept(c) && i < |parts| && parts[i] != []
    requires g in c.v[c.l + 1] && g !in c.in1 && !TouchesHull(c.in0, g)
    ensures Precedes(g.largest, parts[i][0].key) || Precedes(parts[i][|parts[i]| - 1].key, g.smallest)
  {
    SideOfInputs(c, g);
    OutputRow(c, parts, i, parts[i][0]);
    OutputRow(c, parts, i, parts[i][|parts[i]| - 1]);
  }

  lemma OutputAge(c: Job, parts: seq<seq<Entry>>, i: nat, m: nat, g: FileMeta)
    requires Compacting(c) && Flatten(parts) == Kept(c) && i < |parts|
    requires m < |c.v| && g in c.v[m] && !IsInput(c, m, g)
    ensures m <= c.l ==> Newer(Rows(c.t, g), parts[i])
    ensures m >= c.l + 2 ==> Newer(parts[i], Rows(c.t, g))
  {
    forall x, e | x in Rows(c.t, g) && e in parts[i] && x.key.user == e.key.user
      ensures m <= c.l ==> x.key.seqno > e.key.seqno
      ensures m >= c.l + 2 ==> x.key.seqno < e.key.seqno
    {
      OutputRow(c, parts, i, e);
      RowAge(c, m, g, x, e);
    }
  }

  lemma OutputPair(c: Job, parts: seq<seq<Entry>>, outs: seq<FileMeta>, t': Tables, edit: VersionEdit, v': Levels,
                   i: nat, m: nat, g: FileMeta)
    requires Compacting(c) && IsCompaction(c, parts, outs, t', edit, v') && i < |outs|
    requires OutputsClear(c, outs)
    requires m < |c.v| && g in c.v[m] && !IsInput(c, m, g)
    ensures m <= c.l + 1 ==> PairOk(t', m, g, c.l + 1, outs[i])
    ensures c.l + 1 <= m ==> PairOk(t', c.l + 1, outs[i], m, g)
  {
    assert ValidFile(c.t, g);
    OldFileStays(c.t, t', g);
    OutputAge(c, parts, i, m, g);
    if m == c.l + 1 {
      if Newcomer(c, g) {
        assert KeysApart(outs[i], g);
      } else {
        OutputSide(c, parts, i, g);
      }
    }
  }

  lemma OutputsApart(c: Job, parts: seq<seq<Entry>>, outs: seq<FileMeta>, t': Tables, edit: VersionEdit, v': Levels,
                     i: nat, j: nat)
    requires Compacting(c) && IsCompaction(c, parts, outs, t', edit, v') && i < |outs| && j < |outs| && i != j
    ensures Apart(outs[i], outs[j])
  {
    KeptSorted(c.v, c.l, c.input, c.snap, |c.input|);
    var a, b := if i < j then i else j, if i < j then j else i;
    assert parts[a][|parts[a]| - 1] in parts[a] && parts[b][0] in parts[b];
    PartsFollow(parts, a, b, parts[a][|parts[a]| - 1], parts[b][0]);
  }

  ghost predicate Stays(c: Job, m: nat, f: FileMeta)
    requires m < |c.v|
  {
    f in c.v[m] && !IsInput(c, m, f)
  }

  ghost predicate IsOutput(c: Job, outs: seq<FileMeta>, m: nat, f: FileMeta) {
    m == c.l + 1 && f in outs
  }

  lemma DeletedAreInputs(c: Job, m: nat, f: FileMeta)
    requires Compacting(c) && m < |c.v| && f in c.v[m]
    ensures (m, f.number) in InputPairs(c) <==> IsInput(c, m, f)
  {
    if g :| g in c.in0 && (c.l, g.number) == (m, f.number) {
      SameNumberSameFile(c.t, c.v, m, f, g);
    }
    if g :| g in c.in1 && (c.l + 1, g.number) == (m, f.number) {
      SameNumberSameFile(c.t, c.v, m, f, g);
    }
  }

  /** The new version holds the files left out and the outputs. */
  lemma CompactedMembers(c: Job, parts: seq<seq<Entry>>, outs: seq<FileMeta>, t': Tables, edit: VersionEdit, v': Levels,
                         m: nat, f: FileMeta)
    requires Compacting(c) && IsCompaction(c, parts, outs, t', edit, v') && m < |c.v|
    ensures f in v'[m] <==> Stays(c, m, f) || IsOutput(c, outs, m, f)
  {
    EditMembers(c.v, edit, v', m, f);
    if f in c.v[m] {
      DeletedAreInputs(c, m, f);
    }
    assert forall i :: 0 <= i < |outs| ==> edit.newFiles[i] == (c.l + 1, outs[i]);
  }

  lemma CompactionKeepsValid(c: Job, parts: seq<seq<Entry>>, outs: seq<FileMeta>, t': Tables, edit: VersionEdit, v': Levels)
    requires Compacting(c) && IsCompaction(c, parts, outs, t', edit, v') && OutputsClear(c, outs)
    ensures ValidVersion(t', v') && AllOrdered(v')
  {
    forall m, f | 0 <= m < |v'| && f in v'[m] ensures ValidFile(t', f) {
      CompactedMembers(c, parts, outs, t', edit, v', m, f);
      if IsOutput(c, outs, m, f) {
        var i :| 0 <= i < |outs| && outs[i] == f;
        OutputValid(c, parts, outs, t', edit, v', i);
      } else {
        OldFileStays(c.t, t', f);
      }
    }
    forall m, f, n, g | 0 <= m <= n < |v'| && f in v'[m] && g in v'[n] ensures PairOk(t', m, f, n, g) {
      CompactedMembers(c, parts, outs, t', edit, v', m, f);
      CompactedMembers(c, parts, outs, t', edit, v', n, g);
      CompactedPair(c, parts, outs, t', edit, v', m, f, n, g);
    }
    EditKeepsValid(t', c.v, edit, v');
  }

  lemma CompactedPair(c: Job, parts: seq<seq<Entry>>, outs: seq<FileMeta>, t': Tables, edit: VersionEdit, v': Levels,
                      m: nat, f: FileMeta, n: nat, g: FileMeta)
    requires Compacting(c) && IsCompaction(c, parts, outs, t', edit, v') && OutputsClear(c, outs) && m <= n < |c.v|
    requires Stays(c, m, f) || IsOutput(c, outs, m, f)
    requires Stays(c, n, g) || IsOutput(c, outs, n, g)
    ensures PairOk(t', m, f, n, g)
  {
    if Stays(c, m, f) && Stays(c, n, g) {
      OldPairStays(c.t, t', c.v, m, f, n, g);
    } else if Stays(c, m, f) {
      var i :| 0 <= i < |outs| && outs[i] == g;
      OutputPair(c, parts, outs, t', edit, v', i, m, f);
    } else if Stays(c, n, g) {
      var i :| 0 <= i < |outs| && outs[i] == f;
      OutputPair(c, parts, outs, t', edit, v', i, n, g);
    } else {
      var i :| 0 <= i < |outs| && outs[i] == f;
      var j :| 0 <= j < |outs| && outs[j] == g;
      if f != g {
        OutputsApart(c, parts, outs, t', edit, v', i, j);
      }
    }
  }

  /** A row compacted has no key in the range of a newcomer. */
  lemma RowApart(c: Job, g: FileMeta, e: Entry)
    requires Compacting(c) && Newcomer(c, g) && e in c.input
    ensures e.key.user < g.smallest.user || g.largest.user < e.key.user
  {
    var m, f := InputHasFile(c, e);
    assert ValidFile(c.t, f);
    RowInBounds(c.t, f, e);
    assert KeysApart(f, g);
  }

  lemma ValidMeansClear(c: Job, parts: seq<seq<Entry>>, outs: seq<FileMeta>, t': Tables, edit: VersionEdit, v': Levels,
                        g: FileMeta, i: nat)
    requires Compacting(c) && IsCompaction(c, parts, outs, t', edit, v') && ValidVersion(t', v')
    requires Newcomer(c, g) && i < |outs|
    ensures KeysApart(outs[i], g)
  {
    var a, b := parts[i][0], parts[i][|parts[i]| - 1];
    OutputRow(c, parts, i, a);
    OutputRow(c, parts, i, b);
    RowApart(c, g, a);
    RowApart(c, g, b);
    CompactedMembers(c, parts, outs, t', edit, v', c.l + 1, g);
    CompactedMembers(c, parts, outs, t', edit, v', c.l + 1, outs[i]);
    assert outs[i] != g;
    SortedEitherWay(v'[c.l + 1], outs[i], g);
  }

  /** The new version is valid if and only if no output overlaps a file flushed into the level meanwhile. */
  lemma CompactionKeepsValidIff(c: Job, parts: seq<seq<Entry>>, outs: seq<FileMeta>, t': Tables, edit: VersionEdit, v': Levels)
    requires Compacting(c) && IsCompaction(c, parts, outs, t', edit, v')
    ensures ValidVersion(t', v') <==> OutputsClear(c, outs)
  {
    if ValidVersion(t', v') {
      forall g, i | Newcomer(c, g) && 0 <= i < |outs| ensures KeysApart(outs[i], g) {
        ValidMeansClear(c, parts, outs, t', edit, v', g, i);
      }
    } else if OutputsClear(c, outs) {
      CompactionKeepsValid(c, parts, outs, t', edit, v');
      assert false;
    }
  }

  /** After the edit the version holds exactly the rows left out and the rows kept. */
  lemma CompactedEntries(c: Job, parts: seq<seq<Entry>>, outs: seq<FileMeta>, t': Tables, edit: VersionEdit, v': Levels)
    requires Compacting(c) && IsCompaction(c, parts, outs, t', edit, v')
    ensures c.above + VersionEntries(t', v') == After(c)
  {
    forall e ensures e in VersionEntries(t', v') <==> e in Rest(c) || e in Kept(c) {
      FlattenMembers(parts, e);
      if e in Rest(c) {
        var m, f :| LeftOut(c, m, f, e);
        CompactedMembers(c, parts, outs, t', edit, v', m, f);
        OldFileStays(c.t, t', f);
        assert InVersion(t', v', m, f, e);
      }
      if e in Kept(c) {
        var i :| 0 <= i < |parts| && e in parts[i];
        CompactedMembers(c, parts, outs, t', edit, v', c.l + 1, outs[i]);
        assert InVersion(t', v', c.l + 1, outs[i], e);
      }
      if e in VersionEntries(t', v') {
        var m, f :| InVersion(t', v', m, f, e);
        CompactedMembers(c, parts, outs, t', edit, v', m, f);
        if Stays(c, m, f) {
          OldFileStays(c.t, t', f);
          assert LeftOut(c, m, f, e);
        }
      }
    }
  }
}
