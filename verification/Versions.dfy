/** Table files, levels, and reading a version (db/version_set.cc, first half). */
module Versions {
  import opened Sequences
  import opened DbFormat

  const NUM_LEVELS := 7
  const MAX_MEM_COMPACT_LEVEL := 2

  datatype FileMeta = FileMeta(number: nat, size: nat, smallest: InternalKey, largest: InternalKey)

  /** What the table cache opens: the sorted rows of each table file, by file number. */
  type Tables = map<nat, seq<Entry>>

  type Levels = seq<seq<FileMeta>>

  function Rows(t: Tables, f: FileMeta): seq<Entry> {
    if f.number in t then t[f.number] else []
  }

  ghost predicate ValidFile(t: Tables, f: FileMeta) {
    var es := Rows(t, f);
    |es| > 0 && SortedRun(es) && f.smallest == es[0].key && f.largest == es[|es| - 1].key
  }

  predicate WellFormedMeta(f: FileMeta) {
    f.smallest == f.largest || Precedes(f.smallest, f.largest)
  }

  /** The shape of every level above 0: files in key order, no two overlapping. */
  ghost predicate DisjointSorted(fs: seq<FileMeta>) {
    && (forall i :: 0 <= i < |fs| ==> WellFormedMeta(fs[i]))
    && (forall i, j :: 0 <= i < j < |fs| ==> Precedes(fs[i].largest, fs[j].smallest))
  }

  ghost predicate NewerFile(t: Tables, f: FileMeta, g: FileMeta) {
    Newer(Rows(t, f), Rows(t, g))
  }

  ghost predicate FilesValid(t: Tables, v: Levels) {
    forall l, f :: 0 <= l < |v| && f in v[l] ==> ValidFile(t, f)
  }

  /** Level 0 may overlap; there a larger file number means newer rows. */
  ghost predicate LevelZeroByNumber(t: Tables, fs: seq<FileMeta>) {
    && (forall i, j :: 0 <= i < j < |fs| ==> fs[i].number != fs[j].number)
    && (forall f, g :: f in fs && g in fs && f.number > g.number ==> NewerFile(t, f, g))
  }

  ghost predicate LevelsByAge(t: Tables, v: Levels) {
    forall l, m, f, g :: 0 <= l < m < |v| && f in v[l] && g in v[m] ==> NewerFile(t, f, g)
  }

  ghost predicate ValidVersion(t: Tables, v: Levels) {
    && |v| == NUM_LEVELS
    && FilesValid(t, v)
    && (forall l :: 1 <= l < |v| ==> DisjointSorted(v[l]))
    && LevelZeroByNumber(t, v[0])
    && LevelsByAge(t, v)
  }

  ghost predicate InVersion(t: Tables, v: Levels, l: int, f: FileMeta, e: Entry) {
    0 <= l < |v| && f in v[l] && e in Rows(t, f)
  }

  ghost function VersionEntries(t: Tables, v: Levels): iset<Entry> {
    iset e, l, f | InVersion(t, v, l, f, e) :: e
  }

  ghost predicate NoCandidate(es: seq<Entry>, k: UserKey, s: SequenceNumber) {
    forall e :: e in es ==> e.key.user != k || e.key.seqno > s
  }

  /** Every row of a file lies between its recorded bounds. */
  lemma RowInBounds(t: Tables, f: FileMeta, e: Entry)
    requires ValidFile(t, f) && e in Rows(t, f)
    ensures e.key == f.smallest || Precedes(f.smallest, e.key)
    ensures e.key == f.largest || Precedes(e.key, f.largest)
    ensures WellFormedMeta(f)
  {
    var es := Rows(t, f);
    var i :| 0 <= i < |es| && es[i] == e;
    assert i > 0 ==> Precedes(es[0].key, es[i].key);
    assert i < |es| - 1 ==> Precedes(es[i].key, es[|es| - 1].key);
  }

  /** Two rows of one level above 0 with the same user key are ordered by file, newest first. */
  lemma RowsAcrossFiles(t: Tables, fs: seq<FileMeta>, i: int, j: int, a: Entry, b: Entry)
    requires DisjointSorted(fs) && 0 <= i < j < |fs|
    requires ValidFile(t, fs[i]) && ValidFile(t, fs[j])
    requires a in Rows(t, fs[i]) && b in Rows(t, fs[j])
    ensures Precedes(a.key, b.key)
  {
    RowInBounds(t, fs[i], a);
    RowInBounds(t, fs[j], b);
  }

  lemma VersionUniqueSeqs(t: Tables, v: Levels)
    requires ValidVersion(t, v)
    ensures UniqueSeqs(VersionEntries(t, v))
  {
    forall x, y | x in VersionEntries(t, v) && y in VersionEntries(t, v)
                  && x.key.user == y.key.user && x.key.seqno == y.key.seqno
      ensures x == y
    {
      var l, f :| InVersion(t, v, l, f, x);
      var m, g :| InVersion(t, v, m, g, y);
      SameSeqSameRow(t, v, l, f, x, m, g, y);
    }
  }

  lemma SameSeqSameRow(t: Tables, v: Levels, l: int, f: FileMeta, x: Entry, m: int, g: FileMeta, y: Entry)
    requires ValidVersion(t, v) && InVersion(t, v, l, f, x) && InVersion(t, v, m, g, y)
    requires x.key.user == y.key.user && x.key.seqno == y.key.seqno
    ensures x == y
  {
    assert l < m ==> NewerFile(t, f, g);
    assert m < l ==> NewerFile(t, g, f);
    assert l == m == 0 && f != g ==> NewerFile(t, f, g) || NewerFile(t, g, f);
    if f == g {
      assert ValidFile(t, f);
    } else if l == m > 0 {
      var i :| 0 <= i < |v[l]| && v[l][i] == f;
      var j :| 0 <= j < |v[l]| && v[l][j] == g;
      assert ValidFile(t, f) && ValidFile(t, g);
      if i < j { RowsAcrossFiles(t, v[l], i, j, x, y); } else { RowsAcrossFiles(t, v[l], j, i, y, x); }
    }
  }

  // ----- searching one level -------------------------------------------------------------------

  /** Binary search for the first file whose largest key is at or after the target. */
  method FindFile(files: seq<FileMeta>, target: InternalKey) returns (r: nat)
    requires DisjointSorted(files)
    ensures r <= |files|
    ensures forall i :: 0 <= i < r ==> Less(files[i].largest, target)
    ensures forall i :: r <= i < |files| ==> !Less(files[i].largest, target)
  {
    var left, right := 0, |files|;
    while left < right
      invariant 0 <= left <= right <= |files|
      invariant forall i :: 0 <= i < left ==> Less(files[i].largest, target)
      invariant forall i :: right <= i < |files| ==> !Less(files[i].largest, target)
    {
      var mid := (left + right) / 2;
      assert forall i :: 0 <= i < mid ==> Precedes(files[i].largest, files[mid].smallest);
      assert forall i :: mid < i < |files| ==> Precedes(files[mid].largest, files[i].smallest);
      if Less(files[mid].largest, target) {
        left := mid + 1;
      } else {
        right := mid;
      }
    }
    r := right;
  }

  /** No file before or after the one FindFile picks can hold a newer answer, even when the user key
      straddles two adjacent files. */
  lemma FoundFileHoldsNewest(t: Tables, fs: seq<FileMeta>, r: nat, k: UserKey, s: SequenceNumber, j: int, e: Entry)
    requires DisjointSorted(fs) && forall i :: 0 <= i < |fs| ==> ValidFile(t, fs[i])
    requires r <= |fs|
    requires forall i :: 0 <= i < r ==> Less(fs[i].largest, SeekKey(k, s))
    requires forall i :: r <= i < |fs| ==> !Less(fs[i].largest, SeekKey(k, s))
    requires 0 <= j < |fs| && j != r && e in Rows(t, fs[j]) && e.key.user == k && e.key.seqno <= s
    ensures r < j && k >= fs[r].smallest.user
    ensures exists x :: x in Rows(t, fs[r]) && x.key.user == k && e.key.seqno < x.key.seqno <= s
  {
    RowInBounds(t, fs[j], e);
    assert j >= r;
    var x := Rows(t, fs[r])[|Rows(t, fs[r])| - 1];
    assert x.key == fs[r].largest && !Less(x.key, SeekKey(k, s));
    RowInBounds(t, fs[r], x);
    RowsAcrossFiles(t, fs, r, j, x, e);
    assert x in Rows(t, fs[r]);
  }

  // ----- Version::Get ---------------------------------------------------------------------------

  function InsertNewestFirst(f: FileMeta, fs: seq<FileMeta>): (r: seq<FileMeta>)
    ensures forall x :: x in r <==> x == f || x in fs
  {
    if fs == [] || f.number > fs[0].number then [f] + fs
    else
      assert fs == [fs[0]] + fs[1..];
      [fs[0]] + InsertNewestFirst(f, fs[1..])
  }

  ghost predicate NewestFirst(fs: seq<FileMeta>) {
    forall i, j :: 0 <= i < j < |fs| ==> fs[i].number >= fs[j].number
  }

  lemma {:induction false} InsertKeepsNewestFirst(f: FileMeta, fs: seq<FileMeta>)
    requires NewestFirst(fs)
    ensures NewestFirst(InsertNewestFirst(f, fs))
  {
    if fs == [] || f.number > fs[0].number {
    } else {
      InsertKeepsNewestFirst(f, fs[1..]);
      var r := InsertNewestFirst(f, fs[1..]);
      forall j | 0 <= j < |r| ensures fs[0].number >= r[j].number {
        assert r[j] in r;
      }
    }
  }

  /** The level-0 files whose range covers the user key, newest first. */
  method OverlappingNewestFirst(files: seq<FileMeta>, k: UserKey) returns (tmp: seq<FileMeta>)
    ensures NewestFirst(tmp)
    ensures forall f :: f in tmp <==> f in files && f.smallest.user <= k <= f.largest.user
  {
    tmp := [];
    for i := 0 to |files|
      invariant NewestFirst(tmp)
      invariant forall f :: f in tmp <==> f in files[..i] && f.smallest.user <= k <= f.largest.user
    {
      var f := files[i];
      assert files[..i + 1] == files[..i] + [f];
      if k >= f.smallest.user && k <= f.largest.user {
        InsertKeepsNewestFirst(f, tmp);
        tmp := InsertNewestFirst(f, tmp);
      }
    }
    assert files[..|files|] == files;
  }

  /** A hit in `f` is the newest entry of the whole version once everything searched earlier is known
      to hold nothing. */
  lemma HitIsNewest(t: Tables, v: Levels, l: int, f: FileMeta, k: UserKey, s: SequenceNumber)
    requires ValidVersion(t, v) && 0 <= l < |v| && f in v[l]
    requires forall m, g :: 0 <= m < l && g in v[m] ==> NoCandidate(Rows(t, g), k, s)
    requires forall g, e :: g in v[l] && g != f && e in Rows(t, g) && e.key.user == k && e.key.seqno <= s ==>
               exists x :: x in Rows(t, f) && x.key.user == k && e.key.seqno < x.key.seqno <= s
    ensures var r := RunGet(Rows(t, f), k, s);
            !r.NotFound? ==> View(VersionEntries(t, v), k, s) == if r.Found? then Some(r.value) else None
  {
    var es := VersionEntries(t, v);
    assert ValidFile(t, f);
    RunGetIsNewest(Rows(t, f), k, s);
    if !RunGet(Rows(t, f), k, s).NotFound? {
      var n :| IsNewest(Members(Rows(t, f)), k, s, n)
               && RunGet(Rows(t, f), k, s) == if n.key.kind.Put? then Found(n.value) else Deleted;
      assert InVersion(t, v, l, f, n);
      forall x | Candidate(es, k, s, x) ensures x.key.seqno <= n.key.seqno {
        var m, g :| InVersion(t, v, m, g, x);
        assert m < l ==> NoCandidate(Rows(t, g), k, s);
        if m > l {
          assert NewerFile(t, f, g);
        } else if g != f {
          var y :| y in Rows(t, f) && y.key.user == k && x.key.seqno < y.key.seqno <= s;
          assert Candidate(Members(Rows(t, f)), k, s, y);
        } else {
          assert Candidate(Members(Rows(t, f)), k, s, x);
        }
      }
      VersionUniqueSeqs(t, v);
      ViewOfNewest(es, k, s, n);
    }
  }

  /** Search level 0 newest first, stopping at the first file that knows the key. */
  method GetFromLevelZero(t: Tables, v: Levels, k: UserKey, s: SequenceNumber) returns (r: GetResult)
    requires ValidVersion(t, v)
    ensures r.NotFound? ==> forall g :: g in v[0] ==> NoCandidate(Rows(t, g), k, s)
    ensures !r.NotFound? ==> View(VersionEntries(t, v), k, s) == if r.Found? then Some(r.value) else None
  {
    var tmp := OverlappingNewestFirst(v[0], k);
    forall g | g in v[0] && g !in tmp ensures NoCandidate(Rows(t, g), k, s) {
      assert ValidFile(t, g);
      forall e | e in Rows(t, g) ensures e.key.user != k { RowInBounds(t, g, e); }
    }
    for i := 0 to |tmp|
      invariant forall j :: 0 <= j < i ==> NoCandidate(Rows(t, tmp[j]), k, s)
    {
      var f := tmp[i];
      assert f in tmp;
      assert ValidFile(t, f);
      r := RunGet(Rows(t, f), k, s);
      RunGetIsNewest(Rows(t, f), k, s);
      if !r.NotFound? {
        forall g, e | g in v[0] && g != f && e in Rows(t, g) && e.key.user == k && e.key.seqno <= s
          ensures exists x :: x in Rows(t, f) && x.key.user == k && e.key.seqno < x.key.seqno <= s
        {
          assert g in tmp;
          var j :| 0 <= j < |tmp| && tmp[j] == g;
          assert j > i;
          assert NewerFile(t, f, g);
          var n :| IsNewest(Members(Rows(t, f)), k, s, n);
          assert n in Rows(t, f);
        }
        HitIsNewest(t, v, 0, f, k, s);
        return;
      }
    }
    r := NotFound;
  }

  /** Search one level above 0 through at most one file. */
  method GetFromLevel(t: Tables, v: Levels, l: nat, k: UserKey, s: SequenceNumber) returns (r: GetResult)
    requires ValidVersion(t, v) && 1 <= l < NUM_LEVELS
    requires forall m, g :: 0 <= m < l && g in v[m] ==> NoCandidate(Rows(t, g), k, s)
    ensures r.NotFound? ==> forall g :: g in v[l] ==> NoCandidate(Rows(t, g), k, s)
    ensures !r.NotFound? ==> View(VersionEntries(t, v), k, s) == if r.Found? then Some(r.value) else None
  {
    var index := FindFile(v[l], SeekKey(k, s));
    r := NotFound;
    if index < |v[l]| && k >= v[l][index].smallest.user {
      r := RunGet(Rows(t, v[l][index]), k, s);
    }
    forall i | 0 <= i < |v[l]| ensures ValidFile(t, v[l][i]) { assert v[l][i] in v[l]; }
    forall g, e | g in v[l] && (index == |v[l]| || g != v[l][index]) && e in Rows(t, g) && e.key.user == k && e.key.seqno <= s
      ensures index < |v[l]| && k >= v[l][index].smallest.user
      ensures exists x :: x in Rows(t, v[l][index]) && x.key.user == k && e.key.seqno < x.key.seqno <= s
    {
      var j :| 0 <= j < |v[l]| && v[l][j] == g;
      FoundFileHoldsNewest(t, v[l], index, k, s, j, e);
    }
    if index < |v[l]| {
      var f := v[l][index];
      RunGetIsNewest(Rows(t, f), k, s);
      if k >= f.smallest.user {
        HitIsNewest(t, v, l, f, k, s);
      } else {
        forall e | e in Rows(t, f) ensures e.key.user != k { RowInBounds(t, f, e); }
      }
    }
  }

  /** Version::Get: level by level, first hit wins. The answer is the multi-version map's. */
  method Get(t: Tables, v: Levels, k: UserKey, s: SequenceNumber) returns (r: Option<Value>)
    requires ValidVersion(t, v)
    ensures r == View(VersionEntries(t, v), k, s)
  {
    var g := GetFromLevelZero(t, v, k, s);
    var level := 1;
    while g.NotFound? && level < NUM_LEVELS
      invariant 1 <= level <= NUM_LEVELS
      invariant g.NotFound? ==> forall m, f :: 0 <= m < level && f in v[m] ==> NoCandidate(Rows(t, f), k, s)
      invariant !g.NotFound? ==> View(VersionEntries(t, v), k, s) == if g.Found? then Some(g.value) else None
    {
      g := GetFromLevel(t, v, level, k, s);
      level := level + 1;
    }
    if g.NotFound? {
      forall x ensures !Candidate(VersionEntries(t, v), k, s, x) {
        assert forall l, f :: InVersion(t, v, l, f, x) ==> NoCandidate(Rows(t, f), k, s);
      }
    }
    r := if g.Found? then Some(g.value) else None;
  }
}
