/** Choosing the files of a compaction, and the level of a flushed memtable (db/version_set.cc). */
module CompactionInputs {
  import opened Sequences
  import opened DbFormat
  import opened Versions

  /** A missing bound is open: it lies before, or after, every key. */
  predicate Overlaps(f: FileMeta, lo: Option<UserKey>, hi: Option<UserKey>) {
    (lo.Some? ==> lo.value <= f.largest.user) && (hi.Some? ==> f.smallest.user <= hi.value)
  }

  /** The overlapping files, in the order of the level. */
  function Overlapping(files: seq<FileMeta>, lo: Option<UserKey>, hi: Option<UserKey>): seq<FileMeta> {
    if files == [] then []
    else
      var n := |files| - 1;
      Overlapping(files[..n], lo, hi) + if Overlaps(files[n], lo, hi) then [files[n]] else []
  }

  lemma {:induction false} OverlappingMembers(files: seq<FileMeta>, lo: Option<UserKey>, hi: Option<UserKey>)
    ensures forall f :: f in Overlapping(files, lo, hi) <==> f in files && Overlaps(f, lo, hi)
  {
    if files != [] {
      var n := |files| - 1;
      OverlappingMembers(files[..n], lo, hi);
      assert files == files[..n] + [files[n]];
    }
  }

  lemma OverlappingSnoc(files: seq<FileMeta>, i: nat, lo: Option<UserKey>, hi: Option<UserKey>)
    requires i < |files|
    ensures Overlapping(files[..i + 1], lo, hi)
         == Overlapping(files[..i], lo, hi) + if Overlaps(files[i], lo, hi) then [files[i]] else []
  {
    assert files[..i + 1][..i] == files[..i];
  }

  function TotalFileSize(files: seq<FileMeta>): nat {
    if files == [] then 0 else TotalFileSize(files[..|files| - 1]) + files[|files| - 1].size
  }

  lemma {:induction false} SizesAdd(a: seq<FileMeta>, b: seq<FileMeta>)
    ensures TotalFileSize(a + b) == TotalFileSize(a) + TotalFileSize(b)
    ensures forall f :: TotalFileSize([f]) == f.size
  {
    if b == [] {
      assert a + b == a;
    } else {
      var n := |b| - 1;
      assert (a + b)[..|a + b| - 1] == a + b[..n];
      SizesAdd(a, b[..n]);
    }
    forall f: FileMeta ensures TotalFileSize([f]) == f.size {
      assert [f][..0] == [];
    }
  }

  // ----- does anything in a level overlap a range? ------------------------------------------------

  method SomeFileOverlapsRange(disjoint: bool, files: seq<FileMeta>, lo: Option<UserKey>, hi: Option<UserKey>)
    returns (r: bool)
    requires disjoint ==> DisjointSorted(files)
    ensures r <==> exists f :: f in files && Overlaps(f, lo, hi)
  {
    if !disjoint {
      for i := 0 to |files|
        invariant forall j :: 0 <= j < i ==> !Overlaps(files[j], lo, hi)
      {
        var f := files[i];
        if (lo.Some? && lo.value > f.largest.user) || (hi.Some? && hi.value < f.smallest.user) {
        } else {
          assert f in files;
          return true;
        }
      }
      return false;
    }
    var index := 0;
    if lo.Some? {
      index := FindFile(files, SeekKey(lo.value, MAX_SEQUENCE));
    }
    if index >= |files| {
      return false;
    }
    r := !(hi.Some? && hi.value < files[index].smallest.user);
    assert files[index] in files;
    forall j | index < j < |files| ensures files[index].smallest.user <= files[j].smallest.user {
      assert Precedes(files[index].largest, files[j].smallest);
    }
  }

  /** How deep a flushed memtable may go: never past or into a level that overlaps it, at most to level
      2, and no further than the first reason to stop. */
  method PickLevelForMemTableOutput(t: Tables, v: Levels, lo: UserKey, hi: UserKey, maxFileSize: nat)
    returns (level: nat)
    requires ValidVersion(t, v)
    ensures level <= 2
    ensures level > 0 ==> forall l, f :: 0 <= l <= level && f in v[l] ==> !Overlaps(f, Some(lo), Some(hi))
    ensures level < 2 ==>
              || (level == 0 && exists f :: f in v[0] && Overlaps(f, Some(lo), Some(hi)))
              || (exists f :: f in v[level + 1] && Overlaps(f, Some(lo), Some(hi)))
              || TotalFileSize(Overlapping(v[level + 2], Some(lo), Some(hi))) > 10 * maxFileSize
  {
    level := 0;
    var overlap := SomeFileOverlapsRange(false, v[0], Some(lo), Some(hi));
    if !overlap {
      while level < MAX_MEM_COMPACT_LEVEL
        invariant level <= MAX_MEM_COMPACT_LEVEL
        invariant forall l, f :: 0 <= l <= level && f in v[l] ==> !Overlaps(f, Some(lo), Some(hi))
      {
        overlap := SomeFileOverlapsRange(true, v[level + 1], Some(lo), Some(hi));
        if overlap {
          break;
        }
        if level + 2 < NUM_LEVELS {
          var overlaps, _, _ := GetOverlappingInputs(false, v[level + 2], Some(lo), Some(hi));
          if TotalFileSize(overlaps) > 10 * maxFileSize {
            break;
          }
        }
        level := level + 1;
      }
    }
  }

  // ----- files overlapping a range ------------------------------------------------------------------

  /** Nothing selected by the range reaches outside it. */
  ghost predicate ClosedRange(files: seq<FileMeta>, lo: Option<UserKey>, hi: Option<UserKey>) {
    forall f :: f in files && Overlaps(f, lo, hi) ==>
      (lo.Some? ==> lo.value <= f.smallest.user) && (hi.Some? ==> f.largest.user <= hi.value)
  }

  /** `lo2..hi2` covers `lo..hi`; open bounds stay open. */
  ghost predicate Covers(lo2: Option<UserKey>, hi2: Option<UserKey>, lo: Option<UserKey>, hi: Option<UserKey>) {
    && lo2.Some? == lo.Some? && (lo.Some? ==> lo2.value <= lo.value)
    && hi2.Some? == hi.Some? && (hi.Some? ==> hi.value <= hi2.value)
  }

  /** Any closed range covering begin..end covers lo..hi. */
  ghost predicate LeastClosed(files: seq<FileMeta>, begin: Option<UserKey>, end: Option<UserKey>,
                              lo: Option<UserKey>, hi: Option<UserKey>) {
    forall lo2, hi2 :: Covers(lo2, hi2, begin, end) && ClosedRange(files, lo2, hi2) ==> Covers(lo2, hi2, lo, hi)
  }

  lemma LeastClosedGrows(files: seq<FileMeta>, begin: Option<UserKey>, end: Option<UserKey>,
                         lo: Option<UserKey>, hi: Option<UserKey>, f: FileMeta)
    requires LeastClosed(files, begin, end, lo, hi) && f in files && Overlaps(f, lo, hi)
    ensures lo.Some? && f.smallest.user < lo.value ==> LeastClosed(files, begin, end, Some(f.smallest.user), hi)
    ensures hi.Some? && f.largest.user > hi.value ==> LeastClosed(files, begin, end, lo, Some(f.largest.user))
  {
    forall lo2, hi2 | Covers(lo2, hi2, begin, end) && ClosedRange(files, lo2, hi2)
      ensures lo.Some? && f.smallest.user < lo.value ==> Covers(lo2, hi2, Some(f.smallest.user), hi)
      ensures hi.Some? && f.largest.user > hi.value ==> Covers(lo2, hi2, lo, Some(f.largest.user))
    {
      assert Covers(lo2, hi2, lo, hi);
      assert Overlaps(f, lo2, hi2);
    }
  }

  function CountBelow(files: seq<FileMeta>, lo: Option<UserKey>): nat {
    if files == [] || lo.None? then 0
    else (if files[0].smallest.user < lo.value then 1 else 0) + CountBelow(files[1..], lo)
  }

  function CountAbove(files: seq<FileMeta>, hi: Option<UserKey>): nat {
    if files == [] || hi.None? then 0
    else (if files[0].largest.user > hi.value then 1 else 0) + CountAbove(files[1..], hi)
  }

  lemma {:induction false} CountBelowDrops(files: seq<FileMeta>, f: FileMeta, lo: UserKey)
    ensures f.smallest.user <= lo ==> CountBelow(files, Some(f.smallest.user)) <= CountBelow(files, Some(lo))
    ensures f in files && f.smallest.user < lo ==> CountBelow(files, Some(f.smallest.user)) < CountBelow(files, Some(lo))
  {
    if files != [] {
      CountBelowDrops(files[1..], f, lo);
    }
  }

  lemma {:induction false} CountAboveDrops(files: seq<FileMeta>, f: FileMeta, hi: UserKey)
    ensures f.largest.user >= hi ==> CountAbove(files, Some(f.largest.user)) <= CountAbove(files, Some(hi))
    ensures f in files && f.largest.user > hi ==> CountAbove(files, Some(f.largest.user)) < CountAbove(files, Some(hi))
  {
    if files != [] {
      CountAboveDrops(files[1..], f, hi);
    }
  }

  /** All files overlapping the range. In level 0 an added file may widen the range and restart the
      scan: the loop ends, at the least closed range covering the one asked for. */
  method GetOverlappingInputs(levelZero: bool, files: seq<FileMeta>, begin: Option<UserKey>, end: Option<UserKey>)
    returns (inputs: seq<FileMeta>, ghost lo: Option<UserKey>, ghost hi: Option<UserKey>)
    ensures inputs == Overlapping(files, lo, hi)
    ensures Covers(lo, hi, begin, end)
    ensures !levelZero ==> lo == begin && hi == end
    ensures levelZero ==> ClosedRange(files, lo, hi)
    ensures levelZero ==> LeastClosed(files, begin, end, lo, hi)
  {
    var userBegin, userEnd := begin, end;
    inputs := [];
    var i := 0;
    while i < |files|
      invariant 0 <= i <= |files|
      invariant inputs == Overlapping(files[..i], userBegin, userEnd)
      invariant Covers(userBegin, userEnd, begin, end)
      invariant !levelZero ==> userBegin == begin && userEnd == end
      invariant levelZero ==> ClosedRange(files[..i], userBegin, userEnd)
      invariant levelZero ==> LeastClosed(files, begin, end, userBegin, userEnd)
      decreases CountBelow(files, userBegin) + CountAbove(files, userEnd), |files| - i
    {
      var f := files[i];
      assert f in files;
      OverlappingSnoc(files, i, userBegin, userEnd);
      assert files[..i + 1] == files[..i] + [f];
      i := i + 1;
      if userBegin.Some? && f.largest.user < userBegin.value {
      } else if userEnd.Some? && f.smallest.user > userEnd.value {
      } else {
        inputs := inputs + [f];
        if levelZero {
          LeastClosedGrows(files, begin, end, userBegin, userEnd, f);
          if userBegin.Some? && f.smallest.user < userBegin.value {
            CountBelowDrops(files, f, userBegin.value);
            userBegin := Some(f.smallest.user);
            inputs := [];
            i := 0;
          } else if userEnd.Some? && f.largest.user > userEnd.value {
            CountAboveDrops(files, f, userEnd.value);
            userEnd := Some(f.largest.user);
            inputs := [];
            i := 0;
          }
        }
      }
    }
    assert files[..|files|] == files;
    lo, hi := userBegin, userEnd;
  }

  // ----- boundary files -----------------------------------------------------------------------------

  ghost predicate IsLargestKey(files: seq<FileMeta>, k: InternalKey) {
    (exists f :: f in files && f.largest == k) && forall f :: f in files ==> !Less(k, f.largest)
  }

  ghost predicate IsSmallestKey(files: seq<FileMeta>, k: InternalKey) {
    (exists f :: f in files && f.smallest == k) && forall f :: f in files ==> !Less(f.smallest, k)
  }

  method FindLargestKey(files: seq<FileMeta>) returns (r: Option<InternalKey>)
    ensures r.None? <==> files == []
    ensures r.Some? ==> IsLargestKey(files, r.value)
  {
    if files == [] {
      return None;
    }
    var largest := files[0].largest;
    for i := 1 to |files|
      invariant exists f :: f in files && f.largest == largest
      invariant forall j :: 0 <= j < i ==> !Less(largest, files[j].largest)
    {
      if Less(largest, files[i].largest) {
        largest := files[i].largest;
        assert files[i] in files;
      }
    }
    r := Some(largest);
  }

  /** The least range covering the inputs. */
  method GetRange(inputs: seq<FileMeta>) returns (smallest: InternalKey, largest: InternalKey)
    requires inputs != []
    ensures IsSmallestKey(inputs, smallest) && IsLargestKey(inputs, largest)
  {
    smallest, largest := inputs[0].smallest, inputs[0].largest;
    for i := 1 to |inputs|
      invariant exists f :: f in inputs && f.smallest == smallest
      invariant exists f :: f in inputs && f.largest == largest
      invariant forall j :: 0 <= j < i ==> !Less(inputs[j].smallest, smallest) && !Less(largest, inputs[j].largest)
    {
      var f := inputs[i];
      assert f in inputs;
      if Less(f.smallest, smallest) {
        smallest := f.smallest;
      }
      if Less(largest, f.largest) {
        largest := f.largest;
      }
    }
  }

  /** The file's keys start after `k`, still on the same user key. */
  predicate ContinuesKey(f: FileMeta, k: InternalKey) {
    Less(k, f.smallest) && f.smallest.user == k.user
  }

  method FindSmallestBoundaryFile(files: seq<FileMeta>, k: InternalKey) returns (r: Option<FileMeta>)
    ensures r.None? <==> forall f :: f in files ==> !ContinuesKey(f, k)
    ensures r.Some? ==> r.value in files && ContinuesKey(r.value, k)
    ensures r.Some? ==> forall f :: f in files && ContinuesKey(f, k) ==> !Less(f.smallest, r.value.smallest)
  {
    r := None;
    for i := 0 to |files|
      invariant r.None? ==> forall j :: 0 <= j < i ==> !ContinuesKey(files[j], k)
      invariant r.Some? ==> r.value in files && ContinuesKey(r.value, k)
      invariant r.Some? ==> forall j :: 0 <= j < i && ContinuesKey(files[j], k) ==> !Less(files[j].smallest, r.value.smallest)
    {
      var f := files[i];
      assert f in files;
      if ContinuesKey(f, k) {
        if r.None? || Less(f.smallest, r.value.smallest) {
          r := Some(f);
        }
      }
    }
  }

  ghost predicate IsSlice(part: seq<FileMeta>, files: seq<FileMeta>, i: int, j: int) {
    0 <= i < j <= |files| && part == files[i..j]
  }

  function CountAfter(files: seq<FileMeta>, k: InternalKey): nat {
    if files == [] then 0 else (if Less(k, files[0].smallest) then 1 else 0) + CountAfter(files[1..], k)
  }

  lemma {:induction false} CountAfterDrops(files: seq<FileMeta>, f: FileMeta, k: InternalKey)
    requires Less(k, f.smallest) && WellFormedMeta(f)
    ensures CountAfter(files, f.largest) <= CountAfter(files, k)
    ensures f in files ==> CountAfter(files, f.largest) < CountAfter(files, k)
  {
    if files != [] {
      CountAfterDrops(files[1..], f, k);
    }
  }

  /** In a sorted level the smallest boundary file of a slice is the next file. */
  lemma BoundaryFileIsNext(files: seq<FileMeta>, part: seq<FileMeta>, i: int, j: int, k: InternalKey, b: FileMeta)
    requires DisjointSorted(files) && IsSlice(part, files, i, j) && IsLargestKey(part, k)
    requires b in files && ContinuesKey(b, k)
    requires forall f :: f in files && ContinuesKey(f, k) ==> !Less(f.smallest, b.smallest)
    ensures j < |files| && b == files[j]
  {
    SliceLargest(files, part, i, j, k);
    var n :| 0 <= n < |files| && files[n] == b;
    assert forall m :: 0 <= m < j - 1 ==> Precedes(files[m].largest, files[j - 1].smallest);
    if n > j {
      assert Precedes(files[j - 1].largest, files[j].smallest) && Precedes(files[j].largest, files[n].smallest);
      assert files[j] in files;
      assert ContinuesKey(files[j], k);
    }
  }

  lemma SliceLargest(files: seq<FileMeta>, part: seq<FileMeta>, i: int, j: int, k: InternalKey)
    requires DisjointSorted(files) && IsSlice(part, files, i, j) && IsLargestKey(part, k)
    ensures k == files[j - 1].largest
  {
    var f :| f in part && f.largest == k;
    var n :| 0 <= n < |part| && part[n] == f;
    assert files[i + n] == f;
    assert part[j - 1 - i] == files[j - 1];
    assert files[j - 1] in part;
    assert forall m :: 0 <= m < j - 1 ==> Precedes(files[m].largest, files[j - 1].smallest);
  }

  ghost predicate ExtendsSlice(r: seq<FileMeta>, files: seq<FileMeta>, i: int, j: int) {
    exists j2 :: 0 <= i < j <= j2 <= |files| && r == files[i..j2]
  }

  ghost predicate StaysSlice(files: seq<FileMeta>, inputs: seq<FileMeta>, r: seq<FileMeta>) {
    DisjointSorted(files) ==>
      forall i, j :: IsSlice(inputs, files, i, j) ==> ExtendsSlice(r, files, i, j)
  }

  ghost predicate NothingContinues(files: seq<FileMeta>, inputs: seq<FileMeta>) {
    forall f, k :: f in files && IsLargestKey(inputs, k) ==> !ContinuesKey(f, k)
  }

  lemma StaysSliceStep(files: seq<FileMeta>, inputs: seq<FileMeta>, r: seq<FileMeta>, k: InternalKey, b: FileMeta)
    requires StaysSlice(files, inputs, r) && IsLargestKey(r, k)
    requires b in files && ContinuesKey(b, k)
    requires forall f :: f in files && ContinuesKey(f, k) ==> !Less(f.smallest, b.smallest)
    ensures StaysSlice(files, inputs, r + [b])
  {
    if DisjointSorted(files) {
      forall i, j | IsSlice(inputs, files, i, j)
        ensures ExtendsSlice(r + [b], files, i, j)
      {
        var j2 :| 0 <= i < j <= j2 <= |files| && r == files[i..j2];
        BoundaryFileIsNext(files, r, i, j2, k, b);
        assert r + [b] == files[i..j2 + 1];
      }
    }
  }

  lemma LargestAfterBoundary(r: seq<FileMeta>, k: InternalKey, b: FileMeta)
    requires IsLargestKey(r, k) && ContinuesKey(b, k) && WellFormedMeta(b)
    requires forall f :: f in r ==> WellFormedMeta(f)
    ensures IsLargestKey(r + [b], b.largest)
    ensures NoDup(r) ==> NoDup(r + [b])
  {
    assert b in r + [b];
    assert b !in r;
  }

  ghost predicate Continues(files: seq<FileMeta>, f: FileMeta) {
    exists k :: IsLargestKey(files, k) && ContinuesKey(f, k)
  }

  /** Every file added goes on with the largest key of those before it. */
  ghost predicate OnlyBoundary(inputs: seq<FileMeta>, r: seq<FileMeta>) {
    inputs <= r && forall i :: |inputs| <= i < |r| ==> Continues(r[..i], r[i])
  }

  lemma OnlyBoundaryStep(inputs: seq<FileMeta>, r: seq<FileMeta>, k: InternalKey, b: FileMeta)
    requires OnlyBoundary(inputs, r) && IsLargestKey(r, k) && ContinuesKey(b, k)
    ensures OnlyBoundary(inputs, r + [b])
  {
    var r' := r + [b];
    forall i | |inputs| <= i < |r'| ensures Continues(r'[..i], r'[i]) {
      assert r'[..i] == r[..i];
      assert i < |r| ==> Continues(r[..i], r[i]);
      assert r[..|r|] == r;
    }
  }

  ghost predicate StaysGapless(inputs: seq<FileMeta>, r: seq<FileMeta>) {
    forall cover :: Gapless(inputs, inputs + cover) ==> Gapless(r, r + cover)
  }

  lemma StaysGaplessStep(inputs: seq<FileMeta>, r: seq<FileMeta>, k: InternalKey, b: FileMeta)
    requires StaysGapless(inputs, r) && IsLargestKey(r, k) && ContinuesKey(b, k) && forall f :: f in r ==> WellFormedMeta(f)
    ensures StaysGapless(inputs, r + [b])
  {
    forall cover | Gapless(inputs, inputs + cover) ensures Gapless(r + [b], r + [b] + cover) {
      GaplessWithBoundary(r, cover, k, b);
    }
  }

  /** Extend the inputs by every file that goes on with the last user key. No file is added twice, and
      afterwards no file of the level goes on with the largest key. In a sorted level a slice stays a
      slice. */
  method AddBoundaryInputs(files: seq<FileMeta>, inputs: seq<FileMeta>) returns (r: seq<FileMeta>)
    requires forall f :: f in files ==> WellFormedMeta(f)
    requires forall f :: f in inputs ==> f in files
    ensures inputs <= r
    ensures forall f :: f in r ==> f in files
    ensures NoDup(inputs) ==> NoDup(r)
    ensures NothingContinues(files, r)
    ensures StaysSlice(files, inputs, r)
    ensures NothingContinues(files, inputs) ==> r == inputs
    ensures StaysGapless(inputs, r)
    ensures OnlyBoundary(inputs, r)
  {
    r := inputs;
    var largest := FindLargestKey(inputs);
    if largest.None? {
      return;
    }
    var k := largest.value;
    var searching := true;
    while searching
      invariant inputs <= r
      invariant forall f :: f in r ==> f in files
      invariant NoDup(inputs) ==> NoDup(r)
      invariant IsLargestKey(r, k)
      invariant !searching ==> forall f :: f in files ==> !ContinuesKey(f, k)
      invariant StaysSlice(files, inputs, r)
      invariant NothingContinues(files, inputs) ==> r == inputs
      invariant StaysGapless(inputs, r)
      invariant OnlyBoundary(inputs, r)
      decreases searching, CountAfter(files, k)
    {
      var b := FindSmallestBoundaryFile(files, k);
      if b.Some? {
        CountAfterDrops(files, b.value, k);
        StaysSliceStep(files, inputs, r, k, b.value);
        StaysGaplessStep(inputs, r, k, b.value);
        LargestAfterBoundary(r, k, b.value);
        OnlyBoundaryStep(inputs, r, k, b.value);
        r := r + [b.value];
        k := b.value.largest;
      } else {
        searching := false;
      }
    }
    forall k2 | IsLargestKey(r, k2) ensures k2 == k {
      assert Tag(k) == Tag(k2);
    }
  }

  // ----- assembling a compaction --------------------------------------------------------------------

  /** A file left out at the input level may share a user key with an input only by lying before it,
      that is, by holding newer rows. */
  ghost predicate UpperClosed(files: seq<FileMeta>, inputs: seq<FileMeta>) {
    forall f, g :: f in files && f !in inputs && g in inputs ==>
      Precedes(f.largest, g.smallest) || g.largest.user < f.smallest.user
  }

  /** In level 0 the inputs share no user key at all with the files left out. */
  ghost predicate Isolated(files: seq<FileMeta>, inputs: seq<FileMeta>) {
    forall f, g :: f in files && f !in inputs && g in inputs ==>
      f.largest.user < g.smallest.user || g.largest.user < f.smallest.user
  }

  ghost predicate TouchesHull(inputs: seq<FileMeta>, g: FileMeta) {
    (exists x :: x in inputs && x.smallest.user <= g.largest.user) &&
    (exists y :: y in inputs && g.smallest.user <= y.largest.user)
  }

  predicate Holds(f: FileMeta, u: UserKey) {
    f.smallest.user <= u <= f.largest.user
  }

  ghost predicate Covered(cover: seq<FileMeta>, u: UserKey) {
    exists f :: f in cover && Holds(f, u)
  }

  ghost predicate InHull(inputs: seq<FileMeta>, u: UserKey) {
    (exists x :: x in inputs && x.smallest.user <= u) && (exists y :: y in inputs && u <= y.largest.user)
  }

  /** No key between the first and the last input lies outside every file of the cover. */
  ghost predicate Gapless(inputs: seq<FileMeta>, cover: seq<FileMeta>) {
    forall u :: InHull(inputs, u) ==> Covered(cover, u)
  }

  ghost predicate RangeCovered(cover: seq<FileMeta>, lo: UserKey, hi: UserKey) {
    forall u :: lo <= u <= hi ==> Covered(cover, u)
  }

  lemma CoverGrows(cover: seq<FileMeta>, more: seq<FileMeta>, u: UserKey)
    requires Covered(cover, u) && forall f :: f in cover ==> f in more
    ensures Covered(more, u)
  {
    var f :| f in cover && Holds(f, u);
    assert f in more;
  }

  /** Files of the next level that meet a gapless range leave no gap either. */
  lemma GaplessWithOverlaps(in0: seq<FileMeta>, in1: seq<FileMeta>)
    requires Gapless(in0, in0) && (forall g :: g in in1 ==> TouchesHull(in0, g))
    ensures Gapless(in0 + in1, in0 + in1)
  {
    var all := in0 + in1;
    forall u | InHull(all, u) ensures Covered(all, u) {
      var x :| x in all && x.smallest.user <= u;
      var y :| y in all && u <= y.largest.user;
      assert x in in1 ==> TouchesHull(in0, x);
      assert y in in1 ==> TouchesHull(in0, y);
      if !Holds(x, u) && !Holds(y, u) {
        assert InHull(in0, u);
        CoverGrows(in0, all, u);
      }
    }
  }

  lemma {:induction false} LargestBelow(r: seq<FileMeta>, u: UserKey, end: UserKey) returns (cut: UserKey)
    requires end < u
    ensures end <= cut < u && forall f :: f in r && f.largest.user < u ==> f.largest.user <= cut
  {
    cut := end;
    if r != [] {
      cut := LargestBelow(r[1..], u, end);
      if cut < r[0].largest.user < u {
        cut := r[0].largest.user;
      }
      assert r == [r[0]] + r[1..];
    }
  }

  lemma {:induction false} SmallestAbove(r: seq<FileMeta>, u: UserKey, begin: UserKey) returns (cut: UserKey)
    requires u < begin
    ensures u < cut <= begin && forall f :: f in r && u < f.smallest.user ==> cut <= f.smallest.user
  {
    cut := begin;
    if r != [] {
      cut := SmallestAbove(r[1..], u, begin);
      if u < r[0].smallest.user < cut {
        cut := r[0].smallest.user;
      }
      assert r == [r[0]] + r[1..];
    }
  }

  /** A key that no file of the least closed range holds splits that range, unless it is outside. */
  lemma NoGapInLeastRange(files: seq<FileMeta>, begin: UserKey, end: UserKey, lo: UserKey, hi: UserKey, u: UserKey)
    requires ClosedRange(files, Some(lo), Some(hi)) && LeastClosed(files, Some(begin), Some(end), Some(lo), Some(hi))
    requires lo <= begin && end <= hi && lo <= u <= hi && (u < begin || end < u)
    ensures exists f :: f in files && Overlaps(f, Some(lo), Some(hi)) && Holds(f, u)
  {
    var r := Overlapping(files, Some(lo), Some(hi));
    OverlappingMembers(files, Some(lo), Some(hi));
    if forall f :: f in r ==> !Holds(f, u) {
      if end < u {
        var cut := LargestBelow(r, u, end);
        assert ClosedRange(files, Some(lo), Some(cut)) && Covers(Some(lo), Some(cut), Some(begin), Some(end));
        assert false;
      } else {
        var cut := SmallestAbove(r, u, begin);
        assert ClosedRange(files, Some(cut), Some(hi)) && Covers(Some(cut), Some(hi), Some(begin), Some(end));
        assert false;
      }
    }
  }

  /** What a range search finds around a covered range is gapless with that cover: without the restarts of level 0
      because every file found meets the range, with them because the range found is the least closed one. */
  lemma FoundIsGapless(levelZero: bool, files: seq<FileMeta>, begin: UserKey, end: UserKey,
                       lo: UserKey, hi: UserKey, r: seq<FileMeta>, cover: seq<FileMeta>)
    requires RangeCovered(cover, begin, end) && lo <= begin && end <= hi && r == Overlapping(files, Some(lo), Some(hi))
    requires !levelZero ==> lo == begin && hi == end
    requires levelZero ==> ClosedRange(files, Some(lo), Some(hi)) && LeastClosed(files, Some(begin), Some(end), Some(lo), Some(hi))
    ensures Gapless(r, r + cover)
  {
    OverlappingMembers(files, Some(lo), Some(hi));
    forall u | InHull(r, u) ensures Covered(r + cover, u) {
      if begin <= u <= end {
        CoverGrows(cover, r + cover, u);
      } else {
        var x :| x in r && x.smallest.user <= u;
        var y :| y in r && u <= y.largest.user;
        if levelZero {
          NoGapInLeastRange(files, begin, end, lo, hi, u);
          var f :| f in files && Overlaps(f, Some(lo), Some(hi)) && Holds(f, u);
          assert f in r + cover;
        } else {
          var f := if u < begin then x else y;
          assert f in r + cover && Holds(f, u);
        }
      }
    }
  }

  /** A boundary file starts where the inputs end. */
  lemma GaplessWithBoundary(r: seq<FileMeta>, cover: seq<FileMeta>, k: InternalKey, b: FileMeta)
    requires Gapless(r, r + cover) && IsLargestKey(r, k) && ContinuesKey(b, k)
    requires forall f :: f in r ==> WellFormedMeta(f)
    ensures Gapless(r + [b], r + [b] + cover)
  {
    var g :| g in r && g.largest == k;
    forall u | InHull(r + [b], u) ensures Covered(r + [b] + cover, u) {
      if InHull(r, u) {
        CoverGrows(r + cover, r + [b] + cover, u);
      } else {
        assert WellFormedMeta(g);
        var x :| x in r + [b] && x.smallest.user <= u;
        var y :| y in r + [b] && u <= y.largest.user;
        assert y == b && k.user < u;
        assert b in r + [b] + cover && Holds(b, u);
      }
    }
  }

  /** Where a compaction may start: an isolated set in level 0, a run of neighbours elsewhere. */
  ghost predicate GoodSeed(levelZero: bool, files: seq<FileMeta>, seed: seq<FileMeta>) {
    && seed != [] && NoDup(seed)
    && (forall f :: f in seed ==> f in files)
    && if levelZero then Isolated(files, seed) else exists i, j :: IsSlice(seed, files, i, j)
  }

  /** What every compaction's inputs satisfy. Nothing is said about level l+1 files that continue the
      last user key of in1: the code does not look for them. */
  ghost predicate Selected(v: Levels, l: nat, in0: seq<FileMeta>, in1: seq<FileMeta>) {
    && l + 1 < |v| && in0 != [] && NoDup(in0) && NoDup(in1)
    && (forall f :: f in in0 ==> f in v[l])
    && UpperClosed(v[l], in0)
    && (forall g :: g in in1 <==> g in v[l + 1] && TouchesHull(in0, g))
  }

  lemma LastIsLargest(files: seq<FileMeta>, r: seq<FileMeta>, i: int, j: int)
    requires DisjointSorted(files) && IsSlice(r, files, i, j)
    ensures IsLargestKey(r, files[j - 1].largest)
  {
    assert r[j - 1 - i] == files[j - 1];
    assert files[j - 1] in r;
    forall f | f in r ensures !Less(files[j - 1].largest, f.largest) {
      var n :| 0 <= n < |r| && r[n] == f;
      assert f == files[i + n];
      assert forall m :: 0 <= m < j - 1 ==> Precedes(files[m].largest, files[j - 1].smallest);
    }
  }

  lemma OutsideSlice(files: seq<FileMeta>, i: int, j: int, m: int, n: int)
    requires DisjointSorted(files) && 0 <= i <= n < j <= |files| && 0 <= m < |files| && !(i <= m < j)
    requires forall f :: f in files ==> !ContinuesKey(f, files[j - 1].largest)
    ensures Precedes(files[m].largest, files[n].smallest) || files[n].largest.user < files[m].smallest.user
  {
    if m >= j {
      assert Precedes(files[j - 1].largest, files[m].smallest);
      assert files[m] in files;
      assert n < j - 1 ==> Precedes(files[n].largest, files[j - 1].smallest);
    }
  }

  lemma SliceIsUpperClosed(files: seq<FileMeta>, r: seq<FileMeta>, i: int, j: int)
    requires DisjointSorted(files) && IsSlice(r, files, i, j) && NothingContinues(files, r)
    ensures UpperClosed(files, r)
  {
    LastIsLargest(files, r, i, j);
    forall f, g | f in files && f !in r && g in r
      ensures Precedes(f.largest, g.smallest) || g.largest.user < f.smallest.user
    {
      var m :| 0 <= m < |files| && files[m] == f;
      var n :| 0 <= n < |r| && r[n] == g;
      assert forall x :: i <= x < j ==> files[x] == r[x - i];
      OutsideSlice(files, i, j, m, i + n);
    }
  }

  lemma OverlapIsConvex(files: seq<FileMeta>, a: int, b: int, c: int, lo: Option<UserKey>, hi: Option<UserKey>)
    requires DisjointSorted(files) && 0 <= a < b < c < |files|
    requires Overlaps(files[a], lo, hi) && Overlaps(files[c], lo, hi)
    ensures Overlaps(files[b], lo, hi)
  {
    assert Precedes(files[a].largest, files[b].smallest) && Precedes(files[b].largest, files[c].smallest);
  }

  lemma {:induction false} OverlappingOfBlock(files: seq<FileMeta>, i: int, j: int, lo: Option<UserKey>, hi: Option<UserKey>)
    requires 0 <= i <= j <= |files|
    requires forall x :: 0 <= x < |files| ==> (Overlaps(files[x], lo, hi) <==> i <= x < j)
    ensures Overlapping(files, lo, hi) == files[i..j]
  {
    if files != [] {
      var n := |files| - 1;
      if j == n + 1 && i <= n {
        OverlappingOfBlock(files[..n], i, n, lo, hi);
        assert files[i..j] == files[..n][i..n] + [files[n]];
      } else if j == n + 1 {
        OverlappingOfBlock(files[..n], n, n, lo, hi);
      } else {
        OverlappingOfBlock(files[..n], i, j, lo, hi);
        assert files[i..j] == files[..n][i..j];
      }
    }
  }

  lemma OverlappingIsSlice(files: seq<FileMeta>, lo: Option<UserKey>, hi: Option<UserKey>) returns (i: int, j: int)
    requires DisjointSorted(files) && Overlapping(files, lo, hi) != []
    ensures IsSlice(Overlapping(files, lo, hi), files, i, j)
  {
    OverlappingMembers(files, lo, hi);
    assert Overlapping(files, lo, hi)[0] in Overlapping(files, lo, hi);
    i := 0;
    while i < |files| && !Overlaps(files[i], lo, hi)
      invariant 0 <= i <= |files| && forall x :: 0 <= x < i ==> !Overlaps(files[x], lo, hi)
    {
      i := i + 1;
    }
    j := i;
    while j < |files| && Overlaps(files[j], lo, hi)
      invariant i <= j <= |files| && forall x :: i <= x < j ==> Overlaps(files[x], lo, hi)
    {
      j := j + 1;
    }
    forall x | j <= x < |files| ensures !Overlaps(files[x], lo, hi) {
      if j < x && Overlaps(files[x], lo, hi) {
        OverlapIsConvex(files, j - 1, j, x, lo, hi);
      }
    }
    OverlappingOfBlock(files, i, j, lo, hi);
  }

  lemma {:induction false} OverlappingNoDup(files: seq<FileMeta>, lo: Option<UserKey>, hi: Option<UserKey>)
    requires NoDup(files)
    ensures NoDup(Overlapping(files, lo, hi))
  {
    if files != [] {
      var n := |files| - 1;
      OverlappingNoDup(files[..n], lo, hi);
      OverlappingMembers(files[..n], lo, hi);
      assert files[n] !in files[..n];
    }
  }

  lemma {:induction false} WiderRangeSameCount(files: seq<FileMeta>, lo: Option<UserKey>, hi: Option<UserKey>,
                                               lo2: Option<UserKey>, hi2: Option<UserKey>)
    requires Covers(lo2, hi2, lo, hi)
    ensures |Overlapping(files, lo, hi)| <= |Overlapping(files, lo2, hi2)|
    ensures |Overlapping(files, lo, hi)| == |Overlapping(files, lo2, hi2)| ==>
              Overlapping(files, lo, hi) == Overlapping(files, lo2, hi2)
  {
    if files != [] {
      WiderRangeSameCount(files[..|files| - 1], lo, hi, lo2, hi2);
    }
  }

  lemma ClosedIsIsolated(files: seq<FileMeta>, lo: Option<UserKey>, hi: Option<UserKey>)
    requires ClosedRange(files, lo, hi)
    ensures Isolated(files, Overlapping(files, lo, hi))
  {
    OverlappingMembers(files, lo, hi);
  }

  lemma IsolatedIsClosed(files: seq<FileMeta>, inputs: seq<FileMeta>)
    requires Isolated(files, inputs) && forall f :: f in files ==> WellFormedMeta(f)
    requires forall f :: f in inputs ==> f in files
    ensures UpperClosed(files, inputs) && NothingContinues(files, inputs)
  {
    forall f, k | f in files && IsLargestKey(inputs, k) ensures !ContinuesKey(f, k) {
      var g :| g in inputs && g.largest == k;
      assert WellFormedMeta(f) && WellFormedMeta(g);
    }
  }

  lemma HullOverlap(files: seq<FileMeta>, inputs: seq<FileMeta>, a: InternalKey, b: InternalKey)
    requires IsSmallestKey(inputs, a) && IsLargestKey(inputs, b)
    ensures forall g :: g in Overlapping(files, Some(a.user), Some(b.user)) <==> g in files && TouchesHull(inputs, g)
  {
    OverlappingMembers(files, Some(a.user), Some(b.user));
    var x :| x in inputs && x.smallest == a;
    var y :| y in inputs && y.largest == b;
    forall g | g in files ensures Overlaps(g, Some(a.user), Some(b.user)) <==> TouchesHull(inputs, g) {
      assert Overlaps(g, Some(a.user), Some(b.user)) ==> x.smallest.user <= g.largest.user && g.smallest.user <= y.largest.user;
    }
  }

  lemma VersionMetaFacts(t: Tables, v: Levels)
    requires ValidVersion(t, v)
    ensures forall l, f :: 0 <= l < |v| && f in v[l] ==> WellFormedMeta(f)
    ensures forall l :: 0 <= l < |v| ==> NoDup(v[l])
  {
    forall l, f | 0 <= l < |v| && f in v[l] ensures WellFormedMeta(f) {
      assert ValidFile(t, f);
      RowInBounds(t, f, Rows(t, f)[0]);
    }
  }

  lemma ExtendedIsClosed(levelZero: bool, files: seq<FileMeta>, seed: seq<FileMeta>, r: seq<FileMeta>)
    requires forall f :: f in files ==> WellFormedMeta(f)
    requires levelZero || DisjointSorted(files)
    requires GoodSeed(levelZero, files, seed)
    requires StaysSlice(files, seed, r) && NothingContinues(files, r)
    requires NothingContinues(files, seed) ==> r == seed
    ensures UpperClosed(files, r)
  {
    if levelZero {
      IsolatedIsClosed(files, seed);
    } else {
      var i, j :| IsSlice(seed, files, i, j);
      assert ExtendsSlice(r, files, i, j);
      var j2 :| 0 <= i < j <= j2 <= |files| && r == files[i..j2];
      SliceIsUpperClosed(files, r, i, j2);
    }
  }

  /** Boundary extension turns any good seed into inputs that are closed above. */
  method ExtendedInputs(levelZero: bool, files: seq<FileMeta>, seed: seq<FileMeta>) returns (r: seq<FileMeta>)
    requires forall f :: f in files ==> WellFormedMeta(f)
    requires levelZero || DisjointSorted(files)
    requires GoodSeed(levelZero, files, seed)
    ensures OnlyBoundary(seed, r) && NoDup(r) && UpperClosed(files, r) && StaysGapless(seed, r)
    ensures forall f :: f in r ==> f in files
  {
    r := AddBoundaryInputs(files, seed);
    ExtendedIsClosed(levelZero, files, seed, r);
  }

  /** Everything in a sorted level that meets the range of the inputs. */
  method OverlapsOfRange(files: seq<FileMeta>, inputs: seq<FileMeta>)
    returns (r: seq<FileMeta>, smallest: InternalKey, largest: InternalKey)
    requires inputs != []
    ensures IsSmallestKey(inputs, smallest) && IsLargestKey(inputs, largest)
    ensures r == Overlapping(files, Some(smallest.user), Some(largest.user))
    ensures forall g :: g in r <==> g in files && TouchesHull(inputs, g)
  {
    smallest, largest := GetRange(inputs);
    var overlaps, _, _ := GetOverlappingInputs(false, files, Some(smallest.user), Some(largest.user));
    r := overlaps;
    HullOverlap(files, inputs, smallest, largest);
  }

  /** What a search for a range finds: the overlapping files; in level 0 those that overlap the least closed range. */
  ghost predicate FoundFrom(levelZero: bool, files: seq<FileMeta>, begin: Option<UserKey>, end: Option<UserKey>,
                            r: seq<FileMeta>) {
    if levelZero then exists lo, hi :: FoundIn(files, begin, end, lo, hi, r) else r == Overlapping(files, begin, end)
  }

  ghost predicate FoundIn(files: seq<FileMeta>, begin: Option<UserKey>, end: Option<UserKey>,
                          lo: Option<UserKey>, hi: Option<UserKey>, r: seq<FileMeta>) {
    && Covers(lo, hi, begin, end) && ClosedRange(files, lo, hi) && LeastClosed(files, begin, end, lo, hi)
    && r == Overlapping(files, lo, hi)
  }

  /** The level's own files over a wider range, again a good seed that keeps the files inside it. */
  method WiderSeed(levelZero: bool, files: seq<FileMeta>, lo: UserKey, hi: UserKey) returns (r: seq<FileMeta>)
    requires NoDup(files) && (levelZero || DisjointSorted(files))
    ensures r != [] ==> GoodSeed(levelZero, files, r)
    ensures forall f :: f in files && lo <= f.largest.user && f.smallest.user <= hi ==> f in r
    ensures GaplessAround(r, lo, hi) && FoundFrom(levelZero, files, Some(lo), Some(hi), r)
  {
    ghost var a, b;
    r, a, b := GetOverlappingInputs(levelZero, files, Some(lo), Some(hi));
    assert levelZero ==> FoundIn(files, Some(lo), Some(hi), a, b, r);
    forall cover | RangeCovered(cover, lo, hi) ensures Gapless(r, r + cover) {
      FoundIsGapless(levelZero, files, lo, hi, a.value, b.value, r, cover);
    }
    OverlappingNoDup(files, a, b);
    OverlappingMembers(files, a, b);
    if r != [] {
      if levelZero {
        ClosedIsIsolated(files, a, b);
      } else {
        ghost var i, j := OverlappingIsSlice(files, a, b);
      }
    }
  }

  /** Complete a compaction: boundary files, then level l+1, then as many more level-l files as leave
      the level l+1 set as it is. `base0` is the level-l set before that last growth. */
  method SetupOtherInputs(t: Tables, v: Levels, l: nat, seed: seq<FileMeta>, maxFileSize: nat)
    returns (in0: seq<FileMeta>, in1: seq<FileMeta>, grandparents: seq<FileMeta>, ghost base0: seq<FileMeta>)
    requires ValidVersion(t, v) && l + 1 < NUM_LEVELS && GoodSeed(l == 0, v[l], seed)
    ensures OnlyBoundary(seed, base0) && forall f :: f in base0 ==> f in in0
    ensures Selected(v, l, base0, in1) && Selected(v, l, in0, in1)
    ensures Gapless(seed, seed) ==> Gapless(in0, in0 + in1)
    ensures GrownFrom(v, l, base0, in1, maxFileSize, in0) && AreGrandparents(v, l, in0 + in1, grandparents)
  {
    VersionMetaFacts(t, v);
    in0 := ExtendedInputs(l == 0, v[l], seed);
    base0 := in0;
    GaplessAlone(seed, in0);
    var smallest, largest;
    in1, smallest, largest := OverlapsOfRange(v[l + 1], in0);
    GaplessUnderMore(in0, in1);
    OverlappingNoDup(v[l + 1], Some(smallest.user), Some(largest.user));
    if in1 != [] {
      in0, in1 := GrowInputs(t, v, l, in0, in1, smallest, largest, maxFileSize);
    }
    grandparents := [];
    if l + 2 < NUM_LEVELS {
      var overlaps, start, limit := OverlapsOfRange(v[l + 2], in0 + in1);
      grandparents := overlaps;
      OverlappingNoDup(v[l + 2], Some(start.user), Some(limit.user));
    }
  }

  /** The files two levels down that meet the range of all inputs, each once. */
  ghost predicate AreGrandparents(v: Levels, l: nat, inputs: seq<FileMeta>, r: seq<FileMeta>) {
    if l + 2 < |v| then NoDup(r) && forall g :: g in r <==> g in v[l + 2] && TouchesHull(inputs, g) else r == []
  }

  /** What a search for the range of both input sets finds in the upper level, and the files that go on with its last
      key. */
  ghost predicate IsExpansion(levelZero: bool, files: seq<FileMeta>, in0: seq<FileMeta>, in1: seq<FileMeta>, r: seq<FileMeta>) {
    && NoDup(r) && UpperClosed(files, r) && (forall f :: f in r ==> f in files) && (forall f :: f in in0 ==> f in r)
    && exists seed, start, limit :: ExpandsFrom(levelZero, files, in0 + in1, start, limit, seed, r)
  }

  ghost predicate ExpandsFrom(levelZero: bool, files: seq<FileMeta>, inputs: seq<FileMeta>,
                              start: InternalKey, limit: InternalKey, seed: seq<FileMeta>, r: seq<FileMeta>) {
    && IsSmallestKey(inputs, start) && IsLargestKey(inputs, limit)
    && FoundFrom(levelZero, files, Some(start.user), Some(limit.user), seed) && OnlyBoundary(seed, r)
  }

  /** They may grow: there is something to gain, all inputs together stay below the limit, and the next level takes part
      with no other file than before. */
  ghost predicate MayGrow(v: Levels, l: nat, in0: seq<FileMeta>, in1: seq<FileMeta>, maxFileSize: nat, r: seq<FileMeta>)
    requires l + 1 < |v|
  {
    && |r| > |in0| && TotalFileSize(in1) + TotalFileSize(r) < 25 * maxFileSize
    && forall g :: g in v[l + 1] && TouchesHull(r, g) ==> g in in1
  }

  /** The upper inputs grow exactly if there are lower inputs and they may. */
  ghost predicate GrownFrom(v: Levels, l: nat, in0: seq<FileMeta>, in1: seq<FileMeta>, maxFileSize: nat, r: seq<FileMeta>)
    requires l + 1 < |v|
  {
    if in1 == [] then r == in0
    else exists e :: IsExpansion(l == 0, v[l], in0, in1, e) && r == if MayGrow(v, l, in0, in1, maxFileSize, e) then e else in0
  }

  lemma {:induction false} SameOverlapping(files: seq<FileMeta>, lo: Option<UserKey>, hi: Option<UserKey>,
                                           lo2: Option<UserKey>, hi2: Option<UserKey>)
    requires forall f :: f in files ==> (Overlaps(f, lo, hi) <==> Overlaps(f, lo2, hi2))
    ensures Overlapping(files, lo, hi) == Overlapping(files, lo2, hi2)
  {
    if files != [] {
      var n := |files| - 1;
      assert files[n] in files;
      SameOverlapping(files[..n], lo, hi, lo2, hi2);
    }
  }

  /** The next level takes part with as many files as before exactly if with no other ones. */
  lemma SameCountSameFiles(files: seq<FileMeta>, in0: seq<FileMeta>, expanded: seq<FileMeta>,
                           smallest: InternalKey, largest: InternalKey, newStart: InternalKey, newLimit: InternalKey)
    requires forall f :: f in in0 ==> f in expanded
    requires IsSmallestKey(in0, smallest) && IsLargestKey(in0, largest)
    requires IsSmallestKey(expanded, newStart) && IsLargestKey(expanded, newLimit)
    ensures var a := Overlapping(files, Some(smallest.user), Some(largest.user));
            var b := Overlapping(files, Some(newStart.user), Some(newLimit.user));
            && (|a| == |b| <==> forall g :: g in files && TouchesHull(expanded, g) ==> g in a)
            && (|a| == |b| ==> a == b)
  {
    var a, b := Overlapping(files, Some(smallest.user), Some(largest.user)), Overlapping(files, Some(newStart.user), Some(newLimit.user));
    RangeGrows(in0, expanded, smallest, largest, newStart, newLimit);
    HullOverlap(files, expanded, newStart, newLimit);
    if |a| == |b| {
      WiderRangeSameCount(files, Some(smallest.user), Some(largest.user), Some(newStart.user), Some(newLimit.user));
    }
    if forall g :: g in files && TouchesHull(expanded, g) ==> g in a {
      OverlappingMembers(files, Some(smallest.user), Some(largest.user));
      OverlappingMembers(files, Some(newStart.user), Some(newLimit.user));
      SameOverlapping(files, Some(smallest.user), Some(largest.user), Some(newStart.user), Some(newLimit.user));
    }
  }

  method GrowInputs(t: Tables, v: Levels, l: nat, in0: seq<FileMeta>, in1: seq<FileMeta>,
                    smallest: InternalKey, largest: InternalKey, maxFileSize: nat)
    returns (out0: seq<FileMeta>, out1: seq<FileMeta>)
    requires ValidVersion(t, v) && Selected(v, l, in0, in1)
    requires IsSmallestKey(in0, smallest) && IsLargestKey(in0, largest)
    requires in1 == Overlapping(v[l + 1], Some(smallest.user), Some(largest.user))
    ensures out1 == in1 && Selected(v, l, out0, in1) && forall f :: f in in0 ==> f in out0
    ensures Gapless(in0, in0) ==> Gapless(out0, out0 + out1)
    ensures in1 != [] ==> GrownFrom(v, l, in0, in1, maxFileSize, out0)
  {
    out0, out1 := in0, in1;
    GaplessUnderMore(in0, in1);
    VersionMetaFacts(t, v);
    var expanded0 := ExpandedInputs(l == 0, v[l], in0, in1);
    var grow, expanded1 := ShouldGrow(v, l, in0, in1, smallest, largest, maxFileSize, expanded0);
    if grow {
      out0, out1 := expanded0, expanded1;
    }
    GrownWith(v, l, in0, in1, maxFileSize, expanded0, out0);
  }

  method ShouldGrow(v: Levels, l: nat, in0: seq<FileMeta>, in1: seq<FileMeta>,
                    smallest: InternalKey, largest: InternalKey, maxFileSize: nat, expanded0: seq<FileMeta>)
    returns (grow: bool, expanded1: seq<FileMeta>)
    requires l + 1 < |v| && in0 != [] && forall f :: f in in0 ==> f in expanded0
    requires IsSmallestKey(in0, smallest) && IsLargestKey(in0, largest)
    requires in1 == Overlapping(v[l + 1], Some(smallest.user), Some(largest.user))
    ensures grow <==> MayGrow(v, l, in0, in1, maxFileSize, expanded0)
    ensures grow ==> expanded1 == in1 && forall g :: g in in1 <==> g in v[l + 1] && TouchesHull(expanded0, g)
  {
    grow, expanded1 := false, in1;
    if |expanded0| > |in0| && TotalFileSize(in1) + TotalFileSize(expanded0) < 25 * maxFileSize {
      var newStart, newLimit;
      expanded1, newStart, newLimit := OverlapsOfRange(v[l + 1], expanded0);
      SameCountSameFiles(v[l + 1], in0, expanded0, smallest, largest, newStart, newLimit);
      grow := |expanded1| == |in1|;
    }
  }

  lemma GrownWith(v: Levels, l: nat, in0: seq<FileMeta>, in1: seq<FileMeta>, maxFileSize: nat, e: seq<FileMeta>, r: seq<FileMeta>)
    requires l + 1 < |v| && IsExpansion(l == 0, v[l], in0, in1, e)
    requires r == if MayGrow(v, l, in0, in1, maxFileSize, e) then e else in0
    ensures in1 != [] ==> GrownFrom(v, l, in0, in1, maxFileSize, r)
  {
  }

  /** The level's files over the range of both input sets, closed again. */
  method ExpandedInputs(levelZero: bool, files: seq<FileMeta>, in0: seq<FileMeta>, in1: seq<FileMeta>)
    returns (r: seq<FileMeta>)
    requires NoDup(files) && (forall f :: f in files ==> WellFormedMeta(f)) && (levelZero || DisjointSorted(files))
    requires in0 != [] && forall f :: f in in0 ==> f in files
    ensures IsExpansion(levelZero, files, in0, in1, r)
    ensures Gapless(in0, in0) && (forall g :: g in in1 ==> TouchesHull(in0, g)) ==> Gapless(r, r + in1)
  {
    var start, limit := GetRange(in0 + in1);
    InputsInsideRange(in0, in1, start, limit);
    var seed := WiderSeed(levelZero, files, start.user, limit.user);
    assert in0[0] in seed;
    r := ExtendedInputs(levelZero, files, seed);
    ExpandedIsGapless(in0, in1, start, limit, seed, r);
    assert ExpandsFrom(levelZero, files, in0 + in1, start, limit, seed, r);
  }

  ghost predicate GaplessAround(r: seq<FileMeta>, lo: UserKey, hi: UserKey) {
    forall cover :: RangeCovered(cover, lo, hi) ==> Gapless(r, r + cover)
  }

  lemma ExpandedIsGapless(in0: seq<FileMeta>, in1: seq<FileMeta>, start: InternalKey, limit: InternalKey,
                          seed: seq<FileMeta>, r: seq<FileMeta>)
    requires IsSmallestKey(in0 + in1, start) && IsLargestKey(in0 + in1, limit)
    requires GaplessAround(seed, start.user, limit.user) && StaysGapless(seed, r) && forall f :: f in in0 ==> f in r
    ensures Gapless(in0, in0) && (forall g :: g in in1 ==> TouchesHull(in0, g)) ==> Gapless(r, r + in1)
  {
    if Gapless(in0, in0) && forall g :: g in in1 ==> TouchesHull(in0, g) {
      GaplessRange(in0, in1, start, limit);
      assert Gapless(seed, seed + (in0 + in1));
      SmallerCover(r, in0, in1);
    }
  }

  lemma GaplessRange(in0: seq<FileMeta>, in1: seq<FileMeta>, start: InternalKey, limit: InternalKey)
    requires Gapless(in0, in0) && (forall g :: g in in1 ==> TouchesHull(in0, g))
    requires IsSmallestKey(in0 + in1, start) && IsLargestKey(in0 + in1, limit)
    ensures RangeCovered(in0 + in1, start.user, limit.user)
  {
    GaplessWithOverlaps(in0, in1);
    forall u | start.user <= u <= limit.user ensures Covered(in0 + in1, u) {
      var x :| x in in0 + in1 && x.smallest == start;
      var y :| y in in0 + in1 && y.largest == limit;
      assert InHull(in0 + in1, u);
    }
  }

  lemma SmallerCover(r: seq<FileMeta>, in0: seq<FileMeta>, in1: seq<FileMeta>)
    requires Gapless(r, r + (in0 + in1)) && forall f :: f in in0 ==> f in r
    ensures Gapless(r, r + in1)
  {
    forall u | InHull(r, u) ensures Covered(r + in1, u) {
      CoverGrows(r + (in0 + in1), r + in1, u);
    }
  }

  lemma GaplessUnderMore(in0: seq<FileMeta>, in1: seq<FileMeta>)
    ensures Gapless(in0, in0) ==> Gapless(in0, in0 + in1)
  {
    if Gapless(in0, in0) {
      forall u | InHull(in0, u) ensures Covered(in0 + in1, u) {
        CoverGrows(in0, in0 + in1, u);
      }
    }
  }

  lemma GaplessAlone(seed: seq<FileMeta>, r: seq<FileMeta>)
    requires StaysGapless(seed, r)
    ensures Gapless(seed, seed) ==> Gapless(r, r)
  {
    assert seed + [] == seed && r + [] == r;
  }

  lemma InputsInsideRange(in0: seq<FileMeta>, in1: seq<FileMeta>, start: InternalKey, limit: InternalKey)
    requires IsSmallestKey(in0 + in1, start) && IsLargestKey(in0 + in1, limit)
    requires forall f :: f in in0 ==> WellFormedMeta(f)
    ensures forall f :: f in in0 ==> start.user <= f.largest.user && f.smallest.user <= limit.user
  {
    forall f | f in in0 ensures start.user <= f.largest.user && f.smallest.user <= limit.user {
      assert f in in0 + in1;
    }
  }

  lemma RangeGrows(in0: seq<FileMeta>, expanded: seq<FileMeta>,
                   smallest: InternalKey, largest: InternalKey, newStart: InternalKey, newLimit: InternalKey)
    requires forall f :: f in in0 ==> f in expanded
    requires IsSmallestKey(in0, smallest) && IsLargestKey(in0, largest)
    requires IsSmallestKey(expanded, newStart) && IsLargestKey(expanded, newLimit)
    ensures newStart.user <= smallest.user && largest.user <= newLimit.user
  {
  }

  // ----- where compactions start ----------------------------------------------------------------------

  /** PickCompaction, for whichever file the size or seek heuristics chose. */
  method PickCompaction(t: Tables, v: Levels, l: nat, index: nat, maxFileSize: nat)
    returns (in0: seq<FileMeta>, in1: seq<FileMeta>, grandparents: seq<FileMeta>)
    requires ValidVersion(t, v) && l + 1 < NUM_LEVELS && index < |v[l]|
    ensures Selected(v, l, in0, in1) && v[l][index] in in0 && Gapless(in0, in0 + in1)
    ensures AreGrandparents(v, l, in0 + in1, grandparents)
    ensures exists seed, base0 :: PickedFrom(v, l, v[l][index], seed, base0) && GrownFrom(v, l, base0, in1, maxFileSize, in0)
  {
    var f := v[l][index];
    var seed := [f];
    VersionMetaFacts(t, v);
    assert WellFormedMeta(f);
    if l == 0 {
      seed := WiderSeed(true, v[0], f.smallest.user, f.largest.user);
      assert f in seed;
      assert RangeCovered([f], f.smallest.user, f.largest.user) by {
        assert f in [f];
        assert forall u :: f.smallest.user <= u <= f.largest.user ==> Holds(f, u);
      }
      SmallerCover(seed, [f], []);
    } else {
      assert IsSlice(seed, v[l], index, index + 1);
      OneFileIsGapless(f);
    }
    ghost var base0;
    in0, in1, grandparents, base0 := SetupOtherInputs(t, v, l, seed, maxFileSize);
    assert PickedFrom(v, l, f, seed, base0);
  }

  /** The file picked, in level 0 with what the range of its keys leads to, and the files that go on with the last key. */
  ghost predicate PickedFrom(v: Levels, l: nat, f: FileMeta, seed: seq<FileMeta>, base0: seq<FileMeta>)
    requires l < |v|
  {
    && OnlyBoundary(seed, base0)
    && if l == 0 then FoundFrom(true, v[0], Some(f.smallest.user), Some(f.largest.user), seed) else seed == [f]
  }

  lemma OneFileIsGapless(f: FileMeta)
    ensures Gapless([f], [f])
  {
    forall u | InHull([f], u) ensures Covered([f], u) {
      assert f in [f] && Holds(f, u);
    }
  }

  /** The first inputs whose sizes reach the limit, or all of them. */
  method FirstBytes(inputs: seq<FileMeta>, limit: nat) returns (n: nat)
    ensures n <= |inputs| && (inputs != [] ==> n > 0)
    ensures n < |inputs| ==> TotalFileSize(inputs[..n]) >= limit
    ensures forall m :: 0 < m < n ==> TotalFileSize(inputs[..m]) < limit
  {
    var total := 0;
    n := 0;
    while n < |inputs|
      invariant 0 <= n <= |inputs|
      invariant total == TotalFileSize(inputs[..n])
      invariant forall m :: 0 < m <= n ==> TotalFileSize(inputs[..m]) < limit
    {
      total := total + inputs[n].size;
      assert inputs[..n + 1][..n] == inputs[..n];
      n := n + 1;
      if total >= limit {
        return;
      }
    }
  }

  /** The files a manual compaction starts from. */
  method RangeSeed(levelZero: bool, files: seq<FileMeta>, begin: Option<UserKey>, end: Option<UserKey>, maxFileSize: nat)
    returns (seed: seq<FileMeta>)
    requires NoDup(files) && (levelZero || DisjointSorted(files))
    ensures seed == [] <==> forall f :: f in files ==> !Overlaps(f, begin, end)
    ensures seed != [] ==> GoodSeed(levelZero, files, seed)
    ensures TakesRange(levelZero, files, begin, end, maxFileSize, seed)
  {
    var inputs, lo, hi := GetOverlappingInputs(levelZero, files, begin, end);
    NothingOverlaps(levelZero, files, begin, end, lo, hi);
    seed := inputs;
    if levelZero {
      ClosedIsGoodSeed(files, begin, end, lo, hi, maxFileSize);
    } else {
      var n := FirstBytes(inputs, maxFileSize);
      seed := inputs[..n];
      assert TakesFirst(inputs, n, maxFileSize, seed);
      if n > 0 {
        PrefixIsGoodSeed(files, lo, hi, n);
      }
    }
  }

  lemma NothingOverlaps(levelZero: bool, files: seq<FileMeta>, begin: Option<UserKey>, end: Option<UserKey>,
                        lo: Option<UserKey>, hi: Option<UserKey>)
    requires Covers(lo, hi, begin, end)
    requires !levelZero ==> lo == begin && hi == end
    requires levelZero ==> LeastClosed(files, begin, end, lo, hi)
    ensures Overlapping(files, lo, hi) == [] <==> forall f :: f in files ==> !Overlaps(f, begin, end)
  {
    OverlappingMembers(files, lo, hi);
    RangeFound(levelZero, files, begin, end, lo, hi);
    var inputs := Overlapping(files, lo, hi);
    assert inputs != [] ==> inputs[0] in inputs;
  }

  lemma ClosedIsGoodSeed(files: seq<FileMeta>, begin: Option<UserKey>, end: Option<UserKey>,
                         lo: Option<UserKey>, hi: Option<UserKey>, limit: nat)
    requires NoDup(files) && Covers(lo, hi, begin, end) && ClosedRange(files, lo, hi) && LeastClosed(files, begin, end, lo, hi)
    ensures var seed := Overlapping(files, lo, hi);
            (seed != [] ==> GoodSeed(true, files, seed)) && TakesRange(true, files, begin, end, limit, seed)
  {
    OverlappingMembers(files, lo, hi);
    OverlappingNoDup(files, lo, hi);
    ClosedIsIsolated(files, lo, hi);
    assert FoundIn(files, begin, end, lo, hi, Overlapping(files, lo, hi));
  }

  /** What a manual compaction starts from: at level 0 all that a search for the range finds; above, the overlapping
      files in order, up to the one that makes them large enough. */
  ghost predicate TakesRange(levelZero: bool, files: seq<FileMeta>, begin: Option<UserKey>, end: Option<UserKey>, limit: nat,
                             seed: seq<FileMeta>) {
    if levelZero then FoundFrom(true, files, begin, end, seed)
    else exists n :: TakesFirst(Overlapping(files, begin, end), n, limit, seed)
  }

  ghost predicate TakesFirst(overlapping: seq<FileMeta>, n: int, limit: nat, seed: seq<FileMeta>) {
    && 0 <= n <= |overlapping| && (overlapping != [] ==> n > 0) && seed == overlapping[..n]
    && (n < |overlapping| ==> TotalFileSize(overlapping[..n]) >= limit)
    && (n > 1 ==> TotalFileSize(overlapping[..n - 1]) < limit)
  }

  lemma PrefixIsGoodSeed(files: seq<FileMeta>, lo: Option<UserKey>, hi: Option<UserKey>, n: nat)
    requires NoDup(files) && DisjointSorted(files) && 0 < n <= |Overlapping(files, lo, hi)|
    ensures GoodSeed(false, files, Overlapping(files, lo, hi)[..n])
  {
    var i, j := OverlappingIsSlice(files, lo, hi);
    assert IsSlice(Overlapping(files, lo, hi)[..n], files, i, i + n);
  }

  /** CompactRange: a manual compaction of a key range, cut short above level 0 once it is large. */
  method CompactRange(t: Tables, v: Levels, l: nat, begin: Option<UserKey>, end: Option<UserKey>, maxFileSize: nat)
    returns (found: bool, in0: seq<FileMeta>, in1: seq<FileMeta>, grandparents: seq<FileMeta>)
    requires ValidVersion(t, v) && l + 1 < NUM_LEVELS
    ensures !found <==> forall f :: f in v[l] ==> !Overlaps(f, begin, end)
    ensures found ==> Selected(v, l, in0, in1)
    ensures found ==> exists seed, base0 :: TakesRange(l == 0, v[l], begin, end, maxFileSize, seed)
                        && OnlyBoundary(seed, base0) && GrownFrom(v, l, base0, in1, maxFileSize, in0)
    ensures found ==> AreGrandparents(v, l, in0 + in1, grandparents)
  {
    in0, in1, grandparents := [], [], [];
    VersionMetaFacts(t, v);
    var inputs := RangeSeed(l == 0, v[l], begin, end, maxFileSize);
    found := inputs != [];
    if found {
      ghost var base0;
      in0, in1, grandparents, base0 := SetupOtherInputs(t, v, l, inputs, maxFileSize);
      assert OnlyBoundary(inputs, base0);
    }
  }

  /** Widening the range of a level-0 search never starts from nothing. */
  lemma RangeFound(levelZero: bool, files: seq<FileMeta>, begin: Option<UserKey>, end: Option<UserKey>,
                   lo: Option<UserKey>, hi: Option<UserKey>)
    requires Covers(lo, hi, begin, end)
    requires !levelZero ==> lo == begin && hi == end
    requires levelZero ==> LeastClosed(files, begin, end, lo, hi)
    ensures (exists f :: f in files && Overlaps(f, begin, end)) <==> (exists f :: f in files && Overlaps(f, lo, hi))
  {
    if levelZero && forall f :: f in files ==> !Overlaps(f, begin, end) {
      assert ClosedRange(files, begin, end) && Covers(begin, end, begin, end);
    }
  }
}
