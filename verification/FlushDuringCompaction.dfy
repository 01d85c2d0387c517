/** A memtable flushed while a compaction runs. Nothing in the code keeps the new file out of a gap between the files
    being compacted. The compactions the store starts by itself have no such gap; a manual one may, and then what
    decides is whether the rows it keeps lie on both sides of the new file. */
module FlushDuringCompaction {
  import opened Sequences
  import opened DbFormat
  import opened Versions
  import opened CompactionInputs
  import opened CompactionLoop
  import opened CompactionMeaning
  import opened VersionSteps
  import opened Store
  import opened StoreInvariant

  // ----- compactions without a gap -----------------------------------------------------------------------------

  lemma CommonKey(in0: seq<FileMeta>, meta: FileMeta)
    requires WellFormedMeta(meta) && forall f :: f in in0 ==> WellFormedMeta(f)
    ensures TouchesHull(in0, meta) ==> exists u :: InHull(in0, u) && Holds(meta, u)
  {
    if TouchesHull(in0, meta) {
      var x :| x in in0 && x.smallest.user <= meta.largest.user;
      assert WellFormedMeta(x);
      var u := if x.smallest.user <= meta.smallest.user then meta.smallest.user else x.smallest.user;
      assert InHull(in0, u) && Holds(meta, u);
    }
  }

  lemma GaplessOverlaps(in0: seq<FileMeta>, in1: seq<FileMeta>, g: FileMeta)
    requires WellFormedMeta(g) && (forall f :: f in in0 ==> WellFormedMeta(f))
    requires Gapless(in0, in0 + in1) && TouchesHull(in0, g)
    ensures exists f :: (f in in0 || f in in1) && !KeysApart(f, g)
  {
    CommonKey(in0, g);
    var u :| InHull(in0, u) && Holds(g, u);
    assert Covered(in0 + in1, u);
    var f :| f in in0 + in1 && Holds(f, u);
    assert (f in in0 || f in in1) && !KeysApart(f, g);
  }

  /** Between the files of a gapless compaction there is no room for a newcomer. */
  lemma GaplessHasNoNewcomer(c: Job, g: FileMeta)
    requires Compacting(c) && Gapless(c.in0, c.in0 + c.in1) && g in c.v[c.l + 1] && g !in c.in1
    ensures !Newcomer(c, g)
  {
    VersionMetaFacts(c.t, c.v);
    if TouchesHull(c.in0, g) {
      GaplessOverlaps(c.in0, c.in1, g);
    }
  }

  /** So whatever is flushed meanwhile, a gapless compaction can be installed however its outputs are cut. */
  lemma GaplessIsClear(s: State, outs: seq<FileMeta>)
    requires Inv(s) && s.job.Some? && Gapless(s.job.value.in0, s.job.value.in0 + s.job.value.in1)
    ensures ClearOfFlushes(s, outs)
  {
    var c := JobNow(s);
    forall g | g in c.v[c.l + 1] && g !in c.in1 ensures !Newcomer(c, g) {
      GaplessHasNoNewcomer(c, g);
    }
  }

  // ----- compactions with a gap --------------------------------------------------------------------------------

  /** The rows lie on both sides of the file. */
  ghost predicate OnBothSides(rows: seq<Entry>, g: FileMeta) {
    exists x, y :: x in rows && y in rows && x.key.user < g.smallest.user && g.largest.user < y.key.user
  }

  /** Wherever the rows kept are cut into files, the files can be installed. */
  ghost predicate EveryCutClear(c: Job)
    requires c.l + 1 < |c.v|
  {
    forall parts, outs :: Flatten(parts) == Kept(c) && Describes(parts, outs) ==> OutputsClear(c, outs)
  }

  ghost predicate NoneBetween(c: Job, rows: seq<Entry>)
    requires c.l + 1 < |c.v|
  {
    forall g :: Newcomer(c, g) ==> !OnBothSides(rows, g)
  }

  lemma CutIsClear(c: Job, parts: seq<seq<Entry>>, outs: seq<FileMeta>, g: FileMeta, i: nat)
    requires Compacting(c) && Flatten(parts) == Kept(c) && Describes(parts, outs) && i < |outs|
    requires Newcomer(c, g) && !OnBothSides(Kept(c), g)
    ensures KeysApart(outs[i], g)
  {
    var x, y := parts[i][0], parts[i][|parts[i]| - 1];
    OutputRow(c, parts, i, x);
    OutputRow(c, parts, i, y);
    FlattenMembers(parts, x);
    FlattenMembers(parts, y);
    RowApart(c, g, x);
    RowApart(c, g, y);
  }

  /** Rows on both sides of a file, written to one file, overlap it. */
  lemma OneFileOverlaps(kept: seq<Entry>, g: FileMeta) returns (out: FileMeta)
    requires SortedRun(kept) && WellFormedMeta(g) && OnBothSides(kept, g)
    ensures kept != [] && out.smallest == kept[0].key && out.largest == kept[|kept| - 1].key && !KeysApart(out, g)
  {
    var x, y :| x in kept && y in kept && x.key.user < g.smallest.user && g.largest.user < y.key.user;
    WithinEnds(kept, x);
    WithinEnds(kept, y);
    out := FileMeta(0, 0, kept[0].key, kept[|kept| - 1].key);
  }

  lemma WithinEnds(rows: seq<Entry>, x: Entry)
    requires SortedRun(rows) && x in rows
    ensures rows[0].key.user <= x.key.user <= rows[|rows| - 1].key.user
  {
    var i :| 0 <= i < |rows| && rows[i] == x;
    assert 0 < i ==> Precedes(rows[0].key, rows[i].key);
    assert i < |rows| - 1 ==> Precedes(rows[i].key, rows[|rows| - 1].key);
  }

  /** All rows cut into one file. */
  lemma OneCut(kept: seq<Entry>, out: FileMeta) returns (parts: seq<seq<Entry>>, outs: seq<FileMeta>)
    requires kept != [] && out.smallest == kept[0].key && out.largest == kept[|kept| - 1].key
    ensures Flatten(parts) == kept && Describes(parts, outs) && |outs| == 1 && outs[0] == out
  {
    parts, outs := [kept], [out];
    assert parts[..0] == [];
    assert Flatten(parts[..0]) == [];
  }

  lemma OverlappingCut(c: Job, parts: seq<seq<Entry>>, outs: seq<FileMeta>, i: nat, g: FileMeta)
    requires c.l + 1 < |c.v| && Flatten(parts) == Kept(c) && Describes(parts, outs)
    requires i < |outs| && Newcomer(c, g) && !KeysApart(outs[i], g)
    ensures !EveryCutClear(c)
  {
  }

  lemma SomeCutOverlaps(c: Job, g: FileMeta)
    requires Compacting(c) && Newcomer(c, g) && OnBothSides(Kept(c), g)
    ensures !EveryCutClear(c)
  {
    var kept := Kept(c);
    KeptSorted(c.v, c.l, c.input, c.snap, |c.input|);
    VersionMetaFacts(c.t, c.v);
    var out := OneFileOverlaps(kept, g);
    var parts, outs := OneCut(kept, out);
    OverlappingCut(c, parts, outs, 0, g);
  }

  /** A running compaction can be installed however it is cut if and only if the rows it keeps do not lie on both sides
      of a file flushed meanwhile. */
  lemma EveryCutClearIff(c: Job)
    requires Compacting(c)
    ensures EveryCutClear(c) <==> NoneBetween(c, Kept(c))
  {
    if g :| Newcomer(c, g) && OnBothSides(Kept(c), g) {
      SomeCutOverlaps(c, g);
    } else {
      forall parts, outs | Flatten(parts) == Kept(c) && Describes(parts, outs) ensures OutputsClear(c, outs) {
        forall g, i | Newcomer(c, g) && 0 <= i < |outs| ensures KeysApart(outs[i], g) {
          CutIsClear(c, parts, outs, g, i);
        }
      }
    }
  }

  /** A file apart from all inputs with compacted rows on both sides lies between the level-l inputs. */
  lemma BetweenRows(c: Job, meta: FileMeta, x: Entry, y: Entry)
    requires Compacting(c) && ApartFromInputs(c, meta) && WellFormedMeta(meta) && x in c.input && y in c.input
    requires x.key.user < meta.smallest.user && meta.largest.user < y.key.user
    ensures TouchesHull(c.in0, meta)
  {
    VersionMetaFacts(c.t, c.v);
    var m, f := InputHasFile(c, x);
    var n, g := InputHasFile(c, y);
    assert ValidFile(c.t, f) && ValidFile(c.t, g);
    RowInBounds(c.t, f, x);
    RowInBounds(c.t, g, y);
    assert KeysApart(f, meta) && KeysApart(g, meta);
    assert m == c.l + 1 ==> TouchesHull(c.in0, f);
    assert n == c.l + 1 ==> TouchesHull(c.in0, g);
  }

  /** A flush into the level a compaction writes to leaves it installable however it is cut if and only if the rows
      kept do not lie on both sides of the flushed file. */
  lemma FlushIsSafeIff(s: State, p: nat, meta: FileMeta, s': State)
    requires Inv(s) && s.job.Some? && p == s.job.value.l + 1 && IsFlushStep(s, p, meta, s')
    ensures Inv(s') && s'.job == s.job
    ensures EveryCutClear(JobNow(s')) <==> EveryCutClear(JobNow(s)) && !OnBothSides(s.job.value.kept, meta)
  {
    FlushKeepsInv(s, p, meta, s');
    EveryCutClearIff(JobNow(s));
    EveryCutClearIff(JobNow(s'));
    FlushedFile(s, p, meta, s');
    KeptBetween(JobNow(s), meta);
    OneMoreNewcomer(JobNow(s), JobNow(s'), s.job.value.kept, meta);
  }

  lemma KeptBetween(c: Job, meta: FileMeta)
    requires Compacting(c) && ApartFromInputs(c, meta) && WellFormedMeta(meta)
    ensures OnBothSides(Kept(c), meta) ==> TouchesHull(c.in0, meta)
  {
    var kept := Kept(c);
    if x, y :| x in kept && y in kept && x.key.user < meta.smallest.user && meta.largest.user < y.key.user {
      KeptMembers(c.v, c.l, c.input, c.snap, |c.input|, x);
      KeptMembers(c.v, c.l, c.input, c.snap, |c.input|, y);
      BetweenRows(c, meta, x, y);
    }
  }

  lemma OneMoreNewcomer(c: Job, c': Job, kept: seq<Entry>, meta: FileMeta)
    requires c.l + 1 < |c.v| == |c'.v| && c'.l == c.l && c'.in0 == c.in0 && c'.in1 == c.in1 && meta !in c.in1
    requires GainsFile(c.v[c.l + 1], meta, c'.v[c.l + 1])
    requires OnBothSides(kept, meta) ==> TouchesHull(c.in0, meta)
    ensures NoneBetween(c', kept) <==> NoneBetween(c, kept) && !OnBothSides(kept, meta)
  {
    forall g ensures Newcomer(c', g) <==> Newcomer(c, g) || (g == meta && TouchesHull(c.in0, meta)) {
    }
  }

  lemma FlushedFile(s: State, p: nat, meta: FileMeta, s': State)
    requires Inv(s) && s.job.Some? && p == s.job.value.l + 1 && IsFlushStep(s, p, meta, s')
    ensures p < |s.levels| == |s'.levels| && meta !in s.job.value.in1
    ensures GainsFile(s.levels[p], meta, s'.levels[p])
    ensures WellFormedMeta(meta) && ApartFromInputs(JobNow(s), meta)
  {
    FlushIsFlush(s, p, meta, s');
    var j, rows := s.job.value, s.imm.value;
    assert |rows| > 1 ==> Precedes(rows[0].key, rows[|rows| - 1].key);
    forall f | f in s.levels[j.l] || f in s.levels[p]
      ensures KeysApart(f, meta) && f != meta
    {
      assert ValidFile(s.tables, f);
      assert !Overlaps(f, Some(meta.smallest.user), Some(meta.largest.user));
    }
  }
}
