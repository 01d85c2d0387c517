/** Every step of the store keeps its invariant. */
module StoreInvariant {
  import opened Sequences
  import opened DbFormat
  import opened Versions
  import opened CompactionInputs
  import opened CompactionLoop
  import opened CompactionMeaning
  import opened VersionBuilder
  import opened VersionSteps
  import opened Manifest
  import opened Store

  // ----- memtables -----------------------------------------------------------------------------------------

  lemma AboveFacts(s: State)
    requires MemTablesValid(s) && MemTablesNewer(s)
    ensures UniqueSeqs(Above(s))
    ensures forall x, y :: x in Above(s) && y in VersionEntries(s.tables, s.levels) && x.key.user == y.key.user ==>
              x.key.seqno > y.key.seqno
  {
    forall x, y | x in Above(s) && y in VersionEntries(s.tables, s.levels) && x.key.user == y.key.user
      ensures x.key.seqno > y.key.seqno
    {
      var l, f :| InVersion(s.tables, s.levels, l, f, y);
      assert Newer(s.mem, Rows(s.tables, f));
      assert s.imm.Some? ==> Newer(s.imm.value, Rows(s.tables, f));
    }
  }

  /** A running compaction does not care what happens in the memtables. */
  lemma JobSurvives(s: State, s': State)
    requires JobValid(s) && MemTablesValid(s') && MemTablesNewer(s')
    requires s'.job == s.job && s'.tables == s.tables && s'.levels == s.levels
    requires SmallestSnapshot(s) <= SmallestSnapshot(s')
    ensures JobValid(s')
  {
    AboveFacts(s');
    if s.job.Some? {
      OtherMemTables(JobNow(s), Above(s'));
    }
  }

  lemma OtherMemTables(c: Job, above: iset<Entry>)
    requires Compacting(c) && UniqueSeqs(above)
    requires forall x, y :: x in above && y in VersionEntries(c.t, c.v) && x.key.user == y.key.user ==> x.key.seqno > y.key.seqno
    ensures Compacting(c.(above := above)) && Kept(c.(above := above)) == Kept(c)
  {
    SameInputs(c, above);
  }

  lemma SameInputs(c: Job, above: iset<Entry>)
    requires InputsClosed(c)
    ensures InputsClosed(c.(above := above))
  {
    var c' := c.(above := above);
    forall g | Newcomer(c', g) ensures ApartFromInputs(c', g) {
      assert Newcomer(c, g);
    }
  }

  /** Counters only grow, so those in the manifest stay sufficient while files and rows stay. */
  lemma CountersSurvive(s: State, s': State)
    requires CountersOk(s) && s'.manifest == s.manifest && s'.tables == s.tables && s'.levels == s.levels
    requires s.lastSequence <= s'.lastSequence && s.nextFile <= s'.nextFile
    ensures CountersOk(s')
  {
  }

  /** Counters just logged suffice. */
  lemma StampedCounters(s: State)
    requires ValidVersion(s.tables, s.levels) && NumbersBounded(s) && SequencesBounded(s)
    requires s.manifest != [] && Stamped(s.manifest[|s.manifest| - 1], s.nextFile, s.lastSequence)
    ensures CountersOk(s)
  {
    var n := |s.manifest| - 1;
    assert s.manifest == s.manifest[..n] + [s.manifest[n]];
    LastGivenNext(s.manifest[..n], s.manifest[n], LogNumber);
    LastGivenNext(s.manifest[..n], s.manifest[n], NextFile);
    LastGivenNext(s.manifest[..n], s.manifest[n], LastSequence);
    forall l, f | 0 <= l < |s.levels| && f in s.levels[l] ensures f.number < s.nextFile {
      assert ValidFile(s.tables, f);
    }
    assert forall e :: e in VersionEntries(s.tables, s.levels) ==> e in Everything(s);
  }

  lemma VersionRow(t: Tables, v: Levels, l: nat, f: FileMeta, e: Entry)
    requires l < |v| && f in v[l] && e in Rows(t, f)
    ensures e in VersionEntries(t, v)
  {
    assert InVersion(t, v, l, f, e);
  }

  lemma WriteKeepsInv(s: State, batch: seq<Update>, s': State)
    requires Inv(s) && IsWrite(s, batch, s')
    ensures Inv(s')
  {
    forall e | e in s'.mem && e !in s.mem ensures s.lastSequence < e.key.seqno <= s'.lastSequence {
    }
    forall e | e in Everything(s) ensures e.key.seqno <= s.lastSequence {
    }
    forall l, f | 0 <= l < |s'.levels| && f in s'.levels[l] ensures Newer(s'.mem, Rows(s'.tables, f)) {
      assert Newer(s.mem, Rows(s.tables, f));
      forall e | e in Rows(s.tables, f) ensures e.key.seqno <= s.lastSequence {
        VersionRow(s.tables, s.levels, l, f, e);
      }
    }
    JobSurvives(s, s');
    CountersSurvive(s, s');
  }

  lemma FailedWriteKeepsInv(s: State, n: nat, s': State)
    requires Inv(s) && Step(s, FailedWrite(n), s')
    ensures Inv(s') && Everything(s') == Everything(s)
  {
    JobSurvives(s, s');
  }

  lemma SwitchKeepsInv(s: State, s': State)
    requires Inv(s) && Step(s, SwitchMemTable, s')
    ensures Inv(s')
  {
    forall l, f | 0 <= l < |s'.levels| && f in s'.levels[l] ensures Newer(s'.imm.value, Rows(s'.tables, f)) {
      assert Newer(s.mem, Rows(s.tables, f));
    }
    JobSurvives(s, s');
  }

  lemma FlushEmptyKeepsInv(s: State, s': State)
    requires Inv(s) && Step(s, FlushEmpty, s')
    ensures Inv(s')
  {
    JobSurvives(s, s');
  }

  lemma TakeSnapshotKeepsInv(s: State, s': State)
    requires Inv(s) && Step(s, TakeSnapshot, s')
    ensures Inv(s') && SmallestSnapshot(s) <= SmallestSnapshot(s')
  {
    JobSurvives(s, s');
  }

  lemma ReleaseSnapshotKeepsInv(s: State, i: nat, s': State)
    requires Inv(s) && Step(s, ReleaseSnapshot(i), s')
    ensures Inv(s') && SmallestSnapshot(s) <= SmallestSnapshot(s')
  {
    JobSurvives(s, s');
  }

  // ----- the manifest --------------------------------------------------------------------------------------

  /** Adding files under fresh numbers, or one level deeper than ever before, keeps the manifest replayable. */
  ghost predicate FreshOrDeeper(s: State, additions: seq<(nat, FileMeta)>) {
    var adds := AllAdds(s.manifest);
    && DistinctAdds(additions)
    && forall i, j :: 0 <= i < |adds| && 0 <= j < |additions| && adds[i].0 == additions[j].0 ==>
         adds[i].1.number != additions[j].1.number
  }

  lemma ManifestStep(s: State, deletions: set<(nat, nat)>, additions: seq<(nat, FileMeta)>, s': State)
    requires ManifestValid(s) && |s.levels| == NUM_LEVELS
    requires LogAndApply(s, deletions, additions, s') && FreshOrDeeper(s, additions)
    ensures ManifestValid(s') && AllAdds(s'.manifest) == AllAdds(s.manifest) + additions
  {
    var log, log' := s.manifest, s'.manifest;
    var edit := log'[|log|];
    assert log'[..|log|] == log;
    var c := ApplyEdit(FileSets(s.levels), edit);
    forall l, f | 0 <= l < |c| ensures f in c[l] <==> f in FileSets(s'.levels)[l] {
      FilesOfLevel(s'.levels, l, f);
    }
    SameContents(c, FileSets(s'.levels));
    DistinctAppend(AllAdds(log), additions);
  }

  lemma DistinctAppend(a: seq<(nat, FileMeta)>, b: seq<(nat, FileMeta)>)
    requires DistinctAdds(a) && DistinctAdds(b)
    requires forall i, j :: 0 <= i < |a| && 0 <= j < |b| && a[i].0 == b[j].0 ==> a[i].1.number != b[j].1.number
    ensures DistinctAdds(a + b)
  {
  }

  lemma SnapshotContents(v: Levels, edit: VersionEdit)
    requires |v| == NUM_LEVELS && IsSnapshotEdit(v, edit)
    ensures LogInRange([edit]) && AddsOnce([edit]) && AllAdds([edit]) == edit.newFiles
    ensures Replay([edit]) == FileSets(v)
  {
    assert [edit][..0] == [] && AllAdds([]) == [];
    var c := ApplyEdit(NoFiles(), edit);
    forall l, f | 0 <= l < |c| ensures f in c[l] <==> f in FileSets(v)[l] {
      AddedMembers(RemoveAll(NoFiles(), edit.deletedFiles), edit.newFiles, l, f);
      FilesOfLevel(v, l, f);
    }
    SameContents(c, FileSets(v));
  }

  lemma SnapshotAdds(s: State, edit: VersionEdit, i: nat)
    requires ValidVersion(s.tables, s.levels) && NumbersBounded(s) && IsSnapshotEdit(s.levels, edit) && i < |edit.newFiles|
    ensures edit.newFiles[i].1.number < s.nextFile
    ensures forall l, f :: 0 <= l < |s.levels| && f in s.levels[l] && edit.newFiles[i].1.number == f.number ==>
              edit.newFiles[i].0 <= l
  {
    var p := edit.newFiles[i];
    assert (p.0, p.1) in edit.newFiles && p.1 in s.levels[p.0];
    assert ValidFile(s.tables, p.1);
    forall l, f | 0 <= l < |s.levels| && f in s.levels[l] && p.1.number == f.number ensures p.0 <= l {
      OneNumberOnePlace(s.tables, s.levels, l, f, p.0, p.1);
    }
  }

  lemma RewriteKeepsInv(s: State, snapshot: VersionEdit, edit: VersionEdit, s': State)
    requires Inv(s) && IsRewriteStep(s, snapshot, edit, s')
    ensures Inv(s')
  {
    SnapshotContents(s.levels, snapshot);
    NoFilesInEdit([snapshot], edit);
    assert [snapshot] + [edit] == s'.manifest;
    SnapshotNumbers(s, snapshot);
    RewrittenNumbers(s, snapshot, s');
    JobSurvives(s, s');
    StampedCounters(s');
  }

  ghost predicate AddsBelow(adds: seq<(nat, FileMeta)>, next: nat) {
    forall i :: 0 <= i < |adds| ==> adds[i].1.number < next
  }

  ghost predicate AddsNotDeeper(adds: seq<(nat, FileMeta)>, v: Levels) {
    forall l, f, i :: 0 <= l < |v| && f in v[l] && 0 <= i < |adds| && adds[i].1.number == f.number ==> adds[i].0 <= l
  }

  lemma SnapshotNumbers(s: State, edit: VersionEdit)
    requires ValidVersion(s.tables, s.levels) && NumbersBounded(s) && IsSnapshotEdit(s.levels, edit)
    ensures AddsBelow(edit.newFiles, s.nextFile) && AddsNotDeeper(edit.newFiles, s.levels)
  {
    forall i | 0 <= i < |edit.newFiles|
      ensures edit.newFiles[i].1.number < s.nextFile
      ensures forall l, f :: 0 <= l < |s.levels| && f in s.levels[l] && edit.newFiles[i].1.number == f.number ==>
                edit.newFiles[i].0 <= l
    {
      SnapshotAdds(s, edit, i);
    }
  }

  lemma RewrittenNumbers(s: State, edit: VersionEdit, s': State)
    requires NumbersBounded(s) && s' == s.(manifest := s'.manifest) && AllAdds(s'.manifest) == edit.newFiles
    requires AddsBelow(edit.newFiles, s.nextFile) && AddsNotDeeper(edit.newFiles, s.levels)
    ensures NumbersBounded(s') && NeverDeeper(s')
  {
  }

  /** Two live files with one number are one file at one level. */
  lemma OneNumberOnePlace(t: Tables, v: Levels, l: nat, f: FileMeta, m: nat, g: FileMeta)
    requires ValidVersion(t, v) && l < |v| && m < |v| && f in v[l] && g in v[m] && f.number == g.number
    ensures l == m && f == g
  {
    assert ValidFile(t, f);
    assert Rows(t, f) == Rows(t, g);
    var e := Rows(t, f)[0];
    assert e in Rows(t, f);
    assert l < m ==> NewerFile(t, f, g);
    assert m < l ==> NewerFile(t, g, f);
    if l == m {
      SameNumberSameFile(t, v, l, f, g);
    }
  }

  // ----- trivial move --------------------------------------------------------------------------------------

  lemma MoveKeepsInv(s: State, l: nat, f: FileMeta, s': State)
    requires Inv(s) && IsMoveStep(s, l, f, s')
    ensures Inv(s') && Everything(s') == Everything(s)
  {
    var edit := s'.manifest[|s'.manifest| - 1];
    assert f in [f];
    MoveKeepsValid(s.tables, s.levels, l, f, edit, s'.levels);
    ManifestStep(s, {(l, f.number)}, [(l + 1, f)], s');
    forall m, g | 0 <= m < |s'.levels| && g in s'.levels[m]
      ensures Newer(s'.mem, Rows(s'.tables, g)) && (s'.imm.Some? ==> Newer(s'.imm.value, Rows(s'.tables, g)))
    {
      EditMembers(s.levels, edit, s'.levels, m, g);
      assert g in s.levels[m] || g in s.levels[l];
    }
    assert ValidFile(s.tables, f);
    MovedNeverDeeper(s, l, f, s');
    StampedCounters(s');
  }

  lemma MovedNeverDeeper(s: State, l: nat, f: FileMeta, s': State)
    requires Inv(s) && IsMoveStep(s, l, f, s')
    requires AllAdds(s'.manifest) == AllAdds(s.manifest) + [(l + 1, f)]
    ensures NeverDeeper(s')
  {
    var edit := s'.manifest[|s'.manifest| - 1];
    var adds, all := AllAdds(s.manifest), AllAdds(s'.manifest);
    assert f in [f];
    forall m, g, i | 0 <= m < |s'.levels| && g in s'.levels[m] && 0 <= i < |all| && all[i].1.number == g.number
      ensures all[i].0 <= m
    {
      EditMembers(s.levels, edit, s'.levels, m, g);
      assert all[i] == if i < |adds| then adds[i] else (l + 1, f);
      if g in s.levels[m] && g.number == f.number {
        OneNumberOnePlace(s.tables, s.levels, m, g, l, f);
      }
    }
  }

  // ----- flush ---------------------------------------------------------------------------------------------

  lemma {:induction false} SameDrops(v: Levels, v': Levels, l: nat, input: seq<Entry>, snap: SequenceNumber, n: nat)
    requires n <= |input|
    requires forall e :: e in input ==> (IsBaseLevel(v, l, e.key.user) <==> IsBaseLevel(v', l, e.key.user))
    ensures KeptRows(v, l, input, snap, n) == KeptRows(v', l, input, snap, n)
  {
    if n > 0 {
      SameDrops(v, v', l, input, snap, n - 1);
      assert input[n - 1] in input;
    }
  }

  lemma FlushIsFlush(s: State, p: nat, meta: FileMeta, s': State)
    requires Inv(s) && IsFlushStep(s, p, meta, s')
    ensures IsFlush(s.tables, s.levels, s.imm.value, meta, p, s'.tables, s'.manifest[|s'.manifest| - 1], s'.levels)
    ensures forall l, f :: 0 <= l < |s.levels| ==> (f in s'.levels[l] <==> f in s.levels[l] || (l == p && f == meta))
  {
    var edit := s'.manifest[|s'.manifest| - 1];
    forall l, f | 0 <= l < |s.levels| && f in s.levels[l]
      ensures f.number < meta.number && Newer(s.imm.value, Rows(s.tables, f))
    {
      assert ValidFile(s.tables, f);
    }
    forall l, f | 0 <= l < |s.levels| ensures f in s'.levels[l] <==> f in s.levels[l] || (l == p && f == meta) {
      EditMembers(s.levels, edit, s'.levels, l, f);
    }
  }

  /** The version grows by one file that is newer than everything and overlaps no file it passed. */
  ghost predicate GrowsBy(c: Job, p: nat, meta: FileMeta, c': Job) {
    && c' == c.(t := c'.t, v := c'.v, above := c'.above) && |c'.v| == |c.v|
    && (forall l, f :: 0 <= l < |c.v| ==> (f in c'.v[l] <==> f in c.v[l] || (l == p && f == meta)))
    && Extends(c.t, c'.t) && meta.number !in c.t
    && (forall l, f :: 0 <= l < |c.v| && f in c.v[l] ==> Newer(Rows(c'.t, meta), Rows(c.t, f)))
    && (p > 0 ==> forall l, f :: 0 <= l <= p && l < |c.v| && f in c.v[l] ==>
          !Overlaps(f, Some(meta.smallest.user), Some(meta.largest.user)))
  }

  lemma FlushKeepsInputsClosed(c: Job, p: nat, meta: FileMeta, c': Job)
    requires ValidVersion(c.t, c.v) && InputsClosed(c) && GrowsBy(c, p, meta, c')
    ensures InputsClosed(c')
  {
    forall f, g | f in c'.v[c.l] && f !in c.in0 && g in c.in0 ensures NewerFile(c'.t, f, g) {
      assert ValidFile(c.t, g);
      OldFileStays(c.t, c'.t, g);
      if f != meta {
        assert ValidFile(c.t, f);
        OldFileStays(c.t, c'.t, f);
        assert NewerFile(c.t, f, g);
      }
    }
    forall g | Newcomer(c', g) ensures ApartFromInputs(c', g) {
      NewcomerStaysApart(c, p, meta, c', g);
    }
  }

  lemma NewcomerStaysApart(c: Job, p: nat, meta: FileMeta, c': Job, g: FileMeta)
    requires ValidVersion(c.t, c.v) && InputsClosed(c) && GrowsBy(c, p, meta, c') && Newcomer(c', g)
    ensures ApartFromInputs(c', g)
  {
    if g in c.v[c.l + 1] {
      assert Newcomer(c, g);
    } else {
      assert g == meta && p == c.l + 1;
      forall f | f in c.in0 || f in c.in1 ensures KeysApart(f, g) {
        assert f in c.v[c.l] || f in c.v[p];
        assert !Overlaps(f, Some(meta.smallest.user), Some(meta.largest.user));
      }
    }
  }

  lemma FlushKeepsMerge(c: Job, p: nat, meta: FileMeta, c': Job)
    requires ValidVersion(c.t, c.v) && InputsClosed(c) && IsMergeOf(c) && GrowsBy(c, p, meta, c')
    ensures IsMergeOf(c')
  {
    forall f | f in c.in0 || f in c.in1 ensures Rows(c'.t, f) == Rows(c.t, f) {
      assert f in c.v[c.l] || f in c.v[c.l + 1];
      assert ValidFile(c.t, f);
      OldFileStays(c.t, c'.t, f);
    }
  }

  lemma FlushKeepsBaseLevel(c: Job, p: nat, meta: FileMeta, c': Job, e: Entry)
    requires ValidVersion(c.t, c.v) && InputsClosed(c) && IsMergeOf(c) && GrowsBy(c, p, meta, c') && e in c.input
    ensures IsBaseLevel(c.v, c.l, e.key.user) <==> IsBaseLevel(c'.v, c.l, e.key.user)
  {
    var m, f := InputHasFile(c, e);
    assert ValidFile(c.t, f);
    RowInBounds(c.t, f, e);
    assert p >= c.l + 2 ==> !Overlaps(f, Some(meta.smallest.user), Some(meta.largest.user));
  }

  /** A compaction running while a memtable is flushed keeps meaning the same. */
  lemma FlushKeepsJob(s: State, p: nat, meta: FileMeta, s': State)
    requires Inv(s) && s.job.Some? && IsFlushStep(s, p, meta, s')
    requires ValidVersion(s'.tables, s'.levels) && MemTablesValid(s') && MemTablesNewer(s')
    ensures JobValid(s')
  {
    AboveFacts(s');
    FlushGrowsJob(s, p, meta, s');
    GrownJob(JobNow(s), p, meta, JobNow(s'));
  }

  lemma FlushGrowsJob(s: State, p: nat, meta: FileMeta, s': State)
    requires Inv(s) && s.job.Some? && IsFlushStep(s, p, meta, s')
    ensures s'.job == s.job && GrowsBy(JobNow(s), p, meta, JobNow(s'))
  {
    FlushIsFlush(s, p, meta, s');
  }

  lemma GrownJob(c: Job, p: nat, meta: FileMeta, c': Job)
    requires ValidVersion(c.t, c.v) && InputsClosed(c) && IsMergeOf(c) && GrowsBy(c, p, meta, c')
    ensures InputsClosed(c') && IsMergeOf(c') && Kept(c') == Kept(c)
  {
    FlushKeepsInputsClosed(c, p, meta, c');
    FlushKeepsMerge(c, p, meta, c');
    forall e | e in c.input ensures IsBaseLevel(c.v, c.l, e.key.user) <==> IsBaseLevel(c'.v, c.l, e.key.user) {
      FlushKeepsBaseLevel(c, p, meta, c', e);
    }
    SameDrops(c.v, c'.v, c.l, c.input, c.snap, |c.input|);
  }

  lemma FlushKeepsInv(s: State, p: nat, meta: FileMeta, s': State)
    requires Inv(s) && IsFlushStep(s, p, meta, s')
    ensures Inv(s') && Everything(s') == Everything(s)
  {
    FlushedVersion(s, p, meta, s');
    FlushedManifest(s, p, meta, s');
    FlushedMemTable(s, p, meta, s');
    if s.job.Some? {
      FlushKeepsJob(s, p, meta, s');
    }
    StampedCounters(s');
  }

  lemma FlushedVersion(s: State, p: nat, meta: FileMeta, s': State)
    requires Inv(s) && IsFlushStep(s, p, meta, s')
    ensures ValidVersion(s'.tables, s'.levels) && AllOrdered(s'.levels) && Everything(s') == Everything(s)
  {
    FlushIsFlush(s, p, meta, s');
    FlushKeepsValid(s.tables, s.levels, s.imm.value, meta, p, s'.tables, s'.manifest[|s'.manifest| - 1], s'.levels);
  }

  lemma FlushedManifest(s: State, p: nat, meta: FileMeta, s': State)
    requires Inv(s) && IsFlushStep(s, p, meta, s')
    ensures ManifestValid(s') && NumbersBounded(s') && NeverDeeper(s')
  {
    ManifestStep(s, {}, [(p, meta)], s');
    FlushedNumbers(s, p, meta, s');
  }

  lemma FlushedMemTable(s: State, p: nat, meta: FileMeta, s': State)
    requires Inv(s) && IsFlushStep(s, p, meta, s')
    ensures MemTablesValid(s') && MemTablesNewer(s')
  {
    FlushIsFlush(s, p, meta, s');
    forall l, f | 0 <= l < |s'.levels| && f in s'.levels[l] ensures Newer(s'.mem, Rows(s'.tables, f)) {
      if f in s.levels[l] {
        assert ValidFile(s.tables, f);
        OldFileStays(s.tables, s'.tables, f);
        assert Newer(s.mem, Rows(s.tables, f));
      }
    }
  }

  lemma FlushedNumbers(s: State, p: nat, meta: FileMeta, s': State)
    requires Inv(s) && IsFlushStep(s, p, meta, s')
    requires AllAdds(s'.manifest) == AllAdds(s.manifest) + [(p, meta)]
    ensures NumbersBounded(s') && NeverDeeper(s')
  {
    FlushIsFlush(s, p, meta, s');
    assert [(p, meta)][0] == (p, meta);
    AddsUnderFreshNumbers(s, [(p, meta)], s');
  }

  // ----- compaction ----------------------------------------------------------------------------------------

  lemma StartKeepsInv(s: State, run: Running, s': State)
    requires Inv(s) && IsStartStep(s, run, s')
    ensures Inv(s') && Everything(s') == Everything(s)
  {
    SelectedIsClosed(JobNow(s'));
    AboveFacts(s');
  }

  /** Installing a compaction keeps the invariant if and only if no output overlaps a file flushed meanwhile. */
  lemma InstallKeepsInvIff(s: State, parts: seq<seq<Entry>>, outs: seq<FileMeta>, s': State)
    requires Inv(s) && IsInstallStep(s, parts, outs, s')
    ensures Inv(s') <==> ClearOfFlushes(s, outs)
  {
    var edit := s'.manifest[|s'.manifest| - 1];
    assert IsCompaction(JobNow(s), parts, outs, s'.tables, edit, s'.levels);
    CompactionKeepsValidIff(JobNow(s), parts, outs, s'.tables, edit, s'.levels);
    if ClearOfFlushes(s, outs) {
      CompactionKeepsValid(JobNow(s), parts, outs, s'.tables, edit, s'.levels);
      InstalledManifest(s, parts, outs, s');
      InstalledRows(s, parts, outs, s');
      StampedCounters(s');
    }
  }

  lemma InstalledEntries(s: State, parts: seq<seq<Entry>>, outs: seq<FileMeta>, s': State)
    requires Inv(s) && IsInstallStep(s, parts, outs, s')
    ensures Everything(s') == After(JobNow(s))
  {
    var edit := s'.manifest[|s'.manifest| - 1];
    assert IsCompaction(JobNow(s), parts, outs, s'.tables, edit, s'.levels);
    CompactedEntries(JobNow(s), parts, outs, s'.tables, edit, s'.levels);
  }

  lemma InstalledManifest(s: State, parts: seq<seq<Entry>>, outs: seq<FileMeta>, s': State)
    requires Inv(s) && IsInstallStep(s, parts, outs, s')
    ensures ManifestValid(s') && NumbersBounded(s') && NeverDeeper(s')
  {
    var adds := OutputAdds(s.job.value.l + 1, outs);
    InstalledLog(s, parts, outs, s');
    OutputsAreFresh(s, s.job.value.l + 1, outs);
    AddsUnderFreshNumbers(s, adds, s');
  }

  lemma InstalledLog(s: State, parts: seq<seq<Entry>>, outs: seq<FileMeta>, s': State)
    requires Inv(s) && IsInstallStep(s, parts, outs, s')
    ensures var adds := OutputAdds(s.job.value.l + 1, outs);
            && ManifestValid(s') && AllAdds(s'.manifest) == AllAdds(s.manifest) + adds && |s'.levels| == |s.levels|
            && forall m, g :: 0 <= m < |s.levels| && g in s'.levels[m] ==> g in s.levels[m] || (m, g) in adds
  {
    OutputsAreFresh(s, s.job.value.l + 1, outs);
    ManifestStep(s, InputPairs(JobNow(s)), OutputAdds(s.job.value.l + 1, outs), s');
    OnlyAdded(s.levels, s'.manifest[|s'.manifest| - 1], s'.levels);
  }

  lemma OutputsAreFresh(s: State, level: nat, outs: seq<FileMeta>)
    requires NumbersBounded(s) && forall i :: 0 <= i < |outs| ==> outs[i].number == s.nextFile + i
    ensures FreshOrDeeper(s, OutputAdds(level, outs))
    ensures forall i :: 0 <= i < |outs| ==> OutputAdds(level, outs)[i].1.number == s.nextFile + i
  {
  }

  lemma OnlyAdded(v: Levels, edit: VersionEdit, v': Levels)
    requires Applied(v, edit, v')
    ensures forall m, g :: 0 <= m < |v| && g in v'[m] ==> g in v[m] || (m, g) in edit.newFiles
  {
    forall m, g | 0 <= m < |v| && g in v'[m] ensures g in v[m] || (m, g) in edit.newFiles {
      EditMembers(v, edit, v', m, g);
    }
  }

  /** Additions under new numbers leave the bookkeeping of numbers intact. */
  lemma AddsUnderFreshNumbers(s: State, adds: seq<(nat, FileMeta)>, s': State)
    requires ValidVersion(s.tables, s.levels) && NumbersBounded(s) && NeverDeeper(s) && |s'.levels| == |s.levels|
    requires forall i :: 0 <= i < |adds| ==> s.nextFile <= adds[i].1.number < s'.nextFile
    requires forall i, j :: 0 <= i < j < |adds| ==> adds[i].1.number != adds[j].1.number
    requires s.nextFile <= s'.nextFile && forall n :: n in s'.tables ==> n < s'.nextFile
    requires AllAdds(s'.manifest) == AllAdds(s.manifest) + adds
    requires forall m, g :: 0 <= m < |s.levels| && g in s'.levels[m] ==> g in s.levels[m] || (m, g) in adds
    ensures NumbersBounded(s') && NeverDeeper(s')
  {
    var before, all := AllAdds(s.manifest), AllAdds(s'.manifest);
    forall i | 0 <= i < |all| ensures all[i] == (if i < |before| then before[i] else adds[i - |before|]) {
    }
    forall m, g, i | 0 <= m < |s'.levels| && g in s'.levels[m] && 0 <= i < |all| && all[i].1.number == g.number
      ensures all[i].0 <= m
    {
      AddedNotDeeper(s, adds, m, g, all[i]);
    }
  }

  lemma AddedNotDeeper(s: State, adds: seq<(nat, FileMeta)>, m: nat, g: FileMeta, a: (nat, FileMeta))
    requires ValidVersion(s.tables, s.levels) && NumbersBounded(s) && NeverDeeper(s) && m < |s.levels|
    requires forall i :: 0 <= i < |adds| ==> s.nextFile <= adds[i].1.number
    requires forall i, j :: 0 <= i < j < |adds| ==> adds[i].1.number != adds[j].1.number
    requires (g in s.levels[m] || (m, g) in adds) && (a in AllAdds(s.manifest) || a in adds) && a.1.number == g.number
    ensures a.0 <= m
  {
    assert g in s.levels[m] ==> ValidFile(s.tables, g);
    if a in adds {
      assert (m, g) in adds;
    } else {
      var i :| 0 <= i < |AllAdds(s.manifest)| && AllAdds(s.manifest)[i] == a;
      assert g in s.levels[m];
    }
  }

  lemma InstalledRows(s: State, parts: seq<seq<Entry>>, outs: seq<FileMeta>, s': State)
    requires Inv(s) && IsInstallStep(s, parts, outs, s')
    ensures MemTablesNewer(s') && SequencesBounded(s')
  {
    var edit := s'.manifest[|s'.manifest| - 1];
    assert IsCompaction(JobNow(s), parts, outs, s'.tables, edit, s'.levels);
    forall e | e in VersionEntries(s'.tables, s'.levels) ensures e in VersionEntries(s.tables, s.levels) {
      CompactedRow(JobNow(s), parts, outs, s'.tables, edit, s'.levels, e);
    }
    FewerRows(s, s');
  }

  lemma FewerRows(s: State, s': State)
    requires MemTablesValid(s) && MemTablesNewer(s) && SequencesBounded(s)
    requires s'.mem == s.mem && s'.imm == s.imm && s'.lastSequence == s.lastSequence && s'.snapshots == s.snapshots
    requires VersionEntries(s'.tables, s'.levels) <= VersionEntries(s.tables, s.levels)
    ensures MemTablesNewer(s') && SequencesBounded(s')
  {
    AboveFacts(s);
    forall l, f | 0 <= l < |s'.levels| && f in s'.levels[l]
      ensures Newer(s'.mem, Rows(s'.tables, f)) && (s'.imm.Some? ==> Newer(s'.imm.value, Rows(s'.tables, f)))
    {
      forall e | e in Rows(s'.tables, f) ensures e in VersionEntries(s.tables, s.levels) {
        VersionRow(s'.tables, s'.levels, l, f, e);
      }
    }
  }

  /** Compaction invents no rows. */
  lemma CompactedRow(c: Job, parts: seq<seq<Entry>>, outs: seq<FileMeta>, t': Tables, edit: VersionEdit, v': Levels, e: Entry)
    requires Compacting(c) && IsCompaction(c, parts, outs, t', edit, v') && e in VersionEntries(t', v')
    ensures e in VersionEntries(c.t, c.v)
  {
    var m, f :| InVersion(t', v', m, f, e);
    CompactedMembers(c, parts, outs, t', edit, v', m, f);
    if Stays(c, m, f) {
      assert ValidFile(c.t, f);
      OldFileStays(c.t, t', f);
      assert InVersion(c.t, c.v, m, f, e);
    } else {
      var i :| 0 <= i < |outs| && outs[i] == f;
      OutputRow(c, parts, i, e);
      VersionSplits(c, e);
    }
  }
}
