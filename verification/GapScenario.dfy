/** A run in which a manual compaction and a flush leave two overlapping files in one level. Every flush goes to the
    level the code picks, and the compaction takes the files DBImpl::CompactRange over the whole key range takes. */
module GapScenario {
  import opened Sequences
  import opened DbFormat
  import opened Versions
  import opened CompactionInputs
  import opened CompactionLoop
  import opened CompactionMeaning
  import opened VersionBuilder
  import opened VersionSteps
  import opened Store
  import opened StoreInvariant
  import opened ReachableStates

  const LEFT_1 := Row(1.0, 1)
  const RIGHT_2 := Row(9.0, 2)
  const LEFT_3 := Row(1.0, 3)
  const RIGHT_4 := Row(9.0, 4)
  const MIDDLE_5 := Row(5.0, 5)

  const LEFT_BELOW := File(3, LEFT_1)
  const RIGHT_BELOW := File(5, RIGHT_2)
  const LEFT := File(7, LEFT_3)
  const RIGHT := File(9, RIGHT_4)
  const MIDDLE := File(11, MIDDLE_5)
  const OUTPUT := FileMeta(12, 100, LEFT_3.key, RIGHT_4.key)

  const ONE_BELOW: Levels := [[], [], [LEFT_BELOW], [], [], [], []]
  const TWO_BELOW: Levels := [[], [], [LEFT_BELOW, RIGHT_BELOW], [], [], [], []]
  const ONE_ABOVE: Levels := [[], [LEFT], [LEFT_BELOW, RIGHT_BELOW], [], [], [], []]
  const START: Levels := [[], [LEFT, RIGHT], [LEFT_BELOW, RIGHT_BELOW], [], [], [], []]

  const START_TABLES: Tables := map[3 := [LEFT_1]][5 := [RIGHT_2]][7 := [LEFT_3]][9 := [RIGHT_4]]

  lemma LeftBelowFits()
    ensures Fits(NO_FILES, 2, LEFT_BELOW, ONE_BELOW)
  {
  }

  lemma FlushLeftBelow(s: State, t: Tables) returns (s': State)
    requires At(s, NO_FILES, t, None, LEFT_1.key.seqno - 1, LEFT_BELOW.number - 1)
    ensures At(s', ONE_BELOW, t[LEFT_BELOW.number := [LEFT_1]], None, LEFT_1.key.seqno, LEFT_BELOW.number + 1)
  {
    LeftBelowFits();
    s' := PutFile(s, NO_FILES, t, None, LEFT_1, LEFT_BELOW, 2, ONE_BELOW);
  }

  lemma RightBelowFits()
    ensures Fits(ONE_BELOW, 2, RIGHT_BELOW, TWO_BELOW)
  {
  }

  lemma FlushRightBelow(s: State, t: Tables) returns (s': State)
    requires At(s, ONE_BELOW, t, None, RIGHT_2.key.seqno - 1, RIGHT_BELOW.number - 1)
    ensures At(s', TWO_BELOW, t[RIGHT_BELOW.number := [RIGHT_2]], None, RIGHT_2.key.seqno, RIGHT_BELOW.number + 1)
  {
    RightBelowFits();
    s' := PutFile(s, ONE_BELOW, t, None, RIGHT_2, RIGHT_BELOW, 2, TWO_BELOW);
  }

  lemma LeftFits()
    ensures Fits(TWO_BELOW, 1, LEFT, ONE_ABOVE)
  {
    NoDeeper(TWO_BELOW, 1, LEFT_BELOW, 1.0, 1.0);
  }

  lemma FlushLeft(s: State, t: Tables) returns (s': State)
    requires At(s, TWO_BELOW, t, None, LEFT_3.key.seqno - 1, LEFT.number - 1)
    ensures At(s', ONE_ABOVE, t[LEFT.number := [LEFT_3]], None, LEFT_3.key.seqno, LEFT.number + 1)
  {
    LeftFits();
    s' := PutFile(s, TWO_BELOW, t, None, LEFT_3, LEFT, 1, ONE_ABOVE);
  }

  lemma RightFits()
    ensures Fits(ONE_ABOVE, 1, RIGHT, START)
  {
    NoDeeper(ONE_ABOVE, 1, RIGHT_BELOW, 9.0, 9.0);
  }

  lemma FlushRight(s: State, t: Tables) returns (s': State)
    requires At(s, ONE_ABOVE, t, None, RIGHT_4.key.seqno - 1, RIGHT.number - 1)
    ensures At(s', START, t[RIGHT.number := [RIGHT_4]], None, RIGHT_4.key.seqno, RIGHT.number + 1)
  {
    RightFits();
    s' := PutFile(s, ONE_ABOVE, t, None, RIGHT_4, RIGHT, 1, START);
  }

  /** Keys 1 and 9 are written twice each: the first flushes go to level 2, the second ones, stopped by them, to level 1. */
  lemma FourFlushes() returns (s: State)
    ensures At(s, START, START_TABLES, None, 4, 10)
  {
    assert Init(EMPTY);
    ReachInit(EMPTY);
    var s1 := FlushLeftBelow(EMPTY, map[]);
    var s2 := FlushRightBelow(s1, s1.tables);
    var s3 := FlushLeft(s2, s2.tables);
    s := FlushRight(s3, s3.tables);
  }

  const INPUT: seq<Entry> := [LEFT_3, LEFT_1, RIGHT_4, RIGHT_2]
  const KEPT: seq<Entry> := [LEFT_3, RIGHT_4]
  const RUN := Running(1, [LEFT, RIGHT], [LEFT_BELOW, RIGHT_BELOW], INPUT, 4, KEPT)

  lemma StartRows()
    ensures Rows(START_TABLES, LEFT) == [LEFT_3] && Rows(START_TABLES, RIGHT) == [RIGHT_4]
    ensures Rows(START_TABLES, LEFT_BELOW) == [LEFT_1] && Rows(START_TABLES, RIGHT_BELOW) == [RIGHT_2]
  {
  }

  lemma BothAreSelected(files: seq<FileMeta>, below: seq<FileMeta>)
    requires files == [LEFT, RIGHT] && below == [LEFT_BELOW, RIGHT_BELOW]
    ensures Selected(START, 1, files, below)
  {
    assert LEFT in files && RIGHT in files;
    assert TouchesHull(files, LEFT_BELOW) && TouchesHull(files, RIGHT_BELOW);
  }

  /** A compaction of level 1 over the whole key range takes its two files, and both files below them. */
  lemma WholeRangeIsSelected()
    ensures Overlapping(START[1], None, None) == RUN.in0
    ensures Selected(START, 1, RUN.in0, RUN.in1)
  {
    var files := [LEFT, RIGHT];
    assert files[..1] == [LEFT];
    assert Overlapping(files[..1], None, None) == [] + [LEFT];
    BothAreSelected(RUN.in0, RUN.in1);
  }

  lemma KeepsNewestRows()
    ensures KeptRows(START, 1, INPUT, 4, 4) == KEPT
  {
    assert KeptRows(START, 1, INPUT, 4, 0) == [];
    assert KeptRows(START, 1, INPUT, 4, 1) == [LEFT_3];
    assert KeptRows(START, 1, INPUT, 4, 2) == [LEFT_3];
    assert KeptRows(START, 1, INPUT, 4, 3) == [LEFT_3] + [RIGHT_4];
  }

  lemma InputIsMerge(c: Job)
    requires c.t == START_TABLES && c.in0 == RUN.in0 && c.in1 == RUN.in1 && c.input == INPUT
    ensures IsMergeOf(c)
  {
    StartRows();
    assert LEFT in c.in0 && RIGHT in c.in0 && LEFT_BELOW in c.in1 && RIGHT_BELOW in c.in1;
    forall e ensures e in INPUT <==> exists f :: (f in c.in0 || f in c.in1) && e in Rows(c.t, f) {
      if e in INPUT {
        assert e in Rows(c.t, LEFT) || e in Rows(c.t, RIGHT) || e in Rows(c.t, LEFT_BELOW) || e in Rows(c.t, RIGHT_BELOW);
      }
    }
  }

  lemma StartManual(s: State) returns (s': State)
    requires At(s, START, START_TABLES, None, 4, 10)
    ensures Step(s, StartCompaction(RUN), s') && At(s', START, START_TABLES, Some(RUN), 4, 10)
  {
    s' := s.(job := Some(RUN));
    WholeRangeIsSelected();
    KeepsNewestRows();
    InputIsMerge(JobNow(s'));
    ReachStep(s, StartCompaction(RUN), s');
  }

  const FLUSHED: Levels := [[], [LEFT, RIGHT], [LEFT_BELOW, MIDDLE, RIGHT_BELOW], [], [], [], []]
  const BROKEN: Levels := [[], [], [OUTPUT, MIDDLE], [], [], [], []]

  lemma MiddleFits()
    ensures Fits(START, 2, MIDDLE, FLUSHED)
  {
  }

  /** While the compaction runs, key 5 is written and flushed. No file of levels 0 to 2 holds it, so level 2 it is. */
  lemma FlushMiddle(s: State) returns (s': State)
    requires At(s, START, START_TABLES, Some(RUN), 4, 10)
    ensures At(s', FLUSHED, START_TABLES[11 := [MIDDLE_5]], Some(RUN), 5, 12)
    ensures WrittenAndFlushed(s, [Update(5.0, Put, "v")], 2, MIDDLE, s')
  {
    MiddleFits();
    s' := PutFile(s, START, START_TABLES, Some(RUN), MIDDLE_5, MIDDLE, 2, FLUSHED);
  }

  const EDIT := Stamp(EMPTY_EDIT.(deletedFiles := {(1, 7), (1, 9), (2, 3), (2, 5)}, newFiles := [(2, OUTPUT)]), 0, 13, 5)

  lemma EditGivesBroken()
    ensures Applied(FLUSHED, EDIT, BROKEN)
  {
    assert EDIT.newFiles[0] == (2, OUTPUT);
    AppliedByMembers(FLUSHED, EDIT, BROKEN);
  }

  lemma EditOfRun(c: Job)
    requires c.l == 1 && c.in0 == RUN.in0 && c.in1 == RUN.in1
    ensures EDIT.deletedFiles == InputPairs(c) && EDIT.newFiles == OutputAdds(2, [OUTPUT])
  {
    assert (set f | f in c.in0 :: (c.l, f.number)) == {(1, 7), (1, 9)} by {
      assert LEFT in c.in0 && RIGHT in c.in0;
    }
    assert (set f | f in c.in1 :: (c.l + 1, f.number)) == {(2, 3), (2, 5)} by {
      assert LEFT_BELOW in c.in1 && RIGHT_BELOW in c.in1;
    }
  }

  lemma BrokenIsInstalled(c: Job)
    requires c.t == START_TABLES[11 := [MIDDLE_5]] && c.v == FLUSHED && c.l == 1 && c.in0 == RUN.in0 && c.in1 == RUN.in1
    ensures Installs(c, KEPT, [KEPT], [OUTPUT], c.t[12 := KEPT], EDIT, BROKEN)
  {
    EditGivesBroken();
    EditOfRun(c);
    var parts, outs := [KEPT], [OUTPUT];
    assert parts[..0] == [] && Flatten(parts[..0]) == [];
    assert Flatten(parts) == KEPT;
  }

  lemma NumbersOfBroken(t: Tables)
    requires t == START_TABLES[11 := [MIDDLE_5]][12 := KEPT]
    ensures forall n :: n in t ==> n < 13
  {
  }

  lemma InstallBroken(s: State) returns (s': State)
    requires At(s, FLUSHED, START_TABLES[11 := [MIDDLE_5]], Some(RUN), 5, 12)
    ensures IsInstallStep(s, [KEPT], [OUTPUT], s') && s'.levels == BROKEN
  {
    var parts, outs, t := [KEPT], [OUTPUT], s.tables[12 := KEPT];
    BrokenIsInstalled(JobNow(s));
    NumbersOfBroken(t);
    s' := InstallCut(s, parts, outs, t, EDIT, BROKEN);
  }

  lemma BrokenOverlaps()
    ensures !DisjointSorted(BROKEN[2])
  {
    var files := BROKEN[2];
    assert files[0] == OUTPUT && files[1] == MIDDLE;
  }

  /** The whole story: a reachable state, a manual compaction of its level 1 over the whole key range, a flush while it
      runs, and its result installed as one file. Level 2 then holds two files with keys in common. */
  lemma ManualCompactionBreaksLevel() returns (start: State, running: State, flushed: State, broken: State)
    ensures Reachable(start) && start.levels == START && Overlapping(START[1], None, None) == RUN.in0
    ensures Step(start, StartCompaction(RUN), running)
    ensures WrittenAndFlushed(running, [Update(5.0, Put, "v")], 2, MIDDLE, flushed)
    ensures Reachable(flushed) && flushed.job == Some(RUN) && flushed.levels == FLUSHED
    ensures IsInstallStep(flushed, [KEPT], [OUTPUT], broken) && !ClearOfFlushes(flushed, [OUTPUT])
    ensures broken.levels == BROKEN && !DisjointSorted(BROKEN[2]) && !Inv(broken)
  {
    start := FourFlushes();
    WholeRangeIsSelected();
    running := StartManual(start);
    flushed := FlushMiddle(running);
    broken := InstallBroken(flushed);
    ReachableInv(flushed);
    InstallKeepsInvIff(flushed, [KEPT], [OUTPUT], broken);
    BrokenOverlaps();
  }
}
