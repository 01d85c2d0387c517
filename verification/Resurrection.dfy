/** A run after which a deleted key is back. Every flush goes to the level the code picks, and every compaction takes the
    files the code takes. */
module Resurrection {
  import opened Sequences
  import opened DbFormat
  import opened Versions
  import opened CompactionInputs
  import opened CompactionLoop
  import opened CompactionMeaning
  import opened VersionBuilder
  import opened VersionSteps
  import opened Store
  import opened StoreRuns
  import opened ReachableStates

  const A: UserKey := 1.0
  const U: UserKey := 2.0

  const A_1 := Row(A, 1)
  const A_2 := Row(A, 2)
  const U_3 := Row(U, 3)
  const TOMBSTONE := Entry(InternalKey(U, 4, Deletion), "")
  const A_5 := Row(A, 5)

  const BELOW := File(3, A_1)
  const FLUSHED := FileMeta(5, 100, A_2.key, U_3.key)
  const FIRST := FileMeta(6, 100, A_2.key, TOMBSTONE.key)
  const SECOND := FileMeta(7, 100, U_3.key, U_3.key)
  const UPPER := File(9, A_5)
  const OUTPUT := File(10, A_5)

  const V1: Levels := [[], [], [BELOW], [], [], [], []]
  const V2: Levels := [[], [FLUSHED], [BELOW], [], [], [], []]
  const V3: Levels := [[], [], [FIRST, SECOND], [], [], [], []]
  const V4: Levels := [[], [UPPER], [FIRST, SECOND], [], [], [], []]
  const V5: Levels := [[], [], [OUTPUT, SECOND], [], [], [], []]

  const T1: Tables := map[3 := [A_1]]
  const T2: Tables := T1[5 := [A_2, TOMBSTONE, U_3]]
  const T3: Tables := T2[6 := [A_2, TOMBSTONE]][7 := [U_3]]
  const T4: Tables := T3[9 := [A_5]]

  // ----- up to the snapshot ------------------------------------------------------------------------------------

  lemma FlushBelow() returns (s: State)
    ensures At(s, V1, T1, None, 1, 4)
  {
    assert Init(EMPTY);
    ReachInit(EMPTY);
    assert Fits(NO_FILES, 2, BELOW, V1);
    s := PutFile(EMPTY, NO_FILES, map[], None, A_1, BELOW, 2, V1);
  }

  /** After A was flushed, A and U are written, and a snapshot is taken. */
  lemma WriteBoth(s: State) returns (s': State)
    requires At(s, V1, T1, None, 1, 4)
    ensures Reachable(s') && s' == State([A_2, U_3], None, T1, V1, 3, 4, [3], None, s'.manifest)
  {
    var batch := [Update(A, Put, "v"), Update(U, Put, "v")];
    assert NewRows(batch, 1) == [A_2, U_3];
    var s1 := ReachWrite(s, batch, [A_2, U_3]);
    s' := s1.(snapshots := [3]);
    ReachStep(s1, TakeSnapshot, s');
  }

  /** U is deleted, and the memtable flushed. Level 2 holds A, so it goes to level 1. */
  lemma DeleteAndFlush(s: State) returns (s': State)
    requires Reachable(s) && s == State([A_2, U_3], None, T1, V1, 3, 4, [3], None, s.manifest)
    ensures Reachable(s') && s' == State([], None, T2, V2, 4, 6, [3], None, s'.manifest)
  {
    var s1 := DeleteU(s);
    var s2 := ReachSwitch(s1);
    assert FlushMeta(s2) == FLUSHED;
    NoDeeper(V1, 1, BELOW, A, U);
    assert V1[1 := [FLUSHED]] == V2;
    s' := ReachFlush(s2, 1, [FLUSHED]);
  }

  lemma DeleteU(s: State) returns (s': State)
    requires Reachable(s) && s == State([A_2, U_3], None, T1, V1, 3, 4, [3], None, s.manifest)
    ensures Reachable(s') && s' == State([A_2, TOMBSTONE, U_3], None, T1, V1, 4, 4, [3], None, s'.manifest)
  {
    var batch := [Update(U, Deletion, "")];
    assert NewRows(batch, 3) == [TOMBSTONE];
    s' := ReachWrite(s, batch, [A_2, TOMBSTONE, U_3]);
  }

  // ----- the first compaction ----------------------------------------------------------------------------------

  const INPUT_1: seq<Entry> := [A_2, A_1, TOMBSTONE, U_3]
  const KEPT_1: seq<Entry> := [A_2, TOMBSTONE, U_3]
  const RUN_1 := Running(1, [FLUSHED], [BELOW], INPUT_1, 3, KEPT_1)
  const EDIT_1 := Stamp(EMPTY_EDIT.(deletedFiles := {(1, 5), (2, 3)}, newFiles := [(2, FIRST), (2, SECOND)]), 0, 8, 4)

  lemma SelectFirst()
    ensures Selected(V2, 1, RUN_1.in0, RUN_1.in1)
  {
    assert FLUSHED in RUN_1.in0;
    assert TouchesHull(RUN_1.in0, BELOW);
  }

  /** The snapshot keeps the deleted value, and the deletion itself is too new to go. */
  lemma KeepFirst()
    ensures KeptRows(V2, 1, INPUT_1, 3, 4) == KEPT_1
  {
    assert KeptRows(V2, 1, INPUT_1, 3, 0) == [];
    assert KeptRows(V2, 1, INPUT_1, 3, 1) == [A_2];
    assert KeptRows(V2, 1, INPUT_1, 3, 2) == [A_2];
    assert KeptRows(V2, 1, INPUT_1, 3, 3) == [A_2] + [TOMBSTONE];
  }

  lemma MergeFirst(c: Job)
    requires c.t == T2 && c.in0 == RUN_1.in0 && c.in1 == RUN_1.in1 && c.input == INPUT_1
    ensures IsMergeOf(c)
  {
    assert Rows(T2, FLUSHED) == [A_2, TOMBSTONE, U_3] && Rows(T2, BELOW) == [A_1];
    assert FLUSHED in c.in0 && BELOW in c.in1;
    forall e ensures e in INPUT_1 <==> exists f :: (f in c.in0 || f in c.in1) && e in Rows(c.t, f) {
      if e in INPUT_1 {
        assert e in Rows(c.t, FLUSHED) || e in Rows(c.t, BELOW);
      }
    }
  }

  lemma StartFirst(s: State) returns (s': State)
    requires Reachable(s) && s == State([], None, T2, V2, 4, 6, [3], None, s.manifest)
    ensures Reachable(s') && s' == State([], None, T2, V2, 4, 6, [3], Some(RUN_1), s'.manifest)
  {
    s' := s.(job := Some(RUN_1));
    SelectFirst();
    KeepFirst();
    MergeFirst(JobNow(s'));
    ReachStep(s, StartCompaction(RUN_1), s');
  }

  lemma EditFirst(c: Job)
    requires c.v == V2 && c.l == 1 && c.in0 == RUN_1.in0 && c.in1 == RUN_1.in1
    ensures EDIT_1.deletedFiles == InputPairs(c) && EDIT_1.newFiles == OutputAdds(2, [FIRST, SECOND])
    ensures Applied(V2, EDIT_1, V3)
  {
    assert (set f | f in c.in0 :: (c.l, f.number)) == {(1, 5)} by {
      assert FLUSHED in c.in0;
    }
    assert (set f | f in c.in1 :: (c.l + 1, f.number)) == {(2, 3)} by {
      assert BELOW in c.in1;
    }
    assert EDIT_1.newFiles[0] == (2, FIRST) && EDIT_1.newFiles[1] == (2, SECOND);
    AppliedByMembers(V2, EDIT_1, V3);
  }

  /** The file is closed between the deletion and the value it deletes. */
  lemma CutFirst(parts: seq<seq<Entry>>)
    requires parts == [[A_2, TOMBSTONE], [U_3]]
    ensures Flatten(parts) == KEPT_1
  {
    assert parts[..1] == [[A_2, TOMBSTONE]] && parts[..1][..0] == [];
    assert Flatten(parts[..1][..0]) == [];
    assert Flatten(parts[..1]) == [A_2, TOMBSTONE];
  }

  lemma InstallFirst(s: State) returns (s': State)
    requires Reachable(s) && s == State([], None, T2, V2, 4, 6, [3], Some(RUN_1), s.manifest)
    ensures Reachable(s') && s' == State([], None, T3, V3, 4, 8, [3], None, s'.manifest)
  {
    var parts, outs := [[A_2, TOMBSTONE], [U_3]], [FIRST, SECOND];
    StoreFirst(parts, outs);
    InstallsFirst(JobNow(s), parts, outs);
    s' := ReachInstall(s, parts, outs, T3, EDIT_1, V3);
  }

  lemma InstallsFirst(c: Job, parts: seq<seq<Entry>>, outs: seq<FileMeta>)
    requires c.t == T2 && c.v == V2 && c.l == 1 && c.in0 == RUN_1.in0 && c.in1 == RUN_1.in1
    requires parts == [[A_2, TOMBSTONE], [U_3]] && outs == [FIRST, SECOND]
    ensures Installs(c, KEPT_1, parts, outs, T3, EDIT_1, V3) && forall g :: !Newcomer(c, g)
  {
    EditFirst(c);
    CutFirst(parts);
    StoreFirst(parts, outs);
    assert BELOW in c.in1;
  }

  lemma StoreFirst(parts: seq<seq<Entry>>, outs: seq<FileMeta>)
    requires parts == [[A_2, TOMBSTONE], [U_3]] && outs == [FIRST, SECOND]
    ensures Describes(parts, outs) && StoredAs(T2, parts, outs, T3)
    ensures forall n :: n in T3 ==> n < 8
  {
  }

  // ----- the second compaction ---------------------------------------------------------------------------------

  /** The snapshot is released, and A is written and flushed again, to level 1. */
  lemma WriteAgain(s: State) returns (s': State)
    requires Reachable(s) && s == State([], None, T3, V3, 4, 8, [3], None, s.manifest)
    ensures At(s', V4, T4, None, 5, 10)
  {
    var s1 := s.(snapshots := []);
    assert s.snapshots[..0] + s.snapshots[1..] == [];
    ReachStep(s, ReleaseSnapshot(0), s1);
    NoDeeper(V3, 1, FIRST, A, A);
    assert Fits(V3, 1, UPPER, V4);
    s' := PutFile(s1, V3, T3, None, A_5, UPPER, 1, V4);
  }

  const INPUT_2: seq<Entry> := [A_5, A_2, TOMBSTONE]
  const KEPT_2: seq<Entry> := [A_5]
  const RUN_2 := Running(1, [UPPER], [FIRST], INPUT_2, 5, KEPT_2)
  const EDIT_2 := Stamp(EMPTY_EDIT.(deletedFiles := {(1, 9), (2, 6)}, newFiles := [(2, OUTPUT)]), 0, 11, 5)

  lemma SelectSecond()
    ensures Selected(V4, 1, RUN_2.in0, RUN_2.in1)
  {
    assert UPPER in RUN_2.in0;
    assert TouchesHull(RUN_2.in0, FIRST) && !TouchesHull(RUN_2.in0, SECOND);
  }

  lemma OnlyFile(fs: seq<FileMeta>, f: FileMeta)
    requires fs != [] && NoDup(fs) && forall g :: g in fs ==> g == f
    ensures fs == [f]
  {
    var last := |fs| - 1;
    assert fs[0] in fs && fs[last] in fs;
    assert fs[0] == fs[last] && !(0 < last);
  }

  /** The selection is the only one the code can make for the single file of level 1. */
  lemma SelectionIsForced(in0: seq<FileMeta>, in1: seq<FileMeta>)
    requires Selected(V4, 1, in0, in1)
    ensures in0 == RUN_2.in0 && in1 == RUN_2.in1
  {
    OnlyFile(in0, UPPER);
    assert TouchesHull(in0, FIRST) && !TouchesHull(in0, SECOND) by {
      assert UPPER.smallest.user <= FIRST.largest.user && FIRST.smallest.user <= UPPER.largest.user;
    }
    assert FIRST in in1;
    OnlyFile(in1, FIRST);
  }

  /** Nothing below level 2 holds U, so the deletion goes. */
  lemma KeepSecond()
    ensures KeptRows(V4, 1, INPUT_2, 5, 3) == KEPT_2
  {
    assert KeptRows(V4, 1, INPUT_2, 5, 0) == [];
    assert KeptRows(V4, 1, INPUT_2, 5, 1) == [A_5];
    assert KeptRows(V4, 1, INPUT_2, 5, 2) == [A_5];
  }

  lemma MergeSecond(c: Job)
    requires c.t == T4 && c.in0 == RUN_2.in0 && c.in1 == RUN_2.in1 && c.input == INPUT_2
    ensures IsMergeOf(c)
  {
    assert Rows(T4, UPPER) == [A_5] && Rows(T4, FIRST) == [A_2, TOMBSTONE];
    assert UPPER in c.in0 && FIRST in c.in1;
    forall e ensures e in INPUT_2 <==> exists f :: (f in c.in0 || f in c.in1) && e in Rows(c.t, f) {
      if e in INPUT_2 {
        assert e in Rows(c.t, UPPER) || e in Rows(c.t, FIRST);
      }
    }
  }

  lemma StartSecond(s: State) returns (s': State)
    requires At(s, V4, T4, None, 5, 10)
    ensures At(s', V4, T4, Some(RUN_2), 5, 10)
  {
    s' := s.(job := Some(RUN_2));
    SelectSecond();
    KeepSecond();
    MergeSecond(JobNow(s'));
    ReachStep(s, StartCompaction(RUN_2), s');
  }

  lemma EditSecond(c: Job)
    requires c.v == V4 && c.l == 1 && c.in0 == RUN_2.in0 && c.in1 == RUN_2.in1
    ensures EDIT_2.deletedFiles == InputPairs(c) && EDIT_2.newFiles == OutputAdds(2, [OUTPUT])
    ensures Applied(V4, EDIT_2, V5)
  {
    assert (set f | f in c.in0 :: (c.l, f.number)) == {(1, 9)} by {
      assert UPPER in c.in0;
    }
    assert (set f | f in c.in1 :: (c.l + 1, f.number)) == {(2, 6)} by {
      assert FIRST in c.in1;
    }
    assert EDIT_2.newFiles[0] == (2, OUTPUT);
    AppliedByMembers(V4, EDIT_2, V5);
  }

  lemma StoreSecond(parts: seq<seq<Entry>>, outs: seq<FileMeta>, t: Tables)
    requires parts == [KEPT_2] && outs == [OUTPUT] && t == T4[10 := KEPT_2]
    ensures Flatten(parts) == KEPT_2 && Describes(parts, outs) && StoredAs(T4, parts, outs, t)
    ensures forall n :: n in t ==> n < 11
  {
    assert parts[..0] == [] && Flatten(parts[..0]) == [];
  }

  lemma InstallSecond(s: State) returns (s': State)
    requires At(s, V4, T4, Some(RUN_2), 5, 10)
    ensures Step(s, Action.InstallCompaction([KEPT_2], [OUTPUT]), s')
  {
    var parts, outs, t := [KEPT_2], [OUTPUT], T4[10 := KEPT_2];
    StoreSecond(parts, outs, t);
    InstallsSecond(JobNow(s), parts, outs, t);
    s' := ReachInstall(s, parts, outs, t, EDIT_2, V5);
  }

  lemma InstallsSecond(c: Job, parts: seq<seq<Entry>>, outs: seq<FileMeta>, t: Tables)
    requires c.t == T4 && c.v == V4 && c.l == 1 && c.in0 == RUN_2.in0 && c.in1 == RUN_2.in1
    requires parts == [KEPT_2] && outs == [OUTPUT] && t == T4[10 := KEPT_2]
    ensures Installs(c, KEPT_2, parts, outs, t, EDIT_2, V5) && forall g :: !Newcomer(c, g)
  {
    EditSecond(c);
    StoreSecond(parts, outs, t);
    assert FIRST in c.in1 && !TouchesHull(c.in0, SECOND);
  }

  lemma TombstoneIsNewest(s: State)
    requires At(s, V4, T4, Some(RUN_2), 5, 10)
    ensures IsNewest(Everything(s), U, 5, TOMBSTONE)
  {
    assert TOMBSTONE in Rows(T4, FIRST);
    assert InVersion(T4, V4, 2, FIRST, TOMBSTONE);
    forall x | x in Everything(s) && x.key.user == U ensures x.key.seqno <= 4 {
      var l, f :| InVersion(T4, V4, l, f, x);
      RowOfVersion(l, f, x);
    }
  }

  lemma RowOfVersion(l: int, f: FileMeta, x: Entry)
    requires InVersion(T4, V4, l, f, x)
    ensures x == A_5 || x == A_2 || x == TOMBSTONE || x == U_3
  {
    assert Rows(T4, UPPER) == [A_5] && Rows(T4, FIRST) == [A_2, TOMBSTONE] && Rows(T4, SECOND) == [U_3];
  }

  lemma SecondResurrects(s: State)
    requires At(s, V4, T4, Some(RUN_2), 5, 10)
    ensures ResurrectsBy(JobNow(s), 5, TOMBSTONE, SECOND)
  {
    TombstoneIsNewest(s);
    assert Before(JobNow(s)) == Everything(s);
    OnlyContinuation(JobNow(s));
  }

  lemma OnlyContinuation(c: Job)
    requires c.v == V4 && c.l == 1 && c.in1 == RUN_2.in1
    ensures Continuation(c, TOMBSTONE, SECOND) && forall h :: Continuation(c, TOMBSTONE, h) ==> h == SECOND
    ensures IsBaseLevel(c.v, c.l, U)
  {
  }

  lemma SecondCompactionRuns() returns (s: State)
    ensures At(s, V4, T4, Some(RUN_2), 5, 10)
  {
    var s1 := FlushBelow();
    var s2 := WriteBoth(s1);
    var s3 := DeleteAndFlush(s2);
    var s4 := StartFirst(s3);
    var s5 := InstallFirst(s4);
    var s6 := WriteAgain(s5);
    s := StartSecond(s6);
  }

  /** The whole story, step by step from a fresh database: before the last step U reads as deleted, after it the old
      value is back. */
  lemma DeletedKeyComesBack() returns (s: State, s': State)
    ensures Reachable(s) && s.levels == V4 && s.job == Some(RUN_2)
    ensures Step(s, Action.InstallCompaction([KEPT_2], [OUTPUT]), s')
    ensures BringsBack(s, Action.InstallCompaction([KEPT_2], [OUTPUT]))
    ensures View(Everything(s), U, s.lastSequence) == None && View(Everything(s'), U, s.lastSequence).Some?
  {
    s := SecondCompactionRuns();
    s' := InstallSecond(s);
    ReachableInv(s);
    SecondResurrects(s);
    InstallRevives(s, [KEPT_2], [OUTPUT], s', TOMBSTONE, SECOND);
  }
}
