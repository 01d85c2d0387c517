/** Writers stop switching memtables while level 0 is full (DBImpl::MakeRoomForWrite in db/db_impl.cc), so that level 0
    stays bounded whatever flushes and compactions do. */
module LevelZeroLimit {
  import opened Sequences
  import opened DbFormat
  import opened Versions
  import opened CompactionMeaning
  import opened VersionBuilder
  import opened VersionSteps
  import opened Store
  import opened StoreInvariant
  import opened StoreRuns

  const STOP_WRITES_TRIGGER := 12

  /** What MakeRoomForWrite waits for before it switches memtables, forced or not. */
  predicate RoomToSwitch(s: State) {
    s.imm.None? && (s.levels != [] ==> |s.levels[0]| < STOP_WRITES_TRIGGER)
  }

  /** A step of the store in which memtables are switched only when there is room. */
  ghost predicate LimitedStep(s: State, a: Action, s': State) {
    Step(s, a, s') && (a.SwitchMemTable? ==> RoomToSwitch(s))
  }

  ghost predicate Bounded(s: State, limit: nat) {
    && s.levels != [] && |s.levels[0]| <= limit
    && (s.imm.Some? ==> |s.levels[0]| < STOP_WRITES_TRIGGER)
  }

  lemma {:induction false} SizeOfList(fs: seq<FileMeta>)
    requires Ordered(fs)
    ensures |FileSet(fs)| == |fs|
  {
    if fs == [] {
      assert FileSet(fs) == {};
    } else {
      var n := |fs| - 1;
      SizeOfList(fs[..n]);
      assert fs == fs[..n] + [fs[n]];
      assert FileSet(fs) == FileSet(fs[..n]) + {fs[n]};
      assert forall i :: 0 <= i < n ==> BySmallestKey(fs[i], fs[n]);
      assert fs[n] !in fs[..n];
    }
  }

  lemma NoMoreFiles(fs: seq<FileMeta>, gs: seq<FileMeta>, extra: set<FileMeta>)
    requires Ordered(fs) && Ordered(gs) && forall f :: f in gs ==> f in fs || f in extra
    ensures |gs| <= |fs| + |extra|
  {
    SizeOfList(fs);
    SizeOfList(gs);
    assert FileSet(gs) <= FileSet(fs) + extra;
    SubsetSize(FileSet(gs), FileSet(fs) + extra);
    UnionSize(FileSet(fs), extra);
  }

  lemma {:induction false} SubsetSize(a: set<FileMeta>, b: set<FileMeta>)
    requires a <= b
    ensures |a| <= |b|
    decreases |a|
  {
    if a != {} {
      var x :| x in a;
      SubsetSize(a - {x}, b - {x});
    }
  }

  lemma UnionSize(a: set<FileMeta>, b: set<FileMeta>)
    ensures |a + b| <= |a| + |b|
  {
    assert a + b == a + (b - a);
    SubsetSize(b - a, b);
  }

  /** No step but a flush adds a file to level 0, and a flush adds at most one. */
  lemma FilesOfStep(s: State, a: Action, s': State)
    requires Inv(s) && Step(s, a, s')
    ensures |s'.levels| == |s.levels| && Ordered(s'.levels[0])
    ensures forall f :: f in s'.levels[0] ==> f in s.levels[0] || (a.Flush? && f == a.meta)
  {
    StepKeepsInv(s, a, s');
    if a.Flush? {
      FlushIsFlush(s, a.level, a.meta, s');
    } else if a.Move? {
      MoveAddsBelow(s, a.l, a.f, s');
    } else if a.InstallCompaction? {
      InstallAddsBelow(JobNow(s), s.job.value.kept, a.parts, a.outs, s'.tables, s'.manifest[|s'.manifest| - 1], s'.levels);
    }
  }

  lemma MoveAddsBelow(s: State, l: nat, f: FileMeta, s': State)
    requires Inv(s) && IsMoveStep(s, l, f, s')
    ensures forall g :: g in s'.levels[0] ==> g in s.levels[0]
  {
    var edit := s'.manifest[|s'.manifest| - 1];
    forall g | g in s'.levels[0] ensures g in s.levels[0] {
      EditMembers(s.levels, edit, s'.levels, 0, g);
      assert edit.newFiles[0] == (l + 1, f);
    }
  }

  lemma InstallAddsBelow(c: Job, kept: seq<Entry>, parts: seq<seq<Entry>>, outs: seq<FileMeta>,
                         t': Tables, edit: VersionEdit, v': Levels)
    requires c.v != [] && Installs(c, kept, parts, outs, t', edit, v')
    ensures forall g :: g in v'[0] ==> g in c.v[0]
  {
    forall g | g in v'[0] ensures g in c.v[0] {
      EditMembers(c.v, edit, v', 0, g);
      assert forall i :: 0 <= i < |outs| ==> edit.newFiles[i] == (c.l + 1, outs[i]);
    }
  }

  lemma StepStaysBounded(s: State, a: Action, s': State, limit: nat)
    requires Inv(s) && LimitedStep(s, a, s') && Bounded(s, limit) && limit >= STOP_WRITES_TRIGGER
    ensures Inv(s') && Bounded(s', limit)
  {
    StepKeepsInv(s, a, s');
    FilesOfStep(s, a, s');
    NoMoreFiles(s.levels[0], s'.levels[0], if a.Flush? then {a.meta} else {});
    assert a.Flush? ==> s.imm.Some? && s'.imm.None?;
    MemTableKept(s, a, s');
  }

  lemma MemTableKept(s: State, a: Action, s': State)
    requires Step(s, a, s')
    ensures s'.imm.Some? ==> a.SwitchMemTable? || s.imm.Some?
    ensures a.SwitchMemTable? ==> s'.levels == s.levels
  {
  }

  ghost predicate LimitedAt(states: seq<State>, acts: seq<Action>, i: nat)
    requires i < |acts| < |states|
  {
    LimitedStep(states[i], acts[i], states[i + 1])
  }

  /** A memtable can be switched exactly when none waits and level 0 holds fewer than 12 files. */
  lemma SwitchesBelowTwelve(s: State)
    requires Inv(s)
    ensures (exists s' :: LimitedStep(s, SwitchMemTable, s')) <==> s.imm.None? && |s.levels[0]| <= 11
  {
    if s.imm.None? && |s.levels[0]| <= 11 {
      assert LimitedStep(s, SwitchMemTable, s.(mem := [], imm := Some(s.mem), nextFile := s.nextFile + 1));
    }
  }

  /** From any state after opening: level 0 never holds more files than it held then, or than 12 if that is larger, and
      no more than 11 while an immutable memtable waits. */
  lemma {:induction false} LevelZeroStaysBounded(states: seq<State>, acts: seq<Action>, n: nat)
    requires |states| == |acts| + 1 && n <= |acts| && Inv(states[0]) && states[0].imm.None?
    requires forall i :: 0 <= i < |acts| ==> LimitedAt(states, acts, i)
    ensures Inv(states[n]) && |states[n].levels| == 7
    ensures |states[n].levels[0]| <= 12 || |states[n].levels[0]| <= |states[0].levels[0]|
    ensures states[n].imm.Some? ==> |states[n].levels[0]| <= 11
  {
    var open := |states[0].levels[0]|;
    BoundedAt(states, acts, n, if open > STOP_WRITES_TRIGGER then open else STOP_WRITES_TRIGGER);
  }

  lemma {:induction false} BoundedAt(states: seq<State>, acts: seq<Action>, n: nat, limit: nat)
    requires |states| == |acts| + 1 && n <= |acts| && Fine(states[0], limit) && limit >= STOP_WRITES_TRIGGER
    requires forall i :: 0 <= i < |acts| ==> LimitedAt(states, acts, i)
    ensures Fine(states[n], limit)
  {
    if n > 0 {
      BoundedAt(states, acts, n - 1, limit);
      assert LimitedAt(states, acts, n - 1);
      StepStaysFine(states[n - 1], acts[n - 1], states[n], limit);
    }
  }

  ghost predicate Fine(s: State, limit: nat) {
    Inv(s) && Bounded(s, limit)
  }

  lemma StepStaysFine(s: State, a: Action, s': State, limit: nat)
    requires Fine(s, limit) && LimitedStep(s, a, s') && limit >= STOP_WRITES_TRIGGER
    ensures Fine(s', limit)
  {
    StepStaysBounded(s, a, s', limit);
  }
}
