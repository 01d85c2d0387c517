/** Building runs of the store step by step. */
module ReachableStates {
  import opened Sequences
  import opened DbFormat
  import opened Versions
  import opened CompactionInputs
  import opened CompactionMeaning
  import opened VersionBuilder
  import opened VersionSteps
  import opened Store
  import opened StoreRuns

  /** Some run from a fresh database ends here. */
  ghost predicate Reachable(s: State) {
    exists states, acts :: IsRun(states, acts) && states[|acts|] == s
  }

  lemma ReachInit(s: State)
    requires Init(s)
    ensures Reachable(s)
  {
    var states: seq<State>, acts: seq<Action> := [s], [];
    assert IsRun(states, acts) && states[|acts|] == s;
  }

  lemma ReachStep(s: State, a: Action, s': State)
    requires Reachable(s) && Step(s, a, s')
    ensures Reachable(s')
  {
    var states, acts :| IsRun(states, acts) && states[|acts|] == s;
    var states', acts' := ExtendRun(states, acts, a, s');
  }

  lemma ReachableInv(s: State)
    requires Reachable(s)
    ensures Inv(s)
  {
    var states, acts :| IsRun(states, acts) && states[|acts|] == s;
    RunKeepsInv(states, acts, |acts|);
  }

  /** What an edit makes of a version, said file by file. */
  lemma AppliedByMembers(v: Levels, edit: VersionEdit, v': Levels)
    requires EditInRange(edit, |v|) && |v'| == |v| && AllOrdered(v')
    requires forall l, f :: 0 <= l < |v| ==>
               (f in v'[l] <==> (f in v[l] && (l, f.number) !in edit.deletedFiles) || (l, f) in edit.newFiles)
    ensures Applied(v, edit, v')
  {
    forall l | 0 <= l < |v| ensures Lists(v'[l], ApplyEdit(FileSets(v), edit)[l]) {
      forall f ensures f in v'[l] <==> f in ApplyEdit(FileSets(v), edit)[l] {
        AddedMembers(RemoveAll(FileSets(v), edit.deletedFiles), edit.newFiles, l, f);
      }
    }
  }

  /** The file a memtable becomes. */
  function FlushMeta(s: State): FileMeta
    requires s.imm.Some? && s.imm.value != []
  {
    FileMeta(s.nextFile, 100, s.imm.value[0].key, s.imm.value[|s.imm.value| - 1].key)
  }

  function AddEdit(p: nat, meta: FileMeta, next: nat, last: nat): VersionEdit {
    Stamp(EMPTY_EDIT.(newFiles := [(p, meta)]), 0, next, last)
  }

  /** The code goes no deeper: level p is the last it considers, or the next one overlaps the keys. */
  ghost predicate Deepest(v: Levels, p: nat, lo: UserKey, hi: UserKey) {
    p == MAX_MEM_COMPACT_LEVEL || (p + 1 < |v| && exists g :: g in v[p + 1] && Overlaps(g, Some(lo), Some(hi)))
  }

  lemma NoDeeper(v: Levels, p: nat, g: FileMeta, lo: UserKey, hi: UserKey)
    requires p + 1 < |v| && g in v[p + 1] && Overlaps(g, Some(lo), Some(hi))
    ensures Deepest(v, p, lo, hi)
  {
  }

  /** A flush to the level the code picks, whose files are `files` afterwards. */
  lemma ReachFlush(s: State, p: nat, files: seq<FileMeta>) returns (s': State)
    requires Reachable(s) && s.imm.Some? && s.imm.value != [] && p <= MAX_MEM_COMPACT_LEVEL && p < |s.levels|
    requires p > 0 ==> forall l, f :: 0 <= l <= p && l < |s.levels| && f in s.levels[l] ==>
               !Overlaps(f, Some(FlushMeta(s).smallest.user), Some(FlushMeta(s).largest.user))
    requires Deepest(s.levels, p, FlushMeta(s).smallest.user, FlushMeta(s).largest.user)
    requires Ordered(files) && GainsFile(s.levels[p], FlushMeta(s), files)
    ensures Reachable(s') && Step(s, Action.Flush(p, FlushMeta(s)), s')
    ensures s' == s.(imm := None, tables := s.tables[s.nextFile := s.imm.value], levels := s.levels[p := files],
                     nextFile := s.nextFile + 1, manifest := s.manifest + [AddEdit(p, FlushMeta(s), s.nextFile + 1, s.lastSequence)])
  {
    ReachableInv(s);
    s' := s.(imm := None, tables := s.tables[s.nextFile := s.imm.value], levels := s.levels[p := files],
             nextFile := s.nextFile + 1, manifest := s.manifest + [AddEdit(p, FlushMeta(s), s.nextFile + 1, s.lastSequence)]);
    FileIsAdded(s.levels, p, FlushMeta(s), files, s.nextFile + 1, s.lastSequence);
    assert s'.manifest[|s'.manifest| - 1] == AddEdit(p, FlushMeta(s), s.nextFile + 1, s.lastSequence);
    ReachStep(s, Action.Flush(p, FlushMeta(s)), s');
  }

  lemma FileIsAdded(v: Levels, p: nat, meta: FileMeta, files: seq<FileMeta>, next: nat, last: nat)
    requires AllOrdered(v) && p < |v| && Ordered(files) && GainsFile(v[p], meta, files)
    ensures Applied(v, AddEdit(p, meta, next, last), v[p := files])
  {
    assert AddEdit(p, meta, next, last).newFiles[0] == (p, meta);
    AppliedByMembers(v, AddEdit(p, meta, next, last), v[p := files]);
  }

  lemma ReachSwitch(s: State) returns (s': State)
    requires Reachable(s) && s.imm.None?
    ensures Reachable(s') && Step(s, SwitchMemTable, s') && s' == s.(mem := [], imm := Some(s.mem), nextFile := s.nextFile + 1)
  {
    s' := s.(mem := [], imm := Some(s.mem), nextFile := s.nextFile + 1);
    ReachStep(s, SwitchMemTable, s');
  }

  lemma ReachWrite(s: State, batch: seq<Update>, mem: seq<Entry>) returns (s': State)
    requires Reachable(s) && s.lastSequence + |batch| < MAX_SEQUENCE && SortedRun(mem)
    requires forall e :: e in mem <==> e in s.mem || e in NewRows(batch, s.lastSequence)
    ensures Reachable(s') && Step(s, Action.Write(batch), s') && s' == s.(mem := mem, lastSequence := s.lastSequence + |batch|)
  {
    s' := s.(mem := mem, lastSequence := s.lastSequence + |batch|);
    ReachStep(s, Action.Write(batch), s');
  }

  function OneRow(s: State, k: UserKey): Entry
    requires s.lastSequence + 1 < MAX_SEQUENCE
  {
    Entry(InternalKey(k, s.lastSequence + 1, Put), "v")
  }

  function OneRowFile(s: State, k: UserKey): FileMeta
    requires s.lastSequence + 1 < MAX_SEQUENCE
  {
    FileMeta(s.nextFile + 1, 100, OneRow(s, k).key, OneRow(s, k).key)
  }

  /** A batch written, the memtable switched, and flushed as `meta` to level p. */
  ghost predicate WrittenAndFlushed(s: State, batch: seq<Update>, p: nat, meta: FileMeta, s': State) {
    exists s1, s2 :: Step(s, Action.Write(batch), s1) && Step(s1, SwitchMemTable, s2) && Step(s2, Action.Flush(p, meta), s')
  }

  lemma ReachPut(s: State, k: UserKey, p: nat, files: seq<FileMeta>) returns (s': State)
    requires Reachable(s) && s.mem == [] && s.imm.None? && s.lastSequence + 1 < MAX_SEQUENCE
    requires p <= MAX_MEM_COMPACT_LEVEL && p < |s.levels|
    requires p > 0 ==> Free(s.levels, p, k)
    requires Deepest(s.levels, p, k, k) && Ordered(files) && GainsFile(s.levels[p], OneRowFile(s, k), files)
    ensures Reachable(s') && WrittenAndFlushed(s, [Update(k, Put, "v")], p, OneRowFile(s, k), s')
    ensures s' == s.(tables := s.tables[s.nextFile + 1 := [OneRow(s, k)]], levels := s.levels[p := files],
                     lastSequence := s.lastSequence + 1, nextFile := s.nextFile + 2,
                     manifest := s.manifest + [AddEdit(p, OneRowFile(s, k), s.nextFile + 2, s.lastSequence + 1)])
  {
    var batch := [Update(k, Put, "v")];
    assert NewRows(batch, s.lastSequence) == [OneRow(s, k)];
    var s1 := ReachWrite(s, batch, [OneRow(s, k)]);
    var s2 := ReachSwitch(s1);
    assert FlushMeta(s2) == OneRowFile(s, k);
    s' := ReachFlush(s2, p, files);
  }

  const NO_FILES: Levels := [[], [], [], [], [], [], []]
  const EMPTY := State([], None, map[], NO_FILES, 0, 2, [], None, [NEW_DB])

  function Row(k: UserKey, q: SequenceNumber): Entry {
    Entry(InternalKey(k, q, Put), "v")
  }

  function File(n: nat, e: Entry): FileMeta {
    FileMeta(n, 100, e.key, e.key)
  }

  /** Nothing in the memtables, no snapshots, and the given files, job, last sequence number and next file number. */
  ghost predicate At(s: State, v: Levels, t: Tables, job: Option<Running>, last: nat, next: nat) {
    && Reachable(s) && s.mem == [] && s.imm == None && s.snapshots == []
    && s.levels == v && s.tables == t && s.job == job && s.lastSequence == last && s.nextFile == next
  }

  ghost predicate Free(v: Levels, p: nat, k: UserKey) {
    forall l, f :: 0 <= l <= p && l < |v| && f in v[l] ==> !Overlaps(f, Some(k), Some(k))
  }

  /** Level p of v is where the code puts file `f`, and v' is the version with it. */
  ghost predicate Fits(v: Levels, p: nat, f: FileMeta, v': Levels) {
    && p <= MAX_MEM_COMPACT_LEVEL && p < |v| == |v'| && Free(v, p, f.smallest.user)
    && Deepest(v, p, f.smallest.user, f.smallest.user)
    && v' == v[p := v'[p]] && Ordered(v'[p]) && GainsFile(v[p], f, v'[p])
  }

  /** A key is written and flushed as file `f` to level p. */
  lemma PutFile(s: State, v: Levels, t: Tables, job: Option<Running>, e: Entry, f: FileMeta, p: nat, v': Levels)
    returns (s': State)
    requires e.key.seqno > 0 && e.key.seqno < MAX_SEQUENCE && f.number > 0 && At(s, v, t, job, e.key.seqno - 1, f.number - 1)
    requires e == Row(e.key.user, e.key.seqno) && f == File(f.number, e)
    requires Fits(v, p, f, v')
    ensures At(s', v', t[f.number := [e]], job, e.key.seqno, f.number + 1)
    ensures WrittenAndFlushed(s, [Update(e.key.user, Put, "v")], p, f, s')
  {
    assert OneRow(s, e.key.user) == e && OneRowFile(s, e.key.user) == f;
    s' := ReachPut(s, e.key.user, p, v'[p]);
  }

  /** The state after the outputs are installed. */
  lemma InstallCut(s: State, parts: seq<seq<Entry>>, outs: seq<FileMeta>, t: Tables, edit: VersionEdit, v: Levels)
    returns (s': State)
    requires s.job.Some? && Installs(JobNow(s), s.job.value.kept, parts, outs, t, edit, v)
    requires forall i :: 0 <= i < |outs| ==> outs[i].number == s.nextFile + i
    requires Stamped(edit, s.nextFile + |outs|, s.lastSequence) && forall n :: n in t ==> n < s.nextFile + |outs|
    ensures IsInstallStep(s, parts, outs, s')
    ensures s' == s.(job := None, tables := t, levels := v, nextFile := s.nextFile + |outs|, manifest := s.manifest + [edit])
  {
    s' := s.(job := None, tables := t, levels := v, nextFile := s.nextFile + |outs|, manifest := s.manifest + [edit]);
    assert s'.manifest[|s'.manifest| - 1] == edit;
  }

  lemma ReachInstall(s: State, parts: seq<seq<Entry>>, outs: seq<FileMeta>, t: Tables, edit: VersionEdit, v: Levels)
    returns (s': State)
    requires Reachable(s) && s.job.Some? && Installs(JobNow(s), s.job.value.kept, parts, outs, t, edit, v)
    requires forall i :: 0 <= i < |outs| ==> outs[i].number == s.nextFile + i
    requires Stamped(edit, s.nextFile + |outs|, s.lastSequence) && forall n :: n in t ==> n < s.nextFile + |outs|
    requires s.job.value.l + 1 < |s.levels| && forall g :: !Newcomer(JobNow(s), g)
    ensures Reachable(s') && Step(s, Action.InstallCompaction(parts, outs), s')
    ensures s' == s.(job := None, tables := t, levels := v, nextFile := s.nextFile + |outs|, manifest := s.manifest + [edit])
  {
    s' := InstallCut(s, parts, outs, t, edit, v);
    ReachStep(s, Action.InstallCompaction(parts, outs), s');
  }
}
