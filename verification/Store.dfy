/** The store as a state machine: writes, memtable switch, flush, trivial move, compaction (in two steps,
    with flushes allowed in between), snapshots, and the manifest (db/db_impl.cc). */
module Store {
  import opened Sequences
  import opened DbFormat
  import opened Versions
  import opened CompactionInputs
  import opened CompactionLoop
  import opened CompactionMeaning
  import opened VersionBuilder
  import opened VersionSteps
  import opened Manifest

  datatype Update = Update(key: UserKey, kind: Kind, value: Value)

  /** A compaction whose merge loop has run but whose result is not installed yet. */
  datatype Running = Running(l: nat, in0: seq<FileMeta>, in1: seq<FileMeta>, input: seq<Entry>,
                             snap: SequenceNumber, kept: seq<Entry>)

  datatype State = State(
    mem: seq<Entry>, imm: Option<seq<Entry>>, tables: Tables, levels: Levels,
    lastSequence: SequenceNumber, nextFile: nat, snapshots: seq<SequenceNumber>,
    job: Option<Running>, manifest: Log)

  datatype Action =
    | Write(batch: seq<Update>)
    | FailedWrite(count: nat)
    | SwitchMemTable
    | Flush(level: nat, meta: FileMeta)
    | FlushEmpty
    | Move(l: nat, f: FileMeta)
    | StartCompaction(run: Running)
    | InstallCompaction(parts: seq<seq<Entry>>, outs: seq<FileMeta>)
    | TakeSnapshot
    | ReleaseSnapshot(index: nat)
    | RewriteManifest(snapshot: VersionEdit, edit: VersionEdit)

  ghost function Above(s: State): iset<Entry> {
    Members(s.mem) + if s.imm.Some? then Members(s.imm.value) else iset{}
  }

  /** Every row a reader can reach. */
  ghost function Everything(s: State): iset<Entry> {
    Above(s) + VersionEntries(s.tables, s.levels)
  }

  /** Snapshots are kept in the order they were taken; without any, only the latest state is readable. */
  function SmallestSnapshot(s: State): SequenceNumber {
    if s.snapshots == [] then s.lastSequence else s.snapshots[0]
  }

  ghost function JobNow(s: State): Job
    requires s.job.Some?
  {
    var j := s.job.value;
    Job(s.tables, s.levels, j.l, j.in0, j.in1, j.input, Above(s), j.snap)
  }

  // ----- steps ---------------------------------------------------------------------------------------------

  /** A batch's updates get consecutive sequence numbers after `last`. */
  function NewRows(batch: seq<Update>, last: nat): seq<Entry>
    requires last + |batch| < MAX_SEQUENCE
  {
    seq(|batch|, i requires 0 <= i < |batch| =>
      Entry(InternalKey(batch[i].key, last + 1 + i, batch[i].kind), batch[i].value))
  }

  ghost predicate IsWrite(s: State, batch: seq<Update>, s': State) {
    && s.lastSequence + |batch| < MAX_SEQUENCE
    && SortedRun(s'.mem)
    && (forall e :: e in s'.mem <==> e in s.mem || e in NewRows(batch, s.lastSequence))
    && s' == s.(mem := s'.mem, lastSequence := s.lastSequence + |batch|)
  }

  /** The edit carries the counters as they are when it is logged. */
  predicate Stamped(edit: VersionEdit, next: nat, last: nat) {
    && edit.logNumber.Some? && edit.logNumber.value < next
    && edit.nextFile == Some(next) && edit.lastSequence == Some(last)
  }

  function Stamp(edit: VersionEdit, logNumber: nat, next: nat, last: nat): VersionEdit {
    edit.(logNumber := Some(logNumber), nextFile := Some(next), lastSequence := Some(last))
  }

  /** The edit is applied to the current version and, stamped, appended to the manifest. */
  ghost predicate LogAndApply(s: State, deletions: set<(nat, nat)>, additions: seq<(nat, FileMeta)>, s': State) {
    && s'.manifest != []
    && var edit := s'.manifest[|s'.manifest| - 1];
       && s'.manifest == s.manifest + [edit]
       && edit.deletedFiles == deletions && edit.newFiles == additions && Stamped(edit, s'.nextFile, s'.lastSequence)
       && Applied(s.levels, edit, s'.levels)
  }

  ghost predicate IsFlushStep(s: State, p: nat, meta: FileMeta, s': State) {
    && s.imm.Some? && s.imm.value != []
    && meta.number == s.nextFile
    && meta.smallest == s.imm.value[0].key && meta.largest == s.imm.value[|s.imm.value| - 1].key
    && p <= MAX_MEM_COMPACT_LEVEL
    && (p > 0 ==> forall l, f :: 0 <= l <= p && l < |s.levels| && f in s.levels[l] ==>
          !Overlaps(f, Some(meta.smallest.user), Some(meta.largest.user)))
    && s'.tables == s.tables[meta.number := s.imm.value]
    && LogAndApply(s, {}, [(p, meta)], s')
    && s' == s.(imm := None, tables := s'.tables, levels := s'.levels, nextFile := s.nextFile + 1, manifest := s'.manifest)
  }

  ghost predicate IsMoveStep(s: State, l: nat, f: FileMeta, s': State) {
    && s.job.None? && Selected(s.levels, l, [f], [])
    && LogAndApply(s, {(l, f.number)}, [(l + 1, f)], s')
    && s' == s.(levels := s'.levels, manifest := s'.manifest)
  }

  ghost predicate IsStartStep(s: State, run: Running, s': State) {
    && s.job.None? && Selected(s.levels, run.l, run.in0, run.in1)
    && run.snap == SmallestSnapshot(s)
    && s' == s.(job := Some(run))
    && IsMergeOf(JobNow(s'))
    && run.kept == KeptRows(s.levels, run.l, run.input, run.snap, |run.input|)
  }

  /** What nothing in the code sees to: no output of the running compaction overlaps a file flushed meanwhile. */
  ghost predicate ClearOfFlushes(s: State, outs: seq<FileMeta>) {
    s.job.Some? && s.job.value.l + 1 < |s.levels| && OutputsClear(JobNow(s), outs)
  }

  ghost predicate IsInstallStep(s: State, parts: seq<seq<Entry>>, outs: seq<FileMeta>, s': State) {
    && s.job.Some? && s'.manifest != []
    && var edit := s'.manifest[|s'.manifest| - 1];
       && Installs(JobNow(s), s.job.value.kept, parts, outs, s'.tables, edit, s'.levels)
       && Stamped(edit, s.nextFile + |outs|, s.lastSequence)
       && (forall i :: 0 <= i < |outs| ==> outs[i].number == s.nextFile + i)
       && (forall n :: n in s'.tables ==> n < s.nextFile + |outs|)
       && s' == s.(job := None, tables := s'.tables, levels := s'.levels, nextFile := s.nextFile + |outs|,
                   manifest := s.manifest + [edit])
  }

  /** WriteSnapshot: a new manifest starts with one edit that adds every current file. */
  ghost predicate IsSnapshotEdit(v: Levels, edit: VersionEdit) {
    && edit.deletedFiles == {} && DistinctAdds(edit.newFiles) && EditInRange(edit, |v|)
    && forall l, f :: 0 <= l < |v| ==> (f in v[l] <==> (l, f) in edit.newFiles)
  }

  /** A new manifest: the snapshot, and an edit that logs the counters. */
  ghost predicate IsRewriteStep(s: State, snapshot: VersionEdit, edit: VersionEdit, s': State) {
    && IsSnapshotEdit(s.levels, snapshot)
    && edit.deletedFiles == {} && edit.newFiles == [] && Stamped(edit, s.nextFile, s.lastSequence)
    && s' == s.(manifest := [snapshot, edit])
  }

  /** One step. A write whose log record failed uses up its sequence numbers all the same. */
  ghost predicate Step(s: State, a: Action, s': State) {
    match a
    case Write(batch) => IsWrite(s, batch, s')
    case FailedWrite(n) => s.lastSequence + n < MAX_SEQUENCE && s' == s.(lastSequence := s.lastSequence + n)
    case SwitchMemTable => s.imm.None? && s' == s.(mem := [], imm := Some(s.mem), nextFile := s.nextFile + 1)
    case Flush(p, meta) => IsFlushStep(s, p, meta, s')
    case FlushEmpty => s.imm == Some([]) && s' == s.(imm := None, nextFile := s.nextFile + 1)
    case Move(l, f) => IsMoveStep(s, l, f, s')
    case StartCompaction(run) => IsStartStep(s, run, s')
    case InstallCompaction(parts, outs) => IsInstallStep(s, parts, outs, s') && ClearOfFlushes(s, outs)
    case TakeSnapshot => s' == s.(snapshots := s.snapshots + [s.lastSequence])
    case ReleaseSnapshot(i) => i < |s.snapshots| && s' == s.(snapshots := s.snapshots[..i] + s.snapshots[i + 1..])
    case RewriteManifest(snapshot, edit) => IsRewriteStep(s, snapshot, edit, s')
  }

  /** The first record of a manifest (DBImpl::NewDB). */
  predicate IsNewDb(edit: VersionEdit) {
    edit.deletedFiles == {} && edit.newFiles == [] && edit.logNumber == Some(0) && edit.nextFile == Some(2) && edit.lastSequence == Some(0)
  }

  const NEW_DB := Stamp(EMPTY_EDIT, 0, 2, 0)

  /** A freshly created database. */
  ghost predicate Init(s: State) {
    && s.mem == [] && s.imm == None && s.tables == map[] && s.levels == seq(NUM_LEVELS, _ => [])
    && s.lastSequence == 0 && s.snapshots == [] && s.job == None && s.nextFile >= 2
    && |s.manifest| == 1 && IsNewDb(s.manifest[0])
  }

  // ----- the invariant -------------------------------------------------------------------------------------

  ghost predicate MemTablesValid(s: State) {
    && SortedRun(s.mem)
    && (s.imm.Some? ==> SortedRun(s.imm.value) && Newer(s.mem, s.imm.value))
  }

  /** Memtables are newer than every table file. */
  ghost predicate MemTablesNewer(s: State) {
    forall l, f :: 0 <= l < |s.levels| && f in s.levels[l] ==>
      Newer(s.mem, Rows(s.tables, f)) && (s.imm.Some? ==> Newer(s.imm.value, Rows(s.tables, f)))
  }

  ghost predicate SequencesBounded(s: State) {
    && s.lastSequence < MAX_SEQUENCE
    && (forall e :: e in Everything(s) ==> e.key.seqno <= s.lastSequence)
    && (forall i :: 0 <= i < |s.snapshots| ==> s.snapshots[i] <= s.lastSequence)
    && (forall i, j :: 0 <= i < j < |s.snapshots| ==> s.snapshots[i] <= s.snapshots[j])
  }

  ghost predicate NumbersBounded(s: State) {
    && (forall n :: n in s.tables ==> n < s.nextFile)
    && (forall i :: 0 <= i < |AllAdds(s.manifest)| ==> AllAdds(s.manifest)[i].1.number < s.nextFile)
  }

  /** A live file was never added deeper than where it is now. */
  ghost predicate NeverDeeper(s: State) {
    var adds := AllAdds(s.manifest);
    forall l, f, i :: 0 <= l < |s.levels| && f in s.levels[l] && 0 <= i < |adds| && adds[i].1.number == f.number ==>
      adds[i].0 <= l
  }

  ghost predicate ManifestValid(s: State) {
    && LogInRange(s.manifest) && AddsOnce(s.manifest)
    && Replay(s.manifest) == FileSets(s.levels)
  }

  /** The counters in the manifest suffice for every live file and row. */
  ghost predicate CountersOk(s: State) {
    var log, next, last :=
      LastGiven(s.manifest, LogNumber), LastGiven(s.manifest, NextFile), LastGiven(s.manifest, LastSequence);
    && log.Some? && next.Some? && last.Some? && next.value <= s.nextFile && last.value <= s.lastSequence
    && (forall l, f :: 0 <= l < |s.levels| && f in s.levels[l] ==> f.number < next.value)
    && (forall e :: e in VersionEntries(s.tables, s.levels) ==> e.key.seqno <= last.value)
  }

  ghost predicate JobValid(s: State) {
    s.job.Some? ==>
      && Compacting(JobNow(s)) && Kept(JobNow(s)) == s.job.value.kept
      && s.job.value.snap <= SmallestSnapshot(s)
  }

  ghost predicate Inv(s: State) {
    && ValidVersion(s.tables, s.levels) && AllOrdered(s.levels)
    && MemTablesValid(s) && MemTablesNewer(s)
    && SequencesBounded(s) && NumbersBounded(s)
    && NeverDeeper(s) && ManifestValid(s) && CountersOk(s)
    && JobValid(s)
  }
}
