/** Safety over whole runs: the store refines a plain multi-version map of everything ever written. */
module StoreRuns {
  import opened Sequences
  import opened DbFormat
  import opened Versions
  import opened CompactionMeaning
  import opened VersionBuilder
  import opened Manifest
  import opened Store
  import opened StoreInvariant

  lemma InitKeepsInv(s: State)
    requires Init(s)
    ensures Inv(s) && Everything(s) == iset{}
  {
    NewDbManifest(s);
    assert Everything(s) == iset{};
  }

  lemma NewDbManifest(s: State)
    requires Init(s)
    ensures ManifestValid(s) && CountersOk(s) && AllAdds(s.manifest) == []
  {
    var edit := s.manifest[0];
    NoFilesInEdit([], edit);
    assert [] + [edit] == s.manifest;
    SameContents(Replay(s.manifest), FileSets(s.levels));
    LastGivenNext([], edit, LogNumber);
    LastGivenNext([], edit, NextFile);
    LastGivenNext([], edit, LastSequence);
  }

  lemma StepKeepsInv(s: State, a: Action, s': State)
    requires Inv(s) && Step(s, a, s')
    ensures Inv(s')
    ensures SmallestSnapshot(s) <= SmallestSnapshot(s') && s.lastSequence <= s'.lastSequence
  {
    EachStepKeepsInv(s, a, s');
    StepGrows(s, a, s');
  }

  lemma EachStepKeepsInv(s: State, a: Action, s': State)
    requires Inv(s) && Step(s, a, s')
    ensures Inv(s')
  {
    if a.Flush? || a.Move? || a.StartCompaction? || a.InstallCompaction? || a.RewriteManifest? {
      VersionStepKeepsInv(s, a, s');
    } else {
      MemoryStepKeepsInv(s, a, s');
    }
  }

  lemma VersionStepKeepsInv(s: State, a: Action, s': State)
    requires Inv(s) && Step(s, a, s')
    requires a.Flush? || a.Move? || a.StartCompaction? || a.InstallCompaction? || a.RewriteManifest?
    ensures Inv(s')
  {
    match a
    case Flush(p, meta) => FlushKeepsInv(s, p, meta, s');
    case Move(l, f) => MoveKeepsInv(s, l, f, s');
    case StartCompaction(run) => StartKeepsInv(s, run, s');
    case InstallCompaction(parts, outs) => InstallKeepsInvIff(s, parts, outs, s');
    case RewriteManifest(snapshot, edit) => RewriteKeepsInv(s, snapshot, edit, s');
  }

  lemma MemoryStepKeepsInv(s: State, a: Action, s': State)
    requires Inv(s) && Step(s, a, s')
    requires !a.Flush? && !a.Move? && !a.StartCompaction? && !a.InstallCompaction? && !a.RewriteManifest?
    ensures Inv(s')
  {
    match a
    case Write(batch) => WriteKeepsInv(s, batch, s');
    case FailedWrite(n) => FailedWriteKeepsInv(s, n, s');
    case SwitchMemTable => SwitchKeepsInv(s, s');
    case FlushEmpty => FlushEmptyKeepsInv(s, s');
    case TakeSnapshot => TakeSnapshotKeepsInv(s, s');
    case ReleaseSnapshot(i) => ReleaseSnapshotKeepsInv(s, i, s');
  }

  lemma EverythingUnique(s: State)
    requires Inv(s)
    ensures UniqueSeqs(Everything(s))
  {
    AboveFacts(s);
    VersionUniqueSeqs(s.tables, s.levels);
  }

  // ----- what readers see ----------------------------------------------------------------------------------

  /** The step that installs a compaction which brings back a key deleted for the oldest reader. */
  ghost predicate BringsBack(s: State, a: Action) {
    && a.InstallCompaction? && s.job.Some? && s.job.value.l + 1 < |s.levels|
    && Resurrects(JobNow(s), SmallestSnapshot(s))
  }

  /** Installing a compaction keeps what every reader sees, exactly if it brings no deleted key back. */
  lemma InstallKeepsViewsIff(s: State, parts: seq<seq<Entry>>, outs: seq<FileMeta>, s': State)
    requires Inv(s) && IsInstallStep(s, parts, outs, s')
    ensures (forall k, q: SequenceNumber :: SmallestSnapshot(s) <= q ==> View(Everything(s'), k, q) == View(Everything(s), k, q))
            <==> !BringsBack(s, InstallCompaction(parts, outs))
  {
    InstalledEntries(s, parts, outs, s');
    CompactionPreservesViewsIff(JobNow(s), SmallestSnapshot(s));
    assert Before(JobNow(s)) == Everything(s);
  }

  /** The oldest reader sees the value of a key that was deleted before. */
  lemma InstallRevives(s: State, parts: seq<seq<Entry>>, outs: seq<FileMeta>, s': State, d: Entry, g: FileMeta)
    requires Inv(s) && IsInstallStep(s, parts, outs, s')
    requires s.job.value.l + 1 < |s.levels| && ResurrectsBy(JobNow(s), SmallestSnapshot(s), d, g)
    ensures BringsBack(s, InstallCompaction(parts, outs))
    ensures View(Everything(s), d.key.user, SmallestSnapshot(s)) == None
    ensures View(Everything(s'), d.key.user, SmallestSnapshot(s)).Some?
  {
    InstalledEntries(s, parts, outs, s');
    OldestIsMisled(s, d, g);
  }

  lemma OldestIsMisled(s: State, d: Entry, g: FileMeta)
    requires JobValid(s) && SequencesBounded(s) && s.job.Some?
    requires s.job.value.l + 1 < |s.levels| && ResurrectsBy(JobNow(s), SmallestSnapshot(s), d, g)
    ensures View(Everything(s), d.key.user, SmallestSnapshot(s)) == None
    ensures View(After(JobNow(s)), d.key.user, SmallestSnapshot(s)).Some?
  {
    BrokenBy(JobNow(s), SmallestSnapshot(s), d, g);
    assert Before(JobNow(s)) == Everything(s);
  }

  /** No step but a write changes what a live snapshot sees, unless it brings a deleted key back. */
  lemma StepKeepsViews(s: State, a: Action, s': State, k: UserKey, q: SequenceNumber)
    requires Inv(s) && Step(s, a, s') && !a.Write? && !BringsBack(s, a) && SmallestSnapshot(s) <= q
    ensures View(Everything(s'), k, q) == View(Everything(s), k, q)
  {
    match a
    case Flush(p, meta) => FlushKeepsInv(s, p, meta, s');
    case Move(l, f) => MoveKeepsInv(s, l, f, s');
    case StartCompaction(run) => StartKeepsInv(s, run, s');
    case InstallCompaction(parts, outs) => InstallKeepsViewsIff(s, parts, outs, s');
    case SwitchMemTable => assert Everything(s') == Everything(s);
    case FlushEmpty => assert Everything(s') == Everything(s);
    case FailedWrite(n) => assert Everything(s') == Everything(s);
    case TakeSnapshot =>
    case ReleaseSnapshot(i) =>
    case RewriteManifest(snapshot, edit) =>
  }

  /** Whoever reads right after a write sees its last update of each key. */
  lemma WriteIsRead(s: State, batch: seq<Update>, s': State, i: nat)
    requires Inv(s) && IsWrite(s, batch, s') && i < |batch|
    requires forall j :: i < j < |batch| ==> batch[j].key != batch[i].key
    ensures View(Everything(s'), batch[i].key, s'.lastSequence) == if batch[i].kind.Put? then Some(batch[i].value) else None
  {
    WriteKeepsInv(s, batch, s');
    EverythingUnique(s');
    var rows := NewRows(batch, s.lastSequence);
    var e := rows[i];
    assert e in rows && e in s'.mem;
    forall x | Candidate(Everything(s'), batch[i].key, s'.lastSequence, x) ensures x.key.seqno <= e.key.seqno {
      if x in rows {
        var j :| 0 <= j < |rows| && rows[j] == x;
      } else {
        assert x in Everything(s);
      }
    }
    ViewOfNewest(Everything(s'), batch[i].key, s'.lastSequence, e);
  }

  /** Rows newer than both maps change both in the same way. */
  lemma ViewAfterWrite(x: iset<Entry>, y: iset<Entry>, rows: iset<Entry>, last: nat, k: UserKey, q: SequenceNumber)
    requires UniqueSeqs(x + rows) && UniqueSeqs(y + rows)
    requires forall e :: e in x || e in y ==> e.key.seqno <= last
    requires forall e :: e in rows ==> e.key.seqno > last
    requires View(x, k, q) == View(y, k, q)
    ensures View(x + rows, k, q) == View(y + rows, k, q)
  {
    if e0 :| Candidate(rows, k, q, e0) {
      var e := NewestExists(rows, k, q, e0);
      forall z ensures (z == x || z == y) && UniqueSeqs(z + rows) ==> IsNewest(z + rows, k, q, e) {
        if z == x || z == y {
          forall w | Candidate(z + rows, k, q, w) ensures w.key.seqno <= e.key.seqno {
            assert w in rows ==> Candidate(rows, k, q, w);
          }
          assert Candidate(z + rows, k, q, e);
        }
      }
      ViewOfNewest(x + rows, k, q, e);
      ViewOfNewest(y + rows, k, q, e);
    } else {
      SameCandidates(x, rows, k, q);
      SameCandidates(y, rows, k, q);
    }
  }

  lemma SameCandidates(x: iset<Entry>, rows: iset<Entry>, k: UserKey, q: SequenceNumber)
    requires UniqueSeqs(x + rows) && forall e :: !Candidate(rows, k, q, e)
    ensures View(x + rows, k, q) == View(x, k, q)
  {
    forall e ensures Candidate(x + rows, k, q, e) <==> Candidate(x, k, q, e) {
      assert !Candidate(rows, k, q, e);
    }
    forall e ensures IsNewest(x + rows, k, q, e) <==> IsNewest(x, k, q, e) {
    }
    if e :| IsNewest(x, k, q, e) {
      ViewOfNewest(x + rows, k, q, e);
      ViewOfNewest(x, k, q, e);
    } else {
      assert forall e :: !IsNewest(x + rows, k, q, e);
    }
  }

  // ----- runs ----------------------------------------------------------------------------------------------

  ghost predicate StepAt(states: seq<State>, acts: seq<Action>, i: nat)
    requires i < |acts| < |states|
  {
    Step(states[i], acts[i], states[i + 1])
  }

  ghost predicate IsRun(states: seq<State>, acts: seq<Action>) {
    && |states| == |acts| + 1 && Init(states[0])
    && forall i :: 0 <= i < |acts| ==> StepAt(states, acts, i)
  }

  ghost predicate NothingBroughtBack(states: seq<State>, acts: seq<Action>)
    requires |states| == |acts| + 1
  {
    forall i :: 0 <= i < |acts| ==> !BringsBack(states[i], acts[i])
  }

  ghost function RowsOf(s: State, a: Action): iset<Entry> {
    if a.Write? && s.lastSequence + |a.batch| < MAX_SEQUENCE then Members(NewRows(a.batch, s.lastSequence)) else iset{}
  }

  /** Every row written in the first n steps, none ever removed. */
  ghost function Written(states: seq<State>, acts: seq<Action>, n: nat): iset<Entry>
    requires |states| == |acts| + 1 && n <= |acts|
  {
    if n == 0 then iset{} else Written(states, acts, n - 1) + RowsOf(states[n - 1], acts[n - 1])
  }

  lemma {:induction false} RunKeepsInv(states: seq<State>, acts: seq<Action>, n: nat)
    requires IsRun(states, acts) && n <= |acts|
    ensures Inv(states[n])
  {
    if n == 0 {
      InitKeepsInv(states[0]);
    } else {
      RunKeepsInv(states, acts, n - 1);
      assert StepAt(states, acts, n - 1);
      StepKeepsInv(states[n - 1], acts[n - 1], states[n]);
    }
  }

  /** A run goes on by any step from its last state. */
  lemma ExtendRun(states: seq<State>, acts: seq<Action>, a: Action, s': State)
    returns (states': seq<State>, acts': seq<Action>)
    requires IsRun(states, acts) && Step(states[|acts|], a, s')
    ensures IsRun(states', acts') && |acts'| == |acts| + 1 && states'[|acts'|] == s'
    ensures Written(states', acts', |acts'|) == Written(states, acts, |acts|) + RowsOf(states[|acts|], a)
    ensures NothingBroughtBack(states, acts) && !BringsBack(states[|acts|], a) ==> NothingBroughtBack(states', acts')
  {
    states', acts' := states + [s'], acts + [a];
    ExtendedIsRun(states, acts, a, s');
    SameWritten(states, acts, states', acts', |acts|);
    if NothingBroughtBack(states, acts) && !BringsBack(states[|acts|], a) {
      ExtendedIsQuiet(states, acts, a, s');
    }
  }

  lemma ExtendedIsQuiet(states: seq<State>, acts: seq<Action>, a: Action, s': State)
    requires |states| == |acts| + 1 && NothingBroughtBack(states, acts) && !BringsBack(states[|acts|], a)
    ensures NothingBroughtBack(states + [s'], acts + [a])
  {
  }

  lemma ExtendedIsRun(states: seq<State>, acts: seq<Action>, a: Action, s': State)
    requires IsRun(states, acts) && Step(states[|acts|], a, s')
    ensures IsRun(states + [s'], acts + [a])
  {
    var states', acts' := states + [s'], acts + [a];
    forall i | 0 <= i < |acts'| ensures StepAt(states', acts', i) {
      if i < |acts| {
        assert StepAt(states, acts, i);
      }
    }
  }

  lemma {:induction false} SameWritten(states: seq<State>, acts: seq<Action>, states': seq<State>, acts': seq<Action>, n: nat)
    requires |states| == |acts| + 1 && |states'| == |acts'| + 1 && states <= states' && acts <= acts' && n <= |acts|
    ensures Written(states', acts', n) == Written(states, acts, n)
  {
    if n > 0 {
      SameWritten(states, acts, states', acts', n - 1);
    }
  }

  /** Sequence numbers and snapshots only go up, and what a step writes lies between the old and the new last one. */
  ghost predicate Grows(s: State, a: Action, s': State) {
    && SmallestSnapshot(s) <= SmallestSnapshot(s') && s.lastSequence <= s'.lastSequence
    && (forall e :: e in RowsOf(s, a) ==> s.lastSequence < e.key.seqno <= s'.lastSequence)
    && UniqueSeqs(RowsOf(s, a))
  }

  lemma RunGrows(states: seq<State>, acts: seq<Action>, n: nat)
    requires IsRun(states, acts) && 0 < n <= |acts|
    ensures Grows(states[n - 1], acts[n - 1], states[n])
  {
    var s, a, s' := states[n - 1], acts[n - 1], states[n];
    RunKeepsInv(states, acts, n - 1);
    assert StepAt(states, acts, n - 1);
    StepGrows(s, a, s');
  }

  lemma StepGrows(s: State, a: Action, s': State)
    requires Inv(s) && Step(s, a, s')
    ensures Grows(s, a, s')
  {
    StepCounts(s, a, s');
    CountsGrow(s, a, s');
  }

  /** What a step does to the last sequence number and to the snapshots. */
  ghost predicate Counts(s: State, a: Action, s': State) {
    && s'.lastSequence == (if a.Write? then s.lastSequence + |a.batch| else if a.FailedWrite? then s.lastSequence + a.count
                           else s.lastSequence)
    && (a.TakeSnapshot? ==> s'.snapshots == s.snapshots + [s.lastSequence])
    && (a.ReleaseSnapshot? ==> a.index < |s.snapshots| && s'.snapshots == s.snapshots[..a.index] + s.snapshots[a.index + 1..])
    && (!a.TakeSnapshot? && !a.ReleaseSnapshot? ==> s'.snapshots == s.snapshots)
  }

  lemma StepCounts(s: State, a: Action, s': State)
    requires Step(s, a, s')
    ensures Counts(s, a, s')
  {
  }

  lemma CountsGrow(s: State, a: Action, s': State)
    requires SequencesBounded(s) && Counts(s, a, s')
    ensures Grows(s, a, s')
  {
    if a.Write? && s.lastSequence + |a.batch| < MAX_SEQUENCE {
      NewRowsFacts(a.batch, s.lastSequence);
    } else if a.ReleaseSnapshot? {
      assert s'.snapshots != [] ==> s'.snapshots[0] == s.snapshots[if a.index == 0 then 1 else 0];
    }
  }

  lemma NewRowsFacts(batch: seq<Update>, last: SequenceNumber)
    requires last + |batch| < MAX_SEQUENCE
    ensures UniqueSeqs(Members(NewRows(batch, last)))
    ensures forall e :: e in NewRows(batch, last) ==> last < e.key.seqno <= last + |batch|
  {
  }

  lemma {:induction false} WrittenFacts(states: seq<State>, acts: seq<Action>, n: nat)
    requires IsRun(states, acts) && n <= |acts|
    ensures UniqueSeqs(Written(states, acts, n))
    ensures forall e :: e in Written(states, acts, n) ==> e.key.seqno <= states[n].lastSequence
  {
    if n > 0 {
      WrittenFacts(states, acts, n - 1);
      RunGrows(states, acts, n);
    }
  }

  lemma WriteKeepsAgreement(s: State, batch: seq<Update>, s': State, h: iset<Entry>, k: UserKey, q: SequenceNumber)
    requires Inv(s) && IsWrite(s, batch, s')
    requires UniqueSeqs(h + RowsOf(s, Write(batch)))
    requires forall e :: e in h ==> e.key.seqno <= s.lastSequence
    requires View(Everything(s), k, q) == View(h, k, q)
    ensures View(Everything(s'), k, q) == View(h + RowsOf(s, Write(batch)), k, q)
  {
    var rows := RowsOf(s, Write(batch));
    WriteKeepsInv(s, batch, s');
    EverythingUnique(s');
    assert Everything(s') == Everything(s) + rows;
    ViewAfterWrite(Everything(s), h, rows, s.lastSequence, k, q);
  }

  lemma StepKeepsAgreement(s: State, a: Action, s': State, h: iset<Entry>, k: UserKey, q: SequenceNumber)
    requires Follows(h, s, a, s') && !BringsBack(s, a) && SmallestSnapshot(s) <= q
    requires View(Everything(s), k, q) == View(h, k, q)
    ensures View(Everything(s'), k, q) == View(h + RowsOf(s, a), k, q)
  {
    if a.Write? {
      WriteKeepsAgreement(s, a.batch, s', h, k, q);
    } else {
      StepKeepsViews(s, a, s', k, q);
      assert h + RowsOf(s, a) == h;
    }
  }

  /** The refinement: at every point of every run, a reader at any live snapshot sees what the map of all
      writes so far says. */
  lemma {:induction false} StoreRefinesHistory(states: seq<State>, acts: seq<Action>, n: nat, k: UserKey, q: SequenceNumber)
    requires IsRun(states, acts) && NothingBroughtBack(states, acts) && n <= |acts|
    requires SmallestSnapshot(states[n]) <= q
    ensures View(Everything(states[n]), k, q) == View(Written(states, acts, n), k, q)
  {
    if n == 0 {
      InitKeepsInv(states[0]);
    } else {
      RunGrows(states, acts, n);
      StoreRefinesHistory(states, acts, n - 1, k, q);
      RunKeepsAgreement(states, acts, n, k, q);
    }
  }

  lemma RunKeepsAgreement(states: seq<State>, acts: seq<Action>, n: nat, k: UserKey, q: SequenceNumber)
    requires IsRun(states, acts) && NothingBroughtBack(states, acts) && 0 < n <= |acts|
    requires SmallestSnapshot(states[n - 1]) <= q
    requires View(Everything(states[n - 1]), k, q) == View(Written(states, acts, n - 1), k, q)
    ensures View(Everything(states[n]), k, q) == View(Written(states, acts, n), k, q)
  {
    var s, a, s', h := states[n - 1], acts[n - 1], states[n], Written(states, acts, n - 1);
    HistoryGrows(states, acts, n);
    assert !BringsBack(s, a);
    StepKeepsAgreement(s, a, s', h, k, q);
  }

  /** What the history and the next step have to do with each other. */
  ghost predicate Follows(h: iset<Entry>, s: State, a: Action, s': State) {
    && Inv(s) && Step(s, a, s')
    && UniqueSeqs(h + RowsOf(s, a)) && forall e :: e in h ==> e.key.seqno <= s.lastSequence
  }

  lemma HistoryGrows(states: seq<State>, acts: seq<Action>, n: nat)
    requires IsRun(states, acts) && 0 < n <= |acts|
    ensures Follows(Written(states, acts, n - 1), states[n - 1], acts[n - 1], states[n])
  {
    WrittenFacts(states, acts, n - 1);
    WrittenFacts(states, acts, n);
    assert StepAt(states, acts, n - 1);
    RunKeepsInv(states, acts, n - 1);
  }

  lemma NextRowsInvisible(states: seq<State>, acts: seq<Action>, n: nat, k: UserKey, q: SequenceNumber)
    requires IsRun(states, acts) && 0 < n <= |acts| && q <= states[n - 1].lastSequence
    ensures View(Written(states, acts, n), k, q) == View(Written(states, acts, n - 1), k, q)
    ensures states[n - 1].lastSequence <= states[n].lastSequence
    ensures SmallestSnapshot(states[n - 1]) <= SmallestSnapshot(states[n])
  {
    RunGrows(states, acts, n);
    WrittenFacts(states, acts, n);
    SameCandidates(Written(states, acts, n - 1), RowsOf(states[n - 1], acts[n - 1]), k, q);
  }

  lemma {:induction false} LaterRowsInvisible(states: seq<State>, acts: seq<Action>, m: nat, n: nat,
                                              k: UserKey, q: SequenceNumber)
    requires IsRun(states, acts) && m <= n <= |acts| && q <= states[m].lastSequence
    ensures View(Written(states, acts, n), k, q) == View(Written(states, acts, m), k, q)
    ensures states[m].lastSequence <= states[n].lastSequence && SmallestSnapshot(states[m]) <= SmallestSnapshot(states[n])
  {
    if m < n {
      LaterRowsInvisible(states, acts, m, n - 1, k, q);
      NextRowsInvisible(states, acts, n, k, q);
    }
  }

  /** Reads repeat: a snapshot readable at two points of a run shows the same value at both, whatever was
      written, flushed, moved or compacted in between. */
  lemma SnapshotReadsRepeat(states: seq<State>, acts: seq<Action>, m: nat, n: nat, k: UserKey, q: SequenceNumber)
    requires IsRun(states, acts) && NothingBroughtBack(states, acts) && m <= n <= |acts|
    requires SmallestSnapshot(states[n]) <= q <= states[m].lastSequence
    ensures View(Everything(states[n]), k, q) == View(Everything(states[m]), k, q)
  {
    LaterRowsInvisible(states, acts, m, n, k, q);
    StoreRefinesHistory(states, acts, n, k, q);
    StoreRefinesHistory(states, acts, m, k, q);
  }

  // ----- snapshots -----------------------------------------------------------------------------------------

  /** The sequence numbers somebody may read at: those of the snapshots not released, and the latest. */
  function Readable(s: State): seq<SequenceNumber> {
    s.snapshots + [s.lastSequence]
  }

  ghost predicate IsLeast(q: SequenceNumber, qs: seq<SequenceNumber>) {
    q in qs && forall x :: x in qs ==> q <= x
  }

  /** The smallest snapshot is the least sequence number that somebody may read at. */
  lemma SmallestIsLeast(s: State)
    requires SequencesBounded(s)
    ensures IsLeast(SmallestSnapshot(s), Readable(s))
  {
    assert s.lastSequence in [s.lastSequence];
    assert forall x :: x in Readable(s) ==> x in s.snapshots || x == s.lastSequence;
  }

  /** A compaction keeps rows for the least of them. */
  lemma CompactionSparesReaders(s: State, run: Running, s': State)
    requires Inv(s) && IsStartStep(s, run, s')
    ensures IsLeast(run.snap, Readable(s))
  {
    SmallestIsLeast(s);
  }

  /** Whatever is written, snapshotted or released while it runs. */
  lemma RunningSparesReaders(states: seq<State>, acts: seq<Action>, n: nat)
    requires IsRun(states, acts) && n <= |acts| && states[n].job.Some?
    ensures forall q :: q in Readable(states[n]) ==> states[n].job.value.snap <= q
  {
    RunKeepsInv(states, acts, n);
    SmallestIsLeast(states[n]);
  }

  /** At every point of every run every snapshot not released, and the latest state, reads what the plain history of
      writes says. */
  lemma SnapshotsReadHistory(states: seq<State>, acts: seq<Action>, n: nat, k: UserKey, q: SequenceNumber)
    requires IsRun(states, acts) && NothingBroughtBack(states, acts) && n <= |acts| && q in Readable(states[n])
    ensures View(Everything(states[n]), k, q) == View(Written(states, acts, n), k, q)
  {
    RunKeepsInv(states, acts, n);
    SmallestIsLeast(states[n]);
    StoreRefinesHistory(states, acts, n, k, q);
  }

  /** The step releases a snapshot of this sequence number. */
  ghost predicate Releases(s: State, a: Action, q: SequenceNumber) {
    a.ReleaseSnapshot? && a.index < |s.snapshots| && s.snapshots[a.index] == q
  }

  ghost predicate HeldBetween(states: seq<State>, acts: seq<Action>, m: nat, n: nat, q: SequenceNumber)
    requires n <= |acts| < |states|
  {
    forall i :: m < i < n ==> !Releases(states[i], acts[i], q)
  }

  lemma StepHoldsSnapshot(s: State, a: Action, s': State, q: SequenceNumber)
    requires Step(s, a, s') && q in s.snapshots && !Releases(s, a, q)
    ensures q in s'.snapshots
  {
    StepCounts(s, a, s');
    if a.ReleaseSnapshot? {
      var i :| 0 <= i < |s.snapshots| && s.snapshots[i] == q;
      assert s'.snapshots[if i < a.index then i else i - 1] == q;
    }
  }

  lemma {:induction false} SnapshotIsHeld(states: seq<State>, acts: seq<Action>, m: nat, n: nat)
    requires IsRun(states, acts) && m < n <= |acts| && acts[m].TakeSnapshot?
    requires HeldBetween(states, acts, m, n, states[m].lastSequence)
    ensures states[m].lastSequence in states[n].snapshots
    decreases n
  {
    assert StepAt(states, acts, n - 1);
    if n - 1 == m {
      StepCounts(states[m], acts[m], states[n]);
    } else {
      SnapshotIsHeld(states, acts, m, n - 1);
      StepHoldsSnapshot(states[n - 1], acts[n - 1], states[n], states[m].lastSequence);
    }
  }

  /** A snapshot shows the store as it was when it was taken, until it is released: whatever was written, flushed, moved
      or compacted since. */
  lemma SnapshotShowsItsMoment(states: seq<State>, acts: seq<Action>, m: nat, n: nat, k: UserKey)
    requires IsRun(states, acts) && NothingBroughtBack(states, acts) && m < n <= |acts| && acts[m].TakeSnapshot?
    requires HeldBetween(states, acts, m, n, states[m].lastSequence)
    ensures View(Everything(states[n]), k, states[m].lastSequence) == View(Everything(states[m]), k, states[m].lastSequence)
  {
    var q := states[m].lastSequence;
    SnapshotIsHeld(states, acts, m, n);
    SnapshotsReadHistory(states, acts, n, k, q);
    SnapshotsReadHistory(states, acts, m, k, q);
    LaterRowsInvisible(states, acts, m, n, k, q);
  }

  /** At every point of every run, recovering from the manifest gives exactly the current file lists. */
  lemma RecoveryGivesCurrentVersion(states: seq<State>, acts: seq<Action>, n: nat, v: Levels)
    requires IsRun(states, acts) && n <= |acts|
    requires LogInRange(states[n].manifest) && |v| == NUM_LEVELS
    requires forall l :: 0 <= l < NUM_LEVELS ==> Lists(v[l], Replay(states[n].manifest)[l])
    ensures v == states[n].levels && AddsOnce(states[n].manifest)
  {
    RunKeepsInv(states, acts, n);
    var levels := states[n].levels;
    forall l | 0 <= l < NUM_LEVELS ensures v[l] == levels[l] {
      assert Replay(states[n].manifest)[l] == FileSet(levels[l]);
      ListsUnique(v[l], levels[l], FileSet(levels[l]));
    }
  }
}
