/** Writes go through the queue while the store flushes, compacts and takes snapshots at any point in between. The
    memtable gets the rows of a group one by one, before they are published; what readers see is a store in which the
    group is written in one step. */
module GroupCommit {
  import opened Sequences
  import opened DbFormat
  import opened Versions
  import opened CompactionMeaning
  import opened Store
  import opened StoreRuns
  import Q = WriteQueue

  /** The queue, and the store as it is in memory, with the rows inserted so far. */
  datatype System = System(q: Q.Queue, phys: State)

  datatype Event = Queued(act: Q.Action) | Other(a: Action)

  ghost predicate Inserting(q: Q.Queue) {
    q.leading.Some? && q.leading.value.Inserting?
  }

  /** The rows of the group being inserted that are in the memtable already. */
  ghost function Inserted(q: Q.Queue): seq<Entry>
    requires Q.RowsOk(q)
  {
    if Inserting(q) then NewRows(q.leading.value.updates, q.lastSequence)[..q.leading.value.inserted] else []
  }

  ghost predicate GetsRow(s: State, e: Entry, s': State) {
    SortedRun(s'.mem) && (forall x :: x in s'.mem <==> x in s.mem || x == e) && s' == s.(mem := s'.mem)
  }

  ghost predicate QueueStep(c: System, a: Q.Action, c': System) {
    && Q.Step(c.q, a, c'.q)
    && match a
       case InsertRow =>
         GetsRow(c.phys, NewRows(c.q.leading.value.updates, c.q.lastSequence)[c.q.leading.value.inserted], c'.phys)
       case Commit(_) => c'.q.lastSequence <= MAX_SEQUENCE && c'.phys == c.phys.(lastSequence := c'.q.lastSequence)
       case _ => c'.phys == c.phys
  }

  /** Anything but writing goes on as before; the memtable is switched by a leader before it inserts. */
  ghost predicate OtherStep(c: System, a: Action, c': System) {
    && c'.q == c.q && Step(c.phys, a, c'.phys) && !a.Write? && !a.FailedWrite?
    && (a.SwitchMemTable? ==> !Inserting(c.q))
  }

  ghost predicate SystemStep(c: System, ev: Event, c': System) {
    match ev
    case Queued(a) => QueueStep(c, a, c')
    case Other(a) => OtherStep(c, a, c')
  }

  /** The store readers see: all but the rows inserted and not published. */
  ghost predicate Backs(c: System, s: State) {
    && Q.Inv(c.q) && s.lastSequence == c.q.lastSequence
    && c.phys == s.(mem := c.phys.mem) && SortedRun(c.phys.mem)
    && (forall e :: e in c.phys.mem <==> e in s.mem || e in Inserted(c.q))
    && (Inserted(c.q) == [] ==> c.phys == s)
  }

  /** Who reads while a group is being inserted sees the store before it. */
  lemma MidInsertionReads(c: System, s: State, k: UserKey, n: SequenceNumber)
    requires Inv(s) && Backs(c, s) && n <= c.q.lastSequence
    ensures View(Everything(c.phys), k, n) == View(Everything(s), k, n)
  {
    var rows := Members(Inserted(c.q));
    EverythingUnique(s);
    InsertedFacts(c.q);
    assert Everything(c.phys) == Everything(s) + rows;
    SameCandidates(Everything(s), rows, k, n);
  }

  lemma InsertedFacts(q: Q.Queue)
    requires Q.Inv(q)
    ensures UniqueSeqs(Members(Inserted(q))) && forall e :: e in Inserted(q) ==> e.key.seqno > q.lastSequence
  {
    if Inserting(q) {
      NewRowsFacts(q.leading.value.updates, q.lastSequence);
    }
  }

  /** A successful commit is one write of the group's updates; a failed one only uses up their sequence numbers. */
  lemma CommitRefines(c: System, ok: bool, c': System, s: State)
    requires Backs(c, s) && QueueStep(c, Q.Commit(ok), c')
    ensures Backs(c', c'.phys)
    ensures Step(s, if ok then Action.Write(c.q.leading.value.updates) else FailedWrite(|c.q.leading.value.updates|), c'.phys)
  {
    Q.StepKeepsInv(c.q, Q.Commit(ok), c'.q);
    CommitIsStoreStep(s, c.phys, c.q.leading.value.updates, c.q.leading.value.inserted, ok, c'.phys);
  }

  lemma CommitIsStoreStep(s: State, phys: State, updates: seq<Update>, n: nat, ok: bool, phys': State)
    requires s.lastSequence + |updates| < MAX_SEQUENCE && n == (if ok then |updates| else 0)
    requires phys == s.(mem := phys.mem) && SortedRun(phys.mem) && (n == 0 ==> phys == s)
    requires forall e :: e in phys.mem <==> e in s.mem || e in NewRows(updates, s.lastSequence)[..n]
    requires phys' == phys.(lastSequence := s.lastSequence + |updates|)
    ensures Step(s, if ok then Action.Write(updates) else FailedWrite(|updates|), phys')
  {
    var rows := NewRows(updates, s.lastSequence);
    assert ok ==> rows[..n] == rows;
  }

  /** The other steps of the queue change nothing that readers see. */
  lemma QueueStepRefines(c: System, a: Q.Action, c': System, s: State)
    requires Backs(c, s) && QueueStep(c, a, c') && !a.Commit?
    ensures Backs(c', s)
  {
    Q.StepKeepsInv(c.q, a, c'.q);
    if a.InsertRow? {
      RowInserted(c.q, c'.q);
    } else {
      assert Inserted(c'.q) == Inserted(c.q);
    }
  }

  lemma RowInserted(q: Q.Queue, q': Q.Queue)
    requires Q.Inv(q) && Q.Inv(q') && Q.Step(q, Q.InsertRow, q')
    ensures q'.lastSequence == q.lastSequence
    ensures Inserted(q') == Inserted(q) + [NewRows(q.leading.value.updates, q.lastSequence)[q.leading.value.inserted]]
  {
    var rows, n := NewRows(q.leading.value.updates, q.lastSequence), q.leading.value.inserted;
    assert rows[..n + 1] == rows[..n] + [rows[n]];
  }

  /** The rest of the store works the same with or without the rows not yet published. */
  lemma OtherStepRefines(c: System, a: Action, c': System, s: State) returns (s': State)
    requires Backs(c, s) && OtherStep(c, a, c')
    ensures Backs(c', s') && Step(s, a, s')
  {
    if Inserted(c.q) == [] {
      s' := c'.phys;
    } else {
      s' := c'.phys.(mem := s.mem);
      SameStep(c.phys, a, c'.phys, s);
    }
  }

  lemma SameStep(phys: State, a: Action, phys': State, s: State)
    requires Step(phys, a, phys') && !a.Write? && !a.FailedWrite? && !a.SwitchMemTable? && phys == s.(mem := phys.mem)
    ensures Step(s, a, phys'.(mem := s.mem)) && phys'.mem == phys.mem && phys'.lastSequence == phys.lastSequence
  {
    if a.InstallCompaction? {
      SameClear(phys, s, a.outs);
    }
  }

  lemma SameClear(phys: State, s: State, outs: seq<FileMeta>)
    requires phys == s.(mem := phys.mem) && ClearOfFlushes(phys, outs)
    ensures ClearOfFlushes(s, outs)
  {
    var c, d := JobNow(phys), JobNow(s);
    assert forall g :: Newcomer(d, g) ==> Newcomer(c, g);
  }

  ghost predicate SystemStepAt(cs: seq<System>, evs: seq<Event>, i: nat)
    requires i < |evs| < |cs|
  {
    SystemStep(cs[i], evs[i], cs[i + 1])
  }

  ghost predicate IsSystemRun(cs: seq<System>, evs: seq<Event>) {
    && |cs| == |evs| + 1 && Q.Init(cs[0].q) && Init(cs[0].phys)
    && forall i :: 0 <= i < |evs| ==> SystemStepAt(cs, evs, i)
  }

  /** No other step so far brought back a key deleted for the oldest reader. */
  ghost predicate QuietUpTo(cs: seq<System>, evs: seq<Event>, n: nat)
    requires n <= |evs| < |cs|
  {
    forall i :: 0 <= i < n && evs[i].Other? ==> !BringsBack(cs[i].phys, evs[i].a)
  }

  /** A run of the store that writes the committed groups, each in one step, and nothing else, and ends in a state that
      backs the system. */
  ghost predicate Carried(c: System, states: seq<State>, acts: seq<Action>) {
    && IsRun(states, acts) && Backs(c, states[|acts|])
    && Written(states, acts, |acts|) == Members(Q.CommittedRows(c.q.groups))
  }

  /** Rows not yet published lie above what the oldest reader sees, so they hide no key that comes back. */
  lemma BringsBackInMemory(c: System, s: State, a: Action)
    requires SmallestSnapshot(s) <= s.lastSequence && Backs(c, s) && BringsBack(s, a)
    ensures BringsBack(c.phys, a)
  {
    var floor, rows := SmallestSnapshot(s), Members(Inserted(c.q));
    var d, g :| ResurrectsBy(JobNow(s), floor, d, g);
    InsertedFacts(c.q);
    SameJob(c, s);
    NewerAbove(JobNow(s), rows, floor, d, g);
  }

  lemma SameJob(c: System, s: State)
    requires Backs(c, s) && s.job.Some?
    ensures c.phys.job == s.job && c.phys.levels == s.levels && SmallestSnapshot(c.phys) == SmallestSnapshot(s)
    ensures JobNow(c.phys) == JobNow(s).(above := JobNow(s).above + Members(Inserted(c.q)))
  {
    assert Above(c.phys) == Above(s) + Members(Inserted(c.q));
  }

  lemma NewerAbove(c: Job, rows: iset<Entry>, floor: SequenceNumber, d: Entry, g: FileMeta)
    requires c.l + 1 < |c.v| && ResurrectsBy(c, floor, d, g) && forall e :: e in rows ==> e.key.seqno > floor
    ensures ResurrectsBy(c.(above := c.above + rows), floor, d, g)
  {
    var c' := c.(above := c.above + rows);
    forall x ensures Candidate(Before(c'), d.key.user, floor, x) <==> Candidate(Before(c), d.key.user, floor, x) {
    }
    forall h ensures Continuation(c', d, h) <==> Continuation(c, d, h) {
    }
  }

  lemma CommittedGroup(q: Q.Queue, ok: bool, q': Q.Queue, s: State, a: Action)
    requires Q.Inv(q) && Q.Step(q, Q.Commit(ok), q') && s.lastSequence == q.lastSequence
    requires a == if ok then Action.Write(q.leading.value.updates) else FailedWrite(|q.leading.value.updates|)
    ensures Members(Q.CommittedRows(q'.groups)) == Members(Q.CommittedRows(q.groups)) + RowsOf(s, a)
  {
    var rows := if ok then NewRows(q.leading.value.updates, q.lastSequence) else [];
    assert q'.groups[..|q.groups|] == q.groups;
    assert Q.CommittedRows(q'.groups) == Q.CommittedRows(q.groups) + rows;
    assert RowsOf(s, a) == Members(rows);
  }

  /** A commit extends the run by one step that writes the whole group, or nothing. */
  lemma CarryCommit(c: System, ok: bool, c': System, states: seq<State>, acts: seq<Action>)
    returns (states': seq<State>, acts': seq<Action>)
    requires Carried(c, states, acts) && QueueStep(c, Q.Commit(ok), c')
    ensures Carried(c', states', acts') && (NothingBroughtBack(states, acts) ==> NothingBroughtBack(states', acts'))
  {
    var s, updates := states[|acts|], c.q.leading.value.updates;
    var a := if ok then Action.Write(updates) else FailedWrite(|updates|);
    CommitRefines(c, ok, c', s);
    CommittedGroup(c.q, ok, c'.q, s, a);
    states', acts' := ExtendRun(states, acts, a, c'.phys);
  }

  /** Any other step of the store is a step of the run as well. */
  lemma CarryOther(c: System, a: Action, c': System, states: seq<State>, acts: seq<Action>)
    returns (states': seq<State>, acts': seq<Action>)
    requires Carried(c, states, acts) && OtherStep(c, a, c')
    ensures Carried(c', states', acts')
    ensures NothingBroughtBack(states, acts) && !BringsBack(c.phys, a) ==> NothingBroughtBack(states', acts')
  {
    var s' := OtherStepRefines(c, a, c', states[|acts|]);
    states', acts' := ExtendRun(states, acts, a, s');
    SeenInMemory(c, a, states, acts);
  }

  lemma SeenInMemory(c: System, a: Action, states: seq<State>, acts: seq<Action>)
    requires IsRun(states, acts) && Backs(c, states[|acts|])
    ensures BringsBack(states[|acts|], a) ==> BringsBack(c.phys, a)
  {
    RunKeepsInv(states, acts, |acts|);
    if BringsBack(states[|acts|], a) {
      BringsBackInMemory(c, states[|acts|], a);
    }
  }

  lemma CarryStep(c: System, ev: Event, c': System, states: seq<State>, acts: seq<Action>)
    returns (states': seq<State>, acts': seq<Action>)
    requires Carried(c, states, acts) && SystemStep(c, ev, c')
    ensures Carried(c', states', acts')
    ensures NothingBroughtBack(states, acts) && (ev.Other? ==> !BringsBack(c.phys, ev.a)) ==> NothingBroughtBack(states', acts')
  {
    match ev
    case Queued(a) =>
      if a.Commit? {
        states', acts' := CarryCommit(c, a.ok, c', states, acts);
      } else {
        states', acts' := states, acts;
        QueueStepRefines(c, a, c', states[|acts|]);
      }
    case Other(a) => states', acts' := CarryOther(c, a, c', states, acts);
  }

  /** At every point of every run of queue and store together, what is in memory is backed by a run of the store that
      writes exactly the groups committed so far, each in one step. */
  lemma {:induction false} RunIsBacked(cs: seq<System>, evs: seq<Event>, n: nat)
    returns (states: seq<State>, acts: seq<Action>)
    requires IsSystemRun(cs, evs) && n <= |evs|
    ensures Carried(cs[n], states, acts) && (QuietUpTo(cs, evs, n) ==> NothingBroughtBack(states, acts))
  {
    if n == 0 {
      states, acts := [cs[0].phys], [];
      assert Backs(cs[0], cs[0].phys);
    } else {
      var before, done := RunIsBacked(cs, evs, n - 1);
      assert SystemStepAt(cs, evs, n - 1);
      states, acts := CarryStep(cs[n - 1], evs[n - 1], cs[n], before, done);
    }
  }

  /** And so every reader, at every readable published sequence number and at any moment, in the middle of an insertion
      too, sees exactly the groups committed so far. */
  lemma ReadersSeeGroupsWhole(cs: seq<System>, evs: seq<Event>, n: nat, k: UserKey, q: SequenceNumber)
    requires IsSystemRun(cs, evs) && n <= |evs| && QuietUpTo(cs, evs, n)
    requires SmallestSnapshot(cs[n].phys) <= q <= cs[n].q.lastSequence
    ensures View(Everything(cs[n].phys), k, q) == View(Members(Q.CommittedRows(cs[n].q.groups)), k, q)
  {
    var states, acts := RunIsBacked(cs, evs, n);
    RunKeepsInv(states, acts, |acts|);
    MidInsertionReads(cs[n], states[|acts|], k, q);
    StoreRefinesHistory(states, acts, |acts|, k, q);
  }

  /** So does every snapshot not released, and whoever reads the latest state. */
  lemma SnapshotsSeeGroupsWhole(cs: seq<System>, evs: seq<Event>, n: nat, k: UserKey, q: SequenceNumber)
    requires IsSystemRun(cs, evs) && n <= |evs| && QuietUpTo(cs, evs, n) && q in Readable(cs[n].phys)
    ensures View(Everything(cs[n].phys), k, q) == View(Members(Q.CommittedRows(cs[n].q.groups)), k, q)
  {
    var states, acts := RunIsBacked(cs, evs, n);
    RunKeepsInv(states, acts, |acts|);
    SmallestIsLeast(states[|acts|]);
    MidInsertionReads(cs[n], states[|acts|], k, q);
    StoreRefinesHistory(states, acts, |acts|, k, q);
  }

  // ----- what a group means ------------------------------------------------------------------------------------

  /** Update i of the batch of the writer at place j of the queue is the group's last word on its key. */
  ghost predicate LastWord(ws: seq<Q.Writer>, j: nat, i: nat) {
    && j < |ws| && i < |Q.BatchOf(ws[j])|
    && var key := Q.BatchOf(ws[j])[i].key;
       && (forall m :: i < m < |Q.BatchOf(ws[j])| ==> Q.BatchOf(ws[j])[m].key != key)
       && forall l, m :: j < l < |ws| && 0 <= m < |Q.BatchOf(ws[l])| ==> Q.BatchOf(ws[l])[m].key != key
  }

  lemma PlaceOfUpdate(ws: seq<Q.Writer>, updates: seq<Update>, starts: seq<nat>, m: nat) returns (j: nat)
    requires Q.InQueueOrder(ws, updates, starts) && m < |updates|
    ensures j < |ws| && starts[j] <= m < starts[j + 1] && m - starts[j] < |Q.BatchOf(ws[j])|
    ensures updates[m] == Q.BatchOf(ws[j])[m - starts[j]]
  {
    j := 0;
    while starts[j + 1] <= m
      invariant j < |ws| && starts[j] <= m
      decreases |ws| - j
    {
      j := j + 1;
    }
    assert Q.BatchAt(ws, updates, starts, j);
    assert updates[starts[j]..starts[j + 1]][m - starts[j]] == updates[m];
  }

  lemma LastWordIsLast(ws: seq<Q.Writer>, updates: seq<Update>, starts: seq<nat>, j: nat, i: nat)
    requires Q.InQueueOrder(ws, updates, starts) && LastWord(ws, j, i)
    ensures var n := starts[j] + i;
            && n < |updates| && updates[n] == Q.BatchOf(ws[j])[i]
            && forall m :: n < m < |updates| ==> updates[m].key != updates[n].key
  {
    var n := starts[j] + i;
    assert Q.BatchAt(ws, updates, starts, j);
    assert updates[starts[j]..starts[j + 1]][i] == updates[n];
    forall m | n < m < |updates| ensures updates[m].key != updates[n].key {
      var l := PlaceOfUpdate(ws, updates, starts, m);
      assert l >= j;
    }
  }

  /** Right after a group is committed, whoever reads sees for every key the update that comes last in the order in
      which the writers queued. */
  lemma CommittedGroupIsRead(cs: seq<System>, evs: seq<Event>, n: nat, j: nat, i: nat)
    requires IsSystemRun(cs, evs) && n < |evs| && evs[n] == Queued(Q.Commit(true))
    requires Inserting(cs[n].q) && cs[n].q.leading.value.members <= |cs[n].q.queue| && Q.AllKnown(cs[n].q.writers, cs[n].q.queue)
    requires var q := cs[n].q; LastWord(Q.WritersOf(q.writers, q.queue)[..q.leading.value.members], j, i)
    ensures var u := cs[n].q.writers[cs[n].q.queue[j]].batch.value[i];
            View(Everything(cs[n + 1].phys), u.key, cs[n + 1].phys.lastSequence) == if u.kind.Put? then Some(u.value) else None
  {
    var c, c' := cs[n], cs[n + 1];
    var states, acts := RunIsBacked(cs, evs, n);
    RunKeepsInv(states, acts, |acts|);
    assert SystemStepAt(cs, evs, n);
    GroupIsRead(c, c', states[|acts|], j, i);
  }

  lemma GroupIsRead(c: System, c': System, s: State, j: nat, i: nat)
    requires Inv(s) && Backs(c, s) && QueueStep(c, Q.Commit(true), c') && Q.AllKnown(c.q.writers, c.q.queue)
    requires LastWord(Q.WritersOf(c.q.writers, c.q.queue)[..c.q.leading.value.members], j, i)
    ensures var u := c.q.writers[c.q.queue[j]].batch.value[i];
            View(Everything(c'.phys), u.key, c'.phys.lastSequence) == if u.kind.Put? then Some(u.value) else None
  {
    var updates := c.q.leading.value.updates;
    var n := GroupsLastWord(c.q, j, i);
    CommitRefines(c, true, c', s);
    assert IsWrite(s, updates, c'.phys);
    WriteIsRead(s, updates, c'.phys, n);
  }

  lemma GroupsLastWord(q: Q.Queue, j: nat, i: nat) returns (n: nat)
    requires Q.LeadingOk(q) && Inserting(q) && Q.AllKnown(q.writers, q.queue)
    requires LastWord(Q.WritersOf(q.writers, q.queue)[..q.leading.value.members], j, i)
    ensures var updates := q.leading.value.updates;
            && n < |updates| && updates[n] == q.writers[q.queue[j]].batch.value[i]
            && forall m :: n < m < |updates| ==> updates[m].key != updates[n].key
  {
    var g := q.leading.value;
    var ws := Q.WritersOf(q.writers, q.queue)[..g.members];
    assert ws == Q.WritersOf(q.writers, q.queue[..g.members]);
    var starts := Q.UpdatesInQueueOrder(ws);
    LastWordIsLast(ws, g.updates, starts, j, i);
    n := starts[j] + i;
  }
}
