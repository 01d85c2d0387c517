/** Group commit: writers queue up, the one at the front writes for a whole group (DBImpl::Write and
    BuildBatchGroup in db/db_impl.cc). */
module WriteQueue {
  import opened Sequences
  import opened DbFormat
  import opened Store

  /** A queued write. No batch means the caller only wants the memtable switched. */
  datatype Writer = Writer(batch: Option<seq<Update>>, bytes: nat, sync: bool)

  const KB128 := 128 * 1024
  const MB1 := 1024 * 1024

  // ----- forming a group -------------------------------------------------------------------------------------

  function MaxGroupBytes(first: Writer): nat {
    if first.bytes <= KB128 then first.bytes + KB128 else MB1
  }

  function BatchBytes(w: Writer): nat {
    if w.batch.Some? then w.bytes else 0
  }

  /** The bytes of all batches together. */
  function Bytes(ws: seq<Writer>): (r: nat)
    ensures (forall j :: 0 <= j < |ws| ==> ws[j].batch.None?) ==> r == 0
    ensures forall j :: 0 <= j < |ws| && ws[j].batch.Some? ==> r >= ws[j].bytes
  {
    if ws == [] then 0 else Bytes(ws[..|ws| - 1]) + BatchBytes(ws[|ws| - 1])
  }

  function Updates(ws: seq<Writer>): seq<Update> {
    if ws == [] then []
    else
      var w := ws[|ws| - 1];
      Updates(ws[..|ws| - 1]) + if w.batch.Some? then w.batch.value else []
  }

  function BatchOf(w: Writer): seq<Update> {
    if w.batch.Some? then w.batch.value else []
  }

  /** The updates of all batches, those of writer j from place starts[j] up to starts[j + 1]. */
  ghost predicate InQueueOrder(ws: seq<Writer>, updates: seq<Update>, starts: seq<nat>) {
    && |starts| == |ws| + 1 && starts[0] == 0 && starts[|ws|] == |updates|
    && (forall j :: 0 <= j <= |ws| ==> starts[j] <= |updates|)
    && (forall i, j :: 0 <= i <= j <= |ws| ==> starts[i] <= starts[j])
    && forall j :: 0 <= j < |ws| ==> BatchAt(ws, updates, starts, j)
  }

  ghost predicate BatchAt(ws: seq<Writer>, updates: seq<Update>, starts: seq<nat>, j: nat)
    requires j < |ws| < |starts|
  {
    starts[j] <= starts[j + 1] <= |updates| && updates[starts[j]..starts[j + 1]] == BatchOf(ws[j])
  }

  /** A group's updates are its batches one after the other, in the order of the queue. */
  lemma {:induction false} UpdatesInQueueOrder(ws: seq<Writer>) returns (starts: seq<nat>)
    ensures InQueueOrder(ws, Updates(ws), starts)
  {
    if ws == [] {
      starts := [0];
    } else {
      var n := |ws| - 1;
      var before := UpdatesInQueueOrder(ws[..n]);
      starts := before + [|Updates(ws)|];
      forall j | 0 <= j < |ws| ensures BatchAt(ws, Updates(ws), starts, j) {
        if j < n {
          assert BatchAt(ws[..n], Updates(ws[..n]), before, j);
          assert Updates(ws)[starts[j]..starts[j + 1]] == Updates(ws[..n])[starts[j]..starts[j + 1]];
        }
      }
    }
  }

  /** The writer at j may not join the group of those before it. */
  predicate MustStopAt(ws: seq<Writer>, j: nat)
    requires 0 < j < |ws|
  {
    || (ws[j].sync && !ws[0].sync)
    || (ws[j].batch.Some? && Bytes(ws[..j]) + ws[j].bytes > MaxGroupBytes(ws[0]))
  }

  /** The first k writers form the group: none of them had to be left out, and the next one, if any, does. */
  ghost predicate IsGroup(ws: seq<Writer>, k: nat) {
    && 0 < k <= |ws|
    && (forall j :: 0 < j < k ==> !MustStopAt(ws, j))
    && (k < |ws| ==> MustStopAt(ws, k))
  }

  /** BuildBatchGroup: the longest allowed prefix of the queue, and its updates in queue order. */
  method BuildBatchGroup(ws: seq<Writer>) returns (k: nat, result: seq<Update>)
    requires ws != [] && ws[0].batch.Some?
    ensures IsGroup(ws, k) && result == Updates(ws[..k])
    ensures exists starts :: InQueueOrder(ws[..k], result, starts)
  {
    var first := ws[0];
    result := first.batch.value;
    var size := first.bytes;
    var maxSize := MB1;
    if size <= KB128 {
      maxSize := size + KB128;
    }
    assert ws[..1][..0] == [] && ws[..1][0] == first;
    k := 1;
    while k < |ws|
      invariant 0 < k <= |ws|
      invariant size == Bytes(ws[..k]) && result == Updates(ws[..k])
      invariant forall j :: 0 < j < k ==> !MustStopAt(ws, j)
    {
      var w := ws[k];
      assert ws[..k + 1][..k] == ws[..k];
      if w.sync && !first.sync {
        break;
      }
      if w.batch.Some? {
        if size + w.bytes > maxSize {
          break;
        }
        size := size + w.bytes;
        result := result + w.batch.value;
      }
      k := k + 1;
    }
    ghost var starts := UpdatesInQueueOrder(ws[..k]);
  }

  /** No sync write rides in a group led by a writer that does not sync; a group of several stays within the leader's
      limit; and it ends only where the next writer would break one of these rules. */
  lemma {:induction false} GroupIsFair(ws: seq<Writer>, k: nat)
    requires IsGroup(ws, k) && ws[0].batch.Some?
    ensures forall j :: 0 <= j < k && ws[j].sync ==> ws[0].sync
    ensures Bytes(ws[..k]) == ws[0].bytes || Bytes(ws[..k]) <= if ws[0].bytes <= 131072 then ws[0].bytes + 131072 else 1048576
    ensures k < |ws| ==>
              || (ws[k].sync && !ws[0].sync)
              || (ws[k].batch.Some? && Bytes(ws[..k + 1]) > if ws[0].bytes <= 131072 then ws[0].bytes + 131072 else 1048576)
  {
    if k < |ws| {
      assert ws[..k + 1][..k] == ws[..k];
    }
    PrefixWithinLimit(ws, k, k);
    forall j | 0 < j < k && ws[j].sync ensures ws[0].sync {
      assert !MustStopAt(ws, j);
    }
  }

  lemma {:induction false} PrefixWithinLimit(ws: seq<Writer>, k: nat, n: nat)
    requires IsGroup(ws, k) && ws[0].batch.Some? && 0 < n <= k
    ensures Bytes(ws[..n]) <= MaxGroupBytes(ws[0]) || Bytes(ws[..n]) == ws[0].bytes
  {
    assert ws[..n][..n - 1] == ws[..n - 1];
    if n == 1 {
      assert Bytes(ws[..0]) == 0;
    } else {
      PrefixWithinLimit(ws, k, n - 1);
      assert !MustStopAt(ws, n - 1);
    }
  }

  // ----- the queue as a state machine ------------------------------------------------------------------------

  /** One group's commit: its members and their place in the order of arrival, the range
      of sequence numbers it got, and whether its log write was synced. */
  datatype Group = Group(from: nat, to: nat, members: seq<nat>, last: nat, updates: seq<Update>, sync: bool, ok: bool)

  datatype Leading = MakingRoom | Inserting(members: nat, updates: seq<Update>, inserted: nat)

  datatype Queue = Queue(
    writers: map<nat, Writer>, arrivals: seq<nat>, queue: seq<nat>, asleep: set<nat>, finished: seq<nat>,
    leading: Option<Leading>, lastSequence: nat, rows: seq<Entry>, groups: seq<Group>)

  datatype Action =
    | Arrive(id: nat, w: Writer)
    | WakeUp(id: nat)
    | Lead
    | FormGroup(k: nat)
    | InsertRow
    | Commit(ok: bool)
    | LeadWithoutBatch

  ghost predicate AllKnown(writers: map<nat, Writer>, ids: seq<nat>) {
    forall i :: 0 <= i < |ids| ==> ids[i] in writers
  }

  ghost function WritersOf(writers: map<nat, Writer>, ids: seq<nat>): seq<Writer>
    requires AllKnown(writers, ids)
  {
    seq(|ids|, i requires 0 <= i < |ids| => writers[ids[i]])
  }

  /** Pop the first k writers, mark them done and signal them and the new front. */
  function PopGroup(q: Queue, k: nat): Queue
    requires k <= |q.queue|
  {
    var rest := q.queue[k..];
    q.(queue := rest, finished := q.finished + q.queue[..k], leading := None,
       asleep := q.asleep - (set i | 0 <= i < k :: q.queue[i]) - (if rest == [] then {} else {rest[0]}))
  }

  ghost predicate Step(q: Queue, a: Action, q': Queue) {
    match a
    case Arrive(id, w) =>
      && id !in q.writers
      && q' == q.(writers := q.writers[id := w], arrivals := q.arrivals + [id], queue := q.queue + [id],
                  asleep := if q.queue == [] then q.asleep else q.asleep + {id})
    case WakeUp(id) => q' == q
    case Lead =>
      q.leading.None? && q.queue != [] && q.queue[0] !in q.asleep && q' == q.(leading := Some(MakingRoom))
    case FormGroup(k) =>
      && q.leading == Some(MakingRoom) && q.queue != []
      && AllKnown(q.writers, q.queue)
      && var ws := WritersOf(q.writers, q.queue);
         && ws[0].batch.Some? && IsGroup(ws, k)
         && q.lastSequence + |Updates(ws[..k])| < MAX_SEQUENCE
         && q' == q.(leading := Some(Inserting(k, Updates(ws[..k]), 0)))
    case InsertRow =>
      && q.leading.Some? && q.leading.value.Inserting? && q.lastSequence + |q.leading.value.updates| < MAX_SEQUENCE
      && var g := q.leading.value;
         && g.inserted < |g.updates|
         && q' == q.(leading := Some(g.(inserted := g.inserted + 1)),
                     rows := q.rows + [NewRows(g.updates, q.lastSequence)[g.inserted]])
    case Commit(ok) =>
      && q.leading.Some? && q.leading.value.Inserting? && q.leading.value.members <= |q.queue|
      && q.queue != [] && q.queue[0] in q.writers
      && var g := q.leading.value;
         && (if ok then g.inserted == |g.updates| else g.inserted == 0)
         && q' == PopGroup(q, g.members).(lastSequence := q.lastSequence + |g.updates|,
                    groups := q.groups + [Group(|q.finished|, |q.finished| + g.members, q.queue[..g.members],
                                          q.lastSequence, g.updates, q.writers[q.queue[0]].sync, ok)])
    case LeadWithoutBatch =>
      q.leading == Some(MakingRoom) && q.queue != [] && q' == PopGroup(q, 1)
  }

  ghost predicate Init(q: Queue) {
    q == Queue(map[], [], [], {}, [], None, 0, [], [])
  }

  // ----- the invariant -----------------------------------------------------------------------------------------

  /** Arrival order: those finished, then those still queued, are exactly those who arrived. */
  ghost predicate OrderOk(q: Queue) {
    && q.finished + q.queue == q.arrivals && NoDup(q.arrivals)
    && (forall id :: id in q.arrivals <==> id in q.writers)
    && (q.leading.Some? ==> q.queue != [])
  }

  /** Only queued writers sleep, and never the one at the front: it was woken, or never slept. */
  ghost predicate SleepOk(q: Queue) {
    forall id :: id in q.asleep ==> id in q.queue && id != q.queue[0]
  }

  /** A group took its members' updates in order, and syncs if any of them asked for it. */
  ghost predicate GroupOk(writers: map<nat, Writer>, members: seq<nat>, updates: seq<Update>, sync: bool) {
    && AllKnown(writers, members)
    && updates == Updates(WritersOf(writers, members))
    && (forall i :: 0 <= i < |members| && writers[members[i]].sync ==> sync)
  }

  ghost predicate GroupsOk(writers: map<nat, Writer>, groups: seq<Group>) {
    forall i :: 0 <= i < |groups| ==> GroupOk(writers, groups[i].members, groups[i].updates, groups[i].sync)
  }

  ghost predicate Placed(g: Group, arrivals: seq<nat>) {
    g.from <= g.to <= |arrivals| && g.members == arrivals[g.from..g.to]
  }

  /** Groups take the writers in the order they arrived. */
  ghost predicate PlacesOk(groups: seq<Group>, arrivals: seq<nat>, done: nat) {
    && (forall i :: 0 <= i < |groups| ==> Placed(groups[i], arrivals) && groups[i].to <= done)
    && (forall i, j :: 0 <= i < j < |groups| ==> groups[i].to <= groups[j].from)
  }

  /** Sequence ranges follow each other without gap or overlap, up to the published last sequence. */
  ghost predicate RangesOk(groups: seq<Group>, lastSequence: nat) {
    Chained(groups) && lastSequence == LastEnd(groups) < MAX_SEQUENCE
  }

  ghost predicate Chained(groups: seq<Group>) {
    && (groups != [] ==> groups[0].last == 0)
    && (forall i, j :: 0 <= i < j < |groups| && j == i + 1 ==> groups[j].last == EndOf(groups[i]))
  }

  function LastEnd(groups: seq<Group>): nat {
    if groups == [] then 0 else EndOf(groups[|groups| - 1])
  }

  function EndOf(g: Group): nat {
    g.last + |g.updates|
  }

  /** The rows of the committed groups, in order. */
  ghost function CommittedRows(groups: seq<Group>): seq<Entry> {
    if groups == [] then []
    else
      var g := groups[|groups| - 1];
      CommittedRows(groups[..|groups| - 1]) +
      if g.ok && g.last + |g.updates| < MAX_SEQUENCE then NewRows(g.updates, g.last) else []
  }

  /** The memtable holds the committed rows and, past the published sequence, part of the group being inserted. */
  ghost predicate RowsOk(q: Queue) {
    if q.leading.Some? && q.leading.value.Inserting? then
      var g := q.leading.value;
      && q.lastSequence + |g.updates| < MAX_SEQUENCE && g.inserted <= |g.updates|
      && q.rows == CommittedRows(q.groups) + NewRows(g.updates, q.lastSequence)[..g.inserted]
    else q.rows == CommittedRows(q.groups)
  }

  ghost predicate LeadingOk(q: Queue) {
    q.leading.Some? && q.leading.value.Inserting? ==>
      var g := q.leading.value;
      && 0 < g.members <= |q.queue| && q.queue[0] in q.writers
      && GroupOk(q.writers, q.queue[..g.members], g.updates, q.writers[q.queue[0]].sync)
  }

  ghost predicate Inv(q: Queue) {
    && OrderOk(q) && SleepOk(q) && RangesOk(q.groups, q.lastSequence) && RowsOk(q) && LeadingOk(q)
    && GroupsOk(q.writers, q.groups)
    && PlacesOk(q.groups, q.arrivals, |q.finished|)
  }

  /** Facts about writers already there survive a new arrival. */
  lemma ArrivalKeepsGroup(writers: map<nat, Writer>, id: nat, w: Writer, members: seq<nat>, updates: seq<Update>, sync: bool)
    requires id !in writers && GroupOk(writers, members, updates, sync)
    ensures GroupOk(writers[id := w], members, updates, sync)
  {
    assert WritersOf(writers[id := w], members) == WritersOf(writers, members);
  }

  lemma ArriveKeepsOrder(q: Queue, id: nat, w: Writer, q': Queue)
    requires OrderOk(q) && SleepOk(q) && Step(q, Arrive(id, w), q')
    ensures OrderOk(q') && SleepOk(q')
  {
    assert q'.finished + q'.queue == q'.arrivals;
    QueueInWriters(q);
  }

  lemma ArriveKeepsGroups(q: Queue, id: nat, w: Writer, q': Queue)
    requires OrderOk(q) && LeadingOk(q) && GroupsOk(q.writers, q.groups) && Step(q, Arrive(id, w), q')
    ensures LeadingOk(q') && GroupsOk(q'.writers, q'.groups)
  {
    forall i | 0 <= i < |q.groups| ensures GroupOk(q'.writers, q.groups[i].members, q.groups[i].updates, q.groups[i].sync) {
      ArrivalKeepsGroup(q.writers, id, w, q.groups[i].members, q.groups[i].updates, q.groups[i].sync);
    }
    if q.leading.Some? && q.leading.value.Inserting? {
      var g := q.leading.value;
      assert q'.queue[..g.members] == q.queue[..g.members];
      ArrivalKeepsGroup(q.writers, id, w, q.queue[..g.members], g.updates, q.writers[q.queue[0]].sync);
    }
  }

  lemma ArriveKeepsInv(q: Queue, id: nat, w: Writer, q': Queue)
    requires Inv(q) && Step(q, Arrive(id, w), q')
    ensures Inv(q')
  {
    ArriveKeepsOrder(q, id, w, q');
    ArriveKeepsGroups(q, id, w, q');
    LongerArrivals(q.groups, q.arrivals, id, |q.finished|);
  }

  lemma QueueInWriters(q: Queue)
    requires OrderOk(q)
    ensures AllKnown(q.writers, q.queue) && NoDup(q.queue)
  {
    assert forall i :: 0 <= i < |q.queue| ==> q.queue[i] == q.arrivals[|q.finished| + i];
    forall i | 0 <= i < |q.queue| ensures q.queue[i] in q.writers {
      assert q.arrivals[|q.finished| + i] in q.arrivals;
    }
  }

  lemma FormedGroupOk(writers: map<nat, Writer>, queue: seq<nat>, k: nat)
    requires AllKnown(writers, queue) && 0 < k <= |queue|
    requires var ws := WritersOf(writers, queue); ws[0].batch.Some? && IsGroup(ws, k)
    ensures var ws := WritersOf(writers, queue); GroupOk(writers, queue[..k], Updates(ws[..k]), writers[queue[0]].sync)
  {
    var ws := WritersOf(writers, queue);
    GroupIsFair(ws, k);
    assert WritersOf(writers, queue[..k]) == ws[..k];
    forall i | 0 <= i < k && writers[queue[i]].sync ensures writers[queue[0]].sync {
      assert ws[i].sync;
    }
  }

  lemma FormGroupKeepsInv(q: Queue, k: nat, q': Queue)
    requires Inv(q) && Step(q, FormGroup(k), q')
    ensures Inv(q')
  {
    FormedGroupOk(q.writers, q.queue, k);
    StartedRowsOk(q, q');
    assert LeadingOk(q');
    assert OrderOk(q') && SleepOk(q') && GroupsOk(q'.writers, q'.groups);
  }

  lemma StartedRowsOk(q: Queue, q': Queue)
    requires RowsOk(q) && RangesOk(q.groups, q.lastSequence) && q.leading == Some(MakingRoom)
    requires q' == q.(leading := q'.leading) && q'.leading.Some? && q'.leading.value.Inserting? && q'.leading.value.inserted == 0
    requires q.lastSequence + |q'.leading.value.updates| < MAX_SEQUENCE
    ensures RowsOk(q') && RangesOk(q'.groups, q'.lastSequence)
  {
    assert NewRows(q'.leading.value.updates, q.lastSequence)[..0] == [];
  }

  lemma LeadKeepsInv(q: Queue, q': Queue)
    requires Inv(q) && Step(q, Lead, q')
    ensures Inv(q')
  {
  }

  lemma InsertRowKeepsInv(q: Queue, q': Queue)
    requires Inv(q) && Step(q, InsertRow, q')
    ensures Inv(q')
  {
    InsertRowKeepsRows(q, q');
  }

  lemma InsertRowKeepsRows(q: Queue, q': Queue)
    requires RowsOk(q) && Step(q, InsertRow, q')
    ensures RowsOk(q')
  {
    var g := q.leading.value;
    var all := NewRows(g.updates, q.lastSequence);
    assert all[..g.inserted + 1] == all[..g.inserted] + [all[g.inserted]];
  }

  lemma PopKeepsOrder(q: Queue, k: nat)
    requires OrderOk(q) && SleepOk(q) && 0 < k <= |q.queue|
    ensures OrderOk(PopGroup(q, k)) && SleepOk(PopGroup(q, k))
  {
    var q' := PopGroup(q, k);
    assert q.queue == q.queue[..k] + q.queue[k..];
    assert q'.finished + q'.queue == q.arrivals;
    forall id | id in q'.asleep ensures id in q'.queue && id != q'.queue[0] {
      assert id in q.queue;
      assert id !in q.queue[..k];
    }
  }

  lemma CommitKeepsRows(q: Queue, ok: bool, q': Queue)
    requires RowsOk(q) && RangesOk(q.groups, q.lastSequence) && Step(q, Commit(ok), q')
    ensures RowsOk(q') && RangesOk(q'.groups, q'.lastSequence)
  {
    var g := q.leading.value;
    OneMoreRange(q.groups, q.lastSequence, q'.groups[|q.groups|]);
    var all := NewRows(g.updates, q.lastSequence);
    assert q'.groups[..|q.groups|] == q.groups;
    assert all[..|g.updates|] == all && all[..0] == [];
  }

  lemma OneMoreRange(groups: seq<Group>, last: nat, g: Group)
    requires RangesOk(groups, last) && g.last == last && EndOf(g) < MAX_SEQUENCE
    ensures RangesOk(groups + [g], EndOf(g))
  {
    var all := groups + [g];
    assert forall i :: 0 <= i < |groups| ==> all[i] == groups[i];
  }

  lemma CommitKeepsInv(q: Queue, ok: bool, q': Queue)
    requires Inv(q) && Step(q, Commit(ok), q')
    ensures Inv(q')
  {
    PopKeepsOrder(q, q.leading.value.members);
    CommitKeepsRows(q, ok, q');
    CommitKeepsPlaces(q, ok, q');
    CommitKeepsGroups(q, ok, q');
  }

  lemma CommitKeepsGroups(q: Queue, ok: bool, q': Queue)
    requires LeadingOk(q) && GroupsOk(q.writers, q.groups) && Step(q, Commit(ok), q')
    ensures GroupsOk(q'.writers, q'.groups)
  {
  }

  lemma CommitKeepsPlaces(q: Queue, ok: bool, q': Queue)
    requires OrderOk(q) && PlacesOk(q.groups, q.arrivals, |q.finished|) && LeadingOk(q) && Step(q, Commit(ok), q')
    ensures PlacesOk(q'.groups, q'.arrivals, |q'.finished|)
  {
    var k := q.leading.value.members;
    assert q.queue[..k] == q.arrivals[|q.finished|..|q.finished| + k];
    OneMorePlace(q.groups, q.arrivals, |q.finished|, q'.groups[|q.groups|]);
  }

  lemma OneMorePlace(groups: seq<Group>, arrivals: seq<nat>, done: nat, g: Group)
    requires PlacesOk(groups, arrivals, done) && Placed(g, arrivals) && done == g.from
    ensures PlacesOk(groups + [g], arrivals, g.to)
  {
    var all := groups + [g];
    assert forall i :: 0 <= i < |groups| ==> all[i] == groups[i];
  }

  lemma LongerArrivals(groups: seq<Group>, arrivals: seq<nat>, id: nat, done: nat)
    requires PlacesOk(groups, arrivals, done)
    ensures PlacesOk(groups, arrivals + [id], done)
  {
    forall i | 0 <= i < |groups| ensures Placed(groups[i], arrivals + [id]) {
      var g := groups[i];
      assert Placed(g, arrivals);
      assert (arrivals + [id])[g.from..g.to] == arrivals[g.from..g.to];
    }
  }

  lemma LeadWithoutBatchKeepsInv(q: Queue, q': Queue)
    requires Inv(q) && Step(q, LeadWithoutBatch, q')
    ensures Inv(q')
  {
    PopKeepsOrder(q, 1);
    MorePlaces(q.groups, q.arrivals, |q.finished|, |q'.finished|);
    assert LeadingOk(q') && RowsOk(q');
  }

  lemma MorePlaces(groups: seq<Group>, arrivals: seq<nat>, done: nat, done': nat)
    requires PlacesOk(groups, arrivals, done) && done <= done'
    ensures PlacesOk(groups, arrivals, done')
  {
  }

  lemma StepKeepsInv(q: Queue, a: Action, q': Queue)
    requires Inv(q) && Step(q, a, q')
    ensures Inv(q')
  {
    match a
    case Arrive(id, w) => ArriveKeepsInv(q, id, w, q');
    case WakeUp(id) =>
    case Lead => LeadKeepsInv(q, q');
    case FormGroup(k) => FormGroupKeepsInv(q, k, q');
    case InsertRow => InsertRowKeepsInv(q, q');
    case Commit(ok) => CommitKeepsInv(q, ok, q');
    case LeadWithoutBatch => LeadWithoutBatchKeepsInv(q, q');
  }

  // ----- whole runs --------------------------------------------------------------------------------------------

  ghost predicate StepAt(qs: seq<Queue>, acts: seq<Action>, i: nat)
    requires i < |acts| < |qs|
  {
    Step(qs[i], acts[i], qs[i + 1])
  }

  ghost predicate IsRun(qs: seq<Queue>, acts: seq<Action>) {
    && |qs| == |acts| + 1 && Init(qs[0])
    && forall i :: 0 <= i < |acts| ==> StepAt(qs, acts, i)
  }

  lemma {:induction false} RunKeepsInv(qs: seq<Queue>, acts: seq<Action>, n: nat)
    requires IsRun(qs, acts) && n <= |acts|
    ensures Inv(qs[n])
  {
    if n > 0 {
      RunKeepsInv(qs, acts, n - 1);
      assert StepAt(qs, acts, n - 1);
      StepKeepsInv(qs[n - 1], acts[n - 1], qs[n]);
    }
  }

  /** Writers finish in the order they arrived, each exactly once; whoever has not finished is still queued. */
  lemma FinishInArrivalOrder(qs: seq<Queue>, acts: seq<Action>, n: nat)
    requires IsRun(qs, acts) && n <= |acts|
    ensures qs[n].finished <= qs[n].arrivals && NoDup(qs[n].finished)
    ensures forall id :: id in qs[n].writers ==> (id in qs[n].finished <==> id !in qs[n].queue)
  {
    RunKeepsInv(qs, acts, n);
    var q := qs[n];
    assert forall i :: 0 <= i < |q.finished| ==> q.finished[i] == q.arrivals[i];
    forall id | id in q.writers ensures id in q.finished <==> id !in q.queue {
      assert id in q.finished + q.queue;
      QueueSplit(q, id);
    }
  }

  lemma QueueSplit(q: Queue, id: nat)
    requires OrderOk(q)
    ensures !(id in q.finished && id in q.queue)
  {
    assert forall i :: 0 <= i < |q.finished| ==> q.finished[i] == q.arrivals[i];
    assert forall i :: 0 <= i < |q.queue| ==> q.queue[i] == q.arrivals[|q.finished| + i];
  }

  lemma {:induction false} CommittedBelow(groups: seq<Group>, n: nat)
    requires Chained(groups) && n <= |groups|
    ensures forall e :: e in CommittedRows(groups[..n]) ==> e.key.seqno <= LastEnd(groups[..n])
  {
    if n > 0 {
      CommittedBelow(groups, n - 1);
      assert groups[..n][..n - 1] == groups[..n - 1];
    }
  }

  /** A reader at the published sequence sees whole groups only: of the rows in the memtable, possibly in the middle
      of an insertion, it sees exactly those of the committed groups. */
  lemma ReadersSeeWholeGroups(qs: seq<Queue>, acts: seq<Action>, n: nat, e: Entry)
    requires IsRun(qs, acts) && n <= |acts| && e in qs[n].rows
    ensures e.key.seqno <= qs[n].lastSequence <==> e in CommittedRows(qs[n].groups)
  {
    RunKeepsInv(qs, acts, n);
    var q := qs[n];
    CommittedBelow(q.groups, |q.groups|);
    assert q.groups[..|q.groups|] == q.groups;
    if q.leading.Some? && q.leading.value.Inserting? && e !in CommittedRows(q.groups) {
      var g := q.leading.value;
      var all := NewRows(g.updates, q.lastSequence);
      assert e in all[..g.inserted];
    }
  }

  /** Committed groups have contiguous sequence ranges, hold their members' updates in arrival order, and are synced
      when any member asked for it. */
  lemma GroupsAreContiguous(qs: seq<Queue>, acts: seq<Action>, n: nat, i: nat)
    requires IsRun(qs, acts) && n <= |acts| && i + 1 < |qs[n].groups|
    ensures var a, b := qs[n].groups[i], qs[n].groups[i + 1];
            && b.last == a.last + |a.updates| && a.to <= b.from && Placed(a, qs[n].arrivals)
            && AllKnown(qs[n].writers, a.members) && a.updates == Updates(WritersOf(qs[n].writers, a.members))
            && forall j :: 0 <= j < |a.members| && qs[n].writers[a.members[j]].sync ==> a.sync
  {
    RunKeepsInv(qs, acts, n);
    assert GroupOk(qs[n].writers, qs[n].groups[i].members, qs[n].groups[i].updates, qs[n].groups[i].sync);
  }

  /** No writer is forgotten asleep: whenever the queue is not empty and nobody leads, its front can take the lead. */
  lemma FrontCanLead(qs: seq<Queue>, acts: seq<Action>, n: nat)
    requires IsRun(qs, acts) && n <= |acts| && qs[n].queue != [] && qs[n].leading.None?
    ensures Step(qs[n], Lead, qs[n].(leading := Some(MakingRoom)))
  {
    RunKeepsInv(qs, acts, n);
  }
}
