/** The manifest as it lies on disk, one encoded record per edit, and recovery from it (VersionSet::Recover in
    db/version_set.cc). `rep` turns an internal key into its bytes and `back` undoes it for the keys the edits hold. */
module ManifestBytes {
  import opened Sequences
  import opened DbFormat
  import opened Versions
  import opened VersionBuilder
  import opened Manifest
  import opened EditCodec
  import opened EditLayout
  import opened Store
  import opened StoreRuns

  ghost predicate Inverts(rep: InternalKey -> Bytes, back: Bytes -> InternalKey, e: VersionEdit) {
    && (forall i :: 0 <= i < |e.compactPointers| ==> back(rep(e.compactPointers[i].1)) == e.compactPointers[i].1)
    && (forall i :: 0 <= i < |e.newFiles| ==>
          && back(rep(e.newFiles[i].1.smallest)) == e.newFiles[i].1.smallest
          && back(rep(e.newFiles[i].1.largest)) == e.newFiles[i].1.largest)
  }

  function FileToWire(f: FileMeta, rep: InternalKey -> Bytes): WireFile {
    WireFile(f.number, f.size, rep(f.smallest), rep(f.largest))
  }

  function FileFromWire(f: WireFile, back: Bytes -> InternalKey): FileMeta {
    FileMeta(f.number, f.size, back(f.smallest), back(f.largest))
  }

  function FilesToWire(fs: seq<(nat, FileMeta)>, rep: InternalKey -> Bytes): (r: seq<(nat, WireFile)>)
    ensures |r| == |fs| && forall i :: 0 <= i < |fs| ==> r[i] == (fs[i].0, FileToWire(fs[i].1, rep))
  {
    seq(|fs|, i requires 0 <= i < |fs| => (fs[i].0, FileToWire(fs[i].1, rep)))
  }

  function FilesFromWire(fs: seq<(nat, WireFile)>, back: Bytes -> InternalKey): (r: seq<(nat, FileMeta)>)
    ensures |r| == |fs| && forall i :: 0 <= i < |fs| ==> r[i] == (fs[i].0, FileFromWire(fs[i].1, back))
  {
    seq(|fs|, i requires 0 <= i < |fs| => (fs[i].0, FileFromWire(fs[i].1, back)))
  }

  function PointersToWire(ps: seq<(nat, InternalKey)>, rep: InternalKey -> Bytes): (r: seq<(nat, Bytes)>)
    ensures |r| == |ps| && forall i :: 0 <= i < |ps| ==> r[i] == (ps[i].0, rep(ps[i].1))
  {
    seq(|ps|, i requires 0 <= i < |ps| => (ps[i].0, rep(ps[i].1)))
  }

  function PointersFromWire(ps: seq<(nat, Bytes)>, back: Bytes -> InternalKey): (r: seq<(nat, InternalKey)>)
    ensures |r| == |ps| && forall i :: 0 <= i < |ps| ==> r[i] == (ps[i].0, back(ps[i].1))
  {
    seq(|ps|, i requires 0 <= i < |ps| => (ps[i].0, back(ps[i].1)))
  }

  function ToWire(e: VersionEdit, rep: InternalKey -> Bytes): WireEdit {
    WireEdit(e.comparator, e.logNumber, e.prevLogNumber, e.nextFile, e.lastSequence, PointersToWire(e.compactPointers, rep),
             e.deletedFiles, FilesToWire(e.newFiles, rep))
  }

  function FromWire(w: WireEdit, back: Bytes -> InternalKey): VersionEdit {
    VersionEdit(w.comparator, w.logNumber, w.prevLogNumber, w.nextFile, w.lastSequence,
                PointersFromWire(w.compactPointers, back), w.deletedFiles, FilesFromWire(w.newFiles, back))
  }

  /** These bytes are a record of this edit, its deleted files listed in some order. */
  ghost predicate IsRecord(r: Bytes, e: VersionEdit, rep: InternalKey -> Bytes) {
    exists deleted :: IsRecordWith(r, e, rep, deleted)
  }

  ghost predicate IsRecordWith(r: Bytes, e: VersionEdit, rep: InternalKey -> Bytes, deleted: seq<(nat, nat)>) {
    && InRange(ToWire(e, rep)) && ListsSet(deleted, e.deletedFiles)
    && r == RecordBytes(ToWire(e, rep), deleted)
  }

  /** Decoding the record of an edit gives all of the edit back. */
  lemma RecordUnderstood(r: Bytes, e: VersionEdit, rep: InternalKey -> Bytes, back: Bytes -> InternalKey)
    requires Inverts(rep, back, e) && IsRecord(r, e, rep)
    ensures Decode(r, NO_EDIT).error.None? && FromWire(Decode(r, NO_EDIT).edit, back) == e
  {
    var deleted :| IsRecordWith(r, e, rep, deleted);
    var w := ToWire(e, rep);
    RecordRead(w, deleted, NO_EDIT);
    assert [] + w.compactPointers == w.compactPointers;
    assert PointersFromWire(w.compactPointers, back) == e.compactPointers;
    forall i | 0 <= i < |e.newFiles| ensures FilesFromWire(w.newFiles, back)[i] == e.newFiles[i] {
      assert back(rep(e.newFiles[i].1.smallest)) == e.newFiles[i].1.smallest;
    }
    assert FilesFromWire(w.newFiles, back) == e.newFiles;
  }

  // ----- recovery ----------------------------------------------------------------------------------------------

  datatype Reason = Undecodable(what: string) | WrongComparator | NoNextFile | NoLogNumber | NoLastSequence

  datatype Recovery =
    | Failed(reason: Reason)
    | Recovered(levels: Levels, logNumber: nat, prevLogNumber: nat, manifestNumber: nat, nextFile: nat, lastSequence: nat)

  /** What is wrong with one record. */
  function Complaint(r: Bytes, name: Bytes): Option<Reason> {
    var d := Decode(r, NO_EDIT);
    if d.error.Some? then Some(Undecodable(d.error.value))
    else if d.edit.comparator.Some? && d.edit.comparator.value != name then Some(WrongComparator)
    else None
  }

  /** The complaint about the first bad record. */
  function FirstComplaint(records: seq<Bytes>, name: Bytes): Option<Reason> {
    if records == [] then None
    else if Complaint(records[0], name).Some? then Complaint(records[0], name)
    else FirstComplaint(records[1..], name)
  }

  ghost predicate GoodUpTo(records: seq<Bytes>, name: Bytes, n: nat)
    requires n <= |records|
  {
    forall i :: 0 <= i < n ==> Complaint(records[i], name).None?
  }

  /** As far as they can be read, the records add no file number twice to a level. */
  ghost predicate ReadableOnce(records: seq<Bytes>, name: Bytes, back: Bytes -> InternalKey) {
    forall n :: 0 <= n <= |records| && GoodUpTo(records, name, n) ==> AddsOnce(LogOf(records[..n], back))
  }

  /** What the records say. */
  function LogOf(records: seq<Bytes>, back: Bytes -> InternalKey): (log: Log)
    ensures |log| == |records|
    ensures forall i :: 0 <= i < |records| ==> log[i] == FromWire(Decode(records[i], NO_EDIT).edit, back)
  {
    seq(|records|, i requires 0 <= i < |records| => FromWire(Decode(records[i], NO_EDIT).edit, back))
  }

  function MissingCounter(log: Log): Option<Reason> {
    if LastGiven(log, NextFile).None? then Some(NoNextFile)
    else if LastGiven(log, LogNumber).None? then Some(NoLogNumber)
    else if LastGiven(log, LastSequence).None? then Some(NoLastSequence)
    else None
  }

  function Failure(records: seq<Bytes>, name: Bytes, back: Bytes -> InternalKey): Option<Reason> {
    var c := FirstComplaint(records, name);
    if c.Some? then c else MissingCounter(LogOf(records, back))
  }

  /** The state recovered: the files of the log's edits applied one by one, and every counter as given last. */
  ghost predicate Recovers(log: Log, r: Recovery) {
    && r.Recovered? && LogInRange(log) && |r.levels| == NUM_LEVELS
    && (forall l :: 0 <= l < NUM_LEVELS ==> Lists(r.levels[l], Replay(log)[l]))
    && Some(r.manifestNumber) == LastGiven(log, NextFile) && r.nextFile == r.manifestNumber + 1
    && Some(r.logNumber) == LastGiven(log, LogNumber) && Some(r.lastSequence) == LastGiven(log, LastSequence)
    && Some(r.prevLogNumber) == (if LastGiven(log, PrevLogNumber).Some? then LastGiven(log, PrevLogNumber) else Some(0))
  }

  lemma FromWireInRange(r: Bytes, back: Bytes -> InternalKey)
    ensures EditInRange(FromWire(Decode(r, NO_EDIT).edit, back), NUM_LEVELS)
  {
    DecodedInRange(r, NO_EDIT);
  }

  lemma LogOfPrefix(records: seq<Bytes>, back: Bytes -> InternalKey, i: nat)
    requires i < |records|
    ensures LogOf(records[..i + 1], back) == LogOf(records[..i], back) + [FromWire(Decode(records[i], NO_EDIT).edit, back)]
  {
  }

  /** The counters as given last by the log so far. */
  ghost predicate CountersOf(log: Log, logNumber: Option<nat>, prev: Option<nat>, next: Option<nat>, last: Option<nat>) {
    && logNumber == LastGiven(log, LogNumber) && prev == LastGiven(log, PrevLogNumber)
    && next == LastGiven(log, NextFile) && last == LastGiven(log, LastSequence)
  }

  lemma NextCounters(log: Log, e: VersionEdit, logNumber: Option<nat>, prev: Option<nat>, next: Option<nat>, last: Option<nat>)
    requires CountersOf(log, logNumber, prev, next, last)
    ensures CountersOf(log + [e], if e.logNumber.Some? then e.logNumber else logNumber,
                       if e.prevLogNumber.Some? then e.prevLogNumber else prev,
                       if e.nextFile.Some? then e.nextFile else next,
                       if e.lastSequence.Some? then e.lastSequence else last)
  {
    LastGivenNext(log, e, LogNumber);
    LastGivenNext(log, e, PrevLogNumber);
    LastGivenNext(log, e, NextFile);
    LastGivenNext(log, e, LastSequence);
  }

  /** One more record is good. */
  lemma NextRecord(records: seq<Bytes>, name: Bytes, back: Bytes -> InternalKey, i: nat, e: VersionEdit)
    requires i < |records| && ReadableOnce(records, name, back) && GoodUpTo(records, name, i)
    requires Complaint(records[i], name).None? && e == FromWire(Decode(records[i], NO_EDIT).edit, back)
    ensures GoodUpTo(records, name, i + 1) && FirstComplaint(records[i..], name) == FirstComplaint(records[i + 1..], name)
    ensures EditInRange(e, NUM_LEVELS) && LogOf(records[..i + 1], back) == LogOf(records[..i], back) + [e]
    ensures AddsOnce(LogOf(records[..i], back) + [e])
  {
    LogOfPrefix(records, back, i);
    FromWireInRange(records[i], back);
    assert records[i..][1..] == records[i + 1..];
    assert GoodUpTo(records, name, i + 1);
  }

  lemma BadRecord(records: seq<Bytes>, name: Bytes, back: Bytes -> InternalKey, i: nat)
    requires i < |records| && FirstComplaint(records, name) == FirstComplaint(records[i..], name)
    requires Complaint(records[i], name).Some?
    ensures Failure(records, name, back) == Complaint(records[i], name)
  {
  }

  /** What is known after i good records. */
  ghost predicate ReadSoFar(b: Builder, records: seq<Bytes>, name: Bytes, back: Bytes -> InternalKey, i: nat,
                            logNumber: Option<nat>, prev: Option<nat>, next: Option<nat>, last: Option<nat>)
    requires i <= |records|
    reads b
  {
    && Saw(b, LogOf(records[..i], back)) && GoodUpTo(records, name, i)
    && FirstComplaint(records, name) == FirstComplaint(records[i..], name)
    && CountersOf(LogOf(records[..i], back), logNumber, prev, next, last)
  }

  /** Reads the records in order, each into a fresh edit, until one is bad, feeding one builder, and saves the builder
      if all is well and the counters were given. */
  method Recover(records: seq<Bytes>, name: Bytes, back: Bytes -> InternalKey) returns (r: Recovery)
    requires ReadableOnce(records, name, back)
    ensures r.Failed? ==> Failure(records, name, back) == Some(r.reason)
    ensures r.Recovered? ==> Failure(records, name, back) == None && Recovers(LogOf(records, back), r)
  {
    var builder := NewBuilder();
    var logNumber: Option<nat>, prev: Option<nat>, next: Option<nat>, last: Option<nat> := None, None, None, None;
    assert LogOf(records[..0], back) == [] && records[0..] == records;
    for i := 0 to |records|
      invariant fresh(builder) && ReadSoFar(builder, records, name, back, i, logNumber, prev, next, last)
    {
      var e, reason := ReadRecord(records[i], name, back);
      if reason.Some? {
        BadRecord(records, name, back, i);
        return Failed(reason.value);
      }
      ghost var log := LogOf(records[..i], back);
      NextRecord(records, name, back, i, e);
      ApplyNext(builder, log, e);
      NextCounters(log, e, logNumber, prev, next, last);
      logNumber := if e.logNumber.Some? then e.logNumber else logNumber;
      prev := if e.prevLogNumber.Some? then e.prevLogNumber else prev;
      next := if e.nextFile.Some? then e.nextFile else next;
      last := if e.lastSequence.Some? then e.lastSequence else last;
    }
    assert records[..|records|] == records;
    if next.None? {
      return Failed(NoNextFile);
    } else if logNumber.None? {
      return Failed(NoLogNumber);
    } else if last.None? {
      return Failed(NoLastSequence);
    }
    var v := builder.SaveTo();
    r := Recovered(v, logNumber.value, if prev.Some? then prev.value else 0, next.value, next.value + 1, last.value);
  }

  /** Decodes one record into a fresh edit and checks the comparator name. */
  method ReadRecord(r: Bytes, name: Bytes, back: Bytes -> InternalKey) returns (e: VersionEdit, reason: Option<Reason>)
    ensures reason == Complaint(r, name) && e == FromWire(Decode(r, NO_EDIT).edit, back)
  {
    var edit := new VersionEditObject();
    var error := edit.DecodeFrom(r);
    e := FromWire(edit.edit, back);
    if error.Some? {
      reason := Some(Undecodable(error.value));
    } else if edit.edit.comparator.Some? && edit.edit.comparator.value != name {
      reason := Some(WrongComparator);
    } else {
      reason := None;
    }
  }

  // ----- recovery at any point of a run ------------------------------------------------------------------------

  /** Every record of the manifest file is the encoding of the edit at its place in the log. */
  ghost predicate OnDisk(records: seq<Bytes>, log: Log, rep: InternalKey -> Bytes) {
    && |records| == |log|
    && forall i :: 0 <= i < |log| ==> IsRecord(records[i], log[i], rep)
  }

  /** The keys can be read back, and no edit names another comparator. */
  ghost predicate Restorable(log: Log, name: Bytes, rep: InternalKey -> Bytes, back: Bytes -> InternalKey) {
    forall i :: 0 <= i < |log| ==> Inverts(rep, back, log[i]) && (log[i].comparator.Some? ==> log[i].comparator.value == name)
  }

  lemma BytesGiveLog(records: seq<Bytes>, log: Log, name: Bytes, rep: InternalKey -> Bytes, back: Bytes -> InternalKey)
    requires OnDisk(records, log, rep) && Restorable(log, name, rep, back)
    ensures LogOf(records, back) == log && GoodUpTo(records, name, |records|)
  {
    var read := LogOf(records, back);
    forall i | 0 <= i < |records| ensures read[i] == log[i] && Complaint(records[i], name).None? {
      GoodRecord(records[i], log[i], name, rep, back);
    }
    assert read == log;
  }

  lemma GoodRecord(r: Bytes, e: VersionEdit, name: Bytes, rep: InternalKey -> Bytes, back: Bytes -> InternalKey)
    requires IsRecord(r, e, rep) && Inverts(rep, back, e) && (e.comparator.Some? ==> e.comparator.value == name)
    ensures FromWire(Decode(r, NO_EDIT).edit, back) == e && Complaint(r, name).None?
  {
    RecordUnderstood(r, e, rep, back);
  }

  lemma {:induction false} AllGood(records: seq<Bytes>, name: Bytes)
    requires GoodUpTo(records, name, |records|)
    ensures FirstComplaint(records, name).None?
  {
    if records != [] {
      assert GoodUpTo(records[1..], name, |records| - 1);
      AllGood(records[1..], name);
    }
  }

  lemma PrefixesAddOnce(records: seq<Bytes>, name: Bytes, back: Bytes -> InternalKey)
    requires AddsOnce(LogOf(records, back))
    ensures ReadableOnce(records, name, back)
  {
    forall n | 0 <= n <= |records| && GoodUpTo(records, name, n) ensures AddsOnce(LogOf(records[..n], back)) {
      assert LogOf(records[..n], back) == LogOf(records, back)[..n];
      PrefixAddsOnce(LogOf(records, back), n);
    }
  }

  /** The counters suffice for the state: no live file has the next file number or a later one, no row in the files a
      sequence number above the last, and no number is made up. */
  ghost predicate CountersSuffice(s: State, r: Recovery)
    requires r.Recovered?
  {
    && (forall l, f :: 0 <= l < |s.levels| && f in s.levels[l] ==> f.number < r.manifestNumber < r.nextFile)
    && (forall e :: e in VersionEntries(s.tables, s.levels) ==> e.key.seqno <= r.lastSequence)
    && r.manifestNumber <= s.nextFile && r.lastSequence <= s.lastSequence
  }

  // ----- what recovery complains about -------------------------------------------------------------------------

  /** The record is one of an edit that names no other comparator. */
  ghost predicate Harmless(r: Bytes, name: Bytes, rep: InternalKey -> Bytes) {
    exists e :: IsRecord(r, e, rep) && (e.comparator.Some? ==> e.comparator.value == name)
  }

  lemma DecodedComparator(r: Bytes, e: VersionEdit, rep: InternalKey -> Bytes)
    requires IsRecord(r, e, rep)
    ensures Decode(r, NO_EDIT).error.None? && Decode(r, NO_EDIT).edit.comparator == e.comparator
  {
    var deleted :| IsRecordWith(r, e, rep, deleted);
    RecordRead(ToWire(e, rep), deleted, NO_EDIT);
  }

  lemma HarmlessIsGood(r: Bytes, name: Bytes, rep: InternalKey -> Bytes)
    requires Harmless(r, name, rep)
    ensures Complaint(r, name).None?
  {
    var e :| IsRecord(r, e, rep) && (e.comparator.Some? ==> e.comparator.value == name);
    DecodedComparator(r, e, rep);
  }

  lemma {:induction false} FirstOfBad(records: seq<Bytes>, name: Bytes, i: nat)
    requires i < |records| && GoodUpTo(records, name, i) && Complaint(records[i], name).Some?
    ensures FirstComplaint(records, name) == Complaint(records[i], name)
    decreases i
  {
    if i > 0 {
      assert records[1..][i - 1] == records[i];
      FirstOfBad(records[1..], name, i - 1);
    }
  }

  lemma FirstBad(records: seq<Bytes>, name: Bytes, rep: InternalKey -> Bytes, i: nat)
    requires i < |records| && (forall j :: 0 <= j < i ==> Harmless(records[j], name, rep)) && Complaint(records[i], name).Some?
    ensures FirstComplaint(records, name) == Complaint(records[i], name)
  {
    forall j | 0 <= j < i ensures Complaint(records[j], name).None? {
      HarmlessIsGood(records[j], name, rep);
    }
    FirstOfBad(records, name, i);
  }

  /** A record that names another comparator makes recovery fail for that reason. */
  lemma OtherComparatorFails(records: seq<Bytes>, name: Bytes, rep: InternalKey -> Bytes, back: Bytes -> InternalKey,
                             i: nat, e: VersionEdit)
    requires i < |records| && (forall j :: 0 <= j < i ==> Harmless(records[j], name, rep))
    requires IsRecord(records[i], e, rep) && e.comparator.Some? && e.comparator.value != name
    ensures Failure(records, name, back) == Some(WrongComparator)
  {
    DecodedComparator(records[i], e, rep);
    FirstBad(records, name, rep, i);
  }

  /** A record with a tag that no field has makes recovery fail, whatever valid fields come before it. */
  lemma UnknownTagFails(records: seq<Bytes>, name: Bytes, rep: InternalKey -> Bytes, back: Bytes -> InternalKey,
                        i: nat, fs: seq<Field>, tag: nat, rest: Bytes)
    requires i < |records| && (forall j :: 0 <= j < i ==> Harmless(records[j], name, rep))
    requires AllValid(fs) && tag < 0x1_0000_0000 && tag !in {1, 2, 3, 4, 5, 6, 7, 9}
    requires records[i] == PutFields(fs) + (PutVarint(tag) + rest)
    ensures Failure(records, name, back) == Some(Undecodable("unknown tag"))
  {
    FieldsThen(fs, PutVarint(tag) + rest, NO_EDIT);
    UnknownTag(tag, rest, SetFields(NO_EDIT, fs));
    FirstBad(records, name, rep, i);
  }

  /** Which counter is reported missing: the next file number first, then the log number, then the last sequence. */
  lemma WhatIsMissing(log: Log)
    ensures MissingCounter(log) == Some(NoNextFile) <==> forall i :: 0 <= i < |log| ==> log[i].nextFile.None?
    ensures MissingCounter(log) == Some(NoLogNumber) <==>
              (exists i :: 0 <= i < |log| && log[i].nextFile.Some?) && forall i :: 0 <= i < |log| ==> log[i].logNumber.None?
    ensures MissingCounter(log) == Some(NoLastSequence) <==>
              && (exists i :: 0 <= i < |log| && log[i].nextFile.Some?) && (exists i :: 0 <= i < |log| && log[i].logNumber.Some?)
              && forall i :: 0 <= i < |log| ==> log[i].lastSequence.None?
  {
    LastGivenIsLast(log, NextFile);
    LastGivenIsLast(log, LogNumber);
    LastGivenIsLast(log, LastSequence);
  }

  lemma LastGiver(log: Log, c: Counter) returns (i: nat)
    requires LastGiven(log, c).Some?
    ensures i < |log| && CounterOf(log[i], c) == LastGiven(log, c) && forall j :: i < j < |log| ==> CounterOf(log[j], c).None?
  {
    LastGivenIsLast(log, c);
    i :| 0 <= i < |log| && CounterOf(log[i], c) == LastGiven(log, c) && forall j :: i < j < |log| ==> CounterOf(log[j], c).None?;
  }

  /** Every counter recovered is the one that the log gives last. */
  lemma RecoveredCounters(log: Log, r: Recovery) returns (a: nat, b: nat, c: nat)
    requires Recovers(log, r)
    ensures a < |log| && log[a].nextFile == Some(r.manifestNumber) && forall j :: a < j < |log| ==> log[j].nextFile.None?
    ensures b < |log| && log[b].logNumber == Some(r.logNumber) && forall j :: b < j < |log| ==> log[j].logNumber.None?
    ensures c < |log| && log[c].lastSequence == Some(r.lastSequence) && forall j :: c < j < |log| ==> log[j].lastSequence.None?
    ensures r.nextFile == r.manifestNumber + 1
  {
    a := LastGiver(log, NextFile);
    b := LastGiver(log, LogNumber);
    c := LastGiver(log, LastSequence);
  }

  /** The previous log number is the one given last, or 0. */
  lemma RecoveredPrevious(log: Log, r: Recovery)
    requires Recovers(log, r)
    ensures (forall i :: 0 <= i < |log| ==> log[i].prevLogNumber.None?) ==> r.prevLogNumber == 0
    ensures forall i :: 0 <= i < |log| && log[i].prevLogNumber.Some? && (forall j :: i < j < |log| ==> log[j].prevLogNumber.None?) ==>
              log[i].prevLogNumber == Some(r.prevLogNumber)
  {
    LastGivenIsLast(log, PrevLogNumber);
  }

  // ----- recovery of a run -------------------------------------------------------------------------------------

  /** At every point of every run, recovery from the manifest's bytes succeeds and gives exactly the current file
      lists, and counters that suffice for them. */
  method RecoverRun(ghost states: seq<State>, ghost acts: seq<Action>, ghost n: nat, records: seq<Bytes>, name: Bytes,
                    ghost rep: InternalKey -> Bytes, back: Bytes -> InternalKey)
    returns (r: Recovery)
    requires IsRun(states, acts) && n <= |acts|
    requires OnDisk(records, states[n].manifest, rep) && Restorable(states[n].manifest, name, rep, back)
    ensures Recovers(states[n].manifest, r) && r.levels == states[n].levels && CountersSuffice(states[n], r)
  {
    RunIsReadable(states, acts, n, records, name, rep, back);
    r := Recover(records, name, back);
    RecoveredSuffices(states, acts, n, r);
  }

  lemma RunIsReadable(states: seq<State>, acts: seq<Action>, n: nat, records: seq<Bytes>, name: Bytes,
                      rep: InternalKey -> Bytes, back: Bytes -> InternalKey)
    requires IsRun(states, acts) && n <= |acts|
    requires OnDisk(records, states[n].manifest, rep) && Restorable(states[n].manifest, name, rep, back)
    ensures ReadableOnce(records, name, back) && Failure(records, name, back) == None
    ensures LogOf(records, back) == states[n].manifest
  {
    RunLogsCounters(states, acts, n);
    BytesGiveLog(records, states[n].manifest, name, rep, back);
    AllGood(records, name);
    PrefixesAddOnce(records, name, back);
  }

  lemma RunLogsCounters(states: seq<State>, acts: seq<Action>, n: nat)
    requires IsRun(states, acts) && n <= |acts|
    ensures CountersOk(states[n]) && AddsOnce(states[n].manifest) && MissingCounter(states[n].manifest).None?
  {
    RunKeepsInv(states, acts, n);
  }

  lemma RecoveredSuffices(states: seq<State>, acts: seq<Action>, n: nat, r: Recovery)
    requires IsRun(states, acts) && n <= |acts| && Recovers(states[n].manifest, r)
    ensures r.levels == states[n].levels && CountersSuffice(states[n], r)
  {
    RunLogsCounters(states, acts, n);
    RecoveryGivesCurrentVersion(states, acts, n, r.levels);
  }
}
