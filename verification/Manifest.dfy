/** The manifest: a log of version edits, and rebuilding the file lists from it
    (VersionSet::LogAndApply, Recover and WriteSnapshot in db/version_set.cc). */
module Manifest {
  import opened Sequences
  import opened Versions
  import opened VersionBuilder

  type Log = seq<VersionEdit>

  ghost predicate LogInRange(log: Log) {
    forall i :: 0 <= i < |log| ==> EditInRange(log[i], NUM_LEVELS)
  }

  ghost function NoFiles(): Contents {
    seq(NUM_LEVELS, _ => {})
  }

  /** Applying the edits one at a time, each to the version the previous one produced. */
  ghost function Replay(log: Log): (r: Contents)
    requires LogInRange(log)
    ensures |r| == NUM_LEVELS
  {
    if log == [] then NoFiles() else ApplyEdit(Replay(log[..|log| - 1]), log[|log| - 1])
  }

  ghost function AllAdds(log: Log): seq<(nat, FileMeta)> {
    if log == [] then [] else AllAdds(log[..|log| - 1]) + log[|log| - 1].newFiles
  }

  /** No (level, number) pair is added twice in the life of the log. */
  ghost predicate AddsOnce(log: Log) {
    DistinctAdds(AllAdds(log))
  }

  // ----- counters ----------------------------------------------------------------------------------------------

  datatype Counter = LogNumber | PrevLogNumber | NextFile | LastSequence

  function CounterOf(e: VersionEdit, c: Counter): Option<nat> {
    match c
    case LogNumber => e.logNumber
    case PrevLogNumber => e.prevLogNumber
    case NextFile => e.nextFile
    case LastSequence => e.lastSequence
  }

  function LastGiven(log: Log, c: Counter): Option<nat> {
    if log == [] then None
    else if CounterOf(log[|log| - 1], c).Some? then CounterOf(log[|log| - 1], c)
    else LastGiven(log[..|log| - 1], c)
  }

  /** It is the value the log gives last, none exactly if it never gives one. */
  lemma {:induction false} LastGivenIsLast(log: Log, c: Counter)
    ensures LastGiven(log, c).None? <==> forall i :: 0 <= i < |log| ==> CounterOf(log[i], c).None?
    ensures LastGiven(log, c).Some? ==>
              exists i :: 0 <= i < |log| && CounterOf(log[i], c) == LastGiven(log, c) && forall j :: i < j < |log| ==> CounterOf(log[j], c).None?
  {
    if log != [] {
      var n := |log| - 1;
      if CounterOf(log[n], c).None? {
        LastGivenIsLast(log[..n], c);
        assert forall i :: 0 <= i < n ==> log[..n][i] == log[i];
      }
    }
  }

  lemma LastGivenNext(log: Log, e: VersionEdit, c: Counter)
    ensures LastGiven(log + [e], c) == if CounterOf(e, c).Some? then CounterOf(e, c) else LastGiven(log, c)
  {
    var all := log + [e];
    assert all[..|all| - 1] == log && all[|all| - 1] == e;
  }

  /** An edit without files leaves the file lists alone. */
  lemma NoFilesInEdit(log: Log, edit: VersionEdit)
    requires LogInRange(log) && edit.deletedFiles == {} && edit.newFiles == []
    ensures LogInRange(log + [edit]) && AllAdds(log + [edit]) == AllAdds(log) && Replay(log + [edit]) == Replay(log)
  {
    var all := log + [edit];
    assert all[..|log|] == log && all[|log|] == edit;
    SameContents(Replay(all), Replay(log));
  }

  lemma {:induction false} AddsInRange(log: Log, i: nat)
    requires LogInRange(log) && i < |AllAdds(log)|
    ensures AllAdds(log)[i].0 < NUM_LEVELS
  {
    if log != [] {
      var n := |log| - 1;
      if i < |AllAdds(log[..n])| {
        AddsInRange(log[..n], i);
      }
    }
  }

  lemma {:induction false} AddAllAppend(c: Contents, a: seq<(nat, FileMeta)>, b: seq<(nat, FileMeta)>)
    requires forall i :: 0 <= i < |a + b| ==> (a + b)[i].0 < |c|
    requires forall i :: 0 <= i < |a| ==> a[i].0 < |c|
    requires forall i :: 0 <= i < |b| ==> b[i].0 < |c|
    ensures AddAll(c, a + b) == AddAll(AddAll(c, a), b)
  {
    if b == [] {
      assert a + b == a;
    } else {
      var n := |b| - 1;
      assert (a + b)[..|a + b| - 1] == a + b[..n];
      forall i | 0 <= i < |a + b[..n]| ensures (a + b[..n])[i].0 < |c| {
        assert (a + b[..n])[i] == (a + b)[i];
      }
      AddAllAppend(c, a, b[..n]);
    }
  }

  /** The next edit of a log that adds nothing twice may be applied by a builder that saw the rest. */
  lemma NextEditUnused(log: Log, edit: VersionEdit)
    requires LogInRange(log + [edit]) && LogInRange(log) && AddsOnce(log + [edit])
    ensures EditInRange(edit, NUM_LEVELS) && DistinctAdds(edit.newFiles) && AddsOnce(log)
    ensures forall i :: 0 <= i < |AllAdds(log)| ==> AllAdds(log)[i].0 < NUM_LEVELS
    ensures NumbersUnused(AddAll(NoFiles(), AllAdds(log)), edit.newFiles)
  {
    var all := log + [edit];
    assert all[|log|] == edit && all[..|log|] == log;
    var a, b := AllAdds(log), edit.newFiles;
    assert AllAdds(all) == a + b;
    assert forall i :: 0 <= i < |a| ==> (a + b)[i] == a[i];
    assert forall i :: 0 <= i < |b| ==> (a + b)[|a| + i] == b[i];
    forall i | 0 <= i < |a| ensures a[i].0 < NUM_LEVELS { AddsInRange(log, i); }
    forall i, f | 0 <= i < |b| && f in AddAll(NoFiles(), a)[b[i].0] ensures f.number != b[i].1.number {
      AddedMembers(NoFiles(), a, b[i].0, f);
      var j :| 0 <= j < |a| && a[j] == (b[i].0, f);
      assert (a + b)[j].0 == (a + b)[|a| + i].0;
    }
  }

  lemma {:induction false} PrefixAddsOnce(log: Log, i: nat)
    requires AddsOnce(log) && i <= |log|
    ensures AddsOnce(log[..i])
  {
    if i < |log| {
      var n := |log| - 1;
      var a, b := AllAdds(log[..n]), log[n].newFiles;
      assert forall j :: 0 <= j < |a| ==> (a + b)[j] == a[j];
      PrefixAddsOnce(log[..n], i);
      assert log[..n][..i] == log[..i];
    } else {
      assert log[..i] == log;
    }
  }

  /** The builder started from the empty version and was fed the edits of the log: it holds the file lists that
      applying the edits one by one gives. */
  ghost predicate Saw(b: Builder, log: Log)
    reads b
  {
    && b.Valid() && |b.base| == NUM_LEVELS && LogInRange(log)
    && b.Files() == Replay(log)
    && (forall j :: 0 <= j < |AllAdds(log)| ==> AllAdds(log)[j].0 < NUM_LEVELS)
    && b.Numbered() == AddAll(NoFiles(), AllAdds(log))
  }

  method NewBuilder() returns (b: Builder)
    ensures fresh(b) && Saw(b, [])
  {
    b := new Builder(seq(NUM_LEVELS, _ => []));
    assert FileSets(b.base) == NoFiles() by { SameContents(FileSets(b.base), NoFiles()); }
  }

  method ApplyNext(b: Builder, ghost log: Log, edit: VersionEdit)
    requires Saw(b, log) && EditInRange(edit, NUM_LEVELS) && AddsOnce(log + [edit])
    modifies b
    ensures Saw(b, log + [edit])
  {
    ghost var all := log + [edit];
    assert all[|log|] == edit && all[..|log|] == log;
    NextEditUnused(log, edit);
    ghost var adds: seq<(nat, FileMeta)>, more: seq<(nat, FileMeta)> := AllAdds(log), edit.newFiles;
    forall j | 0 <= j < |adds + more| ensures (adds + more)[j].0 < NUM_LEVELS {
      assert j < |adds| || (adds + more)[j] == more[j - |adds|];
    }
    AddAllAppend(NoFiles(), adds, more);
    b.Apply(edit);
  }
}
