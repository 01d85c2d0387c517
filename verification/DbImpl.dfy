/** The database object: its methods are the steps of the store (db/db_impl.cc). File sizes and the places where outputs
    are cut are arguments; everything else is computed as the code computes it. */
module DbEngine {
  import opened Sequences
  import opened DbFormat
  import opened Versions
  import opened CompactionInputs
  import opened CompactionLoop
  import opened CompactionMeaning
  import opened VersionBuilder
  import opened VersionSteps
  import opened Store
  import opened StoreInvariant
  import opened StoreRuns
  import opened DbIterator
  import opened FlushDuringCompaction

  // ----- sorted runs -------------------------------------------------------------------------------------------

  ghost predicate RowsApart(a: seq<Entry>, b: seq<Entry>) {
    forall x, y :: x in a && y in b && x.key.user == y.key.user ==> x.key.seqno != y.key.seqno
  }

  /** What iterating over two sorted runs together yields. */
  function Merge(a: seq<Entry>, b: seq<Entry>): seq<Entry>
    decreases |a| + |b|
  {
    if a == [] then b
    else if b == [] then a
    else if Precedes(a[0].key, b[0].key) then [a[0]] + Merge(a[1..], b)
    else [b[0]] + Merge(a, b[1..])
  }

  lemma {:induction false} MergeMembers(a: seq<Entry>, b: seq<Entry>, e: Entry)
    ensures e in Merge(a, b) <==> e in a || e in b
    decreases |a| + |b|
  {
    if a != [] && b != [] {
      if Precedes(a[0].key, b[0].key) {
        MergeMembers(a[1..], b, e);
      } else {
        MergeMembers(a, b[1..], e);
      }
    }
  }

  lemma TailSorted(a: seq<Entry>)
    requires SortedRun(a) && a != []
    ensures SortedRun(a[1..]) && forall e :: e in a[1..] ==> Precedes(a[0].key, e.key)
  {
    assert forall i :: 0 <= i < |a| - 1 ==> a[1..][i] == a[i + 1];
  }

  lemma ConsSorted(e: Entry, a: seq<Entry>)
    requires SortedRun(a) && forall x :: x in a ==> Precedes(e.key, x.key)
    ensures SortedRun([e] + a)
  {
  }

  lemma {:induction false} MergeSorted(a: seq<Entry>, b: seq<Entry>)
    requires SortedRun(a) && SortedRun(b) && RowsApart(a, b)
    ensures SortedRun(Merge(a, b))
    decreases |a| + |b|
  {
    if a != [] && b != [] {
      TailSorted(a);
      TailSorted(b);
      assert a[0] in a && b[0] in b;
      if Precedes(a[0].key, b[0].key) {
        MergeSorted(a[1..], b);
        forall x | x in Merge(a[1..], b) ensures Precedes(a[0].key, x.key) {
          MergeMembers(a[1..], b, x);
        }
        ConsSorted(a[0], Merge(a[1..], b));
      } else {
        MergeSorted(a, b[1..]);
        forall x | x in Merge(a, b[1..]) ensures Precedes(b[0].key, x.key) {
          MergeMembers(a, b[1..], x);
        }
        ConsSorted(b[0], Merge(a, b[1..]));
      }
    }
  }

  /** Two different files of a version hold no row of one key with one sequence number. */
  lemma FilesDoNotClash(t: Tables, v: Levels, l: nat, f: FileMeta, m: nat, g: FileMeta)
    requires ValidVersion(t, v) && l < |v| && m < |v| && f in v[l] && g in v[m] && (l != m || f != g)
    ensures RowsApart(Rows(t, f), Rows(t, g))
  {
    assert l < m ==> NewerFile(t, f, g);
    assert m < l ==> NewerFile(t, g, f);
    assert l == m == 0 ==> NewerFile(t, f, g) || NewerFile(t, g, f);
    if l == m && l > 0 {
      var i :| 0 <= i < |v[l]| && v[l][i] == f;
      var j :| 0 <= j < |v[l]| && v[l][j] == g;
      assert ValidFile(t, f) && ValidFile(t, g);
      forall x, y | x in Rows(t, f) && y in Rows(t, g) && x.key.user == y.key.user ensures x.key.seqno != y.key.seqno {
        if i < j {
          RowsAcrossFiles(t, v[l], i, j, x, y);
        } else {
          RowsAcrossFiles(t, v[l], j, i, y, x);
        }
      }
    }
  }

  ghost predicate AllOf(t: Tables, files: seq<FileMeta>, n: nat, e: Entry)
    requires n <= |files|
  {
    exists i :: 0 <= i < n && e in Rows(t, files[i])
  }

  ghost predicate Clashless(t: Tables, files: seq<FileMeta>) {
    forall i, j :: 0 <= i < j < |files| ==> RowsApart(Rows(t, files[i]), Rows(t, files[j]))
  }

  /** The rows of several files, merged. */
  method MergeFiles(t: Tables, files: seq<FileMeta>) returns (r: seq<Entry>)
    requires (forall i :: 0 <= i < |files| ==> SortedRun(Rows(t, files[i]))) && Clashless(t, files)
    ensures SortedRun(r) && forall e :: e in r <==> AllOf(t, files, |files|, e)
  {
    r := [];
    for n := 0 to |files|
      invariant SortedRun(r) && forall e :: e in r <==> AllOf(t, files, n, e)
    {
      var rows := Rows(t, files[n]);
      forall x, y | x in r && y in rows && x.key.user == y.key.user ensures x.key.seqno != y.key.seqno {
        var i :| 0 <= i < n && x in Rows(t, files[i]);
        assert RowsApart(Rows(t, files[i]), rows);
      }
      MergeSorted(r, rows);
      forall e ensures e in Merge(r, rows) <==> AllOf(t, files, n + 1, e) {
        MergeMembers(r, rows, e);
      }
      r := Merge(r, rows);
    }
  }

  /** Puts a row into a memtable. */
  method InsertRow(mem: seq<Entry>, e: Entry) returns (r: seq<Entry>)
    requires SortedRun(mem) && RowsApart(mem, [e])
    ensures SortedRun(r) && forall x :: x in r <==> x in mem || x == e
  {
    var i := 0;
    while i < |mem| && Precedes(mem[i].key, e.key)
      invariant 0 <= i <= |mem| && forall j :: 0 <= j < i ==> Precedes(mem[j].key, e.key)
    {
      i := i + 1;
    }
    r := mem[..i] + [e] + mem[i..];
    assert e in [e];
    assert i < |mem| ==> mem[i] in mem && Precedes(e.key, mem[i].key);
    assert forall j :: i <= j < |mem| ==> Precedes(e.key, mem[j].key);
  }

  /** A batch's rows get consecutive sequence numbers and go into the memtable one by one. */
  method InsertBatch(mem: seq<Entry>, batch: seq<Update>, last: SequenceNumber) returns (r: seq<Entry>)
    requires SortedRun(mem) && last + |batch| < MAX_SEQUENCE && forall e :: e in mem ==> e.key.seqno <= last
    ensures SortedRun(r) && forall e :: e in r <==> e in mem || e in NewRows(batch, last)
  {
    r := mem;
    ghost var rows := NewRows(batch, last);
    for n := 0 to |batch|
      invariant SortedRun(r) && forall e :: e in r <==> e in mem || e in rows[..n]
      invariant forall e :: e in r ==> e.key.seqno <= last + n
    {
      var e := Entry(InternalKey(batch[n].key, last + 1 + n, batch[n].kind), batch[n].value);
      assert e == rows[n] && rows[..n + 1] == rows[..n] + [e];
      r := InsertRow(r, e);
    }
    assert rows[..|batch|] == rows;
  }

  // ----- reading -----------------------------------------------------------------------------------------------

  /** A layer that holds a visible row of the key answers for all older layers. */
  lemma UpperLayerAnswers(a: iset<Entry>, b: iset<Entry>, k: UserKey, q: SequenceNumber, e: Entry)
    requires UniqueSeqs(a + b) && IsNewest(a, k, q, e)
    requires forall x, y :: x in a && y in b && x.key.user == y.key.user ==> x.key.seqno > y.key.seqno
    ensures IsNewest(a + b, k, q, e)
  {
  }

  lemma UpperLayerEmpty(a: iset<Entry>, b: iset<Entry>, k: UserKey, q: SequenceNumber)
    requires UniqueSeqs(a + b) && forall e :: !Candidate(a, k, q, e)
    ensures View(a + b, k, q) == View(b, k, q)
  {
    assert a + b == b + a;
    SameCandidates(b, a, k, q);
  }

  /** Two layers over the version: what the first hit says is what the whole store says. */
  lemma LayeredRead(s: State, k: UserKey, q: SequenceNumber)
    requires Inv(s)
    ensures var m := RunGet(s.mem, k, q);
            var i := if s.imm.Some? then RunGet(s.imm.value, k, q) else NotFound;
            View(Everything(s), k, q) ==
              if !m.NotFound? then (if m.Found? then Some(m.value) else None)
              else if !i.NotFound? then (if i.Found? then Some(i.value) else None)
              else View(VersionEntries(s.tables, s.levels), k, q)
  {
    EverythingUnique(s);
    var imm := if s.imm.Some? then s.imm.value else [];
    var a, b, c := Members(s.mem), Members(imm), VersionEntries(s.tables, s.levels);
    assert Everything(s) == a + (b + c);
    LayersOrdered(s, imm);
    RunGetIsNewest(s.mem, k, q);
    if !RunGet(s.mem, k, q).NotFound? {
      var e :| IsNewest(a, k, q, e) && RunGet(s.mem, k, q) == if e.key.kind.Put? then Found(e.value) else Deleted;
      UpperLayerAnswers(a, b + c, k, q, e);
      ViewOfNewest(a + (b + c), k, q, e);
    } else {
      UpperLayerEmpty(a, b + c, k, q);
      RunGetIsNewest(imm, k, q);
      if !RunGet(imm, k, q).NotFound? {
        var e :| IsNewest(b, k, q, e) && RunGet(imm, k, q) == if e.key.kind.Put? then Found(e.value) else Deleted;
        UpperLayerAnswers(b, c, k, q, e);
        ViewOfNewest(b + c, k, q, e);
      } else {
        UpperLayerEmpty(b, c, k, q);
      }
    }
  }

  lemma LayersOrdered(s: State, imm: seq<Entry>)
    requires Inv(s) && imm == if s.imm.Some? then s.imm.value else []
    ensures SortedRun(imm) && Newer(s.mem, imm)
    ensures forall x, y :: (x in s.mem || x in imm) && y in VersionEntries(s.tables, s.levels) && x.key.user == y.key.user ==>
              x.key.seqno > y.key.seqno
  {
    AboveFacts(s);
    assert forall x :: x in s.mem || x in imm ==> x in Above(s);
  }

  // ----- what the steps need -----------------------------------------------------------------------------------

  lemma InputsClashless(s: State, l: nat, in0: seq<FileMeta>, in1: seq<FileMeta>)
    requires Inv(s) && Selected(s.levels, l, in0, in1)
    ensures Clashless(s.tables, in0 + in1) && forall i :: 0 <= i < |in0 + in1| ==> SortedRun(Rows(s.tables, (in0 + in1)[i]))
  {
    var files := in0 + in1;
    forall i | 0 <= i < |files|
      ensures files[i] in s.levels[if i < |in0| then l else l + 1] && SortedRun(Rows(s.tables, files[i]))
    {
      assert i < |in0| ==> files[i] in in0;
      assert i >= |in0| ==> files[i] in in1;
      assert ValidFile(s.tables, files[i]);
    }
    forall i, j | 0 <= i < j < |files| ensures RowsApart(Rows(s.tables, files[i]), Rows(s.tables, files[j])) {
      var m, n := if i < |in0| then l else l + 1, if j < |in0| then l else l + 1;
      FilesDoNotClash(s.tables, s.levels, m, files[i], n, files[j]);
    }
  }

  lemma MergedInputs(s: State, run: Running)
    requires SortedRun(run.input)
    requires forall e :: e in run.input <==> AllOf(s.tables, run.in0 + run.in1, |run.in0 + run.in1|, e)
    ensures IsMergeOf(JobNow(s.(job := Some(run))))
  {
    var files := run.in0 + run.in1;
    forall e ensures e in run.input <==> exists f :: (f in run.in0 || f in run.in1) && e in Rows(s.tables, f) {
      if e in run.input {
        var i :| 0 <= i < |files| && e in Rows(s.tables, files[i]);
        assert files[i] in run.in0 || files[i] in run.in1;
      }
      if f :| (f in run.in0 || f in run.in1) && e in Rows(s.tables, f) {
        assert f in files;
        var i :| 0 <= i < |files| && files[i] == f;
        assert AllOf(s.tables, files, |files|, e);
      }
    }
  }

  ghost predicate Fresh(v: Levels, adds: seq<(nat, FileMeta)>) {
    && DistinctAdds(adds)
    && forall i, l, f :: 0 <= i < |adds| && 0 <= l < |v| && f in v[l] && l == adds[i].0 ==> f.number != adds[i].1.number
  }

  ghost predicate CanApply(v: Levels, edit: VersionEdit) {
    AllOrdered(v) && EditInRange(edit, |v|) && Fresh(v, edit.newFiles)
  }

  /** LogAndApply's new version: a builder on the current one, fed the edit and saved. */
  method NewVersion(v: Levels, edit: VersionEdit) returns (v': Levels)
    requires CanApply(v, edit)
    ensures Applied(v, edit, v')
  {
    var builder := new Builder(v);
    assert NumbersUnused(FileSets(v), edit.newFiles);
    builder.Apply(edit);
    v' := builder.SaveTo();
  }

  /** Metadata of an output file. */
  function MetaOf(number: nat, size: nat, rows: seq<Entry>): FileMeta
    requires rows != []
  {
    FileMeta(number, size, rows[0].key, rows[|rows| - 1].key)
  }

  lemma AllBelowNext(s: State)
    requires Inv(s)
    ensures forall l, f :: 0 <= l < |s.levels| && f in s.levels[l] ==> f.number < s.nextFile
  {
    forall l, f | 0 <= l < |s.levels| && f in s.levels[l] ensures f.number < s.nextFile {
      assert ValidFile(s.tables, f);
    }
  }

  /** The outputs are stored under the next numbers and described by `outs`. */
  ghost predicate OutputsStored(tables: Tables, next: nat, parts: seq<seq<Entry>>, outs: seq<FileMeta>, t: Tables) {
    && Describes(parts, outs) && StoredAs(tables, parts, outs, t)
    && (forall i :: 0 <= i < |outs| ==> outs[i].number == next + i)
    && (forall n :: n in t ==> n < next + |outs|)
  }

  lemma InstallIsStep(s: State, parts: seq<seq<Entry>>, outs: seq<FileMeta>, logNumber: nat, t: Tables, v: Levels, s': State)
    requires Inv(s) && s.job.Some? && Flatten(parts) == s.job.value.kept && logNumber < s.nextFile
    requires OutputsStored(s.tables, s.nextFile, parts, outs, t) && Applied(s.levels, CompactionEdit(s, outs, logNumber), v)
    requires s' == s.(job := None, tables := t, levels := v, nextFile := s.nextFile + |outs|,
                      manifest := s.manifest + [CompactionEdit(s, outs, logNumber)])
    ensures IsInstallStep(s, parts, outs, s')
  {
    OutputsInstall(s, parts, outs, logNumber, t, v);
    InstallsByEdit(s, parts, outs, CompactionEdit(s, outs, logNumber), t, v, s');
  }

  lemma InstallsByEdit(s: State, parts: seq<seq<Entry>>, outs: seq<FileMeta>, edit: VersionEdit, t: Tables, v: Levels, s': State)
    requires s.job.Some? && Installs(JobNow(s), s.job.value.kept, parts, outs, t, edit, v)
    requires OutputsStored(s.tables, s.nextFile, parts, outs, t) && Stamped(edit, s.nextFile + |outs|, s.lastSequence)
    requires s' == s.(job := None, tables := t, levels := v, nextFile := s.nextFile + |outs|, manifest := s.manifest + [edit])
    ensures IsInstallStep(s, parts, outs, s')
  {
    assert s'.manifest[|s'.manifest| - 1] == edit;
  }

  lemma OutputsInstall(s: State, parts: seq<seq<Entry>>, outs: seq<FileMeta>, logNumber: nat, t: Tables, v: Levels)
    requires Inv(s) && s.job.Some? && Flatten(parts) == s.job.value.kept
    requires OutputsStored(s.tables, s.nextFile, parts, outs, t) && Applied(s.levels, CompactionEdit(s, outs, logNumber), v)
    ensures Installs(JobNow(s), s.job.value.kept, parts, outs, t, CompactionEdit(s, outs, logNumber), v)
  {
    CompactionEditFits(s, outs, logNumber);
  }

  /** What becomes of a compaction that is installed: the new state is sound exactly if no file was flushed into the
      middle of an output, and none can have been if the inputs left no gap. */
  lemma InstalledIsValid(s: State, parts: seq<seq<Entry>>, outs: seq<FileMeta>, s': State)
    requires Inv(s) && IsInstallStep(s, parts, outs, s')
    ensures Inv(s') <==> ClearOfFlushes(s, outs)
    ensures Gapless(s.job.value.in0, s.job.value.in0 + s.job.value.in1) ==> ClearOfFlushes(s, outs)
  {
    InstallKeepsInvIff(s, parts, outs, s');
    if Gapless(s.job.value.in0, s.job.value.in0 + s.job.value.in1) {
      GaplessIsClear(s, outs);
    }
  }

  lemma MovedIsFresh(s: State, l: nat, f: FileMeta)
    requires Inv(s) && Selected(s.levels, l, [f], [])
    ensures Fresh(s.levels, [(l + 1, f)])
  {
    assert f in [f];
    forall g | g in s.levels[l + 1] ensures g.number != f.number {
      if g.number == f.number {
        OneNumberOnePlace(s.tables, s.levels, l + 1, g, l, f);
      }
    }
  }

  /** The edit of a finished compaction. */
  function CompactionEdit(s: State, outs: seq<FileMeta>, logNumber: nat): VersionEdit
    requires s.job.Some?
  {
    var run := s.job.value;
    Stamp(EMPTY_EDIT.(
      deletedFiles := (set f | f in run.in0 :: (run.l, f.number)) + (set f | f in run.in1 :: (run.l + 1, f.number)),
      newFiles := OutputAdds(run.l + 1, outs)), logNumber, s.nextFile + |outs|, s.lastSequence)
  }

  lemma CompactionEditFits(s: State, outs: seq<FileMeta>, logNumber: nat)
    requires Inv(s) && s.job.Some? && forall i :: 0 <= i < |outs| ==> outs[i].number == s.nextFile + i
    ensures CanApply(s.levels, CompactionEdit(s, outs, logNumber))
    ensures CompactionEdit(s, outs, logNumber).deletedFiles == InputPairs(JobNow(s))
  {
    AllBelowNext(s);
  }

  lemma FlushEditFits(s: State, level: nat, meta: FileMeta)
    requires Inv(s) && level <= MAX_MEM_COMPACT_LEVEL && meta.number == s.nextFile
    ensures AllOrdered(s.levels) && EditInRange(EMPTY_EDIT.(newFiles := [(level, meta)]), |s.levels|)
    ensures Fresh(s.levels, [(level, meta)])
  {
    AllBelowNext(s);
  }

  lemma TableNumbers(s: State)
    requires Inv(s)
    ensures forall n :: n in s.tables ==> n < s.nextFile
  {
  }

  /** Each output becomes a table file under the next number. */
  method WriteOutputs(tables: Tables, next: nat, outputs: seq<seq<Entry>>, size: nat -> nat)
    returns (outs: seq<FileMeta>, t: Tables)
    requires (forall n :: n in tables ==> n < next) && forall o :: o in outputs ==> o != []
    ensures OutputsStored(tables, next, outputs, outs, t)
  {
    outs, t := [], tables;
    for i := 0 to |outputs|
      invariant |outs| == i && Extends(tables, t) && forall n :: n in t ==> n < next + i
      invariant forall j :: 0 <= j < i ==> outs[j].number == next + j && Rows(t, outs[j]) == outputs[j]
      invariant forall j :: 0 <= j < i ==>
                  outputs[j] != [] && outs[j].smallest == outputs[j][0].key && outs[j].largest == outputs[j][|outputs[j]| - 1].key
    {
      assert outputs[i] in outputs;
      var meta := MetaOf(next + i, size(i), outputs[i]);
      t := t[meta.number := outputs[i]];
      outs := outs + [meta];
    }
  }

  /** The files of all levels. */
  function AllFiles(v: Levels): seq<FileMeta> {
    if v == [] then [] else AllFiles(v[..|v| - 1]) + v[|v| - 1]
  }

  lemma {:induction false} AllFilesPlaces(v: Levels, n: nat, i: nat) returns (l: nat, x: nat)
    requires n <= |v| && i < |AllFiles(v[..n])|
    ensures l < n && x < |v[l]| && AllFiles(v[..n])[i] == v[l][x]
    ensures i == |AllFiles(v[..l])| + x
    decreases n
  {
    assert v[..n][..n - 1] == v[..n - 1];
    if i < |AllFiles(v[..n - 1])| {
      l, x := AllFilesPlaces(v, n - 1, i);
    } else {
      l, x := n - 1, i - |AllFiles(v[..n - 1])|;
    }
  }

  lemma {:induction false} AllFilesMember(v: Levels, l: nat, f: FileMeta)
    requires l < |v| && f in v[l]
    ensures f in AllFiles(v)
    decreases |v|
  {
    if l < |v| - 1 {
      AllFilesMember(v[..|v| - 1], l, f);
    }
  }

  lemma FilesClashless(s: State, files: seq<FileMeta>)
    requires Inv(s) && files == AllFiles(s.levels)
    ensures Clashless(s.tables, files) && forall i :: 0 <= i < |files| ==> SortedRun(Rows(s.tables, files[i]))
  {
    var v := s.levels;
    assert v[..|v|] == v;
    VersionMetaFacts(s.tables, v);
    forall i | 0 <= i < |files| ensures SortedRun(Rows(s.tables, files[i])) {
      var l, x := AllFilesPlaces(v, |v|, i);
      assert ValidFile(s.tables, files[i]);
    }
    forall i, j | 0 <= i < j < |files| ensures RowsApart(Rows(s.tables, files[i]), Rows(s.tables, files[j])) {
      var l, x := AllFilesPlaces(v, |v|, i);
      var m, y := AllFilesPlaces(v, |v|, j);
      assert NoDup(v[l]);
      FilesDoNotClash(s.tables, v, l, files[i], m, files[j]);
    }
  }

  lemma IteratorRows(s: State, files: seq<FileMeta>, rows: seq<Entry>, upper: seq<Entry>)
    requires Inv(s) && files == AllFiles(s.levels) && forall e :: e in rows <==> AllOf(s.tables, files, |files|, e)
    requires upper == if s.imm.Some? then Merge(s.mem, s.imm.value) else s.mem
    ensures RowsApart(upper, rows) && Members(Merge(upper, rows)) == Everything(s)
  {
    var imm := if s.imm.Some? then s.imm.value else [];
    LayersOrdered(s, imm);
    forall e ensures e in rows <==> e in VersionEntries(s.tables, s.levels) {
      RowOfFiles(s.tables, s.levels, files, e);
    }
    forall e ensures e in upper <==> e in s.mem || e in imm {
      MergeMembers(s.mem, imm, e);
    }
    forall e ensures e in Merge(upper, rows) <==> e in Everything(s) {
      MergeMembers(upper, rows, e);
    }
  }

  lemma RowOfFiles(t: Tables, v: Levels, files: seq<FileMeta>, e: Entry)
    requires files == AllFiles(v)
    ensures AllOf(t, files, |files|, e) <==> e in VersionEntries(t, v)
  {
    assert v[..|v|] == v;
    if AllOf(t, files, |files|, e) {
      var i :| 0 <= i < |files| && e in Rows(t, files[i]);
      var l, x := AllFilesPlaces(v, |v|, i);
      VersionRow(t, v, l, files[i], e);
    }
    if e in VersionEntries(t, v) {
      var l, f :| InVersion(t, v, l, f, e);
      AllFilesMember(v, l, f);
      var i :| 0 <= i < |files| && files[i] == f;
    }
  }

  /** The files a compaction was picked with, and those two levels down that meet its range. */
  datatype Picked = Picked(in0: seq<FileMeta>, in1: seq<FileMeta>, grandparents: seq<FileMeta>)

  ghost predicate IsPick(s: State, l: nat, index: nat, p: Picked) {
    && l + 1 < |s.levels| && index < |s.levels[l]| && s.levels[l][index] in p.in0
    && Selected(s.levels, l, p.in0, p.in1) && AreGrandparents(s.levels, l, p.in0 + p.in1, p.grandparents)
  }

  /** Compaction::IsTrivialMove. */
  ghost predicate MovesAlone(p: Picked, maxFileSize: nat) {
    |p.in0| == 1 && p.in1 == [] && TotalFileSize(p.grandparents) <= 10 * maxFileSize
  }

  /** The store's invariant; a running compaction has its outputs ready, and no log has a number not given out. */
  ghost predicate Sound(s: State, outputs: seq<seq<Entry>>, logNumber: nat, logfileNumber: nat) {
    && Inv(s) && logNumber <= logfileNumber < s.nextFile
    && (s.job.Some? ==> (forall o :: o in outputs ==> o != []) && Flatten(outputs) == s.job.value.kept)
  }

  class DbImpl {
    /** The fields of the database; `outputs` are the finished files of a running compaction, `logfileNumber` is the
        log being written, and `logNumber` the first one still needed. */
    var st: State
    var outputs: seq<seq<Entry>>
    var logfileNumber: nat
    var logNumber: nat

    ghost predicate Valid()
      reads this
    {
      Sound(st, outputs, logNumber, logfileNumber)
    }

    /** The inputs of the running compaction leave no gap between them. */
    ghost predicate NoGap()
      reads this
    {
      st.job.Some? && Gapless(st.job.value.in0, st.job.value.in0 + st.job.value.in1)
    }

    constructor ()
      ensures Valid() && Init(st)
    {
      st := State([], None, map[], seq(NUM_LEVELS, _ => []), 0, 2, [], None, [NEW_DB]);
      outputs := [];
      logfileNumber, logNumber := 0, 0;
      new;
      InitKeepsInv(st);
    }

    /** The newest row at or below the sequence number, over memtables and version. */
    method Get(k: UserKey, q: SequenceNumber) returns (r: Option<Value>)
      requires Valid()
      ensures r == View(Everything(st), k, q)
    {
      LayeredRead(st, k, q);
      var g := RunGet(st.mem, k, q);
      if g.NotFound? && st.imm.Some? {
        g := RunGet(st.imm.value, k, q);
      }
      if g.NotFound? {
        r := Versions.Get(st.tables, st.levels, k, q);
      } else {
        r := if g.Found? then Some(g.value) else None;
      }
    }

    /** An iterator over everything a reader can reach, at a sequence number. */
    method NewIterator(q: SequenceNumber) returns (it: DBIter)
      requires Valid()
      ensures fresh(it) && it.Valid() && it.sequence == q && Members(it.entries) == Everything(st)
    {
      var files := AllFiles(st.levels);
      FilesClashless(st, files);
      var rows := MergeFiles(st.tables, files);
      var upper := st.mem;
      LayersOrdered(st, if st.imm.Some? then st.imm.value else []);
      if st.imm.Some? {
        MergeSorted(st.mem, st.imm.value);
        upper := Merge(st.mem, st.imm.value);
      }
      IteratorRows(st, files, rows, upper);
      MergeSorted(upper, rows);
      it := new DBIter(Merge(upper, rows), q);
    }

    method Write(batch: seq<Update>)
      requires Valid() && st.lastSequence + |batch| < MAX_SEQUENCE
      modifies this
      ensures Valid() && Step(old(st), Action.Write(batch), st)
    {
      assert forall e :: e in st.mem ==> e in Everything(st);
      var mem := InsertBatch(st.mem, batch, st.lastSequence);
      st := st.(mem := mem, lastSequence := st.lastSequence + |batch|);
      StepKeepsInv(old(st), Action.Write(batch), st);
    }

    /** The memtable becomes immutable; a new log file takes a number. */
    method SwitchMemTable()
      requires Valid() && st.imm.None?
      modifies this
      ensures Valid() && Step(old(st), Action.SwitchMemTable, st)
    {
      logfileNumber := st.nextFile;
      st := st.(imm := Some(st.mem), mem := [], nextFile := st.nextFile + 1);
      StepKeepsInv(old(st), Action.SwitchMemTable, st);
    }

    method GetSnapshot() returns (q: SequenceNumber)
      requires Valid()
      modifies this
      ensures Valid() && Step(old(st), Action.TakeSnapshot, st) && q == old(st).lastSequence
      ensures st.snapshots == old(st).snapshots + [q]
    {
      q := st.lastSequence;
      st := st.(snapshots := st.snapshots + [q]);
      StepKeepsInv(old(st), Action.TakeSnapshot, st);
    }

    method ReleaseSnapshot(index: nat)
      requires Valid() && index < |st.snapshots|
      modifies this
      ensures Valid() && Step(old(st), Action.ReleaseSnapshot(index), st)
      ensures st.snapshots == old(st).snapshots[..index] + old(st).snapshots[index + 1..]
    {
      st := st.(snapshots := st.snapshots[..index] + st.snapshots[index + 1..]);
      StepKeepsInv(old(st), Action.ReleaseSnapshot(index), st);
    }

    /** Writes the immutable memtable to a table file and installs it; a running compaction is no obstacle. */
    method CompactMemTable(size: nat, maxFileSize: nat) returns (ghost act: Action)
      requires Valid() && st.imm.Some?
      modifies this
      ensures Valid() && act.Flush? != act.FlushEmpty? && Step(old(st), act, st) && st.imm.None?
    {
      if st.imm.value == [] {
        act := FlushEmpty;
        st := st.(imm := None, nextFile := st.nextFile + 1);
        StepKeepsInv(old(st), act, st);
      } else {
        var level, meta, s := FlushedState(st, size, maxFileSize, logfileNumber);
        act := Action.Flush(level, meta);
        st, logNumber := s, logfileNumber;
        StepKeepsInv(old(st), act, st);
      }
    }

    /** Picks a compaction and either moves its only file down or merges its inputs. `stop` and `full` say where the
        outputs are cut. */
    method StartCompaction(l: nat, index: nat, maxFileSize: nat, stop: int -> bool, full: int -> bool)
      returns (ghost act: Action, ghost picked: Picked)
      requires Valid() && st.job.None? && l + 1 < NUM_LEVELS && index < |st.levels[l]|
      modifies this
      ensures Valid() && act.Move? != act.StartCompaction? && Step(old(st), act, st)
      ensures act.StartCompaction? ==> NoGap() && IsLeast(act.run.snap, Readable(old(st)))
      ensures IsPick(old(st), l, index, picked) && (act.Move? <==> MovesAlone(picked, maxFileSize))
      ensures if act.Move? then act.l == l && [act.f] == picked.in0
              else act.run.l == l && act.run.in0 == picked.in0 && act.run.in1 == picked.in1
    {
      var in0, in1, grandparents := PickCompaction(st.tables, st.levels, l, index, maxFileSize);
      picked := Picked(in0, in1, grandparents);
      if |in0| == 1 && |in1| == 0 && TotalFileSize(grandparents) <= 10 * maxFileSize {
        assert in0 == [in0[0]] && in1 == [];
        MoveFile(l, in0[0]);
        act := Action.Move(l, in0[0]);
      } else {
        act := MergeInputs(l, in0, in1, stop, full);
      }
    }

    /** A manual compaction of a key range at one level, which never moves files; `found` says if there was any. */
    method StartManualCompaction(l: nat, begin: Option<UserKey>, end: Option<UserKey>, maxFileSize: nat,
                                 stop: int -> bool, full: int -> bool)
      returns (found: bool, ghost act: Action)
      requires Valid() && st.job.None? && l + 1 < NUM_LEVELS
      modifies this
      ensures Valid() && (found <==> exists f :: f in old(st).levels[l] && Overlaps(f, begin, end))
      ensures if found then act.StartCompaction? && Step(old(st), act, st) else st == old(st)
      ensures found ==> act.run.l == l && IsLeast(act.run.snap, Readable(old(st)))
    {
      var in0, in1, grandparents;
      found, in0, in1, grandparents := CompactRange(st.tables, st.levels, l, begin, end, maxFileSize);
      act := FlushEmpty;
      if found {
        act := MergeInputs(l, in0, in1, stop, full);
      }
    }

    method MoveFile(l: nat, f: FileMeta)
      requires Valid() && st.job.None? && Selected(st.levels, l, [f], [])
      modifies this
      ensures Valid() && Step(old(st), Action.Move(l, f), st)
    {
      st := MovedState(st, l, f, logNumber);
    }

    method MergeInputs(l: nat, in0: seq<FileMeta>, in1: seq<FileMeta>, stop: int -> bool, full: int -> bool)
      returns (ghost act: Action)
      requires Valid() && st.job.None? && Selected(st.levels, l, in0, in1)
      modifies this
      ensures Valid() && act.StartCompaction? && Step(old(st), act, st)
      ensures act.run.l == l && act.run.in0 == in0 && act.run.in1 == in1 && IsLeast(act.run.snap, Readable(old(st)))
    {
      var snap := SmallestSnapshot(st);
      InputsClashless(st, l, in0, in1);
      var input := MergeFiles(st.tables, in0 + in1);
      outputs := DoCompactionWork(st.levels, l, input, snap, seq(|input|, stop), seq(|input|, full));
      var run := Running(l, in0, in1, input, snap, Flatten(outputs));
      MergedInputs(st, run);
      st := st.(job := Some(run));
      act := Action.StartCompaction(run);
      StepKeepsInv(old(st), act, st);
      CompactionSparesReaders(old(st), run, st);
    }

    /** Replaces the inputs by the outputs, whatever was flushed meanwhile. Clear of those files, as without a gap it
        always is, this is a step of the store. `size` gives the sizes of the files. */
    method InstallCompaction(size: nat -> nat) returns (ghost outs: seq<FileMeta>)
      requires Valid() && st.job.Some?
      modifies this
      ensures IsInstallStep(old(st), outputs, outs, st) && st.job.None? && outputs == old(outputs)
      ensures Valid() <==> ClearOfFlushes(old(st), outs)
      ensures old(NoGap()) ==> ClearOfFlushes(old(st), outs)
    {
      var s;
      s, outs := InstalledState(st, outputs, size, logNumber, logfileNumber);
      st := s;
    }
  }

  method FlushedState(s: State, size: nat, maxFileSize: nat, logNumber: nat) returns (level: nat, meta: FileMeta, s': State)
    requires Inv(s) && s.imm.Some? && s.imm.value != [] && logNumber < s.nextFile
    ensures IsFlushStep(s, level, meta, s')
  {
    meta := MetaOf(s.nextFile, size, s.imm.value);
    level := PickLevelForMemTableOutput(s.tables, s.levels, meta.smallest.user, meta.largest.user, maxFileSize);
    FlushEditFits(s, level, meta);
    var edit := Stamp(EMPTY_EDIT.(newFiles := [(level, meta)]), logNumber, s.nextFile + 1, s.lastSequence);
    var v := NewVersion(s.levels, edit);
    s' := s.(imm := None, tables := s.tables[meta.number := s.imm.value], levels := v,
             nextFile := s.nextFile + 1, manifest := s.manifest + [edit]);
  }

  method MovedState(s: State, l: nat, f: FileMeta, logNumber: nat) returns (s': State)
    requires Inv(s) && s.job.None? && Selected(s.levels, l, [f], []) && logNumber < s.nextFile
    ensures Step(s, Action.Move(l, f), s') && Inv(s') && s'.nextFile == s.nextFile && s'.job.None?
  {
    var edit := Stamp(EMPTY_EDIT.(deletedFiles := {(l, f.number)}, newFiles := [(l + 1, f)]), logNumber, s.nextFile, s.lastSequence);
    MovedIsFresh(s, l, f);
    var v := NewVersion(s.levels, edit);
    s' := s.(levels := v, manifest := s.manifest + [edit]);
    StepKeepsInv(s, Action.Move(l, f), s');
  }

  method InstalledState(s: State, parts: seq<seq<Entry>>, size: nat -> nat, logNumber: nat, ghost logfileNumber: nat)
    returns (s': State, outs: seq<FileMeta>)
    requires Sound(s, parts, logNumber, logfileNumber) && s.job.Some?
    ensures IsInstallStep(s, parts, outs, s') && s'.job.None?
    ensures Sound(s', parts, logNumber, logfileNumber) <==> ClearOfFlushes(s, outs)
    ensures Gapless(s.job.value.in0, s.job.value.in0 + s.job.value.in1) ==> ClearOfFlushes(s, outs)
  {
    TableNumbers(s);
    var t;
    outs, t := WriteOutputs(s.tables, s.nextFile, parts, size);
    CompactionEditFits(s, outs, logNumber);
    var edit := CompactionEdit(s, outs, logNumber);
    var v := NewVersion(s.levels, edit);
    s' := s.(job := None, tables := t, levels := v, nextFile := s.nextFile + |outs|, manifest := s.manifest + [edit]);
    InstallIsStep(s, parts, outs, logNumber, t, v, s');
    InstalledIsValid(s, parts, outs, s');
  }
}
