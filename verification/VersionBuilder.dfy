/** Version edits and the builder that applies a batch of them (VersionSet::Builder in db/version_set.cc). */
module VersionBuilder {
  import opened Sequences
  import opened DbFormat
  import opened Versions

  datatype VersionEdit = VersionEdit(
    comparator: Option<Bytes>, logNumber: Option<nat>, prevLogNumber: Option<nat>, nextFile: Option<nat>,
    lastSequence: Option<nat>, compactPointers: seq<(nat, InternalKey)>,
    deletedFiles: set<(nat, nat)>, newFiles: seq<(nat, FileMeta)>)

  const EMPTY_EDIT := VersionEdit(None, None, None, None, None, [], {}, [])

  /** The order of files inside a level: smallest key, then file number. */
  predicate BySmallestKey(f: FileMeta, g: FileMeta) {
    Less(f.smallest, g.smallest) || (f.smallest == g.smallest && f.number < g.number)
  }

  ghost predicate Ordered(fs: seq<FileMeta>) {
    forall i, j :: 0 <= i < j < |fs| ==> BySmallestKey(fs[i], fs[j])
  }

  /** `fs` lists exactly the files in `s`. */
  ghost predicate Lists(fs: seq<FileMeta>, s: set<FileMeta>) {
    Ordered(fs) && forall f :: f in fs <==> f in s
  }

  /** An ordered list is determined by its set of files. */
  lemma {:induction false} ListsUnique(a: seq<FileMeta>, b: seq<FileMeta>, s: set<FileMeta>)
    requires Lists(a, s) && Lists(b, s)
    ensures a == b
  {
    if a != [] && b != [] {
      var x, y := a[0], b[0];
      assert x in b && y in a;
      assert x == y by {
        var i :| 0 <= i < |b| && b[i] == x;
        var j :| 0 <= j < |a| && a[j] == y;
        assert i > 0 ==> BySmallestKey(b[0], b[i]);
        assert j > 0 ==> BySmallestKey(a[0], a[j]);
      }
      forall f ensures f in a[1..] <==> f in s - {x} { TailMembers(a, f); }
      forall f ensures f in b[1..] <==> f in s - {x} { TailMembers(b, f); }
      ListsUnique(a[1..], b[1..], s - {x});
      assert a == [x] + a[1..] && b == [x] + b[1..];
    } else {
      HasMember(a);
      HasMember(b);
    }
  }

  lemma HasMember(a: seq<FileMeta>)
    ensures a != [] ==> exists f :: f in a
  {
    if a != [] {
      assert a[0] in a;
    }
  }

  lemma TailMembers(a: seq<FileMeta>, f: FileMeta)
    requires Ordered(a) && a != []
    ensures f in a[1..] <==> f in a && f != a[0]
  {
    assert a == [a[0]] + a[1..];
    assert forall i :: 0 < i < |a| ==> BySmallestKey(a[0], a[i]);
  }

  // ----- the meaning of one edit ------------------------------------------------------------------------

  /** The files of each level, as a set. */
  type Contents = seq<set<FileMeta>>

  ghost function FileSet(fs: seq<FileMeta>): set<FileMeta> {
    set f | f in fs
  }

  lemma SameContents(a: Contents, b: Contents)
    requires |a| == |b|
    requires forall l, f :: 0 <= l < |a| ==> (f in a[l] <==> f in b[l])
    ensures a == b
  {
    forall l | 0 <= l < |a| ensures a[l] == b[l] {
    }
  }

  ghost function FileSets(v: Levels): Contents {
    seq(|v|, l requires 0 <= l < |v| => FileSet(v[l]))
  }

  ghost function RemoveAll(c: Contents, pairs: set<(nat, nat)>): Contents {
    seq(|c|, l requires 0 <= l < |c| => set f | f in c[l] && (l, f.number) !in pairs)
  }

  ghost function AddAll(c: Contents, adds: seq<(nat, FileMeta)>): (r: Contents)
    requires forall i :: 0 <= i < |adds| ==> adds[i].0 < |c|
    ensures |r| == |c|
  {
    if adds == [] then c
    else
      var n := |adds| - 1;
      var r := AddAll(c, adds[..n]);
      r[adds[n].0 := r[adds[n].0] + {adds[n].1}]
  }

  ghost predicate EditInRange(edit: VersionEdit, levels: nat) {
    && (forall p :: p in edit.deletedFiles ==> p.0 < levels)
    && (forall i :: 0 <= i < |edit.newFiles| ==> edit.newFiles[i].0 < levels)
  }

  /** Applying one edit on its own: deletions first, then additions. */
  ghost function ApplyEdit(c: Contents, edit: VersionEdit): Contents
    requires EditInRange(edit, |c|)
  {
    AddAll(RemoveAll(c, edit.deletedFiles), edit.newFiles)
  }

  /** No (level, number) pair occurs twice among the additions. */
  ghost predicate DistinctAdds(adds: seq<(nat, FileMeta)>) {
    forall i, j :: 0 <= i < j < |adds| && adds[i].0 == adds[j].0 ==> adds[i].1.number != adds[j].1.number
  }

  /** No file in `c` has the number of an addition to its level. */
  ghost predicate NumbersUnused(c: Contents, adds: seq<(nat, FileMeta)>)
    requires forall i :: 0 <= i < |adds| ==> adds[i].0 < |c|
  {
    forall i, f :: 0 <= i < |adds| && f in c[adds[i].0] ==> f.number != adds[i].1.number
  }

  // ----- the builder ------------------------------------------------------------------------------------

  /** First index in base[from..] whose file comes after f (std::upper_bound). */
  method UpperBound(base: seq<FileMeta>, from: nat, f: FileMeta) returns (r: nat)
    requires Ordered(base) && from <= |base|
    ensures from <= r <= |base|
    ensures forall i :: from <= i < r ==> !BySmallestKey(f, base[i])
    ensures forall i :: r <= i < |base| ==> BySmallestKey(f, base[i])
  {
    var lo, hi := from, |base|;
    while lo < hi
      invariant from <= lo <= hi <= |base|
      invariant forall i :: from <= i < lo ==> !BySmallestKey(f, base[i])
      invariant forall i :: hi <= i < |base| ==> BySmallestKey(f, base[i])
    {
      var mid := (lo + hi) / 2;
      assert forall i :: 0 <= i < mid ==> BySmallestKey(base[i], base[mid]);
      assert forall i :: mid < i < |base| ==> BySmallestKey(base[mid], base[i]);
      if BySmallestKey(f, base[mid]) {
        hi := mid;
      } else {
        lo := mid + 1;
      }
    }
    r := lo;
  }

  lemma InsertAt(fs: seq<FileMeta>, n: nat, f: FileMeta)
    requires Ordered(fs) && n <= |fs|
    requires forall i :: 0 <= i < n ==> BySmallestKey(fs[i], f)
    requires forall i :: n <= i < |fs| ==> BySmallestKey(f, fs[i])
    ensures Lists(fs[..n] + [f] + fs[n..], FileSet(fs) + {f})
  {
    assert fs == fs[..n] + fs[n..];
  }

  /** std::set insertion: nothing happens if an equivalent file is there already. */
  method InsertOrdered(fs: seq<FileMeta>, f: FileMeta) returns (r: seq<FileMeta>)
    requires Ordered(fs)
    requires forall g :: g in fs && g.number == f.number ==> g == f
    ensures Lists(r, FileSet(fs) + {f})
  {
    var n := UpperBound(fs, 0, f);
    if n > 0 && !BySmallestKey(fs[n - 1], f) {
      assert Tag(fs[n - 1].smallest) == Tag(f.smallest);
      assert fs[n - 1] in fs;
      r := fs;
    } else {
      forall i | 0 <= i < n ensures BySmallestKey(fs[i], f) {
        assert i + 1 < n ==> BySmallestKey(fs[i], fs[n - 1]);
      }
      InsertAt(fs, n, f);
      r := fs[..n] + [f] + fs[n..];
    }
  }

  // ----- merging one level ------------------------------------------------------------------------------

  ghost predicate AllBefore(fs: seq<FileMeta>, gs: seq<FileMeta>) {
    forall f, g :: f in fs && g in gs ==> BySmallestKey(f, g)
  }

  /** The first `next` base files and the first `i` added files are merged into `files`. */
  ghost predicate Merged(base: seq<FileMeta>, added: seq<FileMeta>, deleted: set<nat>,
                         files: seq<FileMeta>, next: nat, i: nat)
    requires next <= |base| && i <= |added|
  {
    && Ordered(files) && AllBefore(files, base[next..]) && AllBefore(files, added[i..])
    && (forall f :: f in files <==> (f in base[..next] || f in added[..i]) && f.number !in deleted)
  }

  lemma PushFile(files: seq<FileMeta>, f: FileMeta, rest: seq<FileMeta>)
    requires Ordered(files) && AllBefore(files, [f] + rest) && AllBefore([f], rest)
    ensures Ordered(files + [f]) && AllBefore(files + [f], rest)
  {
    assert f in [f] + rest;
    assert forall x :: x in rest ==> x in [f] + rest;
  }

  lemma MergeBase(base: seq<FileMeta>, added: seq<FileMeta>, deleted: set<nat>, files: seq<FileMeta>, next: nat, i: nat)
    requires Ordered(base) && next < |base| && i <= |added|
    requires Merged(base, added, deleted, files, next, i) && AllBefore([base[next]], added[i..])
    ensures Merged(base, added, deleted, MaybeAdd(deleted, files, base[next]), next + 1, i)
  {
    var f := base[next];
    assert base[next..] == [f] + base[next + 1..];
    assert base[..next + 1] == base[..next] + [f];
    assert AllBefore([f], base[next + 1..]);
    assert f in base[next..];
    assert AllBefore(files, [f] + added[i..]);
    PushFile(files, f, base[next + 1..]);
    PushFile(files, f, added[i..]);
  }

  lemma MergeAdded(base: seq<FileMeta>, added: seq<FileMeta>, deleted: set<nat>, files: seq<FileMeta>, next: nat, i: nat)
    requires Ordered(added) && next <= |base| && i < |added|
    requires Merged(base, added, deleted, files, next, i) && AllBefore([added[i]], base[next..])
    ensures Merged(base, added, deleted, MaybeAdd(deleted, files, added[i]), next, i + 1)
  {
    var f := added[i];
    assert added[i..] == [f] + added[i + 1..];
    assert added[..i + 1] == added[..i] + [f];
    assert AllBefore([f], added[i + 1..]);
    assert f in added[i..];
    assert AllBefore(files, [f] + base[next..]);
    PushFile(files, f, added[i + 1..]);
    PushFile(files, f, base[next..]);
  }

  function MaybeAdd(deleted: set<nat>, files: seq<FileMeta>, f: FileMeta): seq<FileMeta> {
    if f.number in deleted then files else files + [f]
  }

  /** The inner loops of SaveTo: merge the added files into the base files, dropping what was deleted. */
  method MergeLevel(base: seq<FileMeta>, added: seq<FileMeta>, deleted: set<nat>) returns (files: seq<FileMeta>)
    requires Ordered(base) && Ordered(added)
    requires NoClash(base, added)
    ensures Lists(files, set f | f in base + added && f.number !in deleted)
  {
    files := [];
    var next := 0;
    for i := 0 to |added|
      invariant next <= |base|
      invariant Merged(base, added, deleted, files, next, i)
    {
      var f := added[i];
      var bpos := UpperBound(base, next, f);
      while next < bpos
        invariant next <= bpos <= |base|
        invariant Merged(base, added, deleted, files, next, i)
        invariant forall j :: next <= j < bpos ==> !BySmallestKey(f, base[j])
      {
        BaseGoesFirst(base, added, next, i);
        MergeBase(base, added, deleted, files, next, i);
        files := MaybeAdd(deleted, files, base[next]);
        next := next + 1;
      }
      MergeAdded(base, added, deleted, files, next, i);
      files := MaybeAdd(deleted, files, f);
    }
    while next < |base|
      invariant next <= |base|
      invariant Merged(base, added, deleted, files, next, |added|)
    {
      MergeBase(base, added, deleted, files, next, |added|);
      files := MaybeAdd(deleted, files, base[next]);
      next := next + 1;
    }
    assert base[..next] == base && added[..|added|] == added;
  }

  lemma BaseGoesFirst(base: seq<FileMeta>, added: seq<FileMeta>, next: nat, i: nat)
    requires Ordered(added) && next < |base| && i < |added| && !BySmallestKey(added[i], base[next])
    requires forall f, g :: f in base && g in added ==> f.number != g.number
    ensures AllBefore([base[next]], added[i..])
  {
    assert base[next] in base && added[i] in added;
    assert BySmallestKey(base[next], added[i]);
    forall g | g in added[i..] ensures BySmallestKey(base[next], g) {
      var j :| i <= j < |added| && added[j] == g;
      assert j > i ==> BySmallestKey(added[i], added[j]);
    }
  }

  /** Base and added files of each level, deleted or not. */
  ghost function Mentioned(base: Levels, added: seq<seq<FileMeta>>): Contents
    requires |base| == |added|
  {
    seq(|base|, l requires 0 <= l < |base| => FileSet(base[l] + added[l]))
  }

  ghost function Undeleted(c: Contents, deleted: seq<set<nat>>): Contents
    requires |c| == |deleted|
  {
    seq(|c|, l requires 0 <= l < |c| => set f | f in c[l] && f.number !in deleted[l])
  }

  ghost predicate NoClash(base: seq<FileMeta>, added: seq<FileMeta>) {
    && (forall f, g :: f in base && g in added ==> f.number != g.number)
    && (forall f, g :: f in added && g in added && f.number == g.number ==> f == g)
  }

  class Builder {
    const base: Levels
    var deleted: seq<set<nat>>
    var added: seq<seq<FileMeta>>

    ghost predicate Valid()
      reads this
    {
      && |deleted| == |added| == |base|
      && (forall l :: 0 <= l < |base| ==> Ordered(base[l]) && Ordered(added[l]) && NoClash(base[l], added[l]))
    }

    ghost function Numbered(): Contents
      requires Valid()
      reads this
    {
      Mentioned(base, added)
    }

    /** The files of each level after all edits applied so far. */
    ghost function Files(): Contents
      requires Valid()
      reads this
    {
      Undeleted(Numbered(), deleted)
    }

    constructor (base: Levels)
      requires forall l :: 0 <= l < |base| ==> Ordered(base[l])
      ensures Valid() && this.base == base
      ensures Files() == Numbered() == FileSets(base)
    {
      this.base := base;
      deleted := seq(|base|, _ => {});
      added := seq(|base|, _ => []);
      new;
      SameContents(Numbered(), FileSets(base));
      SameContents(Files(), FileSets(base));
    }

    method DeleteFile(l: nat, n: nat)
      requires Valid() && l < |base|
      modifies this
      ensures Valid() && Numbered() == old(Numbered())
      ensures Files() == RemoveAll(old(Files()), {(l, n)})
    {
      deleted := deleted[l := deleted[l] + {n}];
      SameContents(Files(), RemoveAll(old(Files()), {(l, n)}));
    }

    method AddFile(l: nat, f: FileMeta)
      requires Valid() && l < |base| && NumbersUnused(Numbered(), [(l, f)])
      modifies this
      ensures Valid()
      ensures Numbered() == old(Numbered())[l := old(Numbered())[l] + {f}]
      ensures Files() == old(Files())[l := old(Files())[l] + {f}]
    {
      ghost var c := Numbered();
      assert forall g: FileMeta :: g in c[l] ==> g.number != f.number by {
        assert [(l, f)][0] == (l, f);
      }
      assert forall g: FileMeta :: g in base[l] + added[l] <==> g in c[l];
      deleted := deleted[l := deleted[l] - {f.number}];
      var files := InsertOrdered(added[l], f);
      added := added[l := files];
      SameContents(Numbered(), c[l := c[l] + {f}]);
      SameContents(Files(), old(Files())[l := old(Files())[l] + {f}]);
    }

    /** Apply all of one edit. Provided no (level, number) pair is added a second time, the builder's files
        change as if the edit had been applied to the version on its own. */
    method Apply(edit: VersionEdit)
      requires Valid() && EditInRange(edit, |base|) && DistinctAdds(edit.newFiles)
      requires NumbersUnused(Numbered(), edit.newFiles)
      modifies this
      ensures Valid()
      ensures Files() == ApplyEdit(old(Files()), edit)
      ensures Numbered() == AddAll(old(Numbered()), edit.newFiles)
    {
      ApplyDeletions(edit.deletedFiles);
      for i := 0 to |edit.newFiles|
        invariant Valid()
        invariant Files() == AddAll(RemoveAll(old(Files()), edit.deletedFiles), edit.newFiles[..i])
        invariant Numbered() == AddAll(old(Numbered()), edit.newFiles[..i])
      {
        ghost var adds := edit.newFiles[..i + 1];
        assert adds[..i] == edit.newFiles[..i];
        StillUnused(old(Numbered()), edit.newFiles, i);
        AddFile(edit.newFiles[i].0, edit.newFiles[i].1);
      }
      assert edit.newFiles[..|edit.newFiles|] == edit.newFiles;
    }

    method ApplyDeletions(pairs: set<(nat, nat)>)
      requires Valid() && forall p :: p in pairs ==> p.0 < |base|
      modifies this
      ensures Valid() && Numbered() == old(Numbered())
      ensures Files() == RemoveAll(old(Files()), pairs)
    {
      var rest := pairs;
      ghost var gone: set<(nat, nat)> := {};
      SameContents(Files(), RemoveAll(Files(), gone));
      while rest != {}
        invariant Valid() && Numbered() == old(Numbered())
        invariant gone + rest == pairs
        invariant Files() == RemoveAll(old(Files()), gone)
      {
        var p :| p in rest;
        DeleteFile(p.0, p.1);
        RemoveTwice(old(Files()), gone, p);
        gone := gone + {p};
        rest := rest - {p};
      }
    }

    /** SaveTo: each level of the new version lists exactly the builder's files, in order. */
    method SaveTo() returns (v: Levels)
      requires Valid()
      ensures |v| == |base|
      ensures forall l :: 0 <= l < |base| ==> Lists(v[l], Files()[l])
    {
      v := [];
      for l := 0 to |base|
        invariant |v| == l
        invariant forall m :: 0 <= m < l ==> Lists(v[m], Files()[m])
      {
        var files := MergeLevel(base[l], added[l], deleted[l]);
        v := v + [files];
      }
    }
  }

  lemma RemoveTwice(c: Contents, pairs: set<(nat, nat)>, p: (nat, nat))
    ensures RemoveAll(RemoveAll(c, pairs), {p}) == RemoveAll(c, pairs + {p})
  {
    SameContents(RemoveAll(RemoveAll(c, pairs), {p}), RemoveAll(c, pairs + {p}));
  }

  lemma {:induction false} AddedMembers(c: Contents, adds: seq<(nat, FileMeta)>, l: nat, f: FileMeta)
    requires forall i :: 0 <= i < |adds| ==> adds[i].0 < |c|
    requires l < |c|
    ensures f in AddAll(c, adds)[l] <==> f in c[l] || exists i :: 0 <= i < |adds| && adds[i] == (l, f)
  {
    if adds != [] {
      AddedMembers(c, adds[..|adds| - 1], l, f);
    }
  }

  lemma StillUnused(c: Contents, adds: seq<(nat, FileMeta)>, i: nat)
    requires forall j :: 0 <= j < |adds| ==> adds[j].0 < |c|
    requires DistinctAdds(adds) && NumbersUnused(c, adds) && i < |adds|
    ensures NumbersUnused(AddAll(c, adds[..i]), [adds[i]])
  {
    forall f | f in AddAll(c, adds[..i])[adds[i].0] ensures f.number != adds[i].1.number {
      AddedMembers(c, adds[..i], adds[i].0, f);
    }
  }
}
