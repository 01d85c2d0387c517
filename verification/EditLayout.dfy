/** The manifest record byte by byte: what every field looks like, in which order the fields of an edit come, and what the
    bytes of a field mean to whoever reads them (db/version_edit.cc, util/coding.cc). */
module EditLayout {
  import opened Sequences
  import opened DbFormat
  import opened EditCodec

  // ----- varints -----------------------------------------------------------------------------------------------

  /** Seven bits a byte, lowest first. */
  function Value(b: Bytes): nat {
    if b == [] then 0 else b[0] % 128 + 128 * Value(b[1..])
  }

  /** All bytes but the last have their high bit set. */
  ghost predicate IsVarint(b: Bytes) {
    b != [] && b[|b| - 1] < 128 && forall i :: 0 <= i < |b| - 1 ==> b[i] >= 128
  }

  lemma TailIsVarint(b: Bytes)
    requires IsVarint(b) && |b| > 1
    ensures IsVarint(b[1..]) && b[0] >= 128
  {
    var t := b[1..];
    forall i | 0 <= i < |t| - 1 ensures t[i] >= 128 {
      assert t[i] == b[i + 1];
    }
  }

  lemma ConsIsVarint(x: Byte, b: Bytes)
    requires IsVarint(b) && x >= 128
    ensures IsVarint([x] + b) && Value([x] + b) == x - 128 + 128 * Value(b)
  {
    var t := [x] + b;
    assert t[1..] == b;
    forall i | 0 <= i < |t| - 1 ensures t[i] >= 128 {
    }
  }

  /** A number is written as its base-128 digits, no more of them than it has. */
  lemma {:induction false} VarintIsBase128(v: nat)
    ensures IsVarint(PutVarint(v)) && Value(PutVarint(v)) == v
    ensures |PutVarint(v)| > 1 ==> PutVarint(v)[|PutVarint(v)| - 1] != 0
  {
    if v < 128 {
      assert PutVarint(v) == [v];
    } else {
      VarintIsBase128(v / 128);
      ConsIsVarint(v % 128 + 128, PutVarint(v / 128));
    }
  }

  /** Reading succeeds exactly on a varint that is not too long, and yields its value and what follows it. */
  lemma {:induction false} VarintRead(b: Bytes, rest: Bytes, max: nat)
    requires IsVarint(b)
    ensures GetVarint(b + rest, max) == if |b| <= max then Some((Value(b), rest)) else None
    decreases |b|
  {
    var s := b + rest;
    if max > 0 {
      assert s[0] == b[0];
      assert s[1..] == b[1..] + rest;
      if |b| > 1 {
        TailIsVarint(b);
        VarintRead(b[1..], rest, max - 1);
      } else {
        assert b[1..] == [] && Value(b[1..]) == 0;
      }
    }
  }

  /** Nothing else is read as a varint. */
  lemma {:induction false} OnlyVarintsRead(s: Bytes, max: nat) returns (b: Bytes)
    requires GetVarint(s, max).Some?
    ensures IsVarint(b) && |b| <= max && s == b + GetVarint(s, max).value.1 && Value(b) == GetVarint(s, max).value.0
    decreases max
  {
    if s[0] < 128 {
      b := [s[0]];
      assert b[1..] == [];
    } else {
      var t := OnlyVarintsRead(s[1..], max - 1);
      b := [s[0]] + t;
      ConsIsVarint(s[0], t);
    }
  }

  // ----- fields ------------------------------------------------------------------------------------------------

  /** A string is its length and its bytes. */
  function Prefixed(b: Bytes): Bytes {
    PutVarint(|b|) + b
  }

  function NumberBytes(tag: Byte, n: Option<nat>): Bytes {
    if n.None? then [] else [tag] + PutVarint(n.value)
  }

  function PointerBytes(p: (nat, Bytes)): Bytes {
    [5] + PutVarint(p.0) + Prefixed(p.1)
  }

  function DeletionBytes(d: (nat, nat)): Bytes {
    [6] + PutVarint(d.0) + PutVarint(d.1)
  }

  function AdditionBytes(a: (nat, WireFile)): Bytes {
    [7] + PutVarint(a.0) + PutVarint(a.1.number) + PutVarint(a.1.size) + Prefixed(a.1.smallest) + Prefixed(a.1.largest)
  }

  lemma OneItem(i: Item)
    ensures PutItems([i]) == PutItem(i)
  {
    assert [i][1..] == [];
  }

  lemma {:induction false} ItemsAppend(a: seq<Item>, b: seq<Item>)
    ensures PutItems(a + b) == PutItems(a) + PutItems(b)
  {
    if a == [] {
      assert a + b == b;
    } else {
      assert (a + b)[1..] == a[1..] + b;
      ItemsAppend(a[1..], b);
    }
  }

  lemma TwoItems(i: Item, j: Item)
    ensures PutItems([i, j]) == PutItem(i) + PutItem(j)
  {
    assert [i, j] == [i] + [j];
    ItemsAppend([i], [j]);
    OneItem(i);
    OneItem(j);
  }

  lemma FieldLayout(f: Field)
    requires f.tag < 128
    ensures PutField(f) == [f.tag as Byte] + PutItems(f.items)
  {
  }

  lemma Grouped(a: Bytes, b: Bytes, c: Bytes)
    ensures a + (b + c) == a + b + c
  {
  }

  lemma NumberLayout(tag: Byte, n: nat)
    requires tag < 128
    ensures PutField(Field(tag, [NumberItem(n)])) == [tag] + PutVarint(n)
  {
    FieldLayout(Field(tag, [NumberItem(n)]));
    OneItem(NumberItem(n));
  }

  lemma ComparatorLayout(c: Bytes)
    ensures PutField(Field(1, [StringItem(c)])) == [1] + PutVarint(|c|) + c
  {
    var f := Field(1, [StringItem(c)]);
    FieldLayout(f);
    OneItem(StringItem(c));
    Grouped([1], PutVarint(|c|), c);
  }

  lemma PointerLayout(p: (nat, Bytes))
    ensures PutField(PointerField(p)) == [5] + PutVarint(p.0) + PutVarint(|p.1|) + p.1
  {
    FieldLayout(PointerField(p));
    TwoItems(LevelItem(p.0), StringItem(p.1));
    Grouped([5], PutVarint(p.0), PutSlice(p.1));
    Grouped([5] + PutVarint(p.0), PutVarint(|p.1|), p.1);
  }

  lemma DeletionLayout(d: (nat, nat))
    ensures PutField(DeletionField(d)) == [6] + PutVarint(d.0) + PutVarint(d.1)
  {
    FieldLayout(DeletionField(d));
    TwoItems(LevelItem(d.0), NumberItem(d.1));
    Grouped([6], PutVarint(d.0), PutVarint(d.1));
  }

  lemma AdditionItems(level: nat, f: WireFile)
    ensures PutItems(AdditionField((level, f)).items) ==
            PutVarint(level) + (PutVarint(f.number) + PutVarint(f.size)) + (PutSlice(f.smallest) + PutSlice(f.largest))
  {
    var l, n, keys := [LevelItem(level)], [NumberItem(f.number), NumberItem(f.size)], [StringItem(f.smallest), StringItem(f.largest)];
    assert AdditionField((level, f)).items == l + n + keys;
    ItemsAppend(l + n, keys);
    ItemsAppend(l, n);
    OneItem(LevelItem(level));
    TwoItems(NumberItem(f.number), NumberItem(f.size));
    TwoItems(StringItem(f.smallest), StringItem(f.largest));
  }

  /** A new file: tag, level, number, size, and the two keys, each after its length. */
  lemma AdditionLayout(level: nat, f: WireFile)
    ensures PutField(AdditionField((level, f))) ==
            [7] + PutVarint(level) + PutVarint(f.number) + PutVarint(f.size)
            + PutVarint(|f.smallest|) + f.smallest + PutVarint(|f.largest|) + f.largest
  {
    FieldLayout(AdditionField((level, f)));
    AdditionItems(level, f);
    var l, n, z, s, t := PutVarint(level), PutVarint(f.number), PutVarint(f.size), PutSlice(f.smallest), PutSlice(f.largest);
    Grouped([7], l + (n + z), s + t);
    Grouped([7], l, n + z);
    Grouped([7] + l, n, z);
    var head := [7] + l + n + z;
    Grouped(head, s, t);
    Grouped(head, PutVarint(|f.smallest|), f.smallest);
    Grouped(head + PutVarint(|f.smallest|) + f.smallest, PutVarint(|f.largest|), f.largest);
  }

  // ----- records -----------------------------------------------------------------------------------------------

  function PointersBytes(ps: seq<(nat, Bytes)>): Bytes {
    if ps == [] then [] else PointersBytes(ps[..|ps| - 1]) + PointerBytes(ps[|ps| - 1])
  }

  function DeletionsBytes(ds: seq<(nat, nat)>): Bytes {
    if ds == [] then [] else DeletionsBytes(ds[..|ds| - 1]) + DeletionBytes(ds[|ds| - 1])
  }

  function AdditionsBytes(fs: seq<(nat, WireFile)>): Bytes {
    if fs == [] then [] else AdditionsBytes(fs[..|fs| - 1]) + AdditionBytes(fs[|fs| - 1])
  }

  /** The comparator, the four counters, the compaction pointers, the deleted files and the new files, in this order. */
  function RecordBytes(e: WireEdit, deleted: seq<(nat, nat)>): Bytes {
    ScalarBytes(e) + PointersBytes(e.compactPointers) + DeletionsBytes(deleted) + AdditionsBytes(e.newFiles)
  }

  function ScalarBytes(e: WireEdit): Bytes {
    (if e.comparator.None? then [] else [1] + PutVarint(|e.comparator.value|) + e.comparator.value)
    + NumberBytes(2, e.logNumber) + NumberBytes(9, e.prevLogNumber) + NumberBytes(3, e.nextFile) + NumberBytes(4, e.lastSequence)
  }

  lemma {:induction false} FieldsAppend(a: seq<Field>, b: seq<Field>)
    ensures PutFields(a + b) == PutFields(a) + PutFields(b)
  {
    if a == [] {
      assert a + b == b;
    } else {
      assert (a + b)[1..] == a[1..] + b;
      FieldsAppend(a[1..], b);
    }
  }

  lemma OneField(f: Field)
    ensures PutFields([f]) == PutField(f)
  {
    assert [f][1..] == [];
  }

  lemma GivenLayout(tag: Byte, n: Option<nat>)
    requires tag < 128
    ensures PutFields(Given(tag, n)) == NumberBytes(tag, n)
  {
    if n.Some? {
      OneField(Field(tag, [NumberItem(n.value)]));
      NumberLayout(tag, n.value);
    }
  }

  lemma ScalarsLayout(e: WireEdit)
    ensures PutFields(Scalars(e)) == ScalarBytes(e)
  {
    var c := if e.comparator.None? then [] else [Field(1, [StringItem(e.comparator.value)])];
    if e.comparator.Some? {
      OneField(c[0]);
      ComparatorLayout(e.comparator.value);
    }
    GivenLayout(2, e.logNumber);
    GivenLayout(9, e.prevLogNumber);
    GivenLayout(3, e.nextFile);
    GivenLayout(4, e.lastSequence);
    FieldsAppend(c, Given(2, e.logNumber));
    FieldsAppend(c + Given(2, e.logNumber), Given(9, e.prevLogNumber));
    FieldsAppend(c + Given(2, e.logNumber) + Given(9, e.prevLogNumber), Given(3, e.nextFile));
    FieldsAppend(c + Given(2, e.logNumber) + Given(9, e.prevLogNumber) + Given(3, e.nextFile), Given(4, e.lastSequence));
  }

  lemma {:induction false} PointersLayout(ps: seq<(nat, Bytes)>)
    ensures PutFields(Pointers(ps)) == PointersBytes(ps)
  {
    if ps != [] {
      var n := |ps| - 1;
      PointersLayout(ps[..n]);
      FieldsAppend(Pointers(ps[..n]), [PointerField(ps[n])]);
      OneField(PointerField(ps[n]));
      PointerLayout(ps[n]);
      Grouped([5] + PutVarint(ps[n].0), PutVarint(|ps[n].1|), ps[n].1);
    }
  }

  lemma {:induction false} DeletionsLayout(ds: seq<(nat, nat)>)
    ensures PutFields(Deletions(ds)) == DeletionsBytes(ds)
  {
    if ds != [] {
      var n := |ds| - 1;
      DeletionsLayout(ds[..n]);
      FieldsAppend(Deletions(ds[..n]), [DeletionField(ds[n])]);
      OneField(DeletionField(ds[n]));
      DeletionLayout(ds[n]);
    }
  }

  lemma AdditionIs(a: (nat, WireFile))
    ensures PutField(AdditionField(a)) == AdditionBytes(a)
  {
    var f := a.1;
    AdditionLayout(a.0, f);
    var head := [7] + PutVarint(a.0) + PutVarint(f.number) + PutVarint(f.size);
    Grouped(head, PutVarint(|f.smallest|), f.smallest);
    Grouped(head + Prefixed(f.smallest), PutVarint(|f.largest|), f.largest);
  }

  lemma {:induction false} AdditionsLayout(fs: seq<(nat, WireFile)>)
    ensures PutFields(Additions(fs)) == AdditionsBytes(fs)
  {
    if fs != [] {
      var n := |fs| - 1;
      AdditionsLayout(fs[..n]);
      FieldsAppend(Additions(fs[..n]), [AdditionField(fs[n])]);
      OneField(AdditionField(fs[n]));
      AdditionIs(fs[n]);
    }
  }

  /** The fields of an edit are written one after the other in the order of the record. */
  lemma RecordLayout(e: WireEdit, deleted: seq<(nat, nat)>)
    ensures PutFields(FieldsOf(e, deleted)) == RecordBytes(e, deleted)
  {
    var a, b, c, d := Scalars(e), Pointers(e.compactPointers), Deletions(deleted), Additions(e.newFiles);
    ScalarsLayout(e);
    PointersLayout(e.compactPointers);
    DeletionsLayout(deleted);
    AdditionsLayout(e.newFiles);
    FieldsAppend(a, b);
    FieldsAppend(a + b, c);
    FieldsAppend(a + b + c, d);
  }

  /** Reading a record back gives the edit, after the compaction pointers already there. */
  lemma RecordRead(e: WireEdit, deleted: seq<(nat, nat)>, into: WireEdit)
    requires InRange(e) && ListsSet(deleted, e.deletedFiles) && into == NO_EDIT.(compactPointers := into.compactPointers)
    ensures Decode(RecordBytes(e, deleted), into) ==
            Decoded(e.(compactPointers := into.compactPointers + e.compactPointers), None)
  {
    RecordLayout(e, deleted);
    EditRoundTrip(e, deleted, into);
  }

  // ----- what the bytes of a field mean ------------------------------------------------------------------------

  lemma ComparatorRead(c: Bytes, rest: Bytes, e: WireEdit)
    requires |c| < 0x1_0000_0000
    ensures Decode([1] + PutVarint(|c|) + c + rest, e) == Decode(rest, e.(comparator := Some(c)))
  {
    ComparatorLayout(c);
    FieldDecoded(Field(1, [StringItem(c)]), rest, e);
  }

  /** Tag 2 is the log number, 9 the previous one, 3 the next file number and 4 the last sequence number. */
  lemma NumberRead(tag: Byte, n: nat, rest: Bytes, e: WireEdit)
    requires tag in {2, 3, 4, 9} && n < 0x1_0000_0000_0000_0000
    ensures Decode([tag] + PutVarint(n) + rest, e) ==
            Decode(rest, if tag == 2 then e.(logNumber := Some(n)) else if tag == 9 then e.(prevLogNumber := Some(n))
                         else if tag == 3 then e.(nextFile := Some(n)) else e.(lastSequence := Some(n)))
  {
    NumberLayout(tag, n);
    FieldDecoded(Field(tag, [NumberItem(n)]), rest, e);
  }

  lemma PointerRead(level: nat, key: Bytes, rest: Bytes, e: WireEdit)
    requires level < 7 && |key| < 0x1_0000_0000
    ensures Decode([5] + PutVarint(level) + PutVarint(|key|) + key + rest, e) ==
            Decode(rest, e.(compactPointers := e.compactPointers + [(level, key)]))
  {
    PointerLayout((level, key));
    FieldDecoded(PointerField((level, key)), rest, e);
  }

  lemma DeletionRead(level: nat, number: nat, rest: Bytes, e: WireEdit)
    requires level < 7 && number < 0x1_0000_0000_0000_0000
    ensures Decode([6] + PutVarint(level) + PutVarint(number) + rest, e) ==
            Decode(rest, e.(deletedFiles := e.deletedFiles + {(level, number)}))
  {
    DeletionLayout((level, number));
    FieldDecoded(DeletionField((level, number)), rest, e);
  }

  lemma AdditionRead(level: nat, f: WireFile, rest: Bytes, e: WireEdit)
    requires level < 7 && f.number < 0x1_0000_0000_0000_0000 && f.size < 0x1_0000_0000_0000_0000
    requires |f.smallest| < 0x1_0000_0000 && |f.largest| < 0x1_0000_0000
    ensures Decode([7] + PutVarint(level) + PutVarint(f.number) + PutVarint(f.size)
                   + PutVarint(|f.smallest|) + f.smallest + PutVarint(|f.largest|) + f.largest + rest, e) ==
            Decode(rest, e.(newFiles := e.newFiles + [(level, f)]))
  {
    AdditionLayout(level, f);
    FieldDecoded(AdditionField((level, f)), rest, e);
  }

  /** Whole fields are taken in before what follows them. */
  lemma {:induction false} FieldsThen(fs: seq<Field>, rest: Bytes, e: WireEdit)
    requires AllValid(fs)
    ensures Decode(PutFields(fs) + rest, e) == Decode(rest, SetFields(e, fs))
    decreases |fs|
  {
    if fs == [] {
      assert PutFields(fs) + rest == rest;
    } else {
      assert PutFields(fs) + rest == PutField(fs[0]) + (PutFields(fs[1..]) + rest);
      FieldDecoded(fs[0], PutFields(fs[1..]) + rest, e);
      FieldsThen(fs[1..], rest, SetField(e, fs[0]));
    }
  }

  /** Any other tag is an error. */
  lemma UnknownTag(tag: nat, rest: Bytes, e: WireEdit)
    requires tag < 0x1_0000_0000 && tag !in {1, 2, 3, 4, 5, 6, 7, 9}
    ensures Decode(PutVarint(tag) + rest, e) == Decoded(e, Some("unknown tag"))
  {
    RoundTrip32(tag, rest);
  }

  /** No level beyond the last is accepted, in a pointer, a deleted file or a new one. */
  lemma LevelTooLarge(tag: Byte, level: nat, rest: Bytes, e: WireEdit)
    requires tag in {5, 6, 7} && 7 <= level < 0x1_0000_0000
    ensures Decode([tag] + (PutVarint(level) + rest), e) ==
            Decoded(e, Some(if tag == 5 then "compaction pointer" else if tag == 6 then "deleted file" else "new-file entry"))
  {
    RoundTrip32(tag, PutVarint(level) + rest);
    RoundTrip32(level, rest);
    assert PutVarint(tag) == [tag];
  }

  class VersionEditObject {
    var edit: WireEdit

    constructor ()
      ensures edit == NO_EDIT
    {
      edit := NO_EDIT;
    }

    /** Everything but the compaction pointers. */
    method Clear()
      modifies this
      ensures edit == NO_EDIT.(compactPointers := old(edit).compactPointers)
    {
      edit := NO_EDIT.(compactPointers := edit.compactPointers);
    }

    /** Appends the edit to a string; the deleted files go in ascending order. */
    method EncodeTo(dst: Bytes) returns (r: Bytes, ghost deleted: seq<(nat, nat)>)
      ensures ListsSet(deleted, edit.deletedFiles) && Ascending(deleted)
      ensures r == dst + RecordBytes(edit, deleted)
    {
      var fs := Scalars(edit) + Pointers(edit.compactPointers);
      var rest, listed := edit.deletedFiles, [];
      while rest != {}
        invariant rest <= edit.deletedFiles && Ascending(listed)
        invariant forall d :: d in edit.deletedFiles <==> d in rest || d in listed
        invariant forall x, y :: x in listed && y in rest ==> Earlier(x, y)
        decreases |rest|
      {
        EarliestExists(rest);
        ghost var least :| IsEarliest(rest, least);
        var d :| d in rest && forall y :: y in rest ==> y == d || Earlier(d, y);
        AscendingSnoc(listed, d);
        listed, rest := listed + [d], rest - {d};
      }
      deleted := listed;
      r := dst + PutFields(fs + Deletions(listed) + Additions(edit.newFiles));
      RecordLayout(edit, listed);
    }

    method DecodeFrom(src: Bytes) returns (error: Option<string>)
      modifies this
      ensures Decoded(edit, error) == Decode(src, NO_EDIT.(compactPointers := old(edit).compactPointers))
    {
      Clear();
      var input, more := src, true;
      error := None;
      ghost var goal := Decode(src, edit);
      while more && error.None?
        invariant error.None? && more ==> Decode(input, edit) == goal
        invariant error.None? && !more ==> GetVarint32(input).None? && Decode(input, edit) == goal
        invariant error.Some? ==> Decoded(edit, error) == goal
        decreases more, error.None?, |input|
      {
        var tag := GetVarint32(input);
        if tag.None? {
          more := false;
        } else {
          var schema := Schema(tag.value.0);
          if schema.None? {
            error := Some(ErrorName(tag.value.0));
          } else {
            var items := GetItems(schema.value, tag.value.1);
            if items.None? {
              error := Some(ErrorName(tag.value.0));
            } else {
              edit := SetField(edit, Field(tag.value.0, items.value.0));
              input := items.value.1;
            }
          }
        }
      }
      if error.None? && input != [] {
        error := Some("invalid tag");
      }
    }
  }
}
