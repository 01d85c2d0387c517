/** The record format of the manifest: a version edit as tagged fields (VersionEdit in db/version_edit.cc). On this level
    an internal key is the string of its bytes. The base-128 varints of util/coding are part of the model. */
module EditCodec {
  import opened Sequences
  import opened DbFormat
  import opened Versions

  datatype WireFile = WireFile(number: nat, size: nat, smallest: Bytes, largest: Bytes)

  datatype WireEdit = WireEdit(
    comparator: Option<Bytes>, logNumber: Option<nat>, prevLogNumber: Option<nat>, nextFile: Option<nat>,
    lastSequence: Option<nat>, compactPointers: seq<(nat, Bytes)>,
    deletedFiles: set<(nat, nat)>, newFiles: seq<(nat, WireFile)>)

  const NO_EDIT := WireEdit(None, None, None, None, None, [], {}, [])

  // ---------- Varints ----------

  const MAX_32: nat := 0x1_0000_0000
  const MAX_64: nat := 0x1_0000_0000_0000_0000

  function PutVarint(v: nat): (r: Bytes)
    ensures |r| > 0
  {
    if v < 128 then [v] else [v % 128 + 128] + PutVarint(v / 128)
  }

  /** A varint of at most `max` bytes and what follows it. */
  function GetVarint(s: Bytes, max: nat): (r: Option<(nat, Bytes)>)
    ensures r.Some? ==> |r.value.1| < |s|
    decreases max
  {
    if s == [] || max == 0 then None
    else if s[0] < 128 then Some((s[0], s[1..]))
    else
      var more := GetVarint(s[1..], max - 1);
      if more.None? then None else Some((s[0] - 128 + 128 * more.value.0, more.value.1))
  }

  /** Bits beyond the width are dropped. */
  function GetVarint32(s: Bytes): (r: Option<(nat, Bytes)>)
    ensures r.Some? ==> |r.value.1| < |s| && r.value.0 < MAX_32
  {
    var r := GetVarint(s, 5);
    if r.None? then None else Some((r.value.0 % MAX_32, r.value.1))
  }

  function GetVarint64(s: Bytes): (r: Option<(nat, Bytes)>)
    ensures r.Some? ==> |r.value.1| < |s| && r.value.0 < MAX_64
  {
    var r := GetVarint(s, 10);
    if r.None? then None else Some((r.value.0 % MAX_64, r.value.1))
  }

  function PutSlice(b: Bytes): Bytes {
    PutVarint(|b|) + b
  }

  function GetSlice(s: Bytes): (r: Option<(Bytes, Bytes)>)
    ensures r.Some? ==> |r.value.1| < |s|
  {
    var n := GetVarint32(s);
    if n.None? || |n.value.1| < n.value.0 then None
    else Some((n.value.1[..n.value.0], n.value.1[n.value.0..]))
  }

  /** 128 to the power n. */
  function Span(n: nat): (p: nat)
    ensures p > 0
  {
    if n == 0 then 1 else 128 * Span(n - 1)
  }

  lemma {:induction false} VarintRoundTrip(v: nat, max: nat, rest: Bytes)
    requires max > 0 && v < Span(max)
    ensures GetVarint(PutVarint(v) + rest, max) == Some((v, rest))
    decreases max
  {
    var s := PutVarint(v) + rest;
    if v < 128 {
      assert s[1..] == rest;
    } else {
      assert max > 1;
      assert s[1..] == PutVarint(v / 128) + rest;
      VarintRoundTrip(v / 128, max - 1, rest);
    }
  }

  lemma RoundTrip32(v: nat, rest: Bytes)
    requires v < MAX_32
    ensures GetVarint32(PutVarint(v) + rest) == Some((v, rest))
  {
    assert Span(5) == 0x8_0000_0000;
    VarintRoundTrip(v, 5, rest);
  }

  lemma RoundTrip64(v: nat, rest: Bytes)
    requires v < MAX_64
    ensures GetVarint64(PutVarint(v) + rest) == Some((v, rest))
  {
    assert Span(5) == 0x8_0000_0000;
    assert Span(10) == 0x8_0000_0000 * 0x8_0000_0000 by {
      assert Span(7) == 128 * 128 * Span(5) && Span(9) == 128 * 128 * Span(7);
    }
    VarintRoundTrip(v, 10, rest);
  }

  lemma SliceRoundTrip(b: Bytes, rest: Bytes)
    requires |b| < MAX_32
    ensures GetSlice(PutSlice(b) + rest) == Some((b, rest))
  {
    assert PutSlice(b) + rest == PutVarint(|b|) + (b + rest);
    RoundTrip32(|b|, b + rest);
    assert (b + rest)[..|b|] == b && (b + rest)[|b|..] == rest;
  }

  /** A varint that breaks off is not read. */
  lemma {:induction false} VarintCutOff(v: nat, max: nat, n: nat)
    requires n < |PutVarint(v)|
    ensures GetVarint(PutVarint(v)[..n], max) == None
    decreases v
  {
    if n > 0 && max > 0 {
      assert PutVarint(v)[..n][1..] == PutVarint(v / 128)[..n - 1];
      VarintCutOff(v / 128, max - 1, n - 1);
    }
  }

  // ---------- Fields: a tag and the items that it calls for ----------

  datatype Kind = LevelKind | NumberKind | StringKind
  datatype Item = LevelItem(level: nat) | NumberItem(number: nat) | StringItem(bytes: Bytes)
  datatype Field = Field(tag: nat, items: seq<Item>)

  function Schema(tag: nat): Option<seq<Kind>> {
    if tag == 1 then Some([StringKind])                // comparator
    else if tag == 2 then Some([NumberKind])           // log number
    else if tag == 3 then Some([NumberKind])           // next file number
    else if tag == 4 then Some([NumberKind])           // last sequence
    else if tag == 5 then Some([LevelKind, StringKind])  // compact pointer
    else if tag == 6 then Some([LevelKind, NumberKind])  // deleted file
    else if tag == 7 then Some([LevelKind, NumberKind, NumberKind, StringKind, StringKind])  // new file
    else if tag == 9 then Some([NumberKind])           // previous log number
    else None
  }

  predicate Fits(k: Kind, i: Item) {
    match i
    case LevelItem(l) => k.LevelKind? && l < NUM_LEVELS
    case NumberItem(n) => k.NumberKind? && n < MAX_64
    case StringItem(b) => k.StringKind? && |b| < MAX_32
  }

  predicate AllFit(kinds: seq<Kind>, items: seq<Item>) {
    |kinds| == |items| && forall i :: 0 <= i < |items| ==> Fits(kinds[i], items[i])
  }

  predicate ValidField(f: Field) {
    Schema(f.tag).Some? && AllFit(Schema(f.tag).value, f.items)
  }

  function PutItem(i: Item): (r: Bytes)
    ensures |r| > 0
  {
    match i
    case LevelItem(l) => PutVarint(l)
    case NumberItem(n) => PutVarint(n)
    case StringItem(b) => PutSlice(b)
  }

  function GetItem(k: Kind, s: Bytes): (r: Option<(Item, Bytes)>)
    ensures r.Some? ==> |r.value.1| < |s| && Fits(k, r.value.0)
  {
    match k
    case LevelKind =>
      var v := GetVarint32(s);
      if v.None? || v.value.0 >= NUM_LEVELS then None else Some((LevelItem(v.value.0), v.value.1))
    case NumberKind =>
      var v := GetVarint64(s);
      if v.None? then None else Some((NumberItem(v.value.0), v.value.1))
    case StringKind =>
      var v := GetSlice(s);
      if v.None? then None else Some((StringItem(v.value.0), v.value.1))
  }

  function PutItems(items: seq<Item>): Bytes {
    if items == [] then [] else PutItem(items[0]) + PutItems(items[1..])
  }

  function GetItems(kinds: seq<Kind>, s: Bytes): (r: Option<(seq<Item>, Bytes)>)
    ensures r.Some? ==> |r.value.1| <= |s| && AllFit(kinds, r.value.0)
    decreases |kinds|
  {
    if kinds == [] then Some(([], s))
    else
      var i := GetItem(kinds[0], s);
      if i.None? then None
      else
        var more := GetItems(kinds[1..], i.value.1);
        if more.None? then None else Some(([i.value.0] + more.value.0, more.value.1))
  }

  lemma ItemRoundTrip(k: Kind, i: Item, rest: Bytes)
    requires Fits(k, i)
    ensures GetItem(k, PutItem(i) + rest) == Some((i, rest))
  {
    match i
    case LevelItem(l) => RoundTrip32(l, rest);
    case NumberItem(n) => RoundTrip64(n, rest);
    case StringItem(b) => SliceRoundTrip(b, rest);
  }

  lemma {:induction false} ItemsRoundTrip(kinds: seq<Kind>, items: seq<Item>, rest: Bytes)
    requires AllFit(kinds, items)
    ensures GetItems(kinds, PutItems(items) + rest) == Some((items, rest))
    decreases |kinds|
  {
    if items == [] {
      assert PutItems(items) + rest == rest;
    } else {
      assert PutItems(items) + rest == PutItem(items[0]) + (PutItems(items[1..]) + rest);
      ItemRoundTrip(kinds[0], items[0], PutItems(items[1..]) + rest);
      ItemsRoundTrip(kinds[1..], items[1..], rest);
      assert [items[0]] + items[1..] == items;
    }
  }

  lemma ItemCutOff(k: Kind, i: Item, n: nat)
    requires Fits(k, i) && n < |PutItem(i)|
    ensures GetItem(k, PutItem(i)[..n]) == None
  {
    match i
    case LevelItem(l) => VarintCutOff(l, 5, n);
    case NumberItem(v) => VarintCutOff(v, 10, n);
    case StringItem(b) =>
      var size := PutVarint(|b|);
      if n < |size| {
        assert PutSlice(b)[..n] == size[..n];
        VarintCutOff(|b|, 5, n);
      } else {
        assert PutSlice(b)[..n] == size + b[..n - |size|];
        RoundTrip32(|b|, b[..n - |size|]);
      }
  }

  /** Items that break off are not read. */
  lemma {:induction false} ItemsCutOff(kinds: seq<Kind>, items: seq<Item>, n: nat)
    requires AllFit(kinds, items) && n < |PutItems(items)|
    ensures GetItems(kinds, PutItems(items)[..n]) == None
    decreases |kinds|
  {
    var first := PutItem(items[0]);
    if n < |first| {
      assert PutItems(items)[..n] == first[..n];
      ItemCutOff(kinds[0], items[0], n);
    } else {
      assert PutItems(items)[..n] == first + PutItems(items[1..])[..n - |first|];
      ItemRoundTrip(kinds[0], items[0], PutItems(items[1..])[..n - |first|]);
      ItemsCutOff(kinds[1..], items[1..], n - |first|);
    }
  }

  // ---------- Whole edits ----------

  function SetField(e: WireEdit, f: Field): WireEdit
    requires ValidField(f)
  {
    var i := f.items;
    if f.tag == 1 then e.(comparator := Some(i[0].bytes))
    else if f.tag == 2 then e.(logNumber := Some(i[0].number))
    else if f.tag == 9 then e.(prevLogNumber := Some(i[0].number))
    else if f.tag == 3 then e.(nextFile := Some(i[0].number))
    else if f.tag == 4 then e.(lastSequence := Some(i[0].number))
    else if f.tag == 5 then e.(compactPointers := e.compactPointers + [(i[0].level, i[1].bytes)])
    else if f.tag == 6 then e.(deletedFiles := e.deletedFiles + {(i[0].level, i[1].number)})
    else e.(newFiles := e.newFiles + [(i[0].level, WireFile(i[1].number, i[2].number, i[3].bytes, i[4].bytes))])
  }

  function PutField(f: Field): Bytes {
    PutVarint(f.tag) + PutItems(f.items)
  }

  function PutFields(fs: seq<Field>): Bytes {
    if fs == [] then [] else PutField(fs[0]) + PutFields(fs[1..])
  }

  predicate AllValid(fs: seq<Field>) {
    forall i :: 0 <= i < |fs| ==> ValidField(fs[i])
  }

  function SetFields(e: WireEdit, fs: seq<Field>): WireEdit
    requires AllValid(fs)
    decreases |fs|
  {
    if fs == [] then e else SetFields(SetField(e, fs[0]), fs[1..])
  }

  datatype Decoded = Decoded(edit: WireEdit, error: Option<string>)

  function ErrorName(tag: nat): string {
    if tag == 1 then "comparator name"
    else if tag == 2 then "log number"
    else if tag == 3 then "next file number"
    else if tag == 4 then "last sequence number"
    else if tag == 5 then "compaction pointer"
    else if tag == 6 then "deleted file"
    else if tag == 7 then "new-file entry"
    else if tag == 9 then "previous log number"
    else "unknown tag"
  }

  function Decode(s: Bytes, e: WireEdit): Decoded
    decreases |s|
  {
    var tag := GetVarint32(s);
    if tag.None? then Decoded(e, if s == [] then None else Some("invalid tag"))
    else if Schema(tag.value.0).None? then Decoded(e, Some(ErrorName(tag.value.0)))
    else
      var items := GetItems(Schema(tag.value.0).value, tag.value.1);
      if items.None? then Decoded(e, Some(ErrorName(tag.value.0)))
      else Decode(items.value.1, SetField(e, Field(tag.value.0, items.value.0)))
  }

  lemma {:induction false} FieldsRoundTrip(fs: seq<Field>, e: WireEdit)
    requires AllValid(fs)
    ensures Decode(PutFields(fs), e) == Decoded(SetFields(e, fs), None)
    decreases |fs|
  {
    if fs != [] {
      FieldDecoded(fs[0], PutFields(fs[1..]), e);
      FieldsRoundTrip(fs[1..], SetField(e, fs[0]));
    }
  }

  lemma FieldDecoded(f: Field, rest: Bytes, e: WireEdit)
    requires ValidField(f)
    ensures Decode(PutField(f) + rest, e) == Decode(rest, SetField(e, f))
  {
    assert PutField(f) + rest == PutVarint(f.tag) + (PutItems(f.items) + rest);
    RoundTrip32(f.tag, PutItems(f.items) + rest);
    ItemsRoundTrip(Schema(f.tag).value, f.items, rest);
  }

  /** How many of the fields lie wholly within the first n bytes. */
  function Complete(fs: seq<Field>, n: nat): (k: nat)
    ensures k <= |fs|
  {
    if fs == [] || n < |PutField(fs[0])| then 0 else 1 + Complete(fs[1..], n - |PutField(fs[0])|)
  }

  /** A record that breaks off anywhere but between two fields is reported, after the fields that are whole. */
  lemma {:induction false} TruncationDetected(fs: seq<Field>, n: nat, e: WireEdit)
    requires AllValid(fs) && n <= |PutFields(fs)|
    ensures var k, d := Complete(fs, n), Decode(PutFields(fs)[..n], e);
            d.edit == SetFields(e, fs[..k]) && (d.error.None? <==> n == |PutFields(fs[..k])|)
    decreases |fs|
  {
    if fs == [] {
    } else if n < |PutField(fs[0])| {
      assert fs[..0] == [];
      assert PutFields(fs)[..n] == PutField(fs[0])[..n];
      if n > 0 {
        FieldCutOff(fs[0], n, e);
      }
    } else {
      var first := PutField(fs[0]);
      var m := n - |first|;
      assert PutFields(fs)[..n] == first + PutFields(fs[1..])[..m];
      FieldDecoded(fs[0], PutFields(fs[1..])[..m], e);
      TruncationDetected(fs[1..], m, SetField(e, fs[0]));
      OneMoreField(fs, Complete(fs[1..], m), e);
    }
  }

  lemma OneMoreField(fs: seq<Field>, k: nat, e: WireEdit)
    requires fs != [] && AllValid(fs) && k < |fs|
    ensures SetFields(e, fs[..k + 1]) == SetFields(SetField(e, fs[0]), fs[1..][..k])
    ensures PutFields(fs[..k + 1]) == PutField(fs[0]) + PutFields(fs[1..][..k])
  {
    assert fs[..k + 1][0] == fs[0] && fs[..k + 1][1..] == fs[1..][..k];
  }

  lemma FieldCutOff(f: Field, n: nat, e: WireEdit)
    requires ValidField(f) && 0 < n < |PutField(f)|
    ensures Decode(PutField(f)[..n], e).edit == e && Decode(PutField(f)[..n], e).error.Some?
  {
    assert PutVarint(f.tag) == [f.tag];
    assert PutField(f)[..n] == PutVarint(f.tag) + PutItems(f.items)[..n - 1];
    RoundTrip32(f.tag, PutItems(f.items)[..n - 1]);
    ItemsCutOff(Schema(f.tag).value, f.items, n - 1);
  }

  // ---------- Encoding ----------

  function Given(tag: nat, n: Option<nat>): seq<Field> {
    if n.None? then [] else [Field(tag, [NumberItem(n.value)])]
  }

  function Pointers(ps: seq<(nat, Bytes)>): seq<Field> {
    if ps == [] then [] else Pointers(ps[..|ps| - 1]) + [PointerField(ps[|ps| - 1])]
  }

  function PointerField(p: (nat, Bytes)): Field {
    Field(5, [LevelItem(p.0), StringItem(p.1)])
  }

  function Deletions(ds: seq<(nat, nat)>): seq<Field> {
    if ds == [] then [] else Deletions(ds[..|ds| - 1]) + [DeletionField(ds[|ds| - 1])]
  }

  function DeletionField(d: (nat, nat)): Field {
    Field(6, [LevelItem(d.0), NumberItem(d.1)])
  }

  function Additions(fs: seq<(nat, WireFile)>): seq<Field> {
    if fs == [] then [] else Additions(fs[..|fs| - 1]) + [AdditionField(fs[|fs| - 1])]
  }

  function AdditionField(a: (nat, WireFile)): Field {
    Field(7, [LevelItem(a.0), NumberItem(a.1.number), NumberItem(a.1.size), StringItem(a.1.smallest), StringItem(a.1.largest)])
  }

  /** The fields of an edit whose deleted files are listed in some order. */
  function FieldsOf(e: WireEdit, deleted: seq<(nat, nat)>): seq<Field> {
    Scalars(e) + Pointers(e.compactPointers) + Deletions(deleted) + Additions(e.newFiles)
  }

  predicate Below64(n: Option<nat>) {
    n.Some? ==> n.value < MAX_64
  }

  predicate FileFits(a: (nat, WireFile)) {
    a.0 < NUM_LEVELS && a.1.number < MAX_64 && a.1.size < MAX_64 && |a.1.smallest| < MAX_32 && |a.1.largest| < MAX_32
  }

  /** Every number and every level is in the range of its C++ type. */
  predicate InRange(e: WireEdit) {
    && (e.comparator.Some? ==> |e.comparator.value| < MAX_32)
    && Below64(e.logNumber) && Below64(e.prevLogNumber) && Below64(e.nextFile) && Below64(e.lastSequence)
    && (forall i :: 0 <= i < |e.compactPointers| ==> e.compactPointers[i].0 < NUM_LEVELS && |e.compactPointers[i].1| < MAX_32)
    && (forall d :: d in e.deletedFiles ==> d.0 < NUM_LEVELS && d.1 < MAX_64)
    && (forall i :: 0 <= i < |e.newFiles| ==> FileFits(e.newFiles[i]))
  }

  ghost predicate ListsSet(ds: seq<(nat, nat)>, s: set<(nat, nat)>) {
    forall d :: d in ds <==> d in s
  }

  lemma {:induction false} SetFieldsAppend(e: WireEdit, a: seq<Field>, b: seq<Field>)
    requires AllValid(a) && AllValid(b)
    ensures AllValid(a + b) && SetFields(e, a + b) == SetFields(SetFields(e, a), b)
    decreases |a|
  {
    if a == [] {
      assert a + b == b;
    } else {
      assert (a + b)[1..] == a[1..] + b;
      SetFieldsAppend(SetField(e, a[0]), a[1..], b);
    }
  }

  lemma {:induction false} SetPointers(e: WireEdit, ps: seq<(nat, Bytes)>)
    requires forall i :: 0 <= i < |ps| ==> ps[i].0 < NUM_LEVELS && |ps[i].1| < MAX_32
    ensures AllValid(Pointers(ps)) && SetFields(e, Pointers(ps)) == e.(compactPointers := e.compactPointers + ps)
  {
    if ps == [] {
      assert e.compactPointers + [] == e.compactPointers;
    } else {
      var n := |ps| - 1;
      SetPointers(e, ps[..n]);
      SetFieldsAppend(e, Pointers(ps[..n]), [PointerField(ps[n])]);
      assert e.compactPointers + ps == e.compactPointers + ps[..n] + [ps[n]];
    }
  }

  lemma {:induction false} SetDeletions(e: WireEdit, ds: seq<(nat, nat)>)
    requires forall i :: 0 <= i < |ds| ==> ds[i].0 < NUM_LEVELS && ds[i].1 < MAX_64
    ensures AllValid(Deletions(ds))
    ensures SetFields(e, Deletions(ds)) == e.(deletedFiles := e.deletedFiles + set d | d in ds)
  {
    if ds == [] {
      assert e.deletedFiles + (set d | d in ds) == e.deletedFiles;
    } else {
      var n := |ds| - 1;
      SetDeletions(e, ds[..n]);
      SetFieldsAppend(e, Deletions(ds[..n]), [DeletionField(ds[n])]);
      assert ds == ds[..n] + [ds[n]];
      assert e.deletedFiles + (set d | d in ds) == e.deletedFiles + (set d | d in ds[..n]) + {ds[n]};
    }
  }

  lemma {:induction false} SetAdditions(e: WireEdit, fs: seq<(nat, WireFile)>)
    requires forall i :: 0 <= i < |fs| ==> FileFits(fs[i])
    ensures AllValid(Additions(fs)) && SetFields(e, Additions(fs)) == e.(newFiles := e.newFiles + fs)
  {
    if fs == [] {
      assert e.newFiles + [] == e.newFiles;
    } else {
      var n := |fs| - 1;
      SetAdditions(e, fs[..n]);
      SetFieldsAppend(e, Additions(fs[..n]), [AdditionField(fs[n])]);
      assert e.newFiles + fs == e.newFiles + fs[..n] + [fs[n]];
    }
  }

  function Scalars(e: WireEdit): seq<Field> {
    (if e.comparator.None? then [] else [Field(1, [StringItem(e.comparator.value)])])
    + Given(2, e.logNumber) + Given(9, e.prevLogNumber) + Given(3, e.nextFile) + Given(4, e.lastSequence)
  }

  /** An optional number that was not set before. */
  lemma SetGiven(e: WireEdit, tag: nat, n: Option<nat>)
    requires tag in {2, 3, 4, 9} && Below64(n)
    requires e.logNumber.None? || tag != 2
    requires e.nextFile.None? || tag != 3
    requires e.lastSequence.None? || tag != 4
    requires e.prevLogNumber.None? || tag != 9
    ensures AllValid(Given(tag, n))
    ensures tag == 2 ==> SetFields(e, Given(tag, n)) == e.(logNumber := n)
    ensures tag == 3 ==> SetFields(e, Given(tag, n)) == e.(nextFile := n)
    ensures tag == 4 ==> SetFields(e, Given(tag, n)) == e.(lastSequence := n)
    ensures tag == 9 ==> SetFields(e, Given(tag, n)) == e.(prevLogNumber := n)
  {
    if n.Some? {
      var f := Field(tag, [NumberItem(n.value)]);
      assert ValidField(f);
      OneField(e, f);
    }
  }

  lemma OneField(e: WireEdit, f: Field)
    requires ValidField(f)
    ensures AllValid([f]) && SetFields(e, [f]) == SetField(e, f)
  {
    assert [f][1..] == [];
  }

  lemma SetComparator(e: WireEdit, c: Option<Bytes>)
    requires (c.Some? ==> |c.value| < MAX_32) && e.comparator.None?
    ensures var fs: seq<Field> := if c.None? then [] else [Field(1, [StringItem(c.value)])];
            AllValid(fs) && SetFields(e, fs) == e.(comparator := c)
  {
    if c.Some? {
      OneField(e, Field(1, [StringItem(c.value)]));
    }
  }

  lemma SetScalars(e: WireEdit, into: WireEdit)
    requires InRange(e) && into == NO_EDIT.(compactPointers := into.compactPointers)
    ensures AllValid(Scalars(e)) && SetFields(into, Scalars(e))
              == WireEdit(e.comparator, e.logNumber, e.prevLogNumber, e.nextFile, e.lastSequence, into.compactPointers, {}, [])
  {
    var c: seq<Field> := if e.comparator.None? then [] else [Field(1, [StringItem(e.comparator.value)])];
    SetComparator(into, e.comparator);
    var e1 := into.(comparator := e.comparator);
    ThenGiven(into, c, e1, 2, e.logNumber);
    var e2 := e1.(logNumber := e.logNumber);
    ThenGiven(into, c + Given(2, e.logNumber), e2, 9, e.prevLogNumber);
    var e3 := e2.(prevLogNumber := e.prevLogNumber);
    ThenGiven(into, c + Given(2, e.logNumber) + Given(9, e.prevLogNumber), e3, 3, e.nextFile);
    var e4 := e3.(nextFile := e.nextFile);
    ThenGiven(into, c + Given(2, e.logNumber) + Given(9, e.prevLogNumber) + Given(3, e.nextFile), e4, 4, e.lastSequence);
  }

  lemma ThenGiven(into: WireEdit, fs: seq<Field>, e: WireEdit, tag: nat, n: Option<nat>)
    requires AllValid(fs) && SetFields(into, fs) == e && tag in {2, 3, 4, 9} && Below64(n)
    requires e.logNumber.None? || tag != 2
    requires e.nextFile.None? || tag != 3
    requires e.lastSequence.None? || tag != 4
    requires e.prevLogNumber.None? || tag != 9
    ensures AllValid(fs + Given(tag, n))
    ensures tag == 2 ==> SetFields(into, fs + Given(tag, n)) == e.(logNumber := n)
    ensures tag == 3 ==> SetFields(into, fs + Given(tag, n)) == e.(nextFile := n)
    ensures tag == 4 ==> SetFields(into, fs + Given(tag, n)) == e.(lastSequence := n)
    ensures tag == 9 ==> SetFields(into, fs + Given(tag, n)) == e.(prevLogNumber := n)
  {
    SetGiven(e, tag, n);
    SetFieldsAppend(into, fs, Given(tag, n));
  }

  /** Setting the fields of an edit gives it back, after whatever compaction pointers were there before. */
  lemma SetAllFields(e: WireEdit, deleted: seq<(nat, nat)>, into: WireEdit)
    requires InRange(e) && ListsSet(deleted, e.deletedFiles) && into == NO_EDIT.(compactPointers := into.compactPointers)
    ensures AllValid(FieldsOf(e, deleted))
    ensures SetFields(into, FieldsOf(e, deleted)) == e.(compactPointers := into.compactPointers + e.compactPointers)
  {
    SetScalars(e, into);
    var fs := Scalars(e);
    var e1 := SetFields(into, fs);
    SetPointers(e1, e.compactPointers);
    SetFieldsAppend(into, fs, Pointers(e.compactPointers));
    var e2 := e1.(compactPointers := e1.compactPointers + e.compactPointers);
    forall i | 0 <= i < |deleted| ensures deleted[i].0 < NUM_LEVELS && deleted[i].1 < MAX_64 {
      assert deleted[i] in deleted;
    }
    SetDeletions(e2, deleted);
    SetFieldsAppend(into, fs + Pointers(e.compactPointers), Deletions(deleted));
    assert e2.deletedFiles + (set d | d in deleted) == e.deletedFiles;
    var e3 := e2.(deletedFiles := e.deletedFiles);
    SetAdditions(e3, e.newFiles);
    SetFieldsAppend(into, fs + Pointers(e.compactPointers) + Deletions(deleted), Additions(e.newFiles));
    assert e3.newFiles + e.newFiles == e.newFiles;
  }

  /** Decoding inverts encoding, into an edit that holds at most compaction pointers: those are not cleared. */
  lemma EditRoundTrip(e: WireEdit, deleted: seq<(nat, nat)>, into: WireEdit)
    requires InRange(e) && ListsSet(deleted, e.deletedFiles) && into == NO_EDIT.(compactPointers := into.compactPointers)
    ensures Decode(PutFields(FieldsOf(e, deleted)), into)
         == Decoded(e.(compactPointers := into.compactPointers + e.compactPointers), None)
  {
    SetAllFields(e, deleted, into);
    FieldsRoundTrip(FieldsOf(e, deleted), into);
  }

  predicate Earlier(x: (nat, nat), y: (nat, nat)) {
    x.0 < y.0 || (x.0 == y.0 && x.1 < y.1)
  }

  ghost predicate Ascending(ds: seq<(nat, nat)>) {
    forall i, j :: 0 <= i < j < |ds| ==> Earlier(ds[i], ds[j])
  }

  lemma AscendingSnoc(ds: seq<(nat, nat)>, d: (nat, nat))
    requires Ascending(ds) && forall x :: x in ds ==> Earlier(x, d)
    ensures Ascending(ds + [d])
  {
  }

  ghost predicate IsEarliest(s: set<(nat, nat)>, d: (nat, nat)) {
    d in s && forall y :: y in s ==> y == d || Earlier(d, y)
  }

  lemma {:induction false} EarliestExists(s: set<(nat, nat)>)
    requires s != {}
    ensures exists d :: IsEarliest(s, d)
    decreases |s|
  {
    var x :| x in s;
    if s == {x} {
      assert IsEarliest(s, x);
    } else {
      EarliestExists(s - {x});
      var d :| IsEarliest(s - {x}, d);
      EarlierOfTwo(s, x, d);
    }
  }

  lemma EarlierOfTwo(s: set<(nat, nat)>, x: (nat, nat), d: (nat, nat))
    requires x in s && IsEarliest(s - {x}, d)
    ensures IsEarliest(s, if Earlier(x, d) then x else d)
  {
    var e := if Earlier(x, d) then x else d;
    forall y | y in s ensures y == e || Earlier(e, y) {
      assert y == x || y in s - {x};
    }
  }

  lemma SetFieldInRange(e: WireEdit, f: Field)
    requires InRange(e) && ValidField(f)
    ensures InRange(SetField(e, f))
  {
  }

  /** Whatever the bytes, what is decoded from them is in range. */
  lemma {:induction false} DecodedInRange(s: Bytes, e: WireEdit)
    requires InRange(e)
    ensures InRange(Decode(s, e).edit)
    decreases |s|
  {
    var tag := GetVarint32(s);
    if tag.Some? && Schema(tag.value.0).Some? {
      var items := GetItems(Schema(tag.value.0).value, tag.value.1);
      if items.Some? {
        var f := Field(tag.value.0, items.value.0);
        SetFieldInRange(e, f);
        DecodedInRange(items.value.1, SetField(e, f));
      }
    }
  }
}
