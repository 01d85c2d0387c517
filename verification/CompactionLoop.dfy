/** The merge loop of a compaction: which rows it drops, and what that does to readers
    (DBImpl::DoCompactionWork in db/db_impl.cc, Compaction::IsBaseLevelForKey in db/version_set.cc). */
module CompactionLoop {
  import opened Sequences
  import opened DbFormat
  import opened Versions
  import opened CompactionInputs

  /** No file below level l+1 can hold the user key. */
  ghost predicate IsBaseLevel(v: Levels, l: nat, k: UserKey) {
    forall m, f :: l + 2 <= m < |v| && f in v[m] ==> !Holds(f, k)
  }

  /** The part of a Compaction object that answers IsBaseLevelForKey: one cursor per level, which only
      moves forward because keys are asked in order. */
  class BaseLevelCursor {
    const v: Levels
    const level: nat
    var levelPtrs: seq<nat>
    ghost var asked: Option<UserKey>

    ghost predicate Valid()
      reads this
    {
      && |levelPtrs| == |v|
      && (forall m :: level + 2 <= m < |v| ==> DisjointSorted(v[m]) && levelPtrs[m] <= |v[m]|)
      && (asked.None? ==> forall m :: level + 2 <= m < |v| ==> levelPtrs[m] == 0)
      && (asked.Some? ==>
            forall m, i :: level + 2 <= m < |v| && 0 <= i < levelPtrs[m] ==> v[m][i].largest.user < asked.value)
    }

    constructor (v: Levels, level: nat)
      requires forall m :: level + 2 <= m < |v| ==> DisjointSorted(v[m])
      ensures Valid() && this.v == v && this.level == level && asked == None
    {
      this.v, this.level := v, level;
      levelPtrs := seq(|v|, _ => 0);
      asked := None;
    }

    /** On keys asked in non-decreasing order the moving cursors answer as a full scan would. */
    method IsBaseLevelForKey(k: UserKey) returns (r: bool)
      requires Valid()
      requires asked.Some? ==> asked.value <= k
      modifies this
      ensures Valid() && asked == Some(k)
      ensures r <==> IsBaseLevel(v, level, k)
    {
      asked := Some(k);
      var lvl := level + 2;
      while lvl < |v|
        invariant level + 2 <= lvl
        invariant Valid() && asked == Some(k)
        invariant forall m, f :: level + 2 <= m < lvl && m < |v| && f in v[m] ==> !Holds(f, k)
      {
        var covered := Advance(lvl, k);
        if covered {
          return false;
        }
        lvl := lvl + 1;
      }
      r := true;
    }

    /** Move one level's cursor to the first file not wholly before the key. */
    method Advance(lvl: nat, k: UserKey) returns (covered: bool)
      requires Valid() && asked == Some(k) && level + 2 <= lvl < |v|
      modifies this`levelPtrs
      ensures Valid()
      ensures covered <==> exists f :: f in v[lvl] && Holds(f, k)
    {
      var files := v[lvl];
      while levelPtrs[lvl] < |files|
        invariant Valid()
        invariant files == v[lvl]
        decreases |files| - levelPtrs[lvl]
      {
        var f := files[levelPtrs[lvl]];
        if k <= f.largest.user {
          assert f in files;
          forall g | g in files && Holds(g, k) ensures Holds(f, k) {
            var i :| 0 <= i < |files| && files[i] == g;
            assert i > levelPtrs[lvl] ==> Precedes(files[levelPtrs[lvl]].largest, files[i].smallest);
          }
          return k >= f.smallest.user;
        }
        levelPtrs := levelPtrs[lvl := levelPtrs[lvl] + 1];
      }
      covered := false;
    }
  }

  // ----- which rows are dropped -------------------------------------------------------------------------

  /** last_sequence_for_key as the loop holds it on reaching row i. */
  function PreviousSequence(input: seq<Entry>, i: nat): SequenceNumber
    requires i < |input|
  {
    if i > 0 && input[i - 1].key.user == input[i].key.user then input[i - 1].key.seqno else MAX_SEQUENCE
  }

  ghost predicate Dropped(v: Levels, l: nat, input: seq<Entry>, snap: SequenceNumber, i: nat)
    requires i < |input|
  {
    || PreviousSequence(input, i) <= snap
    || (input[i].key.kind.Deletion? && input[i].key.seqno <= snap && IsBaseLevel(v, l, input[i].key.user))
  }

  ghost function KeptRows(v: Levels, l: nat, input: seq<Entry>, snap: SequenceNumber, n: nat): seq<Entry>
    requires n <= |input|
  {
    if n == 0 then []
    else KeptRows(v, l, input, snap, n - 1) + if Dropped(v, l, input, snap, n - 1) then [] else [input[n - 1]]
  }

  function Flatten(files: seq<seq<Entry>>): seq<Entry> {
    if files == [] then [] else Flatten(files[..|files| - 1]) + files[|files| - 1]
  }

  /** The loop. `stopBefore` and `full` stand for ShouldStopBefore and the builder's file size: where
      they cut the output does not matter, the files together hold exactly the kept rows. */
  method DoCompactionWork(v: Levels, l: nat, input: seq<Entry>, snap: SequenceNumber, stopBefore: seq<bool>, full: seq<bool>)
    returns (outputs: seq<seq<Entry>>)
    requires SortedRun(input)
    requires |stopBefore| == |input| == |full|
    requires forall m :: l + 2 <= m < |v| ==> DisjointSorted(v[m])
    ensures forall o :: o in outputs ==> o != []
    ensures Flatten(outputs) == KeptRows(v, l, input, snap, |input|)
  {
    var cursor := new BaseLevelCursor(v, l);
    var builder: seq<Entry> := [];
    outputs := [];
    var currentUserKey: Option<UserKey> := None;
    var lastSequenceForKey := MAX_SEQUENCE;
    for i := 0 to |input|
      invariant cursor.Valid() && cursor.v == v && cursor.level == l && fresh(cursor)
      invariant i == 0 <==> currentUserKey.None?
      invariant i > 0 ==> currentUserKey == Some(input[i - 1].key.user) && lastSequenceForKey == input[i - 1].key.seqno
      invariant cursor.asked.Some? ==> i > 0 && cursor.asked.value <= input[i - 1].key.user
      invariant forall o :: o in outputs ==> o != []
      invariant Flatten(outputs) + builder == KeptRows(v, l, input, snap, i)
    {
      if stopBefore[i] && builder != [] {
        outputs, builder := FinishOutput(outputs, builder);
      }
      var key := input[i].key;
      assert i > 0 ==> Precedes(input[i - 1].key, key);
      var drop := false;
      if currentUserKey.None? || key.user != currentUserKey.value {
        currentUserKey := Some(key.user);
        lastSequenceForKey := MAX_SEQUENCE;
      }
      assert lastSequenceForKey == PreviousSequence(input, i);
      if lastSequenceForKey <= snap {
        drop := true;
      } else if key.kind.Deletion? && key.seqno <= snap {
        drop := cursor.IsBaseLevelForKey(key.user);
      }
      lastSequenceForKey := key.seqno;
      if !drop {
        assert Flatten(outputs) + (builder + [input[i]]) == Flatten(outputs) + builder + [input[i]];
        builder := builder + [input[i]];
        if full[i] {
          outputs, builder := FinishOutput(outputs, builder);
        }
      }
    }
    if builder != [] {
      outputs, builder := FinishOutput(outputs, builder);
    }
  }

  method FinishOutput(outputs: seq<seq<Entry>>, builder: seq<Entry>) returns (o: seq<seq<Entry>>, b: seq<Entry>)
    requires builder != [] && forall o :: o in outputs ==> o != []
    ensures o == outputs + [builder] && b == []
    ensures forall x :: x in o ==> x != []
    ensures Flatten(o) + b == Flatten(outputs) + builder
  {
    o, b := outputs + [builder], [];
    assert o[..|o| - 1] == outputs;
  }
}
