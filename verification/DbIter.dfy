/** The user-facing iterator: a sorted cursor over the live keys of a snapshot, moving both ways over the
    internal entries (db/db_iter.cc). */
module DbIterator {
  import opened Sequences
  import opened DbFormat

  datatype Direction = Forward | Reverse

  /** What the iterator shows: nothing, or a key with its value. */
  type Shown = Option<(UserKey, Value)>

  datatype Bound = Everywhere | AtLeast(k: UserKey) | MoreThan(k: UserKey) | LessThan(k: UserKey)

  predicate Within(b: Bound, k: UserKey) {
    match b
    case Everywhere => true
    case AtLeast(x) => x <= k
    case MoreThan(x) => x < k
    case LessThan(x) => k < x
  }

  /** `c` is the first live key within the bound, with the value a reader at `s` gets for it. */
  ghost predicate IsFirst(es: seq<Entry>, s: SequenceNumber, b: Bound, c: Shown) {
    && (c.Some? ==> Within(b, c.value.0) && View(Members(es), c.value.0, s) == Some(c.value.1))
    && (forall k :: Within(b, k) && View(Members(es), k, s).Some? ==> c.Some? && c.value.0 <= k)
  }

  ghost predicate IsLast(es: seq<Entry>, s: SequenceNumber, b: Bound, c: Shown) {
    && (c.Some? ==> Within(b, c.value.0) && View(Members(es), c.value.0, s) == Some(c.value.1))
    && (forall k :: Within(b, k) && View(Members(es), k, s).Some? ==> c.Some? && k <= c.value.0)
  }

  // ----- live entries ----------------------------------------------------------------------------------------

  ghost predicate Visible(es: seq<Entry>, s: SequenceNumber, i: int)
    requires 0 <= i < |es|
  {
    es[i].key.seqno <= s
  }

  /** Entry i is the newest one its user key has at the snapshot, and it is a value. */
  ghost predicate Live(es: seq<Entry>, s: SequenceNumber, i: int)
    requires 0 <= i < |es|
  {
    && Visible(es, s, i) && es[i].key.kind.Put?
    && forall j :: 0 <= j < i && es[j].key.user == es[i].key.user ==> !Visible(es, s, j)
  }

  lemma SortedUnique(es: seq<Entry>)
    requires SortedRun(es)
    ensures UniqueSeqs(Members(es))
  {
  }

  lemma NewestIndex(es: seq<Entry>, s: SequenceNumber, i: int)
    requires SortedRun(es) && 0 <= i < |es| && Visible(es, s, i)
    requires forall j :: 0 <= j < i && es[j].key.user == es[i].key.user ==> !Visible(es, s, j)
    ensures IsNewest(Members(es), es[i].key.user, s, es[i])
  {
    forall x | Candidate(Members(es), es[i].key.user, s, x) ensures x.key.seqno <= es[i].key.seqno {
      var j :| 0 <= j < |es| && es[j] == x;
      assert forall m :: 0 <= m < i && es[m].key.user == es[i].key.user ==> !Visible(es, s, m);
    }
  }

  lemma LiveIsShown(es: seq<Entry>, s: SequenceNumber, i: int)
    requires SortedRun(es) && 0 <= i < |es| && Live(es, s, i)
    ensures View(Members(es), es[i].key.user, s) == Some(es[i].value)
  {
    SortedUnique(es);
    NewestIndex(es, s, i);
    ViewOfNewest(Members(es), es[i].key.user, s, es[i]);
  }

  lemma ShownIsLive(es: seq<Entry>, s: SequenceNumber, k: UserKey) returns (i: int)
    requires SortedRun(es) && View(Members(es), k, s).Some?
    ensures 0 <= i < |es| && Live(es, s, i) && es[i].key.user == k
  {
    var e :| IsNewest(Members(es), k, s, e) && e.key.kind.Put?;
    i :| 0 <= i < |es| && es[i] == e;
    forall j | 0 <= j < i && es[j].key.user == k ensures !Visible(es, s, j) {
      assert Precedes(es[j].key, es[i].key);
      assert es[j] in es;
      assert Visible(es, s, j) ==> Candidate(Members(es), k, s, es[j]);
    }
  }

  lemma KeysAscend(es: seq<Entry>)
    requires SortedRun(es)
    ensures forall i, j :: 0 <= i < j < |es| ==> es[i].key.user <= es[j].key.user
  {
  }

  lemma FirstLive(es: seq<Entry>, s: SequenceNumber, b: Bound, i: int)
    requires SortedRun(es) && 0 <= i <= |es|
    requires i < |es| ==> Live(es, s, i) && Within(b, es[i].key.user)
    requires forall j :: 0 <= j < i && Live(es, s, j) ==> !Within(b, es[j].key.user)
    ensures IsFirst(es, s, b, if i < |es| then Some((es[i].key.user, es[i].value)) else None)
  {
    if i < |es| { LiveIsShown(es, s, i); }
    forall k | Within(b, k) && View(Members(es), k, s).Some? ensures i < |es| && es[i].key.user <= k {
      var j := ShownIsLive(es, s, k);
      assert i < j ==> Precedes(es[i].key, es[j].key);
    }
  }

  lemma LastLive(es: seq<Entry>, s: SequenceNumber, b: Bound, i: int)
    requires SortedRun(es) && -1 <= i < |es|
    requires i >= 0 ==> Live(es, s, i) && Within(b, es[i].key.user)
    requires forall j :: i < j < |es| && Live(es, s, j) ==> !Within(b, es[j].key.user)
    ensures IsLast(es, s, b, if i >= 0 then Some((es[i].key.user, es[i].value)) else None)
  {
    if i >= 0 { LiveIsShown(es, s, i); }
    forall k | Within(b, k) && View(Members(es), k, s).Some? ensures i >= 0 && k <= es[i].key.user {
      var j := ShownIsLive(es, s, k);
      assert j < i ==> Precedes(es[j].key, es[i].key);
    }
  }

  // ----- scanning backwards ----------------------------------------------------------------------------------

  /** `c` shows the last live entry at or below `top`. */
  ghost predicate ShowsLastUpTo(es: seq<Entry>, s: SequenceNumber, top: int, c: Shown)
    requires 0 <= top < |es|
  {
    && (c.Some? ==> exists i :: && 0 <= i <= top && Live(es, s, i) && c.value == (es[i].key.user, es[i].value)
                                && forall j :: i < j <= top ==> !Live(es, s, j))
    && (c.None? ==> forall j :: 0 <= j <= top ==> !Live(es, s, j))
  }

  /** The entries in (q, top] have been passed; `m` is the lowest visible one of them, -1 if there is none, `kind`
      its kind, and nothing above it is live. */
  ghost predicate PassedDown(es: seq<Entry>, s: SequenceNumber, q: int, top: int, m: int, kind: Kind)
    requires -1 <= q <= top < |es|
  {
    && (m == -1 ==> kind.Deletion? && forall j :: q < j <= top ==> !Visible(es, s, j))
    && (m != -1 ==> && q < m <= top && Visible(es, s, m) && kind == es[m].key.kind
                    && forall j :: q < j < m ==> !Visible(es, s, j))
    && (forall j :: q < j <= top && j > m ==> !Live(es, s, j))
  }

  lemma StepDownVisible(es: seq<Entry>, s: SequenceNumber, q: int, top: int, m: int, kind: Kind)
    requires SortedRun(es) && 0 <= q <= top < |es| && PassedDown(es, s, q, top, m, kind) && Visible(es, s, q)
    requires kind.Put? ==> es[m].key.user <= es[q].key.user
    ensures PassedDown(es, s, q - 1, top, q, es[q].key.kind)
  {
    if kind.Put? {
      assert Precedes(es[q].key, es[m].key);
    }
  }

  lemma StepDownHidden(es: seq<Entry>, s: SequenceNumber, q: int, top: int, m: int, kind: Kind)
    requires 0 <= q <= top < |es| && PassedDown(es, s, q, top, m, kind) && !Visible(es, s, q)
    ensures PassedDown(es, s, q - 1, top, m, kind)
  {
  }

  lemma NothingShown(es: seq<Entry>, s: SequenceNumber, top: int, m: int)
    requires 0 <= top < |es| && PassedDown(es, s, -1, top, m, Deletion)
    ensures ShowsLastUpTo(es, s, top, None)
  {
  }

  lemma LowestIsLive(es: seq<Entry>, s: SequenceNumber, q: int, top: int, m: int)
    requires SortedRun(es) && -1 <= q <= top < |es| && PassedDown(es, s, q, top, m, Put)
    requires q >= 0 ==> es[q].key.user < es[m].key.user
    ensures top >= 0 && ShowsLastUpTo(es, s, top, Some((es[m].key.user, es[m].value)))
    ensures Live(es, s, m) && forall j :: m < j <= top ==> !Live(es, s, j)
    ensures forall j :: q < j < |es| && es[j].key.user < es[m].key.user ==> !Visible(es, s, j)
  {
    assert forall i, j :: 0 <= i < j < |es| ==> es[i].key.user <= es[j].key.user;
  }

  /** The last live entry up to `top` is the last live key below k, if everything after `top` that lies below k is
      invisible and `top` itself lies below k. */
  lemma LastBelow(es: seq<Entry>, s: SequenceNumber, k: UserKey, top: int, c: Shown)
    requires SortedRun(es) && 0 <= top <= |es|
    requires top < |es| ==> es[top].key.user < k && ShowsLastUpTo(es, s, top, c)
    requires top == |es| ==> c.None?
    requires forall j :: 0 <= j < |es| && (top == |es| || top < j) && es[j].key.user < k ==> !Visible(es, s, j)
    ensures IsLast(es, s, LessThan(k), c)
  {
    assert forall i, j :: 0 <= i < j < |es| ==> es[i].key.user <= es[j].key.user;
    if c.Some? {
      var i :| 0 <= i <= top && Live(es, s, i) && c.value == (es[i].key.user, es[i].value)
               && forall j :: i < j <= top ==> !Live(es, s, j);
      LastLive(es, s, LessThan(k), i);
    } else {
      LastLive(es, s, LessThan(k), -1);
    }
  }

  lemma LastFromTop(es: seq<Entry>, s: SequenceNumber, c: Shown)
    requires SortedRun(es) && es != [] && ShowsLastUpTo(es, s, |es| - 1, c)
    ensures IsLast(es, s, Everywhere, c)
  {
    if c.Some? {
      var i :| 0 <= i <= |es| - 1 && Live(es, s, i) && c.value == (es[i].key.user, es[i].value)
               && forall j :: i < j <= |es| - 1 ==> !Live(es, s, j);
      LastLive(es, s, Everywhere, i);
    } else {
      LastLive(es, s, Everywhere, -1);
    }
  }

  // ----- the iterator ----------------------------------------------------------------------------------------

  ghost predicate Ready(es: seq<Entry>, s: SequenceNumber, pos: nat, skip: Option<UserKey>)
    requires pos <= |es|
  {
    && (forall j :: 0 <= j < pos && Visible(es, s, j) ==>
          (skip.Some? && es[j].key.user <= skip.value) || (pos < |es| ==> es[j].key.user < es[pos].key.user))
    && (forall j :: pos <= j < |es| && Visible(es, s, j) && skip.Some? ==> skip.value <= es[j].key.user)
  }

  /** Passing an entry that is invisible, hidden, or a deletion that starts to hide its key. */
  lemma ReadyNext(es: seq<Entry>, s: SequenceNumber, pos: nat, skip: Option<UserKey>, skip': Option<UserKey>)
    requires SortedRun(es) && pos < |es| && Ready(es, s, pos, skip)
    requires if Visible(es, s, pos) then skip' == Some(es[pos].key.user) else skip' == skip
    ensures Ready(es, s, pos + 1, skip')
  {
    assert forall j :: pos < j < |es| ==> Precedes(es[pos].key, es[j].key);
  }

  ghost predicate NoneLive(es: seq<Entry>, s: SequenceNumber, from: nat, to: nat, skip: Option<UserKey>)
    requires to <= |es|
  {
    forall j :: from <= j < to && Live(es, s, j) ==> skip.Some? && es[j].key.user <= skip.value
  }

  /** An entry at or before the key to skip is not live, unless the caller asked to skip it. */
  lemma HiddenBehind(es: seq<Entry>, s: SequenceNumber, d: nat, pos: nat, skip: Option<UserKey>, skip0: Option<UserKey>)
    requires SortedRun(es) && pos < |es| && Ready(es, s, pos, skip) && Visible(es, s, pos)
    requires skip.Some? && es[pos].key.user <= skip.value
    requires skip == skip0 || (d < pos && Visible(es, s, d) && skip == Some(es[d].key.user))
    ensures Live(es, s, pos) ==> skip0.Some? && es[pos].key.user <= skip0.value
  {
    assert d < pos ==> Precedes(es[d].key, es[pos].key);
  }

  /** A visible value past the key to skip is live. */
  lemma NotHidden(es: seq<Entry>, s: SequenceNumber, pos: nat, skip: Option<UserKey>)
    requires SortedRun(es) && pos < |es| && Ready(es, s, pos, skip) && Visible(es, s, pos) && es[pos].key.kind.Put?
    requires skip.Some? ==> skip.value < es[pos].key.user
    ensures Live(es, s, pos)
  {
    assert forall j :: pos < j < |es| ==> Precedes(es[pos].key, es[j].key);
  }

  lemma NoneLiveNext(es: seq<Entry>, s: SequenceNumber, from: nat, to: nat, skip: Option<UserKey>)
    requires from <= to < |es| && NoneLive(es, s, from, to, skip)
    requires Live(es, s, to) ==> skip.Some? && es[to].key.user <= skip.value
    ensures NoneLive(es, s, from, to + 1, skip)
  {
  }

  /** The first entry that is neither invisible nor hidden by a deletion or by the key to skip. */
  method SkipForward(es: seq<Entry>, s: SequenceNumber, start: nat, skip0: Option<UserKey>) returns (pos: nat)
    requires SortedRun(es) && start < |es| && Ready(es, s, start, skip0)
    ensures start <= pos <= |es| && NoneLive(es, s, start, pos, skip0)
    ensures pos < |es| ==> Live(es, s, pos) && (skip0.Some? ==> skip0.value < es[pos].key.user)
  {
    var skip := skip0;
    pos := start;
    ghost var d: nat := start;
    while pos < |es|
      invariant start <= pos <= |es| && Ready(es, s, pos, skip)
      invariant skip == skip0 || (start <= d < pos && Visible(es, s, d) && skip == Some(es[d].key.user))
      invariant skip0.Some? ==> skip.Some? && skip0.value <= skip.value
      invariant NoneLive(es, s, start, pos, skip0)
      decreases |es| - pos
    {
      var key := es[pos].key;
      if key.seqno <= s {
        if key.kind.Deletion? {
          ReadyNext(es, s, pos, skip, Some(key.user));
          NoneLiveNext(es, s, start, pos, skip0);
          skip, d := Some(key.user), pos;
        } else if skip.Some? && key.user <= skip.value {
          ReadyNext(es, s, pos, skip, Some(key.user));
          HiddenBehind(es, s, d, pos, skip, skip0);
          NoneLiveNext(es, s, start, pos, skip0);
        } else {
          NotHidden(es, s, pos, skip);
          return;
        }
      } else {
        ReadyNext(es, s, pos, skip, skip);
        NoneLiveNext(es, s, start, pos, skip0);
      }
      pos := pos + 1;
    }
  }

  class DBIter {
    /** The merged internal entries and the position of the internal iterator in them; the length of the
        sequence stands for an invalid position, at either end. */
    const entries: seq<Entry>
    const sequence: SequenceNumber
    var pos: nat
    var direction: Direction
    var valid: bool
    var savedKey: Option<UserKey>
    var savedValue: Value

    constructor (entries: seq<Entry>, sequence: SequenceNumber)
      requires SortedRun(entries)
      ensures Valid() && this.entries == entries && this.sequence == sequence && Current() == None
    {
      this.entries, this.sequence := entries, sequence;
      pos := |entries|;
      direction, valid, savedKey, savedValue := Forward, false, None, "";
    }

    ghost predicate Valid()
      reads this
    {
      && SortedRun(entries) && pos <= |entries|
      && (valid && direction.Forward? ==> pos < |entries| && Live(entries, sequence, pos))
      && (valid && direction.Reverse? ==> savedKey.Some? && BeforeSaved() && SavedIsLive())
    }

    /** Moving backwards the internal position lies before every visible entry of the saved key. */
    ghost predicate BeforeSaved()
      reads this
      requires pos <= |entries| && savedKey.Some?
    {
      && (pos < |entries| ==> entries[pos].key.user < savedKey.value)
      && (forall j :: 0 <= j < |entries| && (pos == |entries| || pos < j) && entries[j].key.user < savedKey.value ==>
            !Visible(entries, sequence, j))
    }

    ghost predicate SavedIsLive()
      reads this
      requires savedKey.Some?
    {
      exists i :: && 0 <= i < |entries| && Live(entries, sequence, i)
                  && entries[i].key.user == savedKey.value && entries[i].value == savedValue
    }

    /** key() and value(), or None when the iterator is not valid. */
    function Current(): Shown
      requires Valid()
      reads this
    {
      if !valid then None
      else if direction.Forward? then Some((entries[pos].key.user, entries[pos].value))
      else Some((savedKey.value, savedValue))
    }

    // -- the internal iterator --

    method InnerPrev()
      requires pos < |entries|
      modifies this`pos
      ensures pos == if old(pos) == 0 then |entries| else old(pos) - 1
    {
      pos := if pos == 0 then |entries| else pos - 1;
    }

    method InnerSeekToLast()
      modifies this`pos
      ensures pos == if |entries| == 0 then 0 else |entries| - 1
    {
      pos := if |entries| == 0 then |entries| else |entries| - 1;
    }

    // -- moving forward --

    /** What FindNextUserEntry may assume: nothing visible before the position can hide a later entry, unless the
        skip key does; and nothing visible from it on lies before the skip key. */
    ghost predicate ReadyForward(skip: Option<UserKey>)
      reads this
      requires pos <= |entries|
    {
      Ready(entries, sequence, pos, skip)
    }

    method FindNextUserEntry(skip0: Option<UserKey>)
      requires SortedRun(entries) && pos < |entries| && direction.Forward? && ReadyForward(skip0)
      modifies this
      ensures Valid() && direction.Forward?
      ensures old(pos) <= pos && (valid <==> pos < |entries|)
      ensures valid && skip0.Some? ==> skip0.value < entries[pos].key.user
      ensures forall j :: old(pos) <= j < pos && Live(entries, sequence, j) ==> skip0.Some? && entries[j].key.user <= skip0.value
    {
      pos := SkipForward(entries, sequence, pos, skip0);
      valid := pos < |entries|;
      savedKey := None;
    }

    // -- moving backward --

    method FindPrevUserEntry()
      requires SortedRun(entries) && pos <= |entries| && direction.Reverse?
      modifies this
      ensures Valid()
      ensures valid ==> direction.Reverse?
      ensures old(pos) == |entries| ==> !valid
      ensures old(pos) < |entries| ==> ShowsLastUpTo(entries, sequence, old(pos), Current())
    {
      var kind := Deletion;
      if pos < |entries| {
        ghost var top: int, q: int, m: int := pos, pos, -1;
        while pos < |entries|
          invariant pos <= |entries| && direction.Reverse?
          invariant q == if pos == |entries| then -1 else pos
          invariant q <= top && PassedDown(entries, sequence, q, top, m, kind)
          invariant kind.Put? ==> savedKey == Some(entries[m].key.user) && savedValue == entries[m].value
          decreases q
        {
          var key := entries[pos].key;
          if key.seqno <= sequence {
            if kind.Put? && key.user < savedKey.value {
              break;
            }
            StepDownVisible(entries, sequence, q, top, m, kind);
            m := q;
            kind := key.kind;
            if kind.Deletion? {
              savedKey := None;
              savedValue := "";
            } else {
              savedKey := Some(key.user);
              savedValue := entries[pos].value;
            }
          } else {
            StepDownHidden(entries, sequence, q, top, m, kind);
          }
          InnerPrev();
          q := q - 1;
        }
        if kind.Put? {
          LowestIsLive(entries, sequence, q, top, m);
        } else {
          NothingShown(entries, sequence, top, m);
        }
      }
      if kind.Deletion? {
        valid := false;
        savedKey := None;
        savedValue := "";
        direction := Forward;
      } else {
        valid := true;
      }
    }

    // -- the public operations --

    /** From a live key, the next larger live key. */
    method Next()
      requires Valid() && valid
      modifies this
      ensures Valid() && IsFirst(entries, sequence, MoreThan(old(Current()).value.0), Current())
    {
      ghost var k := Current().value.0;
      if direction.Reverse? {
        direction := Forward;
        if pos >= |entries| {
          pos := 0;
        } else {
          pos := pos + 1;
        }
        ghost var i :| 0 <= i < |entries| && Live(entries, sequence, i) && entries[i].key.user == k;
        assert pos <= i;
      } else {
        savedKey := Some(entries[pos].key.user);
      }
      KeysAscend(entries);
      FindNextUserEntry(savedKey);
      FirstLive(entries, sequence, MoreThan(k), pos);
    }

    /** From a live key, the next smaller live key. */
    method Prev()
      requires Valid() && valid
      modifies this
      ensures Valid() && IsLast(entries, sequence, LessThan(old(Current()).value.0), Current())
    {
      ghost var k := Current().value.0;
      if direction.Forward? {
        savedKey := Some(entries[pos].key.user);
        InnerPrev();
        while pos < |entries| && entries[pos].key.user >= savedKey.value
          invariant pos <= |entries| && savedKey == Some(k) && direction.Forward?
          invariant forall j :: 0 <= j < |entries| && (pos == |entries| || pos < j) ==> k <= entries[j].key.user
          decreases if pos == |entries| then -1 else pos as int
        {
          InnerPrev();
        }
        if pos == |entries| {
          valid := false;
          savedKey := None;
          savedValue := "";
          LastLive(entries, sequence, LessThan(k), -1);
          return;
        }
        direction := Reverse;
      }
      ghost var top := pos;
      FindPrevUserEntry();
      LastBelow(entries, sequence, k, top, Current());
    }

    /** The first live key at or after the target. */
    method Seek(target: UserKey)
      requires Valid()
      modifies this
      ensures Valid() && IsFirst(entries, sequence, AtLeast(target), Current())
    {
      direction := Forward;
      savedValue := "";
      savedKey := None;
      pos := SeekIndex(entries, SeekKey(target, sequence));
      ghost var start := pos;
      assert forall j :: 0 <= j < start ==> Less(entries[j].key, SeekKey(target, sequence));
      assert forall i, j :: 0 <= i < j < |entries| ==> entries[i].key.user <= entries[j].key.user;
      if pos < |entries| {
        FindNextUserEntry(None);
      } else {
        valid := false;
      }
      FirstLive(entries, sequence, AtLeast(target), pos);
    }

    method SeekToFirst()
      requires Valid()
      modifies this
      ensures Valid() && IsFirst(entries, sequence, Everywhere, Current())
    {
      direction := Forward;
      savedValue := "";
      pos := 0;
      if pos < |entries| {
        FindNextUserEntry(None);
      } else {
        valid := false;
      }
      FirstLive(entries, sequence, Everywhere, pos);
    }

    method SeekToLast()
      requires Valid()
      modifies this
      ensures Valid() && IsLast(entries, sequence, Everywhere, Current())
    {
      direction := Reverse;
      savedValue := "";
      InnerSeekToLast();
      FindPrevUserEntry();
      if |entries| == 0 {
        LastLive(entries, sequence, Everywhere, -1);
      } else {
        LastFromTop(entries, sequence, Current());
      }
    }
  }

  // ----- runs of operations ----------------------------------------------------------------------------------

  datatype Op = OpSeek(target: UserKey) | OpSeekToFirst | OpSeekToLast | OpNext | OpPrev

  /** The cursor an operation must lead to. Next and Prev apply only to a valid iterator; a client tests that. */
  ghost predicate Moves(es: seq<Entry>, s: SequenceNumber, op: Op, before: Shown, after: Shown) {
    match op
    case OpSeek(target) => IsFirst(es, s, AtLeast(target), after)
    case OpSeekToFirst => IsFirst(es, s, Everywhere, after)
    case OpSeekToLast => IsLast(es, s, Everywhere, after)
    case OpNext => if before.Some? then IsFirst(es, s, MoreThan(before.value.0), after) else after == before
    case OpPrev => if before.Some? then IsLast(es, s, LessThan(before.value.0), after) else after == before
  }

  /** Any mix of operations in any directions moves the iterator as a cursor over the sorted live map. */
  method RunOps(it: DBIter, ops: seq<Op>) returns (trace: seq<Shown>)
    requires it.Valid()
    modifies it
    ensures it.Valid() && |trace| == |ops| + 1 && trace[0] == old(it.Current()) && trace[|ops|] == it.Current()
    ensures forall i :: 0 <= i < |ops| ==> Moves(it.entries, it.sequence, ops[i], trace[i], trace[i + 1])
  {
    trace := [it.Current()];
    for i := 0 to |ops|
      invariant it.Valid() && |trace| == i + 1 && trace[0] == old(it.Current()) && trace[i] == it.Current()
      invariant forall j :: 0 <= j < i ==> Moves(it.entries, it.sequence, ops[j], trace[j], trace[j + 1])
    {
      match ops[i] {
        case OpSeek(target) => it.Seek(target);
        case OpSeekToFirst => it.SeekToFirst();
        case OpSeekToLast => it.SeekToLast();
        case OpNext => if it.valid { it.Next(); }
        case OpPrev => if it.valid { it.Prev(); }
      }
      trace := trace + [it.Current()];
    }
  }

  /** The cursor is determined by the map alone: two iterators over different entries that mean the same map show
      the same after the same operation. */
  lemma CursorDependsOnMap(es: seq<Entry>, es2: seq<Entry>, s: SequenceNumber, op: Op, before: Shown, a: Shown, b: Shown)
    requires forall k :: View(Members(es), k, s) == View(Members(es2), k, s)
    requires Moves(es, s, op, before, a) && Moves(es2, s, op, before, b)
    ensures a == b
  {
    assert a.Some? ==> View(Members(es), a.value.0, s).Some?;
    assert b.Some? ==> View(Members(es2), b.value.0, s).Some?;
  }

  /** Prev undoes Next. */
  lemma PrevUndoesNext(es: seq<Entry>, s: SequenceNumber, here: Shown, there: Shown, back: Shown)
    requires here.Some? && View(Members(es), here.value.0, s) == Some(here.value.1)
    requires Moves(es, s, OpNext, here, there) && there.Some? && Moves(es, s, OpPrev, there, back)
    ensures back == here
  {
    var k := here.value.0;
    assert Within(LessThan(there.value.0), k);
    assert back.Some? ==> k <= back.value.0;
  }
}
