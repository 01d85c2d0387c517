/** Internal keys, their order, and the multi-version map they denote (db/dbformat.h). */
module DbFormat {
  import opened Sequences

  /** A user key is modelled by its place in the comparator's order. Every total order on a
      countable set (such as the byte strings under any comparator) embeds in the reals, so what
      holds for all reals holds for every comparator. */
  type UserKey = real

  type Value = string

  type Byte = b: int | 0 <= b < 256
  type Bytes = seq<Byte>

  datatype Kind = Deletion | Put

  /** Sequence numbers have 56 bits; the type takes the other eight of the packed word. */
  const MAX_SEQUENCE: nat := 0xFF_FFFF_FFFF_FFFF

  type SequenceNumber = n: nat | n <= MAX_SEQUENCE

  datatype InternalKey = InternalKey(user: UserKey, seqno: SequenceNumber, kind: Kind)

  datatype Entry = Entry(key: InternalKey, value: Value)

  /** Sequence number and type packed in one word, the type in the low eight bits. */
  function Tag(k: InternalKey): nat {
    k.seqno * 256 + (if k.kind.Put? then 1 else 0)
  }

  /** Packing loses nothing and fits in 64 bits, with no larger sequence number that would. */
  lemma PackedTag(k: InternalKey)
    ensures Tag(k) / 256 == k.seqno && Tag(k) % 256 == (if k.kind.Put? then 1 else 0)
    ensures Tag(k) < 0x1_0000_0000_0000_0000 <= (MAX_SEQUENCE + 1) * 256
  {
  }

  /** InternalKeyComparator: user key ascending, then packed tag descending. */
  predicate Less(a: InternalKey, b: InternalKey) {
    a.user < b.user || (a.user == b.user && Tag(a) > Tag(b))
  }

  /** The key a reader at snapshot `s` seeks to (LookupKey with kValueTypeForSeek). */
  function SeekKey(k: UserKey, s: SequenceNumber): InternalKey {
    InternalKey(k, s, Put)
  }

  /** The order on stored entries: no two of them share user key and sequence number. */
  predicate Precedes(a: InternalKey, b: InternalKey) {
    a.user < b.user || (a.user == b.user && a.seqno > b.seqno)
  }

  ghost predicate SortedRun(es: seq<Entry>) {
    forall i, j :: 0 <= i < j < |es| ==> Precedes(es[i].key, es[j].key)
  }

  /** Every entry of `a` is newer than every entry of `b` for the same user key. */
  ghost predicate Newer(a: seq<Entry>, b: seq<Entry>) {
    forall x, y :: x in a && y in b && x.key.user == y.key.user ==> x.key.seqno > y.key.seqno
  }

  ghost function Members(es: seq<Entry>): iset<Entry> {
    iset x | x in es
  }

  // ----- the specification: a multi-version map ------------------------------------------------

  ghost predicate Candidate(es: iset<Entry>, k: UserKey, s: SequenceNumber, e: Entry) {
    e in es && e.key.user == k && e.key.seqno <= s
  }

  ghost predicate IsNewest(es: iset<Entry>, k: UserKey, s: SequenceNumber, e: Entry) {
    Candidate(es, k, s, e) && forall x :: Candidate(es, k, s, x) ==> x.key.seqno <= e.key.seqno
  }

  ghost predicate UniqueSeqs(es: iset<Entry>) {
    forall x, y :: x in es && y in es && x.key.user == y.key.user && x.key.seqno == y.key.seqno ==> x == y
  }

  /** What a reader at snapshot `s` sees for `k`: the newest entry not after `s`, unless it is a
      deletion. */
  ghost function View(es: iset<Entry>, k: UserKey, s: SequenceNumber): Option<Value> {
    if exists e :: IsNewest(es, k, s, e) && e.key.kind.Put? then
      var e :| IsNewest(es, k, s, e) && e.key.kind.Put?; Some(e.value)
    else None
  }

  lemma {:induction false} NewestExists(es: iset<Entry>, k: UserKey, s: SequenceNumber, e: Entry) returns (n: Entry)
    requires Candidate(es, k, s, e)
    ensures IsNewest(es, k, s, n)
    decreases s - e.key.seqno
  {
    if x :| Candidate(es, k, s, x) && x.key.seqno > e.key.seqno {
      n := NewestExists(es, k, s, x);
    } else {
      n := e;
    }
  }

  lemma ViewOfNewest(es: iset<Entry>, k: UserKey, s: SequenceNumber, e: Entry)
    requires UniqueSeqs(es) && IsNewest(es, k, s, e)
    ensures View(es, k, s) == if e.key.kind.Put? then Some(e.value) else None
  {
    forall x | IsNewest(es, k, s, x) ensures x == e {
      assert Candidate(es, k, s, x) && Candidate(es, k, s, e);
    }
  }

  // ----- reading one sorted run ----------------------------------------------------------------

  datatype GetResult = NotFound | Deleted | Found(value: Value)

  /** Index of the first entry at or after the seek key; what an iterator's Seek lands on. */
  function SeekIndex(es: seq<Entry>, target: InternalKey): (n: nat)
    ensures n <= |es|
    ensures forall i :: 0 <= i < n ==> Less(es[i].key, target)
    ensures n < |es| ==> !Less(es[n].key, target)
  {
    if es == [] || !Less(es[0].key, target) then 0 else
      assert forall i :: 1 <= i < |es| ==> es[i] == es[1..][i - 1];
      1 + SeekIndex(es[1..], target)
  }

  /** Seek, then keep the entry only if its user key matches (SaveValue, MemTable::Get). */
  function RunGet(es: seq<Entry>, k: UserKey, s: SequenceNumber): GetResult {
    var n := SeekIndex(es, SeekKey(k, s));
    if n == |es| || es[n].key.user != k then NotFound
    else if es[n].key.kind.Deletion? then Deleted
    else Found(es[n].value)
  }

  /** Seeking for (k, s) finds the newest entry of `k` not after `s`, and finds nothing exactly when
      the run holds no such entry. */
  lemma RunGetIsNewest(es: seq<Entry>, k: UserKey, s: SequenceNumber)
    requires SortedRun(es)
    ensures RunGet(es, k, s).NotFound? <==> forall e :: e in es ==> e.key.user != k || e.key.seqno > s
    ensures !RunGet(es, k, s).NotFound? ==>
              exists e :: && IsNewest(Members(es), k, s, e)
                          && RunGet(es, k, s) == if e.key.kind.Put? then Found(e.value) else Deleted
  {
    var n := SeekIndex(es, SeekKey(k, s));
    forall e | e in es && e.key.user == k && e.key.seqno <= s
      ensures n < |es| && es[n].key.user == k && e.key.seqno <= es[n].key.seqno
    {
      var i :| 0 <= i < |es| && es[i] == e;
      assert !Less(es[i].key, SeekKey(k, s));
      assert n <= i;
    }
    if n < |es| && es[n].key.user == k {
      assert es[n] in es && es[n].key.seqno <= s;
      assert IsNewest(Members(es), k, s, es[n]);
    }
  }
}
