/** One shard of the cache: a chained hash table of handles, and two lists that tell which cached entries nobody uses
    (util/cache.cc). A freed handle keeps its record, with no references. */
module LruCaches {
  import opened Sequences

  type Ptr = nat
  type Key = string

  datatype Handle = Handle(key: Key, charge: nat, refs: nat, inCache: bool)
  type Handles = map<Ptr, Handle>

  // ----- the hash table --------------------------------------------------------------------------------------------

  type Buckets = seq<seq<Ptr>>

  ghost predicate KeysKnown(hs: Handles, all: set<Ptr>) {
    && (forall p :: p in all ==> p in hs)
    && (forall p, q :: p in all && q in all && hs[p].key == hs[q].key ==> p == q)
  }

  /** The handle belongs in bucket b of a table this long. */
  ghost predicate BelongsIn(hash: Key -> nat, hs: Handles, all: set<Ptr>, length: nat, p: Ptr, b: nat)
    requires length > 0 && forall q :: q in all ==> q in hs
  {
    p in all && hash(hs[p].key) % length == b
  }

  ghost predicate BucketOk(hash: Key -> nat, hs: Handles, all: set<Ptr>, length: nat, bucket: seq<Ptr>, b: nat)
    requires length > 0 && forall q :: q in all ==> q in hs
  {
    NoDup(bucket) && forall p :: p in bucket <==> BelongsIn(hash, hs, all, length, p, b)
  }

  /** The buckets hold exactly these handles, each once and in the bucket of its hash. */
  ghost predicate TableOk(hash: Key -> nat, hs: Handles, list: Buckets, all: set<Ptr>) {
    && list != [] && KeysKnown(hs, all)
    && (forall b :: 0 <= b < |list| ==> BucketOk(hash, hs, all, |list|, list[b], b))
  }

  /** What membership in a bucket means. */
  lemma BucketMember(hash: Key -> nat, hs: Handles, list: Buckets, all: set<Ptr>, b: nat, p: Ptr)
    requires TableOk(hash, hs, list, all) && b < |list|
    ensures p in list[b] <==> p in all && hash(hs[p].key) % |list| == b
  {
    assert BucketOk(hash, hs, all, |list|, list[b], b);
    assert p in list[b] <==> BelongsIn(hash, hs, all, |list|, p, b);
  }

  lemma OneMore(s: seq<Ptr>, h: Ptr)
    requires NoDup(s) && h !in s
    ensures NoDup(s + [h]) && NoDup([h] + s)
    ensures forall p :: (p in s + [h] <==> p in s || p == h) && (p in [h] + s <==> p in s || p == h)
  {
    assert forall i :: 0 <= i < |s| ==> s[i] in s;
  }

  /** Changing one bucket changes which handles the table holds there. */
  lemma OneBucket(hash: Key -> nat, hs: Handles, list: Buckets, all: set<Ptr>, b: nat, bucket: seq<Ptr>, all': set<Ptr>)
    requires TableOk(hash, hs, list, all) && b < |list| && KeysKnown(hs, all')
    requires BucketOk(hash, hs, all', |list|, bucket, b)
    requires forall p :: p in hs && hash(hs[p].key) % |list| != b ==> (p in all <==> p in all')
    ensures TableOk(hash, hs, list[b := bucket], all')
  {
    var list' := list[b := bucket];
    forall c | 0 <= c < |list'| ensures BucketOk(hash, hs, all', |list'|, list'[c], c) {
      assert BucketOk(hash, hs, all, |list|, list[c], c);
      if c != b {
        forall p ensures BelongsIn(hash, hs, all, |list|, p, c) <==> BelongsIn(hash, hs, all', |list|, p, c) {
        }
      }
    }
  }

  /** The place of the key in its bucket, or the end of the bucket. */
  method FindPointer(hash: Key -> nat, hs: Handles, list: Buckets, key: Key, ghost all: set<Ptr>) returns (b: nat, i: nat)
    requires TableOk(hash, hs, list, all)
    ensures b == hash(key) % |list| && i <= |list[b]|
    ensures i < |list[b]| ==> list[b][i] in all && hs[list[b][i]].key == key
    ensures i == |list[b]| ==> forall p :: p in all ==> hs[p].key != key
  {
    b, i := hash(key) % |list|, 0;
    forall j | 0 <= j < |list[b]| ensures list[b][j] in list[b] && list[b][j] in all {
      BucketMember(hash, hs, list, all, b, list[b][j]);
    }
    while i < |list[b]| && hs[list[b][i]].key != key
      invariant 0 <= i <= |list[b]|
      invariant forall j :: 0 <= j < |list[b]| ==> list[b][j] in list[b] && list[b][j] in all
      invariant forall j :: 0 <= j < i ==> hs[list[b][j]].key != key
    {
      i := i + 1;
    }
    if i == |list[b]| {
      forall p | p in all ensures hs[p].key != key {
        BucketMember(hash, hs, list, all, b, p);
      }
    }
  }

  function Put(s: seq<Ptr>, i: nat, h: Ptr): seq<Ptr>
    requires i < |s|
  {
    s[i := h]
  }

  /** Puts a handle into the place of an equal key, or at the end of the bucket. */
  lemma PlacedOk(hash: Key -> nat, hs: Handles, list: Buckets, all: set<Ptr>, b: nat, i: nat, h: Ptr)
    requires TableOk(hash, hs, list, all) && h in hs && h !in all && b == hash(hs[h].key) % |list| && i <= |list[b]|
    requires i < |list[b]| ==> list[b][i] in all && hs[list[b][i]].key == hs[h].key
    requires i == |list[b]| ==> forall p :: p in all ==> hs[p].key != hs[h].key
    ensures i == |list[b]| ==> TableOk(hash, hs, list[b := list[b] + [h]], all + {h})
    ensures i < |list[b]| ==> TableOk(hash, hs, list[b := Put(list[b], i, h)], all - {list[b][i]} + {h})
  {
    assert BucketOk(hash, hs, all, |list|, list[b], b);
    BucketMember(hash, hs, list, all, b, h);
    if i < |list[b]| {
      PutMembers(list[b], i, h);
      assert list[b][i] in list[b];
      OneBucket(hash, hs, list, all, b, Put(list[b], i, h), all - {list[b][i]} + {h});
    } else {
      OneMore(list[b], h);
      OneBucket(hash, hs, list, all, b, list[b] + [h], all + {h});
    }
  }

  lemma PutMembers(s: seq<Ptr>, i: nat, h: Ptr)
    requires NoDup(s) && i < |s| && h !in s
    ensures NoDup(Put(s, i, h)) && forall p :: p in Put(s, i, h) <==> p == h || (p in s && p != s[i])
  {
    var t := Put(s, i, h);
    assert t[i] == h;
    forall p ensures p in t <==> p == h || (p in s && p != s[i]) {
      if p in s && p != s[i] {
        var j :| 0 <= j < |s| && s[j] == p;
        assert t[j] == p;
      }
      if p in t && p != h {
        var j :| 0 <= j < |t| && t[j] == p;
        assert s[j] == p;
      }
    }
  }

  function CutOut(s: seq<Ptr>, i: nat): seq<Ptr>
    requires i < |s|
  {
    s[..i] + s[i + 1..]
  }

  lemma CutOutMembers(s: seq<Ptr>, i: nat)
    requires NoDup(s) && i < |s|
    ensures NoDup(CutOut(s, i)) && forall p :: p in CutOut(s, i) <==> p in s && p != s[i]
  {
    var t := CutOut(s, i);
    assert forall j :: 0 <= j < |t| ==> t[j] == s[if j < i then j else j + 1];
    forall p ensures p in t <==> p in s && p != s[i] {
      if p in s && p != s[i] {
        var j :| 0 <= j < |s| && s[j] == p;
        assert t[if j < i then j else j - 1] == p;
      }
    }
  }

  lemma CutOutOk(hash: Key -> nat, hs: Handles, list: Buckets, all: set<Ptr>, b: nat, i: nat)
    requires TableOk(hash, hs, list, all) && b < |list| && i < |list[b]|
    ensures TableOk(hash, hs, list[b := CutOut(list[b], i)], all - {list[b][i]})
  {
    assert BucketOk(hash, hs, all, |list|, list[b], b);
    assert list[b][i] in list[b];
    CutOutMembers(list[b], i);
    OneBucket(hash, hs, list, all, b, CutOut(list[b], i), all - {list[b][i]});
  }

  /** The least power of two, from four on, that is not below n. */
  method NewLength(n: nat) returns (length: nat)
    ensures length >= 4 && length >= n && (length == 4 || length < 2 * n)
  {
    length := 4;
    while length < n
      invariant length >= 4 && (length == 4 || length < 2 * n)
      decreases n - length
    {
      length := 2 * length;
    }
  }

  /** Moving a handle to the front of its new bucket. */
  lemma MovedOk(hash: Key -> nat, hs: Handles, list: Buckets, moved: set<Ptr>, h: Ptr)
    requires TableOk(hash, hs, list, moved) && h in hs && h !in moved && KeysKnown(hs, moved + {h})
    ensures var b := hash(hs[h].key) % |list|; TableOk(hash, hs, list[b := [h] + list[b]], moved + {h})
  {
    var b := hash(hs[h].key) % |list|;
    assert BucketOk(hash, hs, moved, |list|, list[b], b);
    BucketMember(hash, hs, list, moved, b, h);
    OneMore(list[b], h);
    OneBucket(hash, hs, list, moved, b, [h] + list[b], moved + {h});
  }

  ghost function Members(s: seq<Ptr>): set<Ptr> {
    set p | p in s
  }

  ghost function Before(list: Buckets, b: nat): set<Ptr>
    requires b <= |list|
  {
    if b == 0 then {} else Before(list, b - 1) + Members(list[b - 1])
  }

  lemma {:induction false} BeforeMembers(list: Buckets, b: nat, p: Ptr)
    requires b <= |list|
    ensures p in Before(list, b) <==> exists c :: 0 <= c < b && p in list[c]
  {
    if b > 0 {
      BeforeMembers(list, b - 1, p);
    }
  }

  lemma AllBefore(hash: Key -> nat, hs: Handles, list: Buckets, all: set<Ptr>)
    requires TableOk(hash, hs, list, all)
    ensures Before(list, |list|) == all
  {
    forall p ensures p in Before(list, |list|) <==> p in all {
      BeforeMembers(list, |list|, p);
      forall b | 0 <= b < |list| ensures p in list[b] <==> p in all && hash(hs[p].key) % |list| == b {
        BucketMember(hash, hs, list, all, b, p);
      }
      if p in all {
        assert p in list[hash(hs[p].key) % |list|];
      }
    }
  }

  /** Rehashing keeps the handles of the table. */
  method Resize(hash: Key -> nat, hs: Handles, list: Buckets, elems: nat, ghost all: set<Ptr>) returns (r: Buckets)
    requires TableOk(hash, hs, list, all)
    ensures TableOk(hash, hs, r, all) && |r| >= elems && |r| >= 4
  {
    var length := NewLength(elems);
    r := seq(length, _ => []);
    assert TableOk(hash, hs, r, {});
    for b := 0 to |list|
      invariant |r| == length && TableOk(hash, hs, r, Before(list, b))
    {
      r := MoveBucket(hash, hs, list, b, r, all);
    }
    AllBefore(hash, hs, list, all);
  }

  method MoveBucket(hash: Key -> nat, hs: Handles, list: Buckets, b: nat, into: Buckets, ghost all: set<Ptr>)
    returns (r: Buckets)
    requires TableOk(hash, hs, list, all) && b < |list| && TableOk(hash, hs, into, Before(list, b))
    ensures |r| == |into| && TableOk(hash, hs, r, Before(list, b + 1))
  {
    r := into;
    ghost var moved := Before(list, b);
    assert list[b][..0] == [] && moved + Members([]) == moved;
    for i := 0 to |list[b]|
      invariant |r| == |into| && moved == Before(list, b) + Members(list[b][..i]) && TableOk(hash, hs, r, moved)
    {
      var h := list[b][i];
      NotYetMoved(hash, hs, list, all, b, i);
      SomeOfAll(hash, hs, list, all, b, moved, h, i);
      MovedOk(hash, hs, r, moved, h);
      var c := hash(hs[h].key) % |r|;
      r := r[c := [h] + r[c]];
      assert list[b][..i + 1] == list[b][..i] + [h];
      moved := moved + {h};
    }
    assert list[b][..|list[b]|] == list[b];
  }

  lemma SomeOfAll(hash: Key -> nat, hs: Handles, list: Buckets, all: set<Ptr>, b: nat, moved: set<Ptr>, h: Ptr, i: nat)
    requires TableOk(hash, hs, list, all) && b < |list| && i < |list[b]| && h == list[b][i]
    requires moved == Before(list, b) + Members(list[b][..i])
    ensures h in hs && KeysKnown(hs, moved + {h})
  {
    assert h in list[b];
    assert BucketOk(hash, hs, all, |list|, list[b], b);
    forall p | p in moved + {h} ensures p in all {
      BeforeMembers(list, b, p);
      if p in Before(list, b) {
        var c :| 0 <= c < b && p in list[c];
        assert BucketOk(hash, hs, all, |list|, list[c], c);
      } else {
        assert p in list[b];
      }
    }
  }

  lemma NotYetMoved(hash: Key -> nat, hs: Handles, list: Buckets, all: set<Ptr>, b: nat, i: nat)
    requires TableOk(hash, hs, list, all) && b < |list| && i < |list[b]|
    ensures list[b][i] !in Before(list, b) && list[b][i] !in Members(list[b][..i])
  {
    var h := list[b][i];
    assert h in list[b];
    BeforeMembers(list, b, h);
    assert BucketOk(hash, hs, all, |list|, list[b], b) && BelongsIn(hash, hs, all, |list|, h, b);
    forall c | 0 <= c < b ensures h !in list[c] {
      assert BucketOk(hash, hs, all, |list|, list[c], c);
      assert !BelongsIn(hash, hs, all, |list|, h, c);
    }
  }

  // ----- references and lists --------------------------------------------------------------------------------------

  /** Handles, the two lists, the bytes charged, and the deleter calls made so far. `clients` counts, per handle, the
      references that callers hold. */
  datatype Shard = Shard(hs: Handles, lru: seq<Ptr>, inUse: seq<Ptr>, usage: int, deleted: seq<Ptr>, clients: map<Ptr, nat>)

  function ChargeOf(hs: Handles, p: Ptr): nat {
    if p in hs then hs[p].charge else 0
  }

  function Charges(hs: Handles, s: seq<Ptr>): nat {
    if s == [] then 0 else ChargeOf(hs, s[0]) + Charges(hs, s[1..])
  }

  lemma {:induction false} WithoutFacts(hs: Handles, s: seq<Ptr>, p: Ptr)
    requires NoDup(s) && p in s
    ensures NoDup(Without(s, p)) && forall q :: q in Without(s, p) <==> q in s && q != p
    ensures Charges(hs, Without(s, p)) == Charges(hs, s) - ChargeOf(hs, p)
  {
    assert forall i :: 0 <= i < |s| - 1 ==> s[1..][i] == s[i + 1];
    assert s[0] !in s[1..];
    if s[0] != p {
      WithoutFacts(hs, s[1..], p);
      OneMore(Without(s[1..], p), s[0]);
      assert ([s[0]] + Without(s[1..], p))[1..] == Without(s[1..], p);
    }
  }

  lemma {:induction false} ChargesAppend(hs: Handles, s: seq<Ptr>, p: Ptr)
    ensures Charges(hs, s + [p]) == Charges(hs, s) + ChargeOf(hs, p)
  {
    if s == [] {
      assert ([] + [p])[1..] == [];
    } else {
      assert (s + [p])[1..] == s[1..] + [p];
      ChargesAppend(hs, s[1..], p);
    }
  }

  lemma {:induction false} SameCharges(hs: Handles, hs': Handles, s: seq<Ptr>)
    requires forall p :: p in s ==> ChargeOf(hs, p) == ChargeOf(hs', p)
    ensures Charges(hs, s) == Charges(hs', s)
  {
    if s != [] {
      SameCharges(hs, hs', s[1..]);
    }
  }

  /** Every cached entry is in exactly one list, the LRU list exactly when only the cache refers to it; a handle's
      references are those of callers plus the cache's own; deleters ran exactly once, for the handles without any. */
  ghost predicate HandleOk(x: Shard, p: Ptr) {
    && (p in x.lru <==> p in x.hs && x.hs[p].inCache && x.hs[p].refs == 1)
    && (p in x.inUse <==> p in x.hs && x.hs[p].inCache && x.hs[p].refs >= 2)
    && (p in x.hs <==> p in x.clients)
    && (p in x.hs ==> x.hs[p].refs == x.clients[p] + if x.hs[p].inCache then 1 else 0)
    && (p in x.deleted <==> p in x.hs && x.hs[p].refs == 0)
  }

  ghost predicate ShardOk(x: Shard) {
    && NoDup(x.lru) && NoDup(x.inUse) && NoDup(x.deleted)
    && (forall p :: HandleOk(x, p))
    && x.usage == Charges(x.hs, x.lru) + Charges(x.hs, x.inUse)
  }

  /** A step on one handle leaves the others where they are. */
  ghost predicate OnlyTouches(x: Shard, y: Shard, e: Ptr) {
    forall p :: p != e ==> Untouched(x, y, p)
  }

  ghost predicate Untouched(x: Shard, y: Shard, p: Ptr) {
    && (p in y.hs <==> p in x.hs) && (p in x.hs ==> y.hs[p] == x.hs[p])
    && (p in y.clients <==> p in x.clients) && (p in x.clients ==> y.clients[p] == x.clients[p])
    && (p in y.lru <==> p in x.lru) && (p in y.inUse <==> p in x.inUse) && (p in y.deleted <==> p in x.deleted)
  }

  lemma OthersOk(x: Shard, y: Shard, e: Ptr)
    requires (forall p :: HandleOk(x, p)) && OnlyTouches(x, y, e) && HandleOk(y, e)
    ensures forall p :: HandleOk(y, p)
  {
    forall p ensures HandleOk(y, p) {
      assert HandleOk(x, p);
      assert p != e ==> Untouched(x, y, p);
    }
  }

  ghost function Cached(x: Shard): set<Ptr> {
    set p | p in x.hs && x.hs[p].inCache
  }

  function Ref(x: Shard, e: Ptr): Shard
    requires e in x.hs && e in x.clients
  {
    var h := x.hs[e];
    var y := if h.refs == 1 && h.inCache then x.(lru := Without(x.lru, e), inUse := x.inUse + [e]) else x;
    y.(hs := x.hs[e := h.(refs := h.refs + 1)], clients := x.clients[e := x.clients[e] + 1])
  }

  lemma RefOk(x: Shard, e: Ptr)
    requires ShardOk(x) && e in x.hs && e in x.clients && x.hs[e].refs > 0
    ensures ShardOk(Ref(x, e)) && Cached(Ref(x, e)) == Cached(x) && Ref(x, e).usage == x.usage
    ensures Ref(x, e).lru == Without(x.lru, e)
  {
    RefHandles(x, e);
    RefCharges(x, e);
  }

  lemma RefHandles(x: Shard, e: Ptr)
    requires ShardOk(x) && e in x.hs && e in x.clients && x.hs[e].refs > 0
    ensures var y := Ref(x, e);
            NoDup(y.lru) && NoDup(y.inUse) && y.lru == Without(x.lru, e) && forall p :: HandleOk(y, p)
  {
    assert HandleOk(x, e);
    if e in x.lru {
      WithoutFacts(x.hs, x.lru, e);
      OneMore(x.inUse, e);
    } else {
      WithoutNothing(x.lru, e);
    }
    OthersOk(x, Ref(x, e), e);
  }

  lemma RefCharges(x: Shard, e: Ptr)
    requires ShardOk(x) && e in x.hs && e in x.clients && x.hs[e].refs > 0
    ensures var y := Ref(x, e); y.usage == Charges(y.hs, y.lru) + Charges(y.hs, y.inUse)
  {
    var y := Ref(x, e);
    assert HandleOk(x, e);
    if e in x.lru {
      WithoutFacts(x.hs, x.lru, e);
      ChargesAppend(x.hs, x.inUse, e);
    }
    SameCharges(x.hs, y.hs, y.lru);
    SameCharges(x.hs, y.hs, y.inUse);
  }

  /** Drops one reference; `client` tells whether a caller's or the cache's own. */
  function Unref(x: Shard, e: Ptr): Shard
    requires e in x.hs && x.hs[e].refs > 0
  {
    var h := x.hs[e];
    var y := x.(hs := x.hs[e := h.(refs := h.refs - 1)]);
    if h.refs == 1 then y.(deleted := x.deleted + [e])
    else if h.inCache && h.refs == 2 then y.(inUse := Without(x.inUse, e), lru := x.lru + [e])
    else y
  }

  /** A caller gives a handle back. */
  function Release(x: Shard, e: Ptr): Shard
    requires e in x.hs && x.hs[e].refs > 0 && e in x.clients && x.clients[e] > 0
  {
    Unref(x, e).(clients := x.clients[e := x.clients[e] - 1])
  }

  lemma ReleaseOk(x: Shard, e: Ptr)
    requires ShardOk(x) && e in x.hs && e in x.clients && x.clients[e] > 0 && x.hs[e].refs > 0
    ensures ShardOk(Release(x, e)) && Cached(Release(x, e)) == Cached(x) && Release(x, e).usage == x.usage
    ensures Release(x, e).deleted == if x.hs[e].refs == 1 then x.deleted + [e] else x.deleted
    ensures Release(x, e).lru == x.lru + if x.clients[e] == 1 && x.hs[e].inCache then [e] else []
  {
    assert HandleOk(x, e);
    ReleaseHandles(x, e);
    ReleaseCharges(x, e);
  }

  lemma ReleaseHandles(x: Shard, e: Ptr)
    requires ShardOk(x) && e in x.hs && e in x.clients && x.clients[e] > 0 && x.hs[e].refs > 0
    ensures var y := Release(x, e); NoDup(y.lru) && NoDup(y.inUse) && NoDup(y.deleted) && forall p :: HandleOk(y, p)
  {
    assert HandleOk(x, e);
    if x.hs[e].refs == 1 {
      OneMore(x.deleted, e);
    } else if x.hs[e].inCache && x.hs[e].refs == 2 {
      WithoutFacts(x.hs, x.inUse, e);
      OneMore(x.lru, e);
    }
    OthersOk(x, Release(x, e), e);
  }

  lemma ReleaseCharges(x: Shard, e: Ptr)
    requires ShardOk(x) && e in x.hs && e in x.clients && x.clients[e] > 0 && x.hs[e].refs > 0
    ensures var y := Release(x, e); y.usage == Charges(y.hs, y.lru) + Charges(y.hs, y.inUse)
  {
    var y := Release(x, e);
    assert HandleOk(x, e);
    if x.hs[e].refs > 1 && x.hs[e].inCache && x.hs[e].refs == 2 {
      WithoutFacts(x.hs, x.inUse, e);
      ChargesAppend(x.hs, x.lru, e);
    }
    SameCharges(x.hs, y.hs, y.lru);
    SameCharges(x.hs, y.hs, y.inUse);
  }

  /** Takes an entry out of the lists and drops the cache's reference; the table has let go of it already. */
  function FinishErase(x: Shard, e: Ptr): Shard
    requires e in x.hs && x.hs[e].refs > 0
  {
    Unref(x.(lru := Without(x.lru, e), inUse := Without(x.inUse, e),
             hs := x.hs[e := x.hs[e].(inCache := false)], usage := x.usage - x.hs[e].charge), e)
  }

  lemma {:induction false} WithoutNothing(s: seq<Ptr>, p: Ptr)
    requires p !in s
    ensures Without(s, p) == s
  {
    if s != [] {
      WithoutNothing(s[1..], p);
    }
  }

  /** Handles keep their keys and charges for good. */
  ghost predicate KeysKept(hs: Handles, hs': Handles) {
    forall p :: p in hs ==> p in hs' && hs'[p].key == hs[p].key && hs'[p].charge == hs[p].charge
  }

  /** One entry leaves the cache and no other does; its deleter runs now if no caller holds it. */
  ghost predicate Leaves(x: Shard, y: Shard, e: Ptr) {
    && e in x.hs && e in x.clients && KeysKept(x.hs, y.hs) && y.clients == x.clients
    && Cached(y) == Cached(x) - {e} && y.usage == x.usage - x.hs[e].charge && y.lru == Without(x.lru, e)
    && y.deleted == x.deleted + if x.clients[e] == 0 then [e] else []
  }

  /** The lists without an entry of one of them. */
  lemma ErasedLists(x: Shard, e: Ptr)
    requires ShardOk(x) && e in Cached(x) && x.hs[e].refs > 0
    ensures NoDup(Without(x.lru, e)) && forall p :: p in Without(x.lru, e) <==> p in x.lru && p != e
    ensures NoDup(Without(x.inUse, e)) && forall p :: p in Without(x.inUse, e) <==> p in x.inUse && p != e
    ensures Charges(x.hs, Without(x.lru, e)) + Charges(x.hs, Without(x.inUse, e)) == x.usage - x.hs[e].charge
  {
    assert HandleOk(x, e);
    if x.hs[e].refs == 1 {
      WithoutFacts(x.hs, x.lru, e);
      WithoutNothing(x.inUse, e);
    } else {
      WithoutFacts(x.hs, x.inUse, e);
      WithoutNothing(x.lru, e);
    }
  }

  lemma ErasedHandles(x: Shard, e: Ptr)
    requires ShardOk(x) && e in Cached(x) && x.hs[e].refs > 0
    ensures NoDup(FinishErase(x, e).deleted) && forall p :: HandleOk(FinishErase(x, e), p)
  {
    var y := FinishErase(x, e);
    assert HandleOk(x, e);
    ErasedLists(x, e);
    OneMore(x.deleted, e);
    OthersOk(x, y, e);
  }

  lemma FinishEraseOk(x: Shard, e: Ptr)
    requires ShardOk(x) && e in Cached(x) && x.hs[e].refs > 0
    ensures ShardOk(FinishErase(x, e)) && Leaves(x, FinishErase(x, e), e)
  {
    ErasedHandles(x, e);
    ErasedCharges(x, e);
    ErasedLeaves(x, e);
  }

  lemma ErasedCharges(x: Shard, e: Ptr)
    requires ShardOk(x) && e in Cached(x) && x.hs[e].refs > 0
    ensures var y := FinishErase(x, e); NoDup(y.lru) && NoDup(y.inUse) && y.usage == Charges(y.hs, y.lru) + Charges(y.hs, y.inUse)
  {
    var y := FinishErase(x, e);
    ErasedLists(x, e);
    SameCharges(x.hs, y.hs, y.lru);
    SameCharges(x.hs, y.hs, y.inUse);
  }

  lemma ErasedLeaves(x: Shard, e: Ptr)
    requires ShardOk(x) && e in Cached(x) && x.hs[e].refs > 0
    ensures Leaves(x, FinishErase(x, e), e)
  {
    assert HandleOk(x, e);
    ErasedLists(x, e);
  }

  /** A new handle, cached or not, in the hands of its creator. */
  function Create(x: Shard, e: Ptr, key: Key, charge: nat, cache: bool): Shard {
    if cache then
      x.(hs := x.hs[e := Handle(key, charge, 2, true)], clients := x.clients[e := 1],
         inUse := x.inUse + [e], usage := x.usage + charge)
    else
      x.(hs := x.hs[e := Handle(key, charge, 1, false)], clients := x.clients[e := 1])
  }

  lemma CreateOk(x: Shard, e: Ptr, key: Key, charge: nat, cache: bool)
    requires ShardOk(x) && e !in x.hs
    ensures ShardOk(Create(x, e, key, charge, cache))
    ensures Cached(Create(x, e, key, charge, cache)) == if cache then Cached(x) + {e} else Cached(x)
  {
    var y := Create(x, e, key, charge, cache);
    assert HandleOk(x, e);
    OneMore(x.inUse, e);
    OthersOk(x, y, e);
    SameCharges(x.hs, y.hs, x.lru);
    SameCharges(x.hs, y.hs, x.inUse);
    if cache {
      ChargesAppend(y.hs, x.inUse, e);
    }
  }

  lemma CreateEnters(x: Shard, e: Ptr, key: Key, charge: nat, cache: bool)
    requires ShardOk(x) && e !in x.hs
    ensures Entered(x, Create(x, e, key, charge, cache), e, key, charge, cache)
  {
  }

  /** The table only looks at keys. */
  lemma TableKept(hash: Key -> nat, hs: Handles, hs': Handles, list: Buckets, all: set<Ptr>)
    requires TableOk(hash, hs, list, all) && forall p :: p in all ==> p in hs' && hs'[p].key == hs[p].key
    ensures TableOk(hash, hs', list, all)
  {
    forall b | 0 <= b < |list| ensures BucketOk(hash, hs', all, |list|, list[b], b) {
      assert BucketOk(hash, hs, all, |list|, list[b], b);
      forall p ensures p in list[b] <==> BelongsIn(hash, hs', all, |list|, p, b) {
        assert p in list[b] <==> BelongsIn(hash, hs, all, |list|, p, b);
      }
    }
  }

  lemma RefsPositive(x: Shard, e: Ptr)
    requires ShardOk(x)
    ensures e in Cached(x) ==> x.hs[e].refs > 0 && e in x.clients
    ensures e in x.clients && x.clients[e] > 0 ==> e in x.hs && x.hs[e].refs > 0
    ensures e in x.lru ==> e in Cached(x) && e in x.hs && x.hs[e].refs == 1
  {
    assert HandleOk(x, e);
  }

  /** Exactly the entries `gone` left, from the front of the LRU list, none of them in use, and before the last of them
      went the charges were above the limit. */
  ghost predicate EvictedSoFar(x: Shard, y: Shard, gone: seq<Ptr>, limit: int) {
    && KeysKept(x.hs, y.hs) && y.clients == x.clients
    && gone + y.lru == x.lru && y.deleted == x.deleted + gone && Cached(y) == Cached(x) - Members(gone)
    && (gone != [] ==> y.usage + ChargeOf(y.hs, gone[|gone| - 1]) > limit)
  }

  /** No more left than had to: the charges fit now, or nothing is left that nobody uses. */
  ghost predicate Evicted(x: Shard, y: Shard, gone: seq<Ptr>, limit: int) {
    EvictedSoFar(x, y, gone, limit) && (y.usage <= limit || y.lru == [])
  }

  lemma NoneEvicted(x: Shard, limit: int)
    ensures EvictedSoFar(x, x, [], limit)
  {
    assert Members([]) == {};
  }

  lemma EvictOneMore(x: Shard, y: Shard, z: Shard, gone: seq<Ptr>, limit: int)
    requires EvictedSoFar(x, y, gone, limit) && y.usage > limit && y.lru != [] && Leaves(y, z, y.lru[0]) && y.clients[y.lru[0]] == 0
    ensures EvictedSoFar(x, z, gone + [y.lru[0]], limit)
  {
    var e := y.lru[0];
    assert gone + [e] + y.lru[1..] == gone + y.lru;
    assert Members(gone + [e]) == Members(gone) + {e};
  }

  /** The entry a new one replaces has left, if there was any. */
  ghost predicate Replaced(x: Shard, y: Shard, key: Key, e: Ptr, was: Option<Ptr>) {
    && (was.Some? ==> was.value in Cached(x) && was.value != e && x.hs[was.value].key == key && Leaves(x, y, was.value))
    && (was.None? ==> y == x && forall p :: p in Cached(x) && p != e ==> x.hs[p].key != key)
  }

  /** One handle was last given back before the other. */
  ghost predicate Earlier(released: map<Ptr, nat>, p: Ptr, q: Ptr) {
    p in released && q in released && released[p] < released[q]
  }

  ghost predicate Dated(released: map<Ptr, nat>, clock: nat, p: Ptr) {
    p in released && released[p] < clock
  }

  /** The list is in the order in which its entries were last given back. */
  ghost predicate InReleaseOrder(lru: seq<Ptr>, released: map<Ptr, nat>, clock: nat) {
    lru != [] ==>
      && Dated(released, clock, lru[0]) && (forall q :: q in lru[1..] ==> Earlier(released, lru[0], q))
      && InReleaseOrder(lru[1..], released, clock)
  }

  lemma {:induction false} WithoutInOrder(lru: seq<Ptr>, p: Ptr, released: map<Ptr, nat>, clock: nat)
    requires NoDup(lru) && InReleaseOrder(lru, released, clock)
    ensures InReleaseOrder(Without(lru, p), released, clock)
  {
    if lru != [] && lru[0] != p {
      var rest := lru[1..];
      assert lru == [lru[0]] + rest;
      WithoutInOrder(rest, p, released, clock);
      WithoutMembers(rest, p);
      assert Without(lru, p)[1..] == Without(rest, p);
    }
  }

  lemma {:induction false} LastInOrder(lru: seq<Ptr>, p: Ptr, released: map<Ptr, nat>, clock: nat)
    requires InReleaseOrder(lru, released, clock) && p !in lru
    ensures InReleaseOrder(lru, released[p := clock], clock + 1) && InReleaseOrder(lru + [p], released[p := clock], clock + 1)
  {
    var later := released[p := clock];
    if lru == [] {
      assert ([] + [p])[1..] == [];
      assert InReleaseOrder([], later, clock + 1);
    } else {
      var rest := lru[1..];
      LastInOrder(rest, p, released, clock);
      assert (lru + [p])[1..] == rest + [p];
      forall q | q in rest + [p] ensures Earlier(later, lru[0], q) {
        assert q in rest ==> Earlier(released, lru[0], q);
      }
    }
  }

  /** Everything evicted was given back before anything that is left. */
  ghost predicate OldestGone(gone: seq<Ptr>, left: seq<Ptr>, released: map<Ptr, nat>) {
    forall p, q :: p in gone && q in left ==> Earlier(released, p, q)
  }

  lemma {:induction false} PrefixIsOldest(gone: seq<Ptr>, left: seq<Ptr>, released: map<Ptr, nat>, clock: nat)
    requires InReleaseOrder(gone + left, released, clock)
    ensures OldestGone(gone, left, released) && InReleaseOrder(left, released, clock)
  {
    if gone == [] {
      assert gone + left == left;
    } else {
      assert (gone + left)[1..] == gone[1..] + left;
      PrefixIsOldest(gone[1..], left, released, clock);
    }
  }

  lemma EvictedAreOldest(x: Shard, y: Shard, gone: seq<Ptr>, limit: int, released: map<Ptr, nat>, clock: nat)
    requires InReleaseOrder(x.lru, released, clock) && EvictedSoFar(x, y, gone, limit)
    ensures OldestGone(gone, y.lru, released)
  {
    PrefixIsOldest(gone, y.lru, released, clock);
  }

  /** A new handle in the hands of its creator, cached or not, and nothing else changed. */
  ghost predicate Entered(x: Shard, y: Shard, e: Ptr, key: Key, charge: nat, cache: bool) {
    && e in y.hs && y.hs[e].key == key && y.hs[e].charge == charge && y.clients == x.clients[e := 1]
    && (forall p :: p in x.hs ==> p in y.hs && y.hs[p] == x.hs[p])
    && Cached(y) == Cached(x) + (if cache then {e} else {}) && y.usage == x.usage + (if cache then charge else 0)
    && y.lru == x.lru && y.deleted == x.deleted
  }

  /** HandleTable::Insert: the handle takes the place of the one with its key, which is returned, or goes to the end of its
      bucket; then the table grows when it is full. */
  method InsertHandle(hash: Key -> nat, hs: Handles, list: Buckets, elems: nat, e: Ptr, ghost all: set<Ptr>)
    returns (list': Buckets, elems': nat, was: Option<Ptr>)
    requires TableOk(hash, hs, list, all) && elems == |all| && e !in all && e in hs
    ensures was.None? <==> forall p :: p in all ==> hs[p].key != hs[e].key
    ensures was.None? ==> TableOk(hash, hs, list', all + {e}) && elems' == |all + {e}|
    ensures was.Some? ==> was.value in all && hs[was.value].key == hs[e].key
    ensures was.Some? ==> TableOk(hash, hs, list', all - {was.value} + {e}) && elems' == |all|
    ensures elems <= |list| ==> elems' <= |list'|
  {
    was, elems' := None, elems;
    var b, i := FindPointer(hash, hs, list, hs[e].key, all);
    PlacedOk(hash, hs, list, all, b, i, e);
    if i < |list[b]| {
      was := Some(list[b][i]);
      list' := list[b := Put(list[b], i, e)];
    } else {
      list' := list[b := list[b] + [e]];
      elems' := elems + 1;
      if elems' > |list'| {
        list' := Resize(hash, hs, list', elems', all + {e});
      }
    }
  }

  /** The table holds exactly the cached entries, no key twice, and has a bucket for each on average; the LRU list is in
      the order of release. */
  ghost predicate CacheOk(hash: Key -> nat, x: Shard, list: Buckets, elems: nat, released: map<Ptr, nat>, clock: nat) {
    && ShardOk(x) && TableOk(hash, x.hs, list, Cached(x)) && elems == |Cached(x)| <= |list|
    && InReleaseOrder(x.lru, released, clock)
  }

  class LRUCache {
    const hash: Key -> nat
    const capacity: nat
    var x: Shard
    var list: Buckets
    var elems: nat
    /** When each handle was last given back, and the time now. */
    ghost var released: map<Ptr, nat>
    ghost var clock: nat

    ghost predicate Valid()
      reads this
    {
      CacheOk(hash, x, list, elems, released, clock)
    }

    constructor (hash: Key -> nat, capacity: nat)
      ensures Valid() && Cached(x) == {} && this.capacity == capacity && x.deleted == []
    {
      this.hash, this.capacity := hash, capacity;
      x := Shard(map[], [], [], 0, [], map[]);
      list, elems := [[], [], [], []], 0;
      released, clock := map[], 0;
    }

    /** The cached entry for the key gets one more reference. */
    method Lookup(key: Key) returns (r: Option<Ptr>)
      requires Valid()
      modifies this`x
      ensures Valid() && Cached(x) == old(Cached(x)) && x.deleted == old(x).deleted
      ensures r.None? <==> forall p :: p in Cached(x) ==> x.hs[p].key != key
      ensures r.None? ==> x == old(x)
      ensures r.Some? ==> r.value in Cached(x) && x.hs[r.value].key == key && r.value in x.clients && r.value in old(x).clients
      ensures r.Some? ==> x.clients == old(x).clients[r.value := old(x).clients[r.value] + 1]
      ensures r.Some? ==> x.lru == Without(old(x).lru, r.value) && x.usage == old(x).usage && KeysKept(old(x).hs, x.hs)
    {
      var b, i := FindPointer(hash, x.hs, list, key, Cached(x));
      if i == |list[b]| {
        return None;
      }
      var e := list[b][i];
      RefsPositive(x, e);
      RefOk(x, e);
      WithoutInOrder(x.lru, e, released, clock);
      TableKept(hash, x.hs, Ref(x, e).hs, list, Cached(x));
      x := Ref(x, e);
      r := Some(e);
    }

    /** A caller gives up a reference; the last one to go runs the deleter, or puts a cached entry at the end of the LRU
        list. */
    method ReleaseHandle(e: Ptr)
      requires Valid() && e in x.clients && x.clients[e] > 0
      modifies this`x, this`released, this`clock
      ensures Valid() && Cached(x) == old(Cached(x)) && x.usage == old(x).usage
      ensures x.clients == old(x).clients[e := old(x).clients[e] - 1]
      ensures x.deleted == if old(x).clients[e] == 1 && e !in Cached(x) then old(x).deleted + [e] else old(x).deleted
      ensures x.lru == if old(x).clients[e] == 1 && e in Cached(x) then old(x).lru + [e] else old(x).lru
      ensures KeysKept(old(x).hs, x.hs) && released == old(released)[e := old(clock)] && clock == old(clock) + 1
    {
      RefsPositive(x, e);
      assert HandleOk(x, e);
      ReleaseOk(x, e);
      LastInOrder(x.lru, e, released, clock);
      TableKept(hash, x.hs, Release(x, e).hs, list, Cached(x));
      x := Release(x, e);
      released, clock := released[e := clock], clock + 1;
    }

    /** Removes the entry for the key from the table and the cache. */
    method Erase(key: Key)
      requires Valid()
      modifies this`x, this`list, this`elems
      ensures Valid() && (forall p :: p in old(Cached(x)) && old(x).hs[p].key == key ==> Leaves(old(x), x, p))
      ensures (forall p :: p in old(Cached(x)) ==> old(x).hs[p].key != key) ==> x == old(x)
    {
      var b, i := FindPointer(hash, x.hs, list, key, Cached(x));
      if i < |list[b]| {
        var e := list[b][i];
        ghost var all := Cached(x);
        RefsPositive(x, e);
        OnlyOfKey(hash, x, list, e);
        FinishEraseOk(x, e);
        WithoutInOrder(x.lru, e, released, clock);
        CutOutOk(hash, x.hs, list, all, b, i);
        TableKept(hash, x.hs, FinishErase(x, e).hs, list[b := CutOut(list[b], i)], all - {e});
        list := list[b := CutOut(list[b], i)];
        elems := elems - 1;
        x := FinishErase(x, e);
      }
    }

    /** Evicts entries that nobody uses, least recently released first, until the charges are within the limit. */
    method Evict(limit: int) returns (ghost gone: seq<Ptr>)
      requires Valid()
      modifies this`x, this`list, this`elems
      ensures Valid() && Evicted(old(x), x, gone, limit) && OldestGone(gone, x.lru, released)
    {
      gone := [];
      NoneEvicted(x, limit);
      while x.usage > limit && x.lru != []
        invariant Valid() && EvictedSoFar(old(x), x, gone, limit)
        decreases |x.lru|
      {
        gone := EvictOneOf(old(x), gone, limit);
      }
      EvictedAreOldest(old(x), x, gone, limit, released, clock);
    }

    method EvictOneOf(ghost x0: Shard, ghost gone: seq<Ptr>, limit: int) returns (ghost gone': seq<Ptr>)
      requires Valid() && EvictedSoFar(x0, x, gone, limit) && x.usage > limit && x.lru != []
      modifies this`x, this`list, this`elems
      ensures Valid() && EvictedSoFar(x0, x, gone', limit) && |x.lru| < |old(x).lru|
    {
      EvictOldest();
      EvictOneMore(x0, old(x), x, gone, limit);
      gone' := gone + [old(x).lru[0]];
    }

    method EvictOldest()
      requires Valid() && x.lru != []
      modifies this`x, this`list, this`elems
      ensures Valid() && Leaves(old(x), x, old(x).lru[0]) && old(x).clients[old(x).lru[0]] == 0
      ensures x.lru == old(x).lru[1..]
    {
      var oldest := x.lru[0];
      assert oldest in x.lru;
      RefsPositive(x, oldest);
      assert HandleOk(x, oldest);
      OnlyOfKey(hash, x, list, oldest);
      Erase(x.hs[oldest].key);
    }

    /** Drops every entry that nobody uses, and no other. */
    method Prune()
      requires Valid()
      modifies this`x, this`list, this`elems
      ensures Valid() && x.lru == [] && x.clients == old(x).clients && KeysKept(old(x).hs, x.hs)
      ensures Cached(x) == old(Cached(x)) - Members(old(x).lru) && x.deleted == old(x).deleted + old(x).lru
    {
      ghost var gone := Evict(-1);
      UsageNotNegative(x);
      assert gone + [] == gone;
    }

    /** A new entry replaces an equal key; then the oldest unused entries go until the charges fit. Nothing else leaves:
        `y` is the shard with the new entry, `z` the one without the replaced entry, and `gone` are those evicted. */
    method Insert(e: Ptr, key: Key, charge: nat)
      returns (ghost y: Shard, ghost z: Shard, ghost was: Option<Ptr>, ghost gone: seq<Ptr>)
      requires Valid() && e !in x.hs
      modifies this`x, this`list, this`elems
      ensures Valid() && e in x.hs && x.hs[e].key == key && (e in Cached(x) <==> capacity > 0)
      ensures Entered(old(x), y, e, key, charge, capacity > 0)
      ensures if capacity > 0 then Replaced(y, z, key, e, was) else z == y && was == None
      ensures Evicted(z, x, gone, capacity) && OldestGone(gone, x.lru, released)
    {
      CreateOk(x, e, key, charge, capacity > 0);
      TableKept(hash, x.hs, Create(x, e, key, charge, capacity > 0).hs, list, Cached(x));
      ghost var all := Cached(x);
      CreateEnters(x, e, key, charge, capacity > 0);
      x := Create(x, e, key, charge, capacity > 0);
      y, was := x, None;
      if capacity > 0 {
        was := TableInsert(e, all);
      }
      z := x;
      assert HandleOk(x, e);
      gone := Evict(capacity);
      InUseStays(z, x, e, gone, capacity);
    }

    /** Puts the new entry into the table, growing it when it is full, and lets go of the entry it replaces. */
    method TableInsert(e: Ptr, ghost all: set<Ptr>) returns (ghost was: Option<Ptr>)
      requires ShardOk(x) && TableOk(hash, x.hs, list, all) && elems == |all| && e !in all && e in x.hs && Cached(x) == all + {e}
      requires InReleaseOrder(x.lru, released, clock) && elems <= |list|
      modifies this`x, this`list, this`elems
      ensures Valid() && e in x.hs && x.hs[e] == old(x).hs[e] && Replaced(old(x), x, old(x).hs[e].key, e, was)
    {
      var entry;
      list, elems, entry := InsertHandle(hash, x.hs, list, elems, e, all);
      was := entry;
      if entry.Some? {
        LetGo(entry.value, e, all);
      }
    }

    /** The entry that was replaced in the table leaves the cache. */
    method LetGo(was: Ptr, e: Ptr, ghost all: set<Ptr>)
      requires ShardOk(x) && was in all && e !in all && e in x.hs && Cached(x) == all + {e} && elems == |all|
      requires TableOk(hash, x.hs, list, all - {was} + {e}) && InReleaseOrder(x.lru, released, clock) && elems <= |list|
      modifies this`x
      ensures Valid() && e in x.hs && x.hs[e] == old(x).hs[e] && Leaves(old(x), x, was)
    {
      RefsPositive(x, was);
      ReplacedEntryGoes(hash, x, list, was, e, all, released, clock);
      x := FinishErase(x, was);
    }
  }

  lemma ReplacedEntryGoes(hash: Key -> nat, x: Shard, list: Buckets, was: Ptr, e: Ptr, all: set<Ptr>,
                          released: map<Ptr, nat>, clock: nat)
    requires ShardOk(x) && was in all && e !in all && e in x.hs && Cached(x) == all + {e} && x.hs[was].refs > 0
    requires TableOk(hash, x.hs, list, all - {was} + {e}) && InReleaseOrder(x.lru, released, clock) && |all| <= |list|
    ensures var y := FinishErase(x, was);
            CacheOk(hash, y, list, |all|, released, clock) && Leaves(x, y, was) && e in y.hs && y.hs[e] == x.hs[e]
  {
    var y := FinishErase(x, was);
    FinishEraseOk(x, was);
    WithoutInOrder(x.lru, was, released, clock);
    TableKept(hash, x.hs, y.hs, list, all - {was} + {e});
    SwapSize(all, was, e);
    assert Cached(y) == all - {was} + {e};
  }

  /** An entry in use is not evicted. */
  lemma InUseStays(x: Shard, y: Shard, e: Ptr, gone: seq<Ptr>, limit: int)
    requires ShardOk(x) && Evicted(x, y, gone, limit) && e in x.clients && x.clients[e] > 0 && e in x.hs
    ensures e in Cached(y) <==> e in Cached(x)
    ensures e in y.hs && y.hs[e].key == x.hs[e].key
  {
    assert HandleOk(x, e);
    assert e in gone ==> e in x.lru;
  }

  lemma SwapSize(all: set<Ptr>, was: Ptr, e: Ptr)
    requires was in all && e !in all
    ensures |all - {was} + {e}| == |all| && all + {e} - {was} == all - {was} + {e}
  {
  }

  /** An entry of the LRU list is the only cached one with its key. */
  lemma OnlyOfKey(hash: Key -> nat, x: Shard, list: Buckets, e: Ptr)
    requires ShardOk(x) && TableOk(hash, x.hs, list, Cached(x)) && e in Cached(x)
    ensures forall p :: p in Cached(x) && x.hs[p].key == x.hs[e].key ==> p == e
  {
  }

  lemma UsageNotNegative(x: Shard)
    requires ShardOk(x)
    ensures x.usage >= 0
  {
  }
}
