/** The message cache as a function of its history: which keys it holds, with what, and
    where each media id came from. */
module CacheSpec {
  import opened Bytes

  datatype Key = Key(chatID: int, msgID: int)

  datatype Message = Message(text: string)

  datatype Record = Record(msg: Message, mediaIDs: seq<int>)

  datatype Op = Put(key: Key, record: Record) | Get(key: Key)

  // ---------- the specification ----------

  function Without(s: seq<Key>, k: Key): (r: seq<Key>)
    ensures forall j :: j in r <==> j in s && j != k
    ensures |r| <= |s|
  {
    if s == [] then [] else if s[0] == k then Without(s[1..], k) else [s[0]] + Without(s[1..], k)
  }

  /** The distinct keys of t, the one touched last first. */
  function Recent(t: seq<Key>): (r: seq<Key>)
    ensures forall k :: k in r <==> k in t
  {
    if t == [] then []
    else
      var n := |t| - 1;
      assert t == t[..n] + [t[n]];
      [t[n]] + Without(Recent(t[..n]), t[n])
  }

  function Take(s: seq<Key>, n: nat): seq<Key> { if |s| <= n then s else s[..n] }

  /** The keys touched by a history: every put, and every get that hits. */
  function Touches(h: seq<Op>, cap: nat): seq<Key> {
    if h == [] then []
    else
      var before, op := Touches(h[..|h| - 1], cap), h[|h| - 1];
      if op.Put? || op.key in Take(Recent(before), cap) then before + [op.key] else before
  }

  /** What is cached: the cap most recently touched keys. */
  function Cached(h: seq<Op>, cap: nat): seq<Key> { Take(Recent(Touches(h, cap)), cap) }

  function LastPut(h: seq<Op>, k: Key): Option<Record> {
    if h == [] then None
    else
      var op := h[|h| - 1];
      if op.Put? && op.key == k then Some(op.record) else LastPut(h[..|h| - 1], k)
  }

  /** The key of the last put that listed a media id. */
  function LastLister(h: seq<Op>, id: int): Option<Key> {
    if h == [] then None
    else
      var op := h[|h| - 1];
      if op.Put? && id in op.record.mediaIDs then Some(op.key) else LastLister(h[..|h| - 1], id)
  }

  /** That key, if it is cached and its own last put still lists the id. */
  function Source(h: seq<Op>, cap: nat, id: int): Option<Key> {
    var k := LastLister(h, id);
    if k.Some? && k.value in Cached(h, cap) && LastPut(h, k.value).Some? && id in LastPut(h, k.value).value.mediaIDs
    then k else None
  }

  // ---------- the cache's state ----------

  datatype State = State(keys: seq<Key>, entries: map<Key, Record>, docs: map<int, Key>)

  function Unindex(docs: map<int, Key>, k: Key, ids: seq<int>): map<int, Key> {
    map id | id in docs && !(id in ids && docs[id] == k) :: docs[id]
  }

  function Index(docs: map<int, Key>, k: Key, ids: seq<int>): map<int, Key> {
    docs + (map id | id in ids :: k)
  }

  function OldIDs(s: State, k: Key): seq<int> { if k in s.entries then s.entries[k].mediaIDs else [] }

  /** put, before eviction. */
  function Store(s: State, k: Key, r: Record): State {
    State([k] + Without(s.keys, k), s.entries[k := r], Index(Unindex(s.docs, k, OldIDs(s, k)), k, r.mediaIDs))
  }

  /** evictLocked on the oldest key. */
  function EvictOldest(s: State): State
    requires s.keys != []
  {
    var z := s.keys[|s.keys| - 1];
    State(s.keys[..|s.keys| - 1], s.entries - {z}, Unindex(s.docs, z, OldIDs(s, z)))
  }

  function Evict(s: State, cap: nat): State
    decreases |s.keys|
  {
    if |s.keys| > cap then Evict(EvictOldest(s), cap) else s
  }

  function Touch(s: State, k: Key): State {
    if k in s.entries then s.(keys := [k] + Without(s.keys, k)) else s
  }

  function Lookup(docs: map<int, Key>, id: int): Option<Key> { if id in docs then Some(docs[id]) else None }

  ghost predicate Refines(h: seq<Op>, cap: nat, s: State) {
    && s.keys == Cached(h, cap)
    && (forall k :: k in s.entries <==> k in s.keys)
    && (forall k :: k in s.keys ==> LastPut(h, k) == Some(s.entries[k]))
    && (forall id :: Lookup(s.docs, id) == Source(h, cap, id))
  }

  // ---------- recency ----------

  predicate Distinct(s: seq<Key>) { forall i, j :: 0 <= i < j < |s| ==> s[i] != s[j] }

  lemma {:induction false} WithoutDistinct(s: seq<Key>, k: Key)
    requires Distinct(s)
    ensures Distinct(Without(s, k))
  {
    if s != [] {
      WithoutDistinct(s[1..], k);
      var r := Without(s[1..], k);
      if s[0] != k {
        forall i, j | 0 <= i < j < |[s[0]] + r| ensures ([s[0]] + r)[i] != ([s[0]] + r)[j] {
          if i == 0 { assert r[j - 1] in s[1..]; }
        }
      }
    }
  }

  lemma {:induction false} WithoutAbsent(s: seq<Key>, k: Key)
    requires k !in s
    ensures Without(s, k) == s
  {
    if s != [] { WithoutAbsent(s[1..], k); }
  }

  lemma {:induction false} RecentDistinct(t: seq<Key>)
    ensures Distinct(Recent(t))
  {
    if t != [] {
      var n := |t| - 1;
      RecentDistinct(t[..n]);
      var r := Without(Recent(t[..n]), t[n]);
      WithoutDistinct(Recent(t[..n]), t[n]);
      forall i, j | 0 <= i < j < |[t[n]] + r| ensures ([t[n]] + r)[i] != ([t[n]] + r)[j] {
        if i == 0 { assert r[j - 1] in r; }
      }
    }
  }

  lemma {:induction false} WithoutAt(s: seq<Key>, p: nat)
    requires Distinct(s) && p < |s|
    ensures Without(s, s[p]) == s[..p] + s[p + 1..]
  {
    if p == 0 {
      assert s[0] !in s[1..];
      WithoutAbsent(s[1..], s[0]);
    } else {
      WithoutAt(s[1..], p - 1);
      assert s[1..][p - 1] == s[p] && s[0] != s[p];
      assert [s[0]] + s[1..][..p - 1] == s[..p];
      assert s[1..][p..] == s[p + 1..];
    }
  }

  lemma TakeHolds(r: seq<Key>, cap: nat, p: nat)
    requires p < |r|
    ensures p < cap ==> r[p] in Take(r, cap)
  {
    if p < cap { assert Take(r, cap)[p] == r[p]; }
  }

  lemma {:induction false} WithoutCat(a: seq<Key>, b: seq<Key>, k: Key)
    ensures Without(a + b, k) == Without(a, k) + Without(b, k)
  {
    if a == [] {
      assert a + b == b;
    } else {
      assert (a + b)[1..] == a[1..] + b;
      WithoutCat(a[1..], b, k);
    }
  }

  lemma {:induction false} WithoutLength(s: seq<Key>, k: Key)
    requires Distinct(s)
    ensures |Without(s, k)| >= |s| - 1
  {
    if s != [] {
      if s[0] == k { WithoutAbsent(s[1..], k); } else { WithoutLength(s[1..], k); }
    }
  }

  /** Moving a key to the front of the first cap keys is the same as moving it to the front
      of all of them and keeping cap. */
  lemma TouchTaken(r: seq<Key>, k: Key, cap: nat)
    requires Distinct(r) && cap > 0
    ensures Take([k] + Without(Take(r, cap), k), cap) == Take([k] + Without(r, k), cap)
  {
    if |r| > cap {
      var t, rest := r[..cap], r[cap..];
      assert r == t + rest;
      WithoutCat(t, rest, k);
      WithoutLength(t, k);
      TakeFirst([k] + Without(t, k), Without(rest, k), cap);
      Assoc([k], Without(t, k), Without(rest, k));
    }
  }

  lemma TakeFirst(a: seq<Key>, b: seq<Key>, cap: nat)
    requires |a| >= cap
    ensures Take(a + b, cap) == Take(a, cap)
  {
    assert (a + b)[..cap] == a[..cap];
  }

  lemma CachedDistinct(h: seq<Op>, cap: nat)
    ensures Distinct(Cached(h, cap))
  {
    RecentDistinct(Touches(h, cap));
  }

  lemma CachedAfter(h: seq<Op>, cap: nat, op: Op)
    requires cap > 0
    ensures Cached(h + [op], cap) ==
            if op.Put? || op.key in Cached(h, cap) then Take([op.key] + Without(Cached(h, cap), op.key), cap)
            else Cached(h, cap)
  {
    var h' := h + [op];
    assert h'[..|h'| - 1] == h;
    var t := Touches(h, cap);
    RecentDistinct(t);
    if op.Put? || op.key in Cached(h, cap) {
      assert (t + [op.key])[..|t|] == t;
      TouchTaken(Recent(t), op.key, cap);
    }
  }

  // ---------- refinement ----------

  lemma PutHistory(h: seq<Op>, op: Op, k: Key, id: int)
    ensures LastPut(h + [op], k) == if op.Put? && op.key == k then Some(op.record) else LastPut(h, k)
    ensures LastLister(h + [op], id) == if op.Put? && id in op.record.mediaIDs then Some(op.key) else LastLister(h, id)
  {
    assert (h + [op])[..|h|] == h;
  }

  lemma GetRefines(h: seq<Op>, cap: nat, s: State, k: Key)
    requires cap > 0 && Refines(h, cap, s)
    ensures Refines(h + [Get(k)], cap, Touch(s, k))
  {
    var h' := h + [Get(k)];
    CachedAfter(h, cap, Get(k));
    CachedDistinct(h, cap);
    if k in s.keys {
      var p :| 0 <= p < |s.keys| && s.keys[p] == k;
      WithoutAt(s.keys, p);
    }
    forall j ensures LastPut(h', j) == LastPut(h, j) { PutHistory(h, Get(k), j, 0); }
    forall id ensures LastLister(h', id) == LastLister(h, id) { PutHistory(h, Get(k), k, id); }
    SameSources(h, h', cap);
  }

  lemma SameSources(h: seq<Op>, h': seq<Op>, cap: nat)
    requires forall j :: LastPut(h', j) == LastPut(h, j)
    requires forall id :: LastLister(h', id) == LastLister(h, id)
    requires forall k :: k in Cached(h', cap) <==> k in Cached(h, cap)
    ensures forall id :: Source(h', cap, id) == Source(h, cap, id)
  {
    hide Cached, LastPut, LastLister;
  }

  /** After a put at most one key is over the limit, and it is not the new one. */
  function Stored(s: State, cap: nat, k: Key, r: Record): State
    requires cap > 0
  {
    var s1 := Store(s, k, r);
    if |s1.keys| > cap then EvictOldest(s1) else s1
  }

  lemma StoredIs(s: State, cap: nat, k: Key, r: Record)
    requires cap > 0 && |s.keys| <= cap && Distinct(s.keys)
    ensures Evict(Store(s, k, r), cap) == Stored(s, cap, k, r)
    ensures Stored(s, cap, k, r).keys == Take([k] + Without(s.keys, k), cap)
  {
    var s1 := Store(s, k, r);
    if |s1.keys| > cap {
      assert Evict(s1, cap) == Evict(EvictOldest(s1), cap);
    }
  }

  lemma PutRefines(h: seq<Op>, cap: nat, s: State, k: Key, r: Record)
    requires cap > 0 && Refines(h, cap, s)
    ensures Refines(h + [Put(k, r)], cap, Evict(Store(s, k, r), cap))
  {
    var op := Put(k, r);
    var h' := h + [op];
    CachedAfter(h, cap, op);
    CachedDistinct(h, cap);
    StoredIs(s, cap, k, r);
    var s' := Stored(s, cap, k, r);
    forall j
      ensures (j in s'.entries <==> j in s'.keys) && (j in s'.keys ==> LastPut(h', j) == Some(s'.entries[j]))
    {
      PutEntry(h, cap, s, k, r, j);
    }
    forall id ensures Lookup(s'.docs, id) == Source(h', cap, id) { PutSource(h, cap, s, k, r, id); }
  }

  /** The key a put drops, if any. */
  predicate Dropped(s: State, cap: nat, k: Key, j: Key) {
    var keys := [k] + Without(s.keys, k);
    |keys| > cap && keys[|keys| - 1] == j
  }

  lemma StoredKeys(s: State, cap: nat, k: Key, r: Record, j: Key)
    requires cap > 0 && |s.keys| <= cap && Distinct(s.keys)
    ensures j in Stored(s, cap, k, r).keys <==> j == k || (j in s.keys && !Dropped(s, cap, k, j))
  {
    var rest := Without(s.keys, k);
    var keys := [k] + rest;
    WithoutDistinct(s.keys, k);
    if |keys| > cap {
      var n := |keys| - 1;
      var z := keys[n];
      assert n > 0 && z == rest[n - 1];
      assert keys == keys[..n] + [z];
      assert keys[..n] == [k] + rest[..n - 1];
      assert rest == rest[..n - 1] + [z];
      if j in rest[..n - 1] { assert j != z; }
    }
  }

  lemma NewKeyStays(s: State, cap: nat, k: Key, r: Record)
    requires cap > 0
    ensures !Dropped(s, cap, k, k)
  {
    var rest := Without(s.keys, k);
    if rest != [] { assert rest[|rest| - 1] in rest; }
  }

  lemma StoredEntries(s: State, cap: nat, k: Key, r: Record, j: Key)
    requires cap > 0
    ensures j in Stored(s, cap, k, r).entries <==> (j == k || j in s.entries) && !Dropped(s, cap, k, j)
    ensures j in Stored(s, cap, k, r).entries ==> Stored(s, cap, k, r).entries[j] == if j == k then r else s.entries[j]
  {
  }

  lemma PutEntry(h: seq<Op>, cap: nat, s: State, k: Key, r: Record, j: Key)
    requires cap > 0 && Refines(h, cap, s) && |s.keys| <= cap && Distinct(s.keys)
    ensures var s' := Stored(s, cap, k, r);
            (j in s'.entries <==> j in s'.keys) && (j in s'.keys ==> LastPut(h + [Put(k, r)], j) == Some(s'.entries[j]))
  {
    hide LastPut, Stored, Dropped, Cached;
    StoredKeys(s, cap, k, r, j);
    StoredEntries(s, cap, k, r, j);
    NewKeyStays(s, cap, k, r);
    PutHistory(h, Put(k, r), j, 0);
  }

  lemma PutSource(h: seq<Op>, cap: nat, s: State, k: Key, r: Record, id: int)
    requires cap > 0 && Refines(h, cap, s) && Distinct(s.keys)
    ensures Lookup(Stored(s, cap, k, r).docs, id) == Source(h + [Put(k, r)], cap, id)
  {
    var op := Put(k, r);
    var h' := h + [op];
    CachedAfter(h, cap, op);
    StoredIs(s, cap, k, r);
    NewKeyStays(s, cap, k, r);
    StoredKeys(s, cap, k, r, k);
    PutHistory(h, op, k, id);
    var before := Lookup(s.docs, id);
    assert before == Source(h, cap, id);
    var lister := LastLister(h, id);
    if id !in r.mediaIDs && lister.Some? {
      StoredKeys(s, cap, k, r, lister.value);
      PutHistory(h, op, lister.value, id);
    }
  }

  // ---------- what recency means ----------

  function Minus(s: seq<Key>, b: seq<Key>): seq<Key> {
    if s == [] then [] else (if s[0] in b then [] else [s[0]]) + Minus(s[1..], b)
  }

  lemma {:induction false} WithoutMinus(s: seq<Key>, b: seq<Key>, k: Key)
    ensures Without(Minus(s, b), k) == Minus(s, b + [k])
  {
    if s != [] {
      WithoutMinus(s[1..], b, k);
      WithoutCat(if s[0] in b then [] else [s[0]], Minus(s[1..], b), k);
    }
  }

  lemma {:induction false} MinusNothing(s: seq<Key>)
    ensures Minus(s, []) == s
  {
    if s != [] { MinusNothing(s[1..]); }
  }

  lemma RecentSnoc(t: seq<Key>, k: Key)
    ensures Recent(t + [k]) == [k] + Without(Recent(t), k)
  {
    assert (t + [k])[..|t|] == t;
  }

  /** Later touches come first, and hide earlier ones of the same keys. */
  lemma {:induction false} RecentCat(a: seq<Key>, b: seq<Key>)
    ensures Recent(a + b) == Recent(b) + Minus(Recent(a), b)
    decreases |b|
  {
    if b == [] {
      assert a + b == a;
      MinusNothing(Recent(a));
    } else {
      var b', x := b[..|b| - 1], b[|b| - 1];
      assert b == b' + [x] && a + b == (a + b') + [x];
      RecentCat(a, b');
      RecentSnoc(a + b', x);
      RecentSnoc(b', x);
      WithoutCat(Recent(b'), Minus(Recent(a), b'), x);
      WithoutMinus(Recent(a), b', x);
    }
  }

  function KeysOf(t: seq<Key>): set<Key> { set k | k in t }

  lemma {:induction false} DistinctCount(s: seq<Key>)
    requires Distinct(s)
    ensures |KeysOf(s)| == |s|
  {
    if s != [] {
      DistinctCount(s[1..]);
      assert KeysOf(s) == {s[0]} + KeysOf(s[1..]);
      assert s[0] !in s[1..];
    }
  }

  lemma RecentLength(t: seq<Key>)
    ensures |Recent(t)| == |KeysOf(t)|
  {
    RecentDistinct(t);
    DistinctCount(Recent(t));
    assert KeysOf(Recent(t)) == KeysOf(t);
  }

  /** The touches after the last one of k. */
  function After(t: seq<Key>, k: Key): (b: seq<Key>)
    requires k in t
    ensures k !in b && exists a :: t == a + ([k] + b)
  {
    var n := |t| - 1;
    assert t == t[..n] + [t[n]];
    if t[n] == k then
      assert t == t[..n] + ([k] + []);
      []
    else
      var b := After(t[..n], k);
      assert exists a :: t == a + ([k] + (b + [t[n]])) by {
        var a :| t[..n] == a + ([k] + b);
        assert t == a + ([k] + (b + [t[n]]));
      }
      b + [t[n]]
  }

  lemma RecentPosition(t: seq<Key>, k: Key)
    requires k in t
    ensures var p := |KeysOf(After(t, k))|; p < |Recent(t)| && Recent(t)[p] == k
  {
    var b := After(t, k);
    var a :| t == a + ([k] + b);
    assert t == (a + [k]) + b;
    RecentCat(a + [k], b);
    RecentSnoc(a, k);
    RecentLength(b);
  }

  /** A key is cached exactly when it was touched and fewer than cap different keys were
      touched after it. */
  lemma CachedIff(h: seq<Op>, cap: nat, k: Key)
    ensures var t := Touches(h, cap); k in Cached(h, cap) <==> k in t && |KeysOf(After(t, k))| < cap
  {
    hide Touches;
    var t := Touches(h, cap);
    var r := Recent(t);
    RecentDistinct(t);
    if k in t {
      RecentPosition(t, k);
      TakeHolds(r, cap, |KeysOf(After(t, k))|);
    }
  }
}
