/** The message cache of internal/client/msgcache.go: a recency list, a map into it and a
    reverse index of media ids, all changed in place. */
module MessageCache {
  import opened Bytes
  import opened CacheSpec

  const DEFAULT_CAP: nat := 10000

  class Entry {
    const key: Key
    var msg: Message
    var mediaIDs: seq<int>

    constructor (key: Key, msg: Message)
      ensures this.key == key && this.msg == msg && mediaIDs == []
    {
      this.key, this.msg, mediaIDs := key, msg, [];
    }
  }

  function KeysIn(ll: seq<Entry>): seq<Key> { seq(|ll|, i requires 0 <= i < |ll| => ll[i].key) }

  lemma KeysCat(a: seq<Entry>, b: seq<Entry>)
    ensures KeysIn(a + b) == KeysIn(a) + KeysIn(b)
  {
  }

  /** The map and the list are in bijection. */
  ghost predicate Linked(items: map<Key, Entry>, ll: seq<Entry>) {
    && Distinct(KeysIn(ll))
    && (forall k :: k in items <==> k in KeysIn(ll))
    && (forall i :: 0 <= i < |ll| ==> ll[i].key in items && items[ll[i].key] == ll[i])
  }

  lemma Held(items: map<Key, Entry>, ll: seq<Entry>, k: Key)
    requires Linked(items, ll) && k in items
    ensures items[k].key == k && items[k] in ll
  {
    var i :| 0 <= i < |ll| && KeysIn(ll)[i] == k;
    assert items[ll[i].key] == ll[i];
  }

  lemma FrontKeys(ll: seq<Entry>, p: nat)
    requires Distinct(KeysIn(ll)) && p < |ll|
    ensures KeysIn([ll[p]] + (ll[..p] + ll[p + 1..])) == [ll[p].key] + Without(KeysIn(ll), ll[p].key)
  {
    WithoutAt(KeysIn(ll), p);
    KeysCat([ll[p]], ll[..p] + ll[p + 1..]);
    KeysCat(ll[..p], ll[p + 1..]);
    assert KeysIn(ll)[..p] == KeysIn(ll[..p]) && KeysIn(ll)[p + 1..] == KeysIn(ll[p + 1..]);
    assert KeysIn([ll[p]]) == [ll[p].key];
  }

  lemma FrontDistinct(keys: seq<Key>, k: Key)
    requires Distinct(keys)
    ensures Distinct([k] + Without(keys, k))
  {
    WithoutDistinct(keys, k);
    var r := Without(keys, k);
    forall i, j | 0 <= i < j < |[k] + r| ensures ([k] + r)[i] != ([k] + r)[j] {
      if i == 0 { assert r[j - 1] in r; }
    }
  }

  lemma FrontAt(ll: seq<Entry>, p: nat, i: nat)
    requires p < |ll| && i < |ll|
    ensures ([ll[p]] + (ll[..p] + ll[p + 1..]))[i] == ll[if i == 0 then p else if i <= p then i - 1 else i]
  {
  }

  lemma FrontLinked(items: map<Key, Entry>, ll: seq<Entry>, p: nat)
    requires Linked(items, ll) && p < |ll|
    ensures Linked(items, [ll[p]] + (ll[..p] + ll[p + 1..]))
  {
    var ll' := [ll[p]] + (ll[..p] + ll[p + 1..]);
    FrontKeys(ll, p);
    FrontDistinct(KeysIn(ll), ll[p].key);
    assert ll[p].key in KeysIn(ll) by { assert KeysIn(ll)[p] == ll[p].key; }
    hide Without, KeysIn, Distinct;
    forall i | 0 <= i < |ll'| ensures ll'[i].key in items && items[ll'[i].key] == ll'[i] { FrontAt(ll, p, i); }
  }

  lemma PushKeys(ll: seq<Entry>, e: Entry)
    requires e.key !in KeysIn(ll)
    ensures KeysIn([e] + ll) == [e.key] + Without(KeysIn(ll), e.key)
  {
    WithoutAbsent(KeysIn(ll), e.key);
    KeysCat([e], ll);
  }

  lemma PushLinked(items: map<Key, Entry>, ll: seq<Entry>, e: Entry)
    requires Linked(items, ll) && e.key !in items
    ensures Linked(items[e.key := e], [e] + ll)
  {
    PushKeys(ll, e);
    FrontDistinct(KeysIn(ll), e.key);
    hide Without, KeysIn, Distinct;
    var items', ll' := items[e.key := e], [e] + ll;
    forall i | 0 <= i < |ll'| ensures ll'[i].key in items' && items'[ll'[i].key] == ll'[i] {
      if i > 0 { assert ll'[i] == ll[i - 1]; }
    }
  }

  lemma DropKeys(ll: seq<Entry>)
    requires ll != []
    ensures KeysIn(ll[..|ll| - 1]) == KeysIn(ll)[..|ll| - 1] && KeysIn(ll)[|ll| - 1] == ll[|ll| - 1].key
  {
  }

  lemma DropLast(keys: seq<Key>)
    requires Distinct(keys) && keys != []
    ensures var n := |keys| - 1;
            Distinct(keys[..n]) && forall k :: k in keys[..n] <==> k in keys && k != keys[n]
  {
    assert keys == keys[..|keys| - 1] + [keys[|keys| - 1]];
  }

  lemma DropLinked(items: map<Key, Entry>, ll: seq<Entry>)
    requires Linked(items, ll) && ll != []
    ensures var n := |ll| - 1; Linked(items - {ll[n].key}, ll[..n])
  {
    var n := |ll| - 1;
    DropKeys(ll);
    DropLast(KeysIn(ll));
    var items' := items - {ll[n].key};
    forall i | 0 <= i < n ensures ll[i].key in items' && items'[ll[i].key] == ll[i] {
      assert KeysIn(ll)[i] != KeysIn(ll)[n];
    }
  }

  ghost function Records(items: map<Key, Entry>, ll: seq<Entry>): map<Key, Record>
    requires Linked(items, ll)
    reads ll
  {
    map k | k in items :: (Held(items, ll, k); Record(items[k].msg, items[k].mediaIDs))
  }

  lemma LinkedDistinct(items: map<Key, Entry>, ll: seq<Entry>)
    requires Linked(items, ll)
    ensures Distinct(KeysIn(ll))
  {
  }

  lemma HeldKey(items: map<Key, Entry>, ll: seq<Entry>, key: Key)
    requires Linked(items, ll) && key in items
    ensures key in KeysIn(ll)
  {
  }

  lemma ListLength(ll: seq<Entry>)
    ensures |KeysIn(ll)| == |ll|
  {
  }

  lemma LastHeld(items: map<Key, Entry>, ll: seq<Entry>)
    requires Linked(items, ll) && ll != []
    ensures var e := ll[|ll| - 1]; e.key in items && items[e.key] == e
  {
  }

  lemma AbsentKey(items: map<Key, Entry>, ll: seq<Entry>, k: Key)
    requires Linked(items, ll) && k !in items
    ensures k !in KeysIn(ll)
  {
  }

  /** The list's entries are exactly the map's. */
  lemma SameEntries(items: map<Key, Entry>, ll: seq<Entry>, ll': seq<Entry>)
    requires Linked(items, ll) && Linked(items, ll')
    ensures forall e :: e in ll <==> e in ll'
  {
    forall e ensures e in ll <==> e in ll' {
      if e in ll {
        var i :| 0 <= i < |ll| && ll[i] == e;
        Held(items, ll', e.key);
      }
      if e in ll' {
        var i :| 0 <= i < |ll'| && ll'[i] == e;
        Held(items, ll, e.key);
      }
    }
  }

  lemma OnlyEntry(items: map<Key, Entry>, ll: seq<Entry>, key: Key)
    requires Linked(items, ll) && key in items
    ensures forall k :: k in items && k != key ==> items[k] != items[key]
  {
    forall k | k in items && k != key ensures items[k] != items[key] {
      Held(items, ll, k);
      Held(items, ll, key);
    }
  }

  lemma IndexSnoc(docs: map<int, Key>, k: Key, ids: seq<int>, id: int)
    ensures Index(docs, k, ids + [id]) == Index(docs, k, ids)[id := k]
  {
  }

  lemma AtMostCap(h: seq<Op>, cap: nat, s: State)
    requires Refines(h, cap, s)
    ensures |s.keys| <= cap
  {
  }

  lemma NothingEvicted(s: State, cap: nat, k: Key, r: Record)
    requires |s.keys| <= cap && k in s.keys
    ensures Evict(Store(s, k, r), cap) == Store(s, k, r)
  {
    WithoutShorter(s.keys, k);
  }

  lemma {:induction false} WithoutShorter(s: seq<Key>, k: Key)
    requires k in s
    ensures |Without(s, k)| < |s|
  {
    if s[0] != k { WithoutShorter(s[1..], k); }
  }

  lemma EvictStep(s: State, cap: nat)
    requires |s.keys| > cap
    ensures Evict(s, cap) == Evict(EvictOldest(s), cap)
  {
  }

  lemma EvictStop(s: State, cap: nat)
    requires |s.keys| <= cap
    ensures Evict(s, cap) == s
  {
  }

  lemma Answer(h: seq<Op>, cap: nat, s: State, k: Key)
    requires Refines(h, cap, s)
    ensures k in s.entries <==> k in Cached(h, cap)
    ensures k in s.entries ==> LastPut(h, k) == Some(s.entries[k])
  {
  }

  class MsgCache {
    const cap: nat
    var items: map<Key, Entry>
    var ll: seq<Entry>
    var docs: map<int, Key>
    ghost var history: seq<Op>

    ghost function Abs(): State
      requires Linked(items, ll)
      reads this, ll
    {
      State(KeysIn(ll), Records(items, ll), docs)
    }

    /** The cache is what its history of puts and gets says. */
    ghost predicate Valid()
      reads this, ll
    {
      cap > 0 && Linked(items, ll) && Refines(history, cap, Abs())
    }

    constructor (cap: int)
      ensures Valid() && history == [] && this.cap == if cap <= 0 then 10_000 else cap
      ensures fresh(ll)
    {
      this.cap := if cap <= 0 then DEFAULT_CAP else cap;
      items, ll, docs, history := map[], [], map[], [];
      new;
      assert KeysIn(ll) == [];
    }

    method UnindexLocked(entry: Entry)
      modifies this`docs
      ensures docs == Unindex(old(docs), entry.key, entry.mediaIDs)
    {
      ghost var docs0 := docs;
      var ids := entry.mediaIDs;
      for i := 0 to |ids|
        invariant docs == Unindex(docs0, entry.key, ids[..i])
      {
        var id := ids[i];
        assert ids[..i + 1] == ids[..i] + [id];
        if id in docs && docs[id] == entry.key { docs := docs - {id}; }
      }
      assert ids[..|ids|] == ids;
    }

    method SetMediaIDsLocked(entry: Entry, mediaIDs: seq<int>)
      modifies this`docs, entry`mediaIDs
      ensures docs == Index(Unindex(old(docs), entry.key, old(entry.mediaIDs)), entry.key, mediaIDs)
      ensures entry.mediaIDs == mediaIDs
    {
      UnindexLocked(entry);
      entry.mediaIDs := mediaIDs;
      ghost var docs1 := docs;
      for i := 0 to |mediaIDs|
        invariant docs == Index(docs1, entry.key, mediaIDs[..i]) && entry.mediaIDs == mediaIDs
      {
        IndexSnoc(docs1, entry.key, mediaIDs[..i], mediaIDs[i]);
        assert mediaIDs[..i + 1] == mediaIDs[..i] + [mediaIDs[i]];
        docs := docs[mediaIDs[i] := entry.key];
      }
      assert mediaIDs[..|mediaIDs|] == mediaIDs;
    }

    method MoveToFront(entry: Entry)
      requires Linked(items, ll) && entry.key in items && items[entry.key] == entry
      modifies this`ll
      ensures Linked(items, ll) && KeysIn(ll) == [entry.key] + Without(KeysIn(old(ll)), entry.key)
    {
      Held(items, ll, entry.key);
      hide KeysIn, Without, Linked;
      var p := 0;
      while ll[p] != entry
        invariant p < |ll| && entry in ll[p..] && ll == old(ll)
        decreases |ll| - p
      {
        assert ll[p..] == [ll[p]] + ll[p + 1..];
        p := p + 1;
      }
      LinkedDistinct(items, ll);
      FrontLinked(items, ll, p);
      FrontKeys(ll, p);
      ll := [ll[p]] + (ll[..p] + ll[p + 1..]);
    }

    method EvictLocked(ghost s: State)
      requires Linked(items, ll) && ll != [] && Abs() == s
      modifies this`docs, this`ll, this`items
      ensures Linked(items, ll) && Abs() == EvictOldest(s) && |ll| == |old(ll)| - 1
      ensures ll == old(ll)[..|old(ll)| - 1]
    {
      hide Linked, Unindex;
      var oldest := ll[|ll| - 1];
      DropKeys(ll);
      LastHeld(items, ll);
      UnindexLocked(oldest);
      DropLinked(items, ll);
      ll := ll[..|ll| - 1];
      items := items - {oldest.key};
    }

    /** put on a key that is held. */
    method Replace(key: Key, msg: Message, mediaIDs: seq<int>, ghost s: State)
      requires Linked(items, ll) && key in items && Abs() == s
      modifies this`ll, this`docs, ll
      ensures Linked(items, ll) && Abs() == Store(s, key, Record(msg, mediaIDs))
      ensures forall e :: e in ll ==> e in old(ll)
    {
      hide Without, Unindex, Index, KeysIn, Linked, Distinct;
      Held(items, ll, key);
      var entry := items[key];
      MoveToFront(entry);
      SameEntries(items, old(ll), ll);
      OnlyEntry(items, ll, key);
      entry.msg := msg;
      SetMediaIDsLocked(entry, mediaIDs);
    }

    /** put on a new key, before eviction. */
    method Insert(key: Key, msg: Message, mediaIDs: seq<int>, ghost s: State) returns (entry: Entry)
      requires Linked(items, ll) && key !in items && Abs() == s
      modifies this`items, this`ll, this`docs
      ensures Linked(items, ll) && Abs() == Store(s, key, Record(msg, mediaIDs))
      ensures fresh(entry) && ll == [entry] + old(ll)
    {
      hide Without, Unindex, Index, Linked;
      entry := new Entry(key, msg);
      SetMediaIDsLocked(entry, mediaIDs);
      PushLinked(items, ll, entry);
      AbsentKey(items, ll, key);
      PushKeys(ll, entry);
      ll := [entry] + ll;
      items := items[key := entry];
    }

    method EvictOver(ghost s: State)
      requires Linked(items, ll) && Abs() == s
      modifies this`docs, this`ll, this`items
      ensures Linked(items, ll) && Abs() == Evict(s, cap)
      ensures forall e :: e in ll ==> e in old(ll)
    {
      hide Linked, Evict, EvictOldest, KeysIn, Records;
      ghost var now := s;
      while |ll| > cap
        invariant Linked(items, ll) && Abs() == now && Evict(now, cap) == Evict(s, cap)
        invariant forall e :: e in ll ==> e in old(ll)
        decreases |ll|
      {
        ListLength(ll);
        EvictStep(now, cap);
        EvictLocked(now);
        now := EvictOldest(now);
      }
      ListLength(ll);
      EvictStop(now, cap);
    }

    method PutLocked(key: Key, msg: Message, mediaIDs: seq<int>, ghost s: State)
      requires Linked(items, ll) && Abs() == s && |s.keys| <= cap
      modifies this`items, this`ll, this`docs, ll
      ensures Linked(items, ll) && Abs() == Evict(Store(s, key, Record(msg, mediaIDs)), cap)
      ensures forall e :: e in ll ==> e in old(ll) || fresh(e)
    {
      hide Linked, Evict, Store, Records;
      if key in items {
        Replace(key, msg, mediaIDs, s);
        HeldKey(items, old(ll), key);
        NothingEvicted(s, cap, key, Record(msg, mediaIDs));
      } else {
        var entry := Insert(key, msg, mediaIDs, s);
        EvictOver(Store(s, key, Record(msg, mediaIDs)));
      }
    }

    method PutKnown(key: Key, msg: Message, mediaIDs: seq<int>)
      requires Valid()
      modifies this, ll
      ensures Valid() && history == old(history) + [CacheSpec.Put(key, Record(msg, mediaIDs))]
      ensures forall e :: e in ll ==> e in old(ll) || fresh(e)
    {
      hide Refines, Linked, Store, Evict, Records, KeysIn, Cached, LastPut;
      ghost var s := Abs();
      PutRefines(history, cap, s, key, Record(msg, mediaIDs));
      AtMostCap(history, cap, s);
      PutLocked(key, msg, mediaIDs, s);
      history := history + [CacheSpec.Put(key, Record(msg, mediaIDs))];
    }

    /** A nil message and a zero message id are ignored. */
    method Put(chatID: int, msgID: int, msg: Option<Message>, mediaIDs: seq<int>)
      requires Valid()
      modifies this, ll
      ensures Valid() && forall e :: e in ll ==> e in old(ll) || fresh(e)
      ensures history == if msg.None? || msgID == 0 then old(history)
                         else old(history) + [CacheSpec.Put(Key(chatID, msgID), Record(msg.value, mediaIDs))]
    {
      if msg.Some? && msgID != 0 { PutKnown(Key(chatID, msgID), msg.value, mediaIDs); }
    }

    method GetLocked(key: Key, ghost s: State) returns (msg: Option<Message>)
      requires Linked(items, ll) && Abs() == s
      modifies this`ll
      ensures Linked(items, ll) && Abs() == Touch(s, key) && forall e :: e in ll <==> e in old(ll)
      ensures msg == if key in s.entries then Some(s.entries[key].msg) else None
    {
      if key !in items { return None; }
      Held(items, ll, key);
      hide Without, KeysIn;
      var entry := items[key];
      MoveToFront(entry);
      SameEntries(items, old(ll), ll);
      msg := Some(entry.msg);
    }

    method GetKnown(key: Key) returns (msg: Option<Message>)
      requires Valid()
      modifies this
      ensures Valid() && history == old(history) + [CacheSpec.Get(key)] && forall e :: e in ll <==> e in old(ll)
      ensures msg == if key in Cached(old(history), cap) then Some(LastPut(old(history), key).value.msg) else None
    {
      hide Refines, Cached, LastPut, Linked, Touch, Records, KeysIn;
      ghost var s := Abs();
      GetRefines(history, cap, s, key);
      Answer(history, cap, s, key);
      msg := GetLocked(key, s);
      history := history + [CacheSpec.Get(key)];
    }

    /** A zero message id misses and is not looked up. */
    method Get(chatID: int, msgID: int) returns (msg: Option<Message>)
      requires Valid()
      modifies this
      ensures Valid() && forall e :: e in ll <==> e in old(ll)
      ensures history == if msgID == 0 then old(history) else old(history) + [CacheSpec.Get(Key(chatID, msgID))]
      ensures var k := Key(chatID, msgID);
              msg == if msgID != 0 && k in Cached(old(history), cap)
                     then Some(LastPut(old(history), k).value.msg) else None
    {
      msg := None;
      if msgID != 0 { msg := GetKnown(Key(chatID, msgID)); }
    }

    /** Where a media id came from: the key of the last put that listed it, as long as that
        key is cached and its last put lists the id. */
    method SourceByMediaID(id: int) returns (key: Option<Key>)
      requires Valid()
      ensures key == if id == 0 then None else Source(history, cap, id)
    {
      if id == 0 { return None; }
      assert Lookup(Abs().docs, id) == Source(history, cap, id);
      key := if id in docs then Some(docs[id]) else None;
    }

    method Len() returns (n: nat)
      requires Valid()
      ensures n == |Cached(history, cap)| <= cap
    {
      assert |KeysIn(ll)| == |ll|;
      n := |ll|;
    }
  }
}
