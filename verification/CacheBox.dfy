/** The cache and its store as classes: each method is proved to compute its CacheCore function. */
module CacheBox {
  import opened Pool
  import opened CacheCore

  /** A store of which only the contract matters: it keeps, loses and fails as its fates say. */
  class Store {
    var entries: map<Key, Value>

    constructor ()
      ensures entries == map[]
    {
      entries := map[];
    }

    method Get(key: Key, f: ReadFate) returns (hit: Option<Value>, ok: bool)
      modifies this
      ensures entries == old(entries) - f.lost && ok == f.ok
      ensures hit == if f.ok && key in entries then Some(entries[key]) else None
    {
      entries := entries - f.lost;
      ok := f.ok;
      hit := if ok && key in entries then Some(entries[key]) else None;
    }

    /** Fills in what it finds, also when it fails halfway. */
    method GetMulti(keys: seq<Key>, f: ReadFate) returns (found: map<Key, Value>, ok: bool)
      modifies this
      ensures entries == old(entries) - f.lost
      ensures found == ReadMulti(old(entries), keys, f) && ok == f.ok
      ensures forall k :: k in found <==> k in keys && k in entries && (f.ok || k in f.reach)
      ensures forall k | k in found :: found[k] == entries[k]
    {
      entries := entries - f.lost;
      found := map[];
      var i := 0;
      while i < |keys|
        invariant 0 <= i <= |keys| && entries == old(entries) - f.lost
        invariant found == ReadMulti(old(entries), keys[..i], f)
      {
        var k := keys[i];
        assert KeySet(keys[..i + 1]) == KeySet(keys[..i]) + {k} by {
          assert keys[..i + 1] == keys[..i] + [k];
        }
        if k in entries && (f.ok || k in f.reach) {
          found := found[k := entries[k]];
        }
        i := i + 1;
      }
      assert keys[..i] == keys;
      ok := f.ok;
    }

    method SetMulti(keys: seq<Key>, values: seq<Value>, f: WriteFate) returns (err: Option<Error>)
      modifies this
      ensures (entries, err) == WriteMulti(old(entries), keys, values, f)
      ensures |keys| != |values| ==> err == Some(LengthMismatch) && entries == old(entries)
      ensures |keys| == |values| ==> err == if f.ok then None else Some(StoreFailed)
    {
      if |keys| != |values| {
        return Some(LengthMismatch);
      }
      var i := 0;
      while i < |keys|
        invariant 0 <= i <= |keys|
        invariant entries == WriteTurns(old(entries), keys[..i], values[..i], f)
      {
        assert keys[..i + 1][..i] == keys[..i] && values[..i + 1][..i] == values[..i];
        if f.ok || keys[i] in f.reach {
          entries := entries[keys[i] := values[i]];
        }
        i := i + 1;
      }
      assert keys[..i] == keys && values[..i] == values;
      entries := entries - f.lost;
      err := if f.ok then None else Some(StoreFailed);
    }

    method Delete(keys: seq<Key>, f: WriteFate) returns (err: Option<Error>)
      modifies this
      ensures (entries, err) == CacheCore.Delete(old(entries), keys, f)
      ensures err == if f.ok then None else Some(StoreFailed)
      ensures forall k :: k in entries <==> k in old(entries) && k !in f.lost && !(k in keys && (f.ok || k in f.reach))
      ensures forall k | k in entries :: entries[k] == old(entries)[k]
    {
      var i := 0;
      while i < |keys|
        invariant 0 <= i <= |keys|
        invariant entries == old(entries) - (if f.ok then KeySet(keys[..i]) else KeySet(keys[..i]) * f.reach)
      {
        assert KeySet(keys[..i + 1]) == KeySet(keys[..i]) + {keys[i]} by {
          assert keys[..i + 1] == keys[..i] + [keys[i]];
        }
        if f.ok || keys[i] in f.reach {
          entries := entries - {keys[i]};
        }
        i := i + 1;
      }
      assert keys[..i] == keys;
      entries := entries - f.lost;
      err := if f.ok then None else Some(StoreFailed);
    }
  }

  class Cache {
    const store: Store
    const fallbackWhenError: bool
    const limited: bool
    ghost var granted: nat

    ghost function Fields(): Box
      reads this, store
    {
      Box(store.entries, fallbackWhenError, limited, granted)
    }

    constructor (store: Store, fallbackWhenError: bool, limited: bool)
      ensures this.store == store && Fields() == Box(store.entries, fallbackWhenError, limited, 0)
    {
      this.store, this.fallbackWhenError, this.limited := store, fallbackWhenError, limited;
      granted := 0;
    }

    /** `grant` is the limiter's answer if it is asked. */
    method CanFallbackWhenError(grant: bool) returns (may: bool)
      modifies this
      ensures (Fields(), may) == AskLimiter(old(Fields()), grant)
      ensures may == (fallbackWhenError && (!limited || grant))
      ensures store.entries == old(store.entries)
      ensures granted == old(granted) + if fallbackWhenError && limited && grant then 1 else 0
    {
      if !fallbackWhenError {
        return false;
      }
      if !limited {
        return true;
      }
      if grant {
        granted := granted + 1;
      }
      may := grant;
    }

    method Get(key: Key, dst: Value, e: GetEnv) returns (err: Option<Error>, out: Value)
      modifies this, store
      ensures (Fields(), err, out) == CacheCore.Get(old(Fields()), key, dst, e)
    {
      out := dst;
      var hit, ok := store.Get(key, e.read);
      if hit.Some? {
        return None, hit.value;
      }
      var may := true;
      if !ok {
        may := CanFallbackWhenError(e.grant);
      }
      if !may {
        return Some(StoreFailed), dst;
      }
      if e.fetched.FetchError? {
        return Some(FallbackFailed), dst;
      }
      if e.fetched.value.Nil? {
        return None, dst;
      }
      out := e.fetched.value;
      var _ := store.SetMulti([key], [out], e.write);
      err := None;
    }

    method GetMulti(ids: seq<Id>, key: Id -> Key, fallback: Fallback, dst: map<Id, Value>, e: MultiEnv)
      returns (err: Option<Error>, out: map<Id, Value>, asked: Option<seq<Id>>)
      requires GoodOrder(Fields(), ids, key, fallback, dst, e)
      modifies this, store
      ensures Outcome(Fields(), err, out, asked) == CacheCore.GetMulti(old(Fields()), ids, key, fallback, dst, e)
    {
      if |ids| == 0 {
        return None, dst, None;
      }
      var may, cacheMissIds;
      may, out, cacheMissIds := ReadStore(ids, key, dst, e);
      if !may {
        return Some(StoreFailed), dst, None;
      }
      if |cacheMissIds| == 0 {
        return None, out, None;
      }
      asked := Some(cacheMissIds);
      var fetched := fallback(cacheMissIds);
      if fetched.FetchError? {
        return Some(FallbackFailed), out, asked;
      }
      out := StoreFetched(key, out, cacheMissIds, fetched.value, e);
      err := None;
    }

    /** Generates the keys, reads the store and checks what is missing; stops when the read failed for good. */
    method ReadStore(ids: seq<Id>, key: Id -> Key, dst: map<Id, Value>, e: MultiEnv)
      returns (may: bool, out: map<Id, Value>, cacheMissIds: seq<Id>)
      modifies this, store
      ensures (Fields(), may) == AskedAfter(old(Fields()), e.read, e.grant)
      ensures may ==> (out, cacheMissIds) == Triage(old(Fields()), ids, key, dst, e.read)
    {
      var keys, revertKeyMap := MakeKeys(ids, key);
      var found, ok := store.GetMulti(keys, e.read);
      may, out, cacheMissIds := true, dst, [];
      if !ok {
        may := CanFallbackWhenError(e.grant);
        if !may {
          return;
        }
      }
      out, cacheMissIds := CheckMiss(keys, revertKeyMap, found, dst);
    }

    /** Stores what the fallback fetched, ignoring whether the store accepts it, and adds it to `dst`. */
    method StoreFetched(key: Id -> Key, dst: map<Id, Value>, ghost missed: seq<Id>, m: map<Id, Value>, e: MultiEnv)
      returns (out: map<Id, Value>)
      requires forall id | id in e.order :: id in m
      modifies store
      ensures Outcome(Fields(), None, out, Some(missed)) == Absorb(old(Fields()), key, dst, missed, m, e)
    {
      var cacheKeys, cacheSrc;
      cacheKeys, cacheSrc, out := Collect(key, m, e.order, dst);
      if 0 < |cacheSrc| {
        var _ := store.SetMulti(cacheKeys, cacheSrc, e.write);
      }
    }

    /** The key of each id, and for each key the last id that has it. */
    static method MakeKeys(ids: seq<Id>, key: Id -> Key) returns (keys: seq<Key>, back: map<Key, Id>)
      ensures keys == KeysOf(ids, key) && back == Reverted(ids, key)
    {
      keys, back := [], map[];
      var i := 0;
      while i < |ids|
        invariant 0 <= i <= |ids|
        invariant keys == KeysOf(ids[..i], key) && back == Reverted(ids[..i], key)
      {
        assert ids[..i + 1][..i] == ids[..i];
        var k := key(ids[i]);
        keys := keys + [k];
        back := back[k := ids[i]];
        i := i + 1;
      }
      assert ids[..i] == ids;
    }

    static method CheckMiss(keys: seq<Key>, back: map<Key, Id>, found: map<Key, Value>, dst: map<Id, Value>)
      returns (out: map<Id, Value>, missed: seq<Id>)
      requires forall k | k in keys :: k in back
      ensures (out, missed) == SplitHits(keys, back, found, dst)
    {
      out, missed := dst, [];
      var i := 0;
      while i < |keys|
        invariant 0 <= i <= |keys|
        invariant (out, missed) == SplitHits(keys[..i], back, found, dst)
      {
        assert keys[..i + 1][..i] == keys[..i];
        var id := back[keys[i]];
        if keys[i] !in found {
          missed := missed + [id];
        } else {
          out := out[id := found[keys[i]]];
        }
        i := i + 1;
      }
      assert keys[..i] == keys;
    }

    /** The loop over the fallback's map, in the order it is iterated; nil values are passed over. */
    static method Collect(key: Id -> Key, m: map<Id, Value>, order: seq<Id>, dst: map<Id, Value>)
      returns (keys: seq<Key>, values: seq<Value>, out: map<Id, Value>)
      requires forall id | id in order :: id in m
      ensures keys == KeysOf(Present(order, m), key) && values == ValuesOf(Present(order, m), m)
      ensures out == dst + Chosen(Present(order, m), m)
    {
      ghost var present: seq<Id> := [];
      keys, values, out := [], [], dst;
      var i := 0;
      while i < |order|
        invariant 0 <= i <= |order|
        invariant present == Present(order[..i], m)
        invariant keys == KeysOf(present, key) && values == ValuesOf(present, m)
        invariant out == dst + Chosen(present, m)
      {
        assert order[..i + 1][..i] == order[..i];
        var id := order[i];
        var v := m[id];
        assert Present(order[..i + 1], m) == present + if v.Nil? then [] else [id];
        if !v.Nil? {
          ChosenAppend(present, id, key, m, dst);
          keys := keys + [key(id)];
          values := values + [v];
          out := out[id := v];
          present := present + [id];
        }
        i := i + 1;
      }
      assert order[..i] == order;
    }

    method EvictMulti(ids: seq<Id>, key: Id -> Key, f: WriteFate) returns (err: Option<Error>)
      modifies store
      ensures (Fields(), err) == CacheCore.EvictMulti(old(Fields()), ids, key, f)
    {
      if |ids| == 0 {
        return None;
      }
      var keys, _ := MakeKeys(ids, key);
      err := store.Delete(keys, f);
    }

    method Evict(id: Id, key: Id -> Key, f: WriteFate) returns (err: Option<Error>)
      modifies store
      ensures (Fields(), err) == CacheCore.EvictMulti(old(Fields()), [id], key, f)
    {
      assert KeysOf([id], key) == [key(id)];
      err := store.Delete([key(id)], f);
    }

    method Refresh(key: Key, e: RefreshEnv) returns (err: Option<Error>)
      modifies store
      ensures (Fields(), err) == CacheCore.Refresh(old(Fields()), key, e)
    {
      err := store.Delete([key], e.delete);
      if err.Some? {
        return;
      }
      if e.fetched.FetchError? {
        return Some(FallbackFailed);
      }
      if e.fetched.value.Nil? {
        return None;
      }
      err := store.SetMulti([key], [e.fetched.value], e.write);
    }

    method RefreshMulti(ids: seq<Id>, key: Id -> Key, fallback: Fallback, e: RefreshMultiEnv) returns (err: Option<Error>)
      requires fallback(ids).Fetched? ==> IsOrder(e.order, fallback(ids).value)
      modifies store
      ensures (Fields(), err) == CacheCore.RefreshMulti(old(Fields()), ids, key, fallback, e)
    {
      if |ids| == 0 {
        return None;
      }
      var keys, _ := MakeKeys(ids, key);
      err := store.Delete(keys, e.delete);
      if err.Some? {
        return;
      }
      var r := fallback(ids);
      if r.FetchError? {
        return Some(FallbackFailed);
      }
      if r.value == map[] {
        return None;
      }
      var values: seq<Value>;
      keys, values := Align(key, r.value, e.order);
      err := store.SetMulti(keys, values, e.write);
    }

    /** Fills the two arrays position by position. */
    static method Align(key: Id -> Key, m: map<Id, Value>, order: seq<Id>) returns (keys: seq<Key>, values: seq<Value>)
      requires forall id | id in order :: id in m
      ensures keys == KeysOf(order, key) && values == ValuesOf(order, m)
    {
      keys, values := [], [];
      var i := 0;
      while i < |order|
        invariant 0 <= i <= |order|
        invariant keys == KeysOf(order[..i], key) && values == ValuesOf(order[..i], m)
      {
        keys := keys + [key(order[i])];
        values := values + [m[order[i]]];
        i := i + 1;
      }
      assert order[..i] == order;
    }
  }

  lemma ChosenAppend(ids: seq<Id>, id: Id, key: Id -> Key, m: map<Id, Value>, dst: map<Id, Value>)
    requires id in m && forall j | j in ids :: j in m
    ensures KeysOf(ids + [id], key) == KeysOf(ids, key) + [key(id)]
    ensures ValuesOf(ids + [id], m) == ValuesOf(ids, m) + [m[id]]
    ensures dst + Chosen(ids + [id], m) == (dst + Chosen(ids, m))[id := m[id]]
  {
  }
}
