/** The cache against the plain thing it speeds up, which is asking the source each time. */
module CacheTheorems {
  import opened Pool
  import opened CacheCore

  ghost predicate Injective(key: Id -> Key) {
    forall a, b :: key(a) == key(b) ==> a == b
  }

  /** What the source says about some ids. */
  function Select(source: map<Id, Value>, ids: seq<Id>): map<Id, Value> {
    map id | id in ids && id in source :: source[id]
  }

  /** The source without its nil entries. */
  function Real(source: map<Id, Value>): map<Id, Value> {
    map id | id in source && source[id].Obj? :: source[id]
  }

  /** What the source says about some ids, but its nils only where the store had them. */
  function Seen(source: map<Id, Value>, ids: seq<Id>, key: Id -> Key, found: map<Key, Value>): map<Id, Value> {
    map id | id in ids && id in source && (source[id].Obj? || key(id) in found) :: source[id]
  }

  /** `known` has every entry of the source that is not nil, as the source has it. */
  ghost predicate Covers(known: map<Id, Value>, source: map<Id, Value>) {
    forall id | id in source && source[id].Obj? :: id in known && known[id] == source[id]
  }

  /** Every cached entry of an id is what the source says about that id. */
  ghost predicate Coherent(entries: map<Key, Value>, key: Id -> Key, source: map<Id, Value>) {
    forall id :: key(id) in entries ==> id in source && entries[key(id)] == source[id]
  }

  /** A fallback that may fail, but otherwise reads the source. */
  ghost predicate Faithful(fallback: Fallback, source: map<Id, Value>) {
    forall ids :: fallback(ids).Fetched? ==> fallback(ids).value == Select(source, ids)
  }

  // ---------- the loops ----------

  function Found(ids: seq<Id>, key: Id -> Key, found: map<Key, Value>): map<Id, Value> {
    map id | id in ids && key(id) in found :: found[key(id)]
  }

  lemma FoundAppend(ids: seq<Id>, id: Id, key: Id -> Key, found: map<Key, Value>)
    ensures Found(ids + [id], key, found)
         == if key(id) in found then Found(ids, key, found)[id := found[key(id)]] else Found(ids, key, found)
  {
  }

  lemma UpdateLast(a: map<Id, Value>, b: map<Id, Value>)
    ensures forall id, v {:trigger b[id := v]} :: a + b[id := v] == (a + b)[id := v]
  {
  }

  /** With injective keys the loop over the keys files every found value under its id, once or often. */
  lemma {:induction false} SplitFinds(ids: seq<Id>, key: Id -> Key, back: map<Key, Id>, found: map<Key, Value>, dst: map<Id, Value>)
    requires forall id | id in ids :: key(id) in back && back[key(id)] == id
    requires forall k | k in KeysOf(ids, key) :: k in back
    ensures SplitHits(KeysOf(ids, key), back, found, dst).0 == dst + Found(ids, key, found)
  {
    if ids == [] {
      assert Found([], key, found) == map[];
    } else {
      var last := |ids| - 1;
      assert KeysOf(ids, key)[..last] == KeysOf(ids[..last], key);
      SplitFinds(ids[..last], key, back, found, dst);
      FoundAppend(ids[..last], ids[last], key, found);
      assert ids == ids[..last] + [ids[last]];
      UpdateLast(dst, Found(ids[..last], key, found));
    }
  }

  /** The ids it lists as missing are those whose keys were not found. */
  lemma {:induction false} SplitMisses(ids: seq<Id>, key: Id -> Key, back: map<Key, Id>, found: map<Key, Value>, dst: map<Id, Value>)
    requires forall id | id in ids :: key(id) in back && back[key(id)] == id
    requires forall k | k in KeysOf(ids, key) :: k in back
    ensures forall id :: id in SplitHits(KeysOf(ids, key), back, found, dst).1 <==> id in ids && key(id) !in found
  {
    if ids != [] {
      var last := |ids| - 1;
      assert KeysOf(ids, key)[..last] == KeysOf(ids[..last], key);
      SplitMisses(ids[..last], key, back, found, dst);
      assert ids == ids[..last] + [ids[last]];
    }
  }

  lemma RevertedInverts(ids: seq<Id>, key: Id -> Key)
    requires Injective(key)
    ensures forall id | id in ids :: key(id) in Reverted(ids, key) && Reverted(ids, key)[key(id)] == id
  {
    forall id | id in ids
      ensures key(id) in Reverted(ids, key)
    {
      var i :| 0 <= i < |ids| && ids[i] == id;
      assert KeysOf(ids, key)[i] in KeysOf(ids, key);
    }
  }

  lemma {:induction false} PresentIsFiltered(order: seq<Id>, m: map<Id, Value>)
    requires forall id | id in order :: id in m
    ensures forall id :: id in Present(order, m) <==> id in order && m[id].Obj?
  {
    if order != [] {
      var last := |order| - 1;
      assert order == order[..last] + [order[last]];
      PresentIsFiltered(order[..last], m);
    }
  }

  lemma {:induction false} PresentIsDistinct(order: seq<Id>, m: map<Id, Value>)
    requires forall id | id in order :: id in m
    requires NoRepeats(order)
    ensures NoRepeats(Present(order, m))
  {
    if order != [] {
      var last := |order| - 1;
      PresentIsDistinct(order[..last], m);
      PresentIsFiltered(order[..last], m);
      assert order[last] !in order[..last];
    }
  }

  /** What a series of writes leaves, without its turns: each id once, so the order cannot matter. */
  lemma {:induction false} WrittenAt(entries: map<Key, Value>, ids: seq<Id>, key: Id -> Key, m: map<Id, Value>, f: WriteFate)
    requires Injective(key) && forall id | id in ids :: id in m
    requires NoRepeats(ids)
    ensures var r := WriteTurns(entries, KeysOf(ids, key), ValuesOf(ids, m), f);
            && (forall id | id in ids && (f.ok || key(id) in f.reach) :: key(id) in r && r[key(id)] == m[id])
            && (forall k :: (forall id | id in ids && (f.ok || key(id) in f.reach) :: key(id) != k) ==>
                  (k in r <==> k in entries) && (k in r ==> r[k] == entries[k]))
  {
    if ids != [] {
      var last := |ids| - 1;
      assert KeysOf(ids, key)[..last] == KeysOf(ids[..last], key);
      assert ValuesOf(ids, m)[..last] == ValuesOf(ids[..last], m);
      assert ids == ids[..last] + [ids[last]];
      WrittenAt(entries, ids[..last], key, m, f);
      var before := WriteTurns(entries, KeysOf(ids[..last], key), ValuesOf(ids[..last], m), f);
      forall id | id in ids[..last]
        ensures key(id) != key(ids[last])
      {
      }
    }
  }

  lemma WriteOrderIsIrrelevant(entries: map<Key, Value>, a: seq<Id>, b: seq<Id>, key: Id -> Key, m: map<Id, Value>, f: WriteFate)
    requires Injective(key) && (forall id | id in a :: id in m) && (forall id :: id in a <==> id in b)
    requires NoRepeats(a) && NoRepeats(b)
    ensures WriteTurns(entries, KeysOf(a, key), ValuesOf(a, m), f) == WriteTurns(entries, KeysOf(b, key), ValuesOf(b, m), f)
  {
    WrittenAt(entries, a, key, m, f);
    WrittenAt(entries, b, key, m, f);
    var (r, s) := (WriteTurns(entries, KeysOf(a, key), ValuesOf(a, m), f), WriteTurns(entries, KeysOf(b, key), ValuesOf(b, m), f));
    forall k
      ensures (k in r <==> k in s) && (k in r ==> r[k] == s[k])
    {
      if id :| id in a && (f.ok || key(id) in f.reach) && key(id) == k {
        assert id in b;
      }
    }
    assert r.Keys == s.Keys;
  }

  lemma {:induction false} WriteKeepsCoherent(entries: map<Key, Value>, ids: seq<Id>, key: Id -> Key, m: map<Id, Value>, source: map<Id, Value>, f: WriteFate)
    requires Injective(key) && Coherent(entries, key, source)
    requires forall id | id in ids :: id in m && id in source && m[id] == source[id]
    ensures Coherent(WriteTurns(entries, KeysOf(ids, key), ValuesOf(ids, m), f), key, source)
  {
    if ids != [] {
      var last := |ids| - 1;
      assert KeysOf(ids, key)[..last] == KeysOf(ids[..last], key);
      assert ValuesOf(ids, m)[..last] == ValuesOf(ids[..last], m);
      WriteKeepsCoherent(entries, ids[..last], key, m, source, f);
    }
  }

  // ---------- GetMulti is transparent ----------

  lemma AbsorbIsExact(b: Box, key: Id -> Key, dst: map<Id, Value>, missed: seq<Id>, e: MultiEnv, source: map<Id, Value>, known: map<Id, Value>)
    requires Injective(key) && Covers(known, source) && Coherent(b.entries, key, known) && IsOrder(e.order, Select(source, missed))
    ensures var r := Absorb(b, key, dst, missed, Select(source, missed), e);
            r.dst == dst + Select(Real(source), missed) && Coherent(r.box.entries, key, known)
  {
    var m := Select(source, missed);
    PresentIsFiltered(e.order, m);
    assert Chosen(Present(e.order, m), m) == Select(Real(source), missed);
    WriteKeepsCoherent(b.entries, Present(e.order, m), key, m, known, e.write);
  }

  lemma TriageSplits(b: Box, ids: seq<Id>, key: Id -> Key, dst: map<Id, Value>, read: ReadFate)
    requires Injective(key)
    ensures var found := ReadMulti(b.entries, KeysOf(ids, key), read);
            var (d, missed) := Triage(b, ids, key, dst, read);
            && d == dst + Found(ids, key, found)
            && (forall id :: id in missed <==> id in ids && key(id) !in found)
  {
    var found := ReadMulti(b.entries, KeysOf(ids, key), read);
    RevertedInverts(ids, key);
    SplitFinds(ids, key, Reverted(ids, key), found, dst);
    SplitMisses(ids, key, Reverted(ids, key), found, dst);
  }

  lemma ReadIsCoherent(b: Box, keys: seq<Key>, read: ReadFate, key: Id -> Key, source: map<Id, Value>)
    requires Coherent(b.entries, key, source)
    ensures Coherent(ReadMulti(b.entries, keys, read), key, source)
  {
  }

  lemma PartsMakeUp(ids: seq<Id>, key: Id -> Key, found: map<Key, Value>, missed: seq<Id>, source: map<Id, Value>)
    requires Coherent(found, key, source)
    requires forall id :: id in missed <==> id in ids && key(id) !in found
    ensures Found(ids, key, found) + Select(Real(source), missed) == Seen(source, ids, key, found)
  {
  }

  /** What the store gave and what the source gives for the rest make up what the source says. */
  lemma HitsAndMissesMakeUp(b: Box, ids: seq<Id>, key: Id -> Key, dst: map<Id, Value>, read: ReadFate, source: map<Id, Value>)
    requires Injective(key) && Coherent(b.entries, key, source)
    ensures var (d, missed) := Triage(b, ids, key, dst, read);
            d + Select(Real(source), missed) == dst + Seen(source, ids, key, ReadMulti(b.entries, KeysOf(ids, key), read))
  {
    var found := ReadMulti(b.entries, KeysOf(ids, key), read);
    var (d, missed) := Triage(b, ids, key, dst, read);
    assert d == dst + Found(ids, key, found) && Found(ids, key, found) + Select(Real(source), missed) == Seen(source, ids, key, found) by {
      TriageSplits(b, ids, key, dst, read);
      ReadIsCoherent(b, KeysOf(ids, key), read, key, source);
      PartsMakeUp(ids, key, found, missed, source);
    }
    PlusAssociates(dst, Found(ids, key, found), Select(Real(source), missed));
  }

  lemma PlusAssociates(a: map<Id, Value>, b: map<Id, Value>, c: map<Id, Value>)
    ensures (a + b) + c == a + (b + c)
  {
  }

  lemma GetMultiAsksOnlyForMisses(b: Box, ids: seq<Id>, key: Id -> Key, fallback: Fallback, dst: map<Id, Value>, e: MultiEnv)
    requires Injective(key) && GoodOrder(b, ids, key, fallback, dst, e)
    ensures var asked := GetMulti(b, ids, key, fallback, dst, e).asked;
            asked.Some? ==> forall id :: id in asked.value <==> id in ids && key(id) !in ReadMulti(b.entries, KeysOf(ids, key), e.read)
  {
    TriageSplits(b, ids, key, dst, e.read);
  }

  lemma FinishIsExact(b: Box, key: Id -> Key, d: map<Id, Value>, missed: seq<Id>, f: Fetched<map<Id, Value>>, e: MultiEnv, source: map<Id, Value>, known: map<Id, Value>)
    requires Injective(key) && Covers(known, source) && Coherent(b.entries, key, known)
    requires f.Fetched? ==> f.value == Select(source, missed) && IsOrder(e.order, f.value)
    ensures var r := Finish(b, key, d, missed, f, e);
            && (r.err.None? ==> r.dst == d + Select(Real(source), missed))
            && Coherent(r.box.entries, key, known)
  {
    assert Select(Real(source), []) == map[];
    if f.Fetched? {
      AbsorbIsExact(AfterRead(b, e), key, d, missed, e, source, known);
    }
  }

  lemma GetMultiKeepsCoherent(b: Box, ids: seq<Id>, key: Id -> Key, fallback: Fallback, dst: map<Id, Value>, e: MultiEnv, source: map<Id, Value>, known: map<Id, Value>)
    requires Injective(key) && Covers(known, source) && Coherent(b.entries, key, known) && Faithful(fallback, source)
    requires GoodOrder(b, ids, key, fallback, dst, e)
    ensures Coherent(GetMulti(b, ids, key, fallback, dst, e).box.entries, key, known)
  {
    var (d, missed) := Triage(b, ids, key, dst, e.read);
    FinishIsExact(b, key, d, missed, fallback(missed), e, source, known);
  }

  /**
   Whatever the store lost or failed, however the fallback's map is iterated and however ids repeat,
   a call without an error adds what the source says about the ids, except its nils, which it adds
   only where the store had them; and every call leaves the store coherent.
   */
  lemma GetMultiIsTransparent(b: Box, ids: seq<Id>, key: Id -> Key, fallback: Fallback, dst: map<Id, Value>, e: MultiEnv, source: map<Id, Value>)
    requires Injective(key) && Coherent(b.entries, key, source) && Faithful(fallback, source)
    requires GoodOrder(b, ids, key, fallback, dst, e)
    ensures var r := GetMulti(b, ids, key, fallback, dst, e);
            && (r.err.None? ==> r.dst == dst + Seen(source, ids, key, ReadMulti(b.entries, KeysOf(ids, key), e.read)))
            && Coherent(r.box.entries, key, source)
  {
    HitsAndMissesMakeUp(b, ids, key, dst, e.read, source);
    var (d, missed) := Triage(b, ids, key, dst, e.read);
    FinishIsExact(b, key, d, missed, fallback(missed), e, source, source);
  }

  /** With no nils in the store the result does not depend on what the store had, and none gets in. */
  lemma GetMultiHidesTheStore(b: Box, ids: seq<Id>, key: Id -> Key, fallback: Fallback, dst: map<Id, Value>, e: MultiEnv, source: map<Id, Value>)
    requires Injective(key) && Coherent(b.entries, key, Real(source)) && Faithful(fallback, source)
    requires GoodOrder(b, ids, key, fallback, dst, e)
    ensures var r := GetMulti(b, ids, key, fallback, dst, e);
            && (r.err.None? ==> r.dst == dst + Select(Real(source), ids))
            && Coherent(r.box.entries, key, Real(source))
  {
    var found := ReadMulti(b.entries, KeysOf(ids, key), e.read);
    ReadIsCoherent(b, KeysOf(ids, key), e.read, key, Real(source));
    assert Seen(source, ids, key, found) == Select(Real(source), ids);
    GetMultiIsTransparent(b, ids, key, fallback, dst, e, source);
    GetMultiKeepsCoherent(b, ids, key, fallback, dst, e, source, Real(source));
  }

  lemma SameIds(p: seq<Id>, q: seq<Id>, m: map<Id, Value>)
    requires (forall id | id in p :: id in m) && forall id :: id in p <==> id in q
    ensures (p == [] <==> q == []) && Chosen(p, m) == Chosen(q, m)
  {
    assert p != [] ==> p[0] in q;
    assert q != [] ==> q[0] in p;
  }

  lemma PresentIgnoresOrder(a: seq<Id>, b: seq<Id>, m: map<Id, Value>)
    requires IsOrder(a, m) && IsOrder(b, m)
    ensures var (p, q) := (Present(a, m), Present(b, m));
            && NoRepeats(p) && NoRepeats(q) && (forall id :: id in p <==> id in q)
            && (p == [] <==> q == []) && Chosen(p, m) == Chosen(q, m)
  {
    PresentIsFiltered(a, m);
    PresentIsFiltered(b, m);
    PresentIsDistinct(a, m);
    PresentIsDistinct(b, m);
    SameIds(Present(a, m), Present(b, m), m);
  }

  lemma AbsorbIgnoresOrder(b: Box, key: Id -> Key, dst: map<Id, Value>, missed: seq<Id>, m: map<Id, Value>, e: MultiEnv, order: seq<Id>)
    requires Injective(key) && IsOrder(e.order, m) && IsOrder(order, m)
    ensures Absorb(b, key, dst, missed, m, e) == Absorb(b, key, dst, missed, m, e.(order := order))
  {
    PresentIgnoresOrder(e.order, order, m);
    WriteOrderIsIrrelevant(b.entries, Present(e.order, m), Present(order, m), key, m, e.write);
  }

  /** However the fallback's map is iterated, the call does the same. */
  lemma GetMultiIgnoresOrder(b: Box, ids: seq<Id>, key: Id -> Key, fallback: Fallback, dst: map<Id, Value>, e: MultiEnv, order: seq<Id>)
    requires Injective(key) && GoodOrder(b, ids, key, fallback, dst, e) && GoodOrder(b, ids, key, fallback, dst, e.(order := order))
    ensures GetMulti(b, ids, key, fallback, dst, e) == GetMulti(b, ids, key, fallback, dst, e.(order := order))
  {
    var (d, missed) := Triage(b, ids, key, dst, e.read);
    if fallback(missed).Fetched? {
      AbsorbIgnoresOrder(AfterRead(b, e), key, d, missed, fallback(missed).value, e, order);
    }
  }

  // ---------- RefreshMulti leaves nothing stale ----------

  /**
   Whatever the keys map to after their delete is what the fallback said just now, on success and on
   failure; the error is that of the first call that failed, and no other key is touched.
   */
  lemma RefreshMultiLeavesNothingStale(b: Box, ids: seq<Id>, key: Id -> Key, fallback: Fallback, e: RefreshMultiEnv)
    requires Injective(key) && (fallback(ids).Fetched? ==> IsOrder(e.order, fallback(ids).value))
    ensures ids == [] ==> RefreshMulti(b, ids, key, fallback, e) == (b, None)
    ensures var (r, err) := RefreshMulti(b, ids, key, fallback, e);
            var m := if fallback(ids).Fetched? then fallback(ids).value else map[];
            ids != [] ==>
            && r == b.(entries := r.entries)
            && err == (if !e.delete.ok then Some(StoreFailed)
                       else if fallback(ids).FetchError? then Some(FallbackFailed)
                       else if m != map[] && !e.write.ok then Some(StoreFailed)
                       else None)
            && (e.delete.ok ==> forall id | id in ids && key(id) in r.entries :: id in m && r.entries[key(id)] == m[id])
            && (e.delete.ok ==> forall id | id in m && (e.write.ok || key(id) in e.write.reach) && key(id) !in e.write.lost ::
                  key(id) in r.entries && r.entries[key(id)] == m[id])
            && (!e.delete.ok ==> forall k | k in r.entries :: k in b.entries && r.entries[k] == b.entries[k])
            && (forall k :: (forall id | id in ids || id in m :: key(id) != k) ==>
                  (k in r.entries ==> k in b.entries && r.entries[k] == b.entries[k])
                  && (k in b.entries && k !in e.delete.lost && k !in e.write.lost ==> k in r.entries))
  {
    var keys := KeysOf(ids, key);
    forall id | id in ids
      ensures key(id) in keys
    {
      var i :| 0 <= i < |ids| && ids[i] == id;
      assert keys[i] == key(id);
    }
    forall k | k in keys
      ensures exists id :: id in ids && key(id) == k
    {
      var i :| 0 <= i < |keys| && keys[i] == k;
      assert ids[i] in ids;
    }
    var (left, err) := Delete(b.entries, keys, e.delete);
    if e.delete.ok && fallback(ids).Fetched? && fallback(ids).value != map[] {
      WrittenAt(left, e.order, key, fallback(ids).value, e.write);
    }
  }

  // ---------- runs ----------

  datatype Op =
    | DoGet(id: Id, dst: Value, get: GetEnv)
    | DoGetMulti(ids: seq<Id>, into: map<Id, Value>, fallback: Fallback, multi: MultiEnv)
    | DoEvict(id: Id, fate: WriteFate)
    | DoEvictMulti(ids: seq<Id>, fate: WriteFate)
    | DoRefresh(id: Id, refresh: RefreshEnv)
    | DoRefreshMulti(ids: seq<Id>, fallback: Fallback, many: RefreshMultiEnv)
    | Lose(keys: set<Key>)

  /** The iteration orders that the environment chose are orders of the maps in question. */
  ghost predicate Orderly(b: Box, key: Id -> Key, op: Op) {
    && (op.DoGetMulti? ==> GoodOrder(b, op.ids, key, op.fallback, op.into, op.multi))
    && (op.DoRefreshMulti? && op.fallback(op.ids).Fetched? ==> IsOrder(op.many.order, op.fallback(op.ids).value))
  }

  ghost function Perform(b: Box, key: Id -> Key, op: Op): Box
    requires Orderly(b, key, op)
  {
    match op
    case DoGet(id, dst, e) => Get(b, key(id), dst, e).0
    case DoGetMulti(ids, dst, fallback, e) => GetMulti(b, ids, key, fallback, dst, e).box
    case DoEvict(id, f) => EvictMulti(b, [id], key, f).0
    case DoEvictMulti(ids, f) => EvictMulti(b, ids, key, f).0
    case DoRefresh(id, e) => Refresh(b, key(id), e).0
    case DoRefreshMulti(ids, fallback, e) => RefreshMulti(b, ids, key, fallback, e).0
    case Lose(keys) => b.(entries := b.entries - keys)
  }

  ghost function RunOps(b: Box, key: Id -> Key, ops: seq<Op>): Box {
    if ops == [] then b
    else
      var m := RunOps(b, key, ops[..|ops| - 1]);
      var op := ops[|ops| - 1];
      if Orderly(m, key, op) then Perform(m, key, op) else m
  }

  /** The fallbacks of the operation read the source when they succeed. */
  ghost predicate Reads(op: Op, source: map<Id, Value>) {
    match op
    case DoGet(id, _, e) => FetchesOne(e.fetched, id, source)
    case DoGetMulti(_, _, fallback, _) => Faithful(fallback, source)
    case DoRefresh(id, e) => FetchesOne(e.fetched, id, source)
    case DoRefreshMulti(_, fallback, _) => Faithful(fallback, source)
    case _ => true
  }

  predicate FetchesOne(f: Fetched<Value>, id: Id, source: map<Id, Value>) {
    f.Fetched? ==> f.value == if id in source then source[id] else Nil
  }

  ghost predicate AllRead(ops: seq<Op>, source: map<Id, Value>) {
    forall op | op in ops :: Reads(op, source)
  }

  lemma OneWriteKeepsCoherent(entries: map<Key, Value>, id: Id, key: Id -> Key, source: map<Id, Value>, f: WriteFate)
    requires Injective(key) && Coherent(entries, key, source) && id in source
    ensures Coherent(WriteMulti(entries, [key(id)], [source[id]], f).0, key, source)
  {
    WriteKeepsCoherent(entries, [id], key, source, source, f);
    assert KeysOf([id], key) == [key(id)] && ValuesOf([id], source) == [source[id]];
  }

  lemma GetKeepsCoherent(b: Box, id: Id, key: Id -> Key, dst: Value, e: GetEnv, source: map<Id, Value>, known: map<Id, Value>)
    requires Injective(key) && Covers(known, source) && Coherent(b.entries, key, known) && FetchesOne(e.fetched, id, source)
    ensures Coherent(Get(b, key(id), dst, e).0.entries, key, known)
  {
    if id in known {
      OneWriteKeepsCoherent(b.entries - e.read.lost, id, key, known, e.write);
    }
  }

  /**
   A single Get without an error returns what the source says; where that is nothing or nil it leaves
   the destination alone, unless the store had the nil.
   */
  lemma GetIsTransparent(b: Box, id: Id, key: Id -> Key, dst: Value, e: GetEnv, source: map<Id, Value>)
    requires Injective(key) && Coherent(b.entries, key, source) && FetchesOne(e.fetched, id, source)
    ensures var (r, err, v) := Get(b, key(id), dst, e);
            var hit := e.read.ok && key(id) in b.entries && key(id) !in e.read.lost;
            && (err.None? ==> v == if id in source && (source[id].Obj? || hit) then source[id] else dst)
            && (err.Some? ==> v == dst)
            && Coherent(r.entries, key, source)
            && (Coherent(b.entries, key, Real(source)) ==> Coherent(r.entries, key, Real(source)))
  {
    GetKeepsCoherent(b, id, key, dst, e, source, source);
    if Coherent(b.entries, key, Real(source)) {
      GetKeepsCoherent(b, id, key, dst, e, source, Real(source));
    }
  }

  lemma RefreshKeepsCoherent(b: Box, id: Id, key: Id -> Key, e: RefreshEnv, source: map<Id, Value>, known: map<Id, Value>)
    requires Injective(key) && Covers(known, source) && Coherent(b.entries, key, known) && FetchesOne(e.fetched, id, source)
    ensures Coherent(Refresh(b, key(id), e).0.entries, key, known)
  {
    if id in known {
      OneWriteKeepsCoherent(Delete(b.entries, [key(id)], e.delete).0, id, key, known, e.write);
    }
  }

  lemma RefreshMultiKeepsCoherent(b: Box, ids: seq<Id>, key: Id -> Key, fallback: Fallback, e: RefreshMultiEnv, source: map<Id, Value>)
    requires Injective(key) && Coherent(b.entries, key, source) && Faithful(fallback, source)
    requires fallback(ids).Fetched? ==> IsOrder(e.order, fallback(ids).value)
    ensures Coherent(RefreshMulti(b, ids, key, fallback, e).0.entries, key, source)
  {
    if ids != [] && fallback(ids).Fetched? {
      WriteKeepsCoherent(Delete(b.entries, KeysOf(ids, key), e.delete).0, e.order, key, fallback(ids).value, source, e.write);
    }
  }

  /** Only RefreshMulti stores what the source has as nil. */
  lemma PerformKeepsCoherent(b: Box, key: Id -> Key, op: Op, source: map<Id, Value>, known: map<Id, Value>)
    requires Injective(key) && Covers(known, source) && Coherent(b.entries, key, known)
    requires known == source || !op.DoRefreshMulti?
    requires Orderly(b, key, op) && Reads(op, source)
    ensures Coherent(Perform(b, key, op).entries, key, known)
  {
    match op
    case DoGet(id, dst, e) => GetKeepsCoherent(b, id, key, dst, e, source, known);
    case DoGetMulti(ids, dst, fallback, e) => GetMultiKeepsCoherent(b, ids, key, fallback, dst, e, source, known);
    case DoRefresh(id, e) => RefreshKeepsCoherent(b, id, key, e, source, known);
    case DoRefreshMulti(ids, fallback, e) => RefreshMultiKeepsCoherent(b, ids, key, fallback, e, source);
    case _ =>
  }

  lemma {:induction false} RunKeepsCoherent(b: Box, key: Id -> Key, ops: seq<Op>, source: map<Id, Value>, known: map<Id, Value>)
    requires Injective(key) && Covers(known, source) && Coherent(b.entries, key, known)
    requires forall op | op in ops :: Reads(op, source) && (known == source || !op.DoRefreshMulti?)
    ensures Coherent(RunOps(b, key, ops).entries, key, known)
  {
    if ops != [] {
      var front := ops[..|ops| - 1];
      RunKeepsCoherent(b, key, front, source, known);
      if Orderly(RunOps(b, key, front), key, ops[|ops| - 1]) {
        PerformKeepsCoherent(RunOps(b, key, front), key, ops[|ops| - 1], source, known);
      }
    }
  }

  /** In every run over a fixed source each stored entry is the source's value for its id; nil only after a RefreshMulti. */
  lemma CacheStaysCoherent(b: Box, key: Id -> Key, ops: seq<Op>, source: map<Id, Value>)
    requires Injective(key) && Coherent(b.entries, key, source)
    requires AllRead(ops, source)
    ensures Coherent(RunOps(b, key, ops).entries, key, source)
    ensures Coherent(b.entries, key, Real(source)) && (forall op | op in ops :: !op.DoRefreshMulti?) ==>
              Coherent(RunOps(b, key, ops).entries, key, Real(source))
  {
    RunKeepsCoherent(b, key, ops, source, source);
    if Coherent(b.entries, key, Real(source)) && forall op | op in ops :: !op.DoRefreshMulti? {
      RunKeepsCoherent(b, key, ops, source, Real(source));
    }
  }

  // ---------- the nils that RefreshMulti stores ----------

  lemma {:induction false} SomeOrder(m: map<Id, Value>) returns (order: seq<Id>)
    ensures IsOrder(order, m)
    decreases |m|
  {
    order := [];
    if m != map[] {
      var id :| id in m;
      var rest := SomeOrder(m - {id});
      order := rest + [id];
      assert forall i | 0 <= i < |rest| :: rest[i] in m - {id};
      assert forall x :: x in order <==> x in rest || x == id;
    }
  }

  lemma WrittenOnce(key: Id -> Key, id: Id, m: map<Id, Value>, f: WriteFate)
    requires id in m && f.ok
    ensures WriteTurns(map[], KeysOf([id], key), ValuesOf([id], m), f) == map[key(id) := m[id]]
  {
    assert KeysOf([id], key)[..0] == [] && ValuesOf([id], m)[..0] == [];
  }

  /** Refreshing an id that the source has as nil makes the next read of it a hit. */
  lemma RefreshStoresNil(b: Box, key: Id -> Key, id: Id, source: map<Id, Value>) returns (op: Op)
    requires b.entries == map[] && id in source
    ensures Reads(op, source) && Orderly(b, key, op)
    ensures Perform(b, key, op).entries == map[key(id) := source[id]]
  {
    var fine := WriteFate(true, {}, {});
    op := DoRefreshMulti([id], ids => Fetched(Select(source, ids)), RefreshMultiEnv(fine, [id], fine));
    var m := map[id := source[id]];
    assert Select(source, [id]) == m;
    WrittenOnce(key, id, m, fine);
  }

  lemma NilIsSeen(entries: map<Key, Value>, key: Id -> Key, source: map<Id, Value>, ids: seq<Id>, id: Id)
    requires id in ids && id in source && source[id].Nil? && key(id) in entries
    ensures Seen(source, ids, key, ReadMulti(entries, KeysOf(ids, key), ReadFate({}, true, {}))) != Select(Real(source), ids)
  {
    var i :| 0 <= i < |ids| && ids[i] == id;
    assert KeysOf(ids, key)[i] == key(id);
    assert key(id) in KeySet(KeysOf(ids, key));
    assert id in Seen(source, ids, key, ReadMulti(entries, KeysOf(ids, key), ReadFate({}, true, {})));
  }

  /** A call in which nothing is lost and nothing fails. */
  lemma GoodCall(m: Box, key: Id -> Key, fallback: Fallback, ids: seq<Id>) returns (e: MultiEnv)
    requires forall asked :: fallback(asked).Fetched?
    ensures e.read == ReadFate({}, true, {})
    ensures GoodOrder(m, ids, key, fallback, map[], e) && GetMulti(m, ids, key, fallback, map[], e).err.None?
  {
    var read := ReadFate({}, true, {});
    var missed := Triage(m, ids, key, map[], read).1;
    var order := SomeOrder(fallback(missed).value);
    e := MultiEnv(read, true, order, WriteFate(true, {}, {}));
  }

  /** A call that finds the nil in the store hands it out, which a call on a cold store does not. */
  lemma NilIsHandedOut(m: Box, key: Id -> Key, fallback: Fallback, source: map<Id, Value>, ids: seq<Id>, id: Id) returns (e: MultiEnv)
    requires Injective(key) && id in ids && id in source && source[id].Nil?
    requires m.entries == map[key(id) := source[id]]
    requires forall asked :: fallback(asked) == Fetched(Select(source, asked))
    ensures GoodOrder(m, ids, key, fallback, map[], e) && !ColdResult(m, ids, key, fallback, e, source)
  {
    e := GoodCall(m, key, fallback, ids);
    GetMultiIsTransparent(m, ids, key, fallback, map[], e, source);
    NilIsSeen(m.entries, key, source, ids, id);
    NotCold(m, ids, key, fallback, e, source, Seen(source, ids, key, ReadMulti(m.entries, KeysOf(ids, key), e.read)));
  }

  lemma NotCold(m: Box, ids: seq<Id>, key: Id -> Key, fallback: Fallback, e: MultiEnv, source: map<Id, Value>, seen: map<Id, Value>)
    requires GoodOrder(m, ids, key, fallback, map[], e) && GetMulti(m, ids, key, fallback, map[], e).err.None?
    requires GetMulti(m, ids, key, fallback, map[], e).dst == map[] + seen && seen != Select(Real(source), ids)
    ensures !ColdResult(m, ids, key, fallback, e, source)
  {
    assert map[] + seen == seen;
  }

  /** The call fails or gives what a call on the empty store gives. */
  ghost predicate ColdResult(m: Box, ids: seq<Id>, key: Id -> Key, fallback: Fallback, e: MultiEnv, source: map<Id, Value>)
    requires GoodOrder(m, ids, key, fallback, map[], e)
  {
    var r := GetMulti(m, ids, key, fallback, map[], e);
    r.err.None? ==> r.dst == Select(Real(source), ids)
  }

  lemma RunIsHandedOut(b: Box, key: Id -> Key, source: map<Id, Value>, ids: seq<Id>, id: Id) returns (ops: seq<Op>, fallback: Fallback, e: MultiEnv)
    requires Injective(key) && b.entries == map[] && id in ids && id in source && source[id].Nil?
    ensures AllRead(ops, source) && Faithful(fallback, source)
    ensures GoodOrder(RunOps(b, key, ops), ids, key, fallback, map[], e)
    ensures !ColdResult(RunOps(b, key, ops), ids, key, fallback, e, source)
  {
    var op := RefreshStoresNil(b, key, id, source);
    ops := [op];
    assert ops[..0] == [] && RunOps(b, key, ops) == Perform(b, key, op);
    fallback := asked => Fetched(Select(source, asked));
    e := NilIsHandedOut(Perform(b, key, op), key, fallback, source, ids, id);
  }

  lemma SeenWithoutNil(source: map<Id, Value>, ids: seq<Id>, key: Id -> Key, found: map<Key, Value>)
    requires forall id | id in ids && id in source :: source[id].Obj?
    ensures Seen(source, ids, key, found) == Select(Real(source), ids)
  {
  }

  lemma NoNilIsCold(m: Box, key: Id -> Key, source: map<Id, Value>, ids: seq<Id>, fallback: Fallback, e: MultiEnv)
    requires Injective(key) && Coherent(m.entries, key, source) && Faithful(fallback, source)
    requires GoodOrder(m, ids, key, fallback, map[], e)
    requires forall id | id in ids && id in source :: source[id].Obj?
    ensures ColdResult(m, ids, key, fallback, e, source)
  {
    var found := ReadMulti(m.entries, KeysOf(ids, key), e.read);
    GetMultiIsTransparent(m, ids, key, fallback, map[], e, source);
    SeenWithoutNil(source, ids, key, found);
    assert map[] + Seen(source, ids, key, found) == Seen(source, ids, key, found);
  }

  /**
   After every run from an empty store a GetMulti without an error gives what it gives on the empty
   store, exactly when the source has none of the ids as nil.
   */
  lemma WarmEqualsColdExactlyWhen(b: Box, key: Id -> Key, source: map<Id, Value>, ids: seq<Id>)
    requires Injective(key) && b.entries == map[]
    ensures (forall ops: seq<Op>, fallback: Fallback, e: MultiEnv |
               AllRead(ops, source) && Faithful(fallback, source)
               && GoodOrder(RunOps(b, key, ops), ids, key, fallback, map[], e) ::
               ColdResult(RunOps(b, key, ops), ids, key, fallback, e, source))
            <==> (forall id | id in ids && id in source :: source[id].Obj?)
  {
    if id :| id in ids && id in source && source[id].Nil? {
      var ops, fallback, e := RunIsHandedOut(b, key, source, ids, id);
      assert !ColdResult(RunOps(b, key, ops), ids, key, fallback, e, source);
    } else {
      forall ops: seq<Op>, fallback: Fallback, e: MultiEnv |
        AllRead(ops, source) && Faithful(fallback, source)
        && GoodOrder(RunOps(b, key, ops), ids, key, fallback, map[], e)
        ensures ColdResult(RunOps(b, key, ops), ids, key, fallback, e, source)
      {
        CacheStaysCoherent(b, key, ops, source);
        NoNilIsCold(RunOps(b, key, ops), key, source, ids, fallback, e);
      }
    }
  }
}
