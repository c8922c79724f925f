/** What each call of the cache answers and leaves behind, told by what its caller and its store can see. */
module CacheAnswers {
  import opened Pool
  import opened CacheCore
  import opened CacheTheorems

  lemma OneWrite(entries: map<Key, Value>, key: Key, v: Value, f: WriteFate)
    ensures WriteMulti(entries, [key], [v], f)
         == ((if f.ok || key in f.reach then entries[key := v] else entries) - f.lost, if f.ok then None else Some(StoreFailed))
  {
    assert WriteTurns(entries, [key][..0], [v][..0], f) == entries;
  }

  // ---------- Get ----------

  /** Whether a read that failed may be answered from the fallback. */
  predicate Allowed(b: Box, grant: bool) {
    b.fallbackWhenError && (!b.limited || grant)
  }

  /** The limiter is asked when a read failed and there is a limiter and the option; nothing else takes a token. */
  predicate TakesToken(b: Box, read: ReadFate, grant: bool) {
    !read.ok && b.fallbackWhenError && b.limited && grant
  }

  /** What the fallback would say makes no difference: it is not consulted. */
  ghost predicate IgnoresFallback(b: Box, key: Key, dst: Value, e: GetEnv) {
    forall f: Fetched<Value> :: Get(b, key, dst, e.(fetched := f)) == Get(b, key, dst, e)
  }

  lemma GetTakesToken(b: Box, key: Key, dst: Value, e: GetEnv)
    ensures var r := Get(b, key, dst, e).0;
            r == b.(entries := r.entries, granted := b.granted + if TakesToken(b, e.read, e.grant) then 1 else 0)
  {
  }

  /** A hit is returned as it is, without the fallback. */
  lemma GetHits(b: Box, key: Key, dst: Value, e: GetEnv)
    requires e.read.ok && key in b.entries && key !in e.read.lost
    ensures Get(b, key, dst, e) == (b.(entries := b.entries - e.read.lost), None, b.entries[key])
    ensures IgnoresFallback(b, key, dst, e)
  {
  }

  /** A failed read that may not fall back is the caller's error, and the fallback is not consulted. */
  lemma GetIsRefused(b: Box, key: Key, dst: Value, e: GetEnv)
    requires !e.read.ok && !Allowed(b, e.grant)
    ensures Get(b, key, dst, e) == (b.(entries := b.entries - e.read.lost), Some(StoreFailed), dst)
    ensures IgnoresFallback(b, key, dst, e)
  {
  }

  /**
   A read that finds nothing, or fails and may fall back, is answered by the fallback: its error, or
   nothing for a nil, or its object, which is stored as far as the store takes it; a failing write is ignored.
   */
  lemma GetFallsBack(b: Box, key: Key, dst: Value, e: GetEnv)
    requires if e.read.ok then key !in b.entries || key in e.read.lost else Allowed(b, e.grant)
    ensures var (r, err, v) := Get(b, key, dst, e);
            var left := b.entries - e.read.lost;
            match e.fetched
            case FetchError => err == Some(FallbackFailed) && v == dst && r.entries == left
            case Fetched(Nil) => err == None && v == dst && r.entries == left
            case Fetched(Obj(d)) =>
              && err == None && v == Obj(d)
              && r.entries == (if e.write.ok || key in e.write.reach then left[key := v] else left) - e.write.lost
  {
    if e.fetched.Fetched? {
      OneWrite(b.entries - e.read.lost, key, e.fetched.value, e.write);
    }
  }

  /** The fallback is consulted exactly on a plain miss, and on a failed read that may fall back. */
  lemma GetConsultsExactlyWhen(b: Box, key: Key, dst: Value, e: GetEnv)
    ensures !IgnoresFallback(b, key, dst, e)
            <==> if e.read.ok then key !in b.entries || key in e.read.lost else Allowed(b, e.grant)
  {
    if e.read.ok && key in b.entries && key !in e.read.lost {
      GetHits(b, key, dst, e);
    } else if !e.read.ok && !Allowed(b, e.grant) {
      GetIsRefused(b, key, dst, e);
    } else {
      GetFallsBack(b, key, dst, e.(fetched := FetchError));
      GetFallsBack(b, key, dst, e.(fetched := Fetched(Nil)));
    }
  }

  /** What a Get fetched, the next Get of the same key returns without the fallback, unless it was lost. */
  lemma GetThenGetHits(b: Box, key: Key, dst: Value, e: GetEnv, again: GetEnv)
    requires Get(b, key, dst, e).1.None? && e.write.ok && key !in e.write.lost
    requires e.fetched.Fetched? && e.fetched.value.Obj?
    requires again.read.ok && key !in again.read.lost
    ensures var (r, _, v) := Get(b, key, dst, e);
            Get(r, key, dst, again).1 == None && Get(r, key, dst, again).2 == v && IgnoresFallback(r, key, dst, again)
  {
    var r := Get(b, key, dst, e).0;
    if e.read.ok && key in b.entries && key !in e.read.lost {
      GetHits(b, key, dst, e);
    } else if !e.read.ok && !Allowed(b, e.grant) {
      GetIsRefused(b, key, dst, e);
    } else {
      GetFallsBack(b, key, dst, e);
    }
    GetHits(r, key, dst, again);
  }

  // ---------- Refresh and Evict ----------

  /**
   Whatever the key maps to after its delete is what the fallback said just now, on success and on
   failure; the error is that of the first call that failed, and no other key is touched.
   */
  lemma RefreshLeavesNothingStale(b: Box, key: Key, e: RefreshEnv)
    ensures var (r, err) := Refresh(b, key, e);
            && r == b.(entries := r.entries)
            && err == (if !e.delete.ok then Some(StoreFailed)
                       else if e.fetched.FetchError? then Some(FallbackFailed)
                       else if e.fetched.value.Obj? && !e.write.ok then Some(StoreFailed)
                       else None)
            && (e.delete.ok && key in r.entries ==> e.fetched == Fetched(r.entries[key]) && r.entries[key].Obj?)
            && (!e.delete.ok && key in r.entries ==> key in b.entries && r.entries[key] == b.entries[key] && key !in e.delete.reach)
            && (err.None? && e.fetched.value.Obj? && key !in e.write.lost ==> key in r.entries)
            && (forall k | k != key && k in r.entries :: k in b.entries && r.entries[k] == b.entries[k])
            && (forall k | k != key && k in b.entries && k !in e.delete.lost && k !in e.write.lost :: k in r.entries)
  {
    assert KeySet([key]) == {key};
    var left := Delete(b.entries, [key], e.delete).0;
    if e.fetched.Fetched? {
      OneWrite(left, key, e.fetched.value, e.write);
    }
  }

  lemma KeysAreOf(ids: seq<Id>, key: Id -> Key)
    requires Injective(key)
    ensures forall id :: key(id) in KeysOf(ids, key) <==> id in ids
    ensures forall k | k in KeysOf(ids, key) :: exists id :: id in ids && key(id) == k
  {
    var keys := KeysOf(ids, key);
    forall id | id in ids
      ensures key(id) in keys
    {
      var i :| 0 <= i < |ids| && ids[i] == id;
      assert keys[i] == key(id);
    }
    forall k | k in keys
      ensures exists id :: id in ids && key(id) == k
    {
      var i :| 0 <= i < |keys| && keys[i] == k;
      assert ids[i] in ids;
    }
  }

  /** A call that succeeds leaves no entry of the ids; none is changed, and none of other ids goes but by loss. */
  lemma EvictMultiRemoves(b: Box, ids: seq<Id>, key: Id -> Key, f: WriteFate)
    requires Injective(key)
    ensures ids == [] ==> EvictMulti(b, ids, key, f) == (b, None)
    ensures var (r, err) := EvictMulti(b, ids, key, f);
            ids != [] ==>
            && r == b.(entries := r.entries)
            && err == (if f.ok then None else Some(StoreFailed))
            && (forall id | id in ids && (f.ok || key(id) in f.reach) :: key(id) !in r.entries)
            && (forall k | k in r.entries :: k in b.entries && r.entries[k] == b.entries[k])
            && (forall id | key(id) in b.entries && key(id) !in f.lost && (id !in ids || (!f.ok && key(id) !in f.reach)) ::
                  key(id) in r.entries)
  {
    KeysAreOf(ids, key);
  }

  /** After a key was evicted a Get cannot return what the store had. */
  lemma EvictThenGetAsks(b: Box, id: Id, key: Id -> Key, f: WriteFate, dst: Value, e: GetEnv)
    requires Injective(key) && f.ok && e.read.ok
    ensures var (r, err, v) := Get(EvictMulti(b, [id], key, f).0, key(id), dst, e);
            match e.fetched
            case FetchError => err == Some(FallbackFailed) && v == dst
            case Fetched(Nil) => err == None && v == dst
            case Fetched(v') => err == None && v == v'
  {
    EvictMultiRemoves(b, [id], key, f);
    GetFallsBack(EvictMulti(b, [id], key, f).0, key(id), dst, e);
  }

  // ---------- GetMulti ----------

  /** The ids that the read did not give, in their order and as often as they were asked for. */
  function Missing(ids: seq<Id>, key: Id -> Key, found: map<Key, Value>): (r: seq<Id>)
    ensures forall id :: id in r <==> id in ids && key(id) !in found
  {
    if ids == [] then []
    else
      var last := |ids| - 1;
      assert ids == ids[..last] + [ids[last]];
      Missing(ids[..last], key, found) + if key(ids[last]) in found then [] else [ids[last]]
  }

  lemma {:induction false} SplitMissesInOrder(ids: seq<Id>, key: Id -> Key, back: map<Key, Id>, found: map<Key, Value>, dst: map<Id, Value>)
    requires forall id | id in ids :: key(id) in back && back[key(id)] == id
    requires forall k | k in KeysOf(ids, key) :: k in back
    ensures SplitHits(KeysOf(ids, key), back, found, dst).1 == Missing(ids, key, found)
  {
    if ids != [] {
      var last := |ids| - 1;
      assert KeysOf(ids, key)[..last] == KeysOf(ids[..last], key);
      SplitMissesInOrder(ids[..last], key, back, found, dst);
    }
  }

  lemma TriageInOrder(b: Box, ids: seq<Id>, key: Id -> Key, dst: map<Id, Value>, read: ReadFate)
    requires Injective(key)
    ensures var found := ReadMulti(b.entries, KeysOf(ids, key), read);
            Triage(b, ids, key, dst, read) == (dst + Found(ids, key, found), Missing(ids, key, found))
  {
    TriageSplits(b, ids, key, dst, read);
    RevertedInverts(ids, key);
    SplitMissesInOrder(ids, key, Reverted(ids, key), ReadMulti(b.entries, KeysOf(ids, key), read), dst);
  }

  /** What a read gives, whether it fails or not. */
  lemma ReadGives(b: Box, ids: seq<Id>, key: Id -> Key, read: ReadFate)
    requires Injective(key)
    ensures var found := ReadMulti(b.entries, KeysOf(ids, key), read);
            && (forall id :: key(id) in found <==>
                  id in ids && key(id) in b.entries && key(id) !in read.lost && (read.ok || key(id) in read.reach))
            && (forall k | k in found :: k in b.entries && found[k] == b.entries[k])
  {
    KeysAreOf(ids, key);
  }

  lemma GetMultiOfNothing(b: Box, key: Id -> Key, fallback: Fallback, dst: map<Id, Value>, e: MultiEnv)
    requires GoodOrder(b, [], key, fallback, dst, e)
    ensures GetMulti(b, [], key, fallback, dst, e) == Outcome(b, None, dst, None)
  {
  }

  lemma AskedTakesToken(b: Box, read: ReadFate, grant: bool)
    ensures AskedAfter(b, read, grant)
         == (b.(entries := b.entries - read.lost, granted := b.granted + if TakesToken(b, read, grant) then 1 else 0),
             read.ok || Allowed(b, grant))
  {
  }

  lemma FinishAnswers(b: Box, key: Id -> Key, d: map<Id, Value>, missing: seq<Id>, f: Fetched<map<Id, Value>>, e: MultiEnv)
    requires f.Fetched? ==> forall id | id in e.order :: id in f.value
    ensures var r := Finish(b, key, d, missing, f, e);
            && r.box == AfterRead(b, e).(entries := r.box.entries)
            && (if missing == [] then r.err == None && r.asked == None && r.dst == d
                else r.asked == Some(missing) && (if f.Fetched? then r.err == None else r.err == Some(FallbackFailed) && r.dst == d))
            && (r.err.Some? || r.asked.None? ==> r.box == AfterRead(b, e))
  {
  }

  /** A read that fails and may not fall back fails the call, which then asks and adds nothing. */
  lemma GetMultiIsRefused(b: Box, ids: seq<Id>, key: Id -> Key, fallback: Fallback, dst: map<Id, Value>, e: MultiEnv)
    requires ids != [] && GoodOrder(b, ids, key, fallback, dst, e)
    requires !e.read.ok && !Allowed(b, e.grant)
    ensures GetMulti(b, ids, key, fallback, dst, e) == Outcome(b.(entries := b.entries - e.read.lost), Some(StoreFailed), dst, None)
  {
    AskedTakesToken(b, e.read, e.grant);
  }

  /**
   Otherwise it adds what the store gave, and asks the fallback for exactly the ids that the store did
   not give, if there are any; its error is the fallback's, and it spends a token only on a failed read.
   */
  lemma GetMultiAnswers(b: Box, ids: seq<Id>, key: Id -> Key, fallback: Fallback, dst: map<Id, Value>, e: MultiEnv)
    requires Injective(key) && ids != [] && GoodOrder(b, ids, key, fallback, dst, e)
    requires e.read.ok || Allowed(b, e.grant)
    ensures var r := GetMulti(b, ids, key, fallback, dst, e);
            var found := ReadMulti(b.entries, KeysOf(ids, key), e.read);
            var missing := Missing(ids, key, found);
            && r.box == b.(entries := r.box.entries, granted := b.granted + if TakesToken(b, e.read, e.grant) then 1 else 0)
            && r.asked == (if missing == [] then None else Some(missing))
            && r.err == (if missing == [] || fallback(missing).Fetched? then None else Some(FallbackFailed))
            && (r.err.Some? || missing == [] ==> r.dst == dst + Found(ids, key, found) && r.box.entries == b.entries - e.read.lost)
  {
    var (d, missing) := Triage(b, ids, key, dst, e.read);
    TriageInOrder(b, ids, key, dst, e.read);
    AskedTakesToken(b, e.read, e.grant);
    FinishAnswers(b, key, d, missing, fallback(missing), e);
  }

  /** Where it asks nothing of the fallback, what that would say makes no difference. */
  lemma UnaskedFallbackIsIgnored(b: Box, ids: seq<Id>, key: Id -> Key, fallback: Fallback, other: Fallback, dst: map<Id, Value>, e: MultiEnv)
    requires GoodOrder(b, ids, key, fallback, dst, e) && GoodOrder(b, ids, key, other, dst, e)
    requires GetMulti(b, ids, key, fallback, dst, e).asked.None?
    ensures GetMulti(b, ids, key, other, dst, e) == GetMulti(b, ids, key, fallback, dst, e)
  {
  }

  /** The entry of `id` is written by a call whose fallback said `m`. */
  predicate Writes(m: map<Id, Value>, id: Id, key: Id -> Key, f: WriteFate) {
    id in m && m[id].Obj? && (f.ok || key(id) in f.reach)
  }

  /** What storing the fallback's objects leaves: those written and not lost, and of the rest what was there. */
  ghost predicate Stored(r: map<Key, Value>, left: map<Key, Value>, m: map<Id, Value>, key: Id -> Key, f: WriteFate) {
    && (forall id | Writes(m, id, key, f) && key(id) !in f.lost :: key(id) in r && r[key(id)] == m[id])
    && (forall k | k in r && (forall id | Writes(m, id, key, f) :: key(id) != k) :: k in left && r[k] == left[k])
    && (forall k | k in left && k !in f.lost && (forall id | Writes(m, id, key, f) :: key(id) != k) :: k in r)
    && (forall k | k in left && (forall id | id in m :: m[id].Nil?) :: k in r)
  }

  lemma WrittenIsStored(entries: map<Key, Value>, ids: seq<Id>, m: map<Id, Value>, key: Id -> Key, f: WriteFate)
    requires Injective(key) && NoRepeats(ids) && ids != []
    requires forall id :: id in ids <==> id in m && m[id].Obj?
    ensures Stored(WriteMulti(entries, KeysOf(ids, key), ValuesOf(ids, m), f).0, entries, m, key, f)
  {
    WrittenAt(entries, ids, key, m, f);
    assert ids[0] in ids;
  }

  lemma NothingIsStored(entries: map<Key, Value>, m: map<Id, Value>, key: Id -> Key, f: WriteFate)
    requires forall id | id in m :: m[id].Nil?
    ensures Stored(entries, entries, m, key, f)
  {
  }

  lemma AbsorbStores(b: Box, key: Id -> Key, dst: map<Id, Value>, missed: seq<Id>, m: map<Id, Value>, e: MultiEnv)
    requires Injective(key) && IsOrder(e.order, m)
    ensures Stored(Absorb(b, key, dst, missed, m, e).box.entries, b.entries, m, key, e.write)
  {
    var present := Present(e.order, m);
    PresentIsFiltered(e.order, m);
    if present == [] {
      NothingIsStored(b.entries, m, key, e.write);
    } else {
      PresentIsDistinct(e.order, m);
      WrittenIsStored(b.entries, present, m, key, e.write);
    }
  }

  /** Every object fetched for a missing id is stored, as far as the store takes it, and nothing else is changed. */
  lemma GetMultiStores(b: Box, ids: seq<Id>, key: Id -> Key, fallback: Fallback, dst: map<Id, Value>, e: MultiEnv)
    requires Injective(key) && GoodOrder(b, ids, key, fallback, dst, e)
    ensures var r := GetMulti(b, ids, key, fallback, dst, e);
            r.err.None? && r.asked.Some? ==>
              && fallback(r.asked.value).Fetched?
              && Stored(r.box.entries, b.entries - e.read.lost, fallback(r.asked.value).value, key, e.write)
  {
    var (d, missed) := Triage(b, ids, key, dst, e.read);
    if fallback(missed).Fetched? {
      AbsorbStores(AfterRead(b, e), key, d, missed, fallback(missed).value, e);
    }
  }

  lemma OneIsWarmed(b: Box, ids: seq<Id>, key: Id -> Key, fallback: Fallback, dst: map<Id, Value>, e: MultiEnv, source: map<Id, Value>, id: Id)
    requires Injective(key) && Faithful(fallback, source) && GoodOrder(b, ids, key, fallback, dst, e)
    requires e.read.ok || Allowed(b, e.grant)
    requires GetMulti(b, ids, key, fallback, dst, e).err.None? && e.write.ok && e.write.lost == {}
    requires id in ids && id in source && source[id].Obj?
    ensures key(id) in GetMulti(b, ids, key, fallback, dst, e).box.entries
  {
    var found := ReadMulti(b.entries, KeysOf(ids, key), e.read);
    var missing := Missing(ids, key, found);
    GetMultiAnswers(b, ids, key, fallback, dst, e);
    ReadGives(b, ids, key, e.read);
    if missing != [] {
      GetMultiStores(b, ids, key, fallback, dst, e);
      var m := fallback(missing).value;
      assert key(id) !in found ==> Writes(m, id, key, e.write);
      if forall j | Writes(m, j, key, e.write) :: key(j) != key(id) {
        assert key(id) in b.entries - e.read.lost;
      }
    }
  }

  /** After a call that lost nothing the store has every id that the source has as an object. */
  lemma GetMultiWarms(b: Box, ids: seq<Id>, key: Id -> Key, fallback: Fallback, dst: map<Id, Value>, e: MultiEnv, source: map<Id, Value>)
    requires Injective(key) && Faithful(fallback, source) && GoodOrder(b, ids, key, fallback, dst, e)
    requires GetMulti(b, ids, key, fallback, dst, e).err.None? && e.write.ok && e.write.lost == {}
    ensures forall id | id in ids && id in source && source[id].Obj? ::
              key(id) in GetMulti(b, ids, key, fallback, dst, e).box.entries
  {
    if ids != [] && !e.read.ok && !Allowed(b, e.grant) {
      GetMultiIsRefused(b, ids, key, fallback, dst, e);
    }
    forall id | id in ids && id in source && source[id].Obj?
      ensures key(id) in GetMulti(b, ids, key, fallback, dst, e).box.entries
    {
      OneIsWarmed(b, ids, key, fallback, dst, e, source, id);
    }
  }

  lemma WarmAnswers(b: Box, ids: seq<Id>, key: Id -> Key, fallback: Fallback, dst: map<Id, Value>, e: MultiEnv, source: map<Id, Value>)
    requires Injective(key) && GoodOrder(b, ids, key, fallback, dst, e) && e.read.ok && e.read.lost == {}
    requires forall id | id in ids && id in source && source[id].Obj? :: key(id) in b.entries
    ensures var r := GetMulti(b, ids, key, fallback, dst, e);
            && (r.asked.Some? ==> forall id | id in r.asked.value :: id !in source || source[id].Nil?)
            && ((forall id | id in ids :: id in source && source[id].Obj?) ==> r.asked.None? && r.err.None?)
  {
    if ids != [] {
      GetMultiAnswers(b, ids, key, fallback, dst, e);
      ReadGives(b, ids, key, e.read);
      var missing := Missing(ids, key, ReadMulti(b.entries, KeysOf(ids, key), e.read));
      assert missing != [] ==> missing[0] in missing;
    }
  }

  /** So a second call that reads well asks the fallback for nothing that the source has as an object. */
  lemma SecondGetMultiIsWarm(b: Box, ids: seq<Id>, key: Id -> Key, fallback: Fallback, dst: map<Id, Value>, e: MultiEnv, source: map<Id, Value>, again: MultiEnv)
    requires Injective(key) && Faithful(fallback, source) && GoodOrder(b, ids, key, fallback, dst, e)
    requires GetMulti(b, ids, key, fallback, dst, e).err.None? && e.write.ok && e.write.lost == {}
    requires again.read.ok && again.read.lost == {}
    requires GoodOrder(GetMulti(b, ids, key, fallback, dst, e).box, ids, key, fallback, dst, again)
    ensures var second := GetMulti(GetMulti(b, ids, key, fallback, dst, e).box, ids, key, fallback, dst, again);
            && (second.asked.Some? ==> forall id | id in second.asked.value :: id !in source || source[id].Nil?)
            && ((forall id | id in ids :: id in source && source[id].Obj?) ==> second.asked.None? && second.err.None?)
  {
    GetMultiWarms(b, ids, key, fallback, dst, e, source);
    WarmAnswers(GetMulti(b, ids, key, fallback, dst, e).box, ids, key, fallback, dst, again, source);
  }

  // ---------- the limiter ----------

  predicate FailsToRead(op: Op) {
    (op.DoGet? && !op.get.read.ok) || (op.DoGetMulti? && !op.multi.read.ok)
  }

  predicate IsGranted(op: Op) {
    (op.DoGet? && op.get.grant) || (op.DoGetMulti? && op.multi.grant)
  }

  /** How many operations of a run fail to read the store. */
  function FailedReads(ops: seq<Op>): nat {
    if ops == [] then 0
    else FailedReads(ops[..|ops| - 1]) + if FailsToRead(ops[|ops| - 1]) then 1 else 0
  }

  /** And for how many of them the limiter would grant a token. */
  function Grants(ops: seq<Op>): nat {
    if ops == [] then 0
    else Grants(ops[..|ops| - 1]) + if FailsToRead(ops[|ops| - 1]) && IsGranted(ops[|ops| - 1]) then 1 else 0
  }

  /** The read fails and yet another answer of the fallback would show: the fallback is consulted. */
  ghost predicate FallsBackOnError(b: Box, key: Id -> Key, op: Op) {
    && FailsToRead(op)
    && (op.DoGet? ==> !IgnoresFallback(b, key(op.id), op.dst, op.get))
    && (op.DoGetMulti? ==>
          exists f: Fallback, g: Fallback ::
            && GoodOrder(b, op.ids, key, f, op.into, op.multi) && GoodOrder(b, op.ids, key, g, op.into, op.multi)
            && GetMulti(b, op.ids, key, f, op.into, op.multi) != GetMulti(b, op.ids, key, g, op.into, op.multi))
  }

  /** How many operations of a run answer a failed read from the fallback. */
  ghost function ErrorFallbacks(b: Box, key: Id -> Key, ops: seq<Op>): nat {
    if ops == [] then 0
    else
      var m := RunOps(b, key, ops[..|ops| - 1]);
      var op := ops[|ops| - 1];
      ErrorFallbacks(b, key, ops[..|ops| - 1]) + if Orderly(m, key, op) && FallsBackOnError(m, key, op) then 1 else 0
  }

  /** A failed read is answered from the fallback only where the options allow it, with a token if need be. */
  lemma FallsBackOnlyIfAllowed(b: Box, key: Id -> Key, op: Op)
    requires FallsBackOnError(b, key, op)
    ensures b.fallbackWhenError && (b.limited ==> IsGranted(op))
  {
    if op.DoGet? && !Allowed(b, op.get.grant) {
      GetIsRefused(b, key(op.id), op.dst, op.get);
    }
  }

  lemma GetMultiTakesToken(b: Box, ids: seq<Id>, key: Id -> Key, fallback: Fallback, dst: map<Id, Value>, e: MultiEnv)
    requires GoodOrder(b, ids, key, fallback, dst, e)
    ensures var r := GetMulti(b, ids, key, fallback, dst, e).box;
            r == b.(entries := r.entries, granted := b.granted + if ids != [] && TakesToken(b, e.read, e.grant) then 1 else 0)
  {
    var (d, missing) := Triage(b, ids, key, dst, e.read);
    AskedTakesToken(b, e.read, e.grant);
    FinishAnswers(b, key, d, missing, fallback(missing), e);
  }

  lemma PerformTakesToken(b: Box, key: Id -> Key, op: Op)
    requires Orderly(b, key, op)
    ensures var r := Perform(b, key, op);
            && r.fallbackWhenError == b.fallbackWhenError && r.limited == b.limited
            && b.granted <= r.granted <= b.granted + (if FailsToRead(op) && IsGranted(op) then 1 else 0)
            && (!b.fallbackWhenError || !b.limited ==> r.granted == b.granted)
            && (FallsBackOnError(b, key, op) && b.limited ==> r.granted == b.granted + 1)
  {
    match op
    case DoGet(id, dst, e) => GetTakesToken(b, key(id), dst, e);
    case DoGetMulti(ids, dst, fallback, e) => GetMultiTakesToken(b, ids, key, fallback, dst, e);
    case _ =>
    if FallsBackOnError(b, key, op) {
      FallsBackOnlyIfAllowed(b, key, op);
    }
  }

  /**
   Over a run no more failed reads are answered from a fallback than the limiter granted tokens, which
   is no more than it would grant for the reads that failed; none at all are without the option.
   */
  lemma {:induction false} ErrorFallbacksAreBudgeted(b: Box, key: Id -> Key, ops: seq<Op>)
    ensures var r := RunOps(b, key, ops);
            && r.fallbackWhenError == b.fallbackWhenError && r.limited == b.limited
            && ErrorFallbacks(b, key, ops) <= FailedReads(ops)
            && (!b.fallbackWhenError ==> ErrorFallbacks(b, key, ops) == 0)
            && (b.limited ==> ErrorFallbacks(b, key, ops) <= r.granted - b.granted <= Grants(ops) <= FailedReads(ops))
            && (!b.fallbackWhenError || !b.limited ==> r.granted == b.granted)
  {
    if ops != [] {
      var (front, op) := (ops[..|ops| - 1], ops[|ops| - 1]);
      ErrorFallbacksAreBudgeted(b, key, front);
      var m := RunOps(b, key, front);
      if Orderly(m, key, op) {
        PerformTakesToken(m, key, op);
        if FallsBackOnError(m, key, op) {
          FallsBackOnlyIfAllowed(m, key, op);
        }
      }
    }
  }
}
