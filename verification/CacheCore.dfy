/**
 The cache-aside engine over a store that may lose entries at any time and fail any call.
 What the environment does during a call is a parameter: which entries the store loses, which calls
 fail and how far they got, what the fallback returns, and in what order a map is iterated.
 */
module CacheCore {
  import opened Pool

  type Id = nat
  type Key = string

  /** A cached value: a nil pointer or an object, named by a number. */
  datatype Value = Nil | Obj(d: nat)

  datatype Error = StoreFailed | FallbackFailed | LengthMismatch

  /** How a read of the store goes: what it lost before, whether it fails, and what it fills in anyway. */
  datatype ReadFate = ReadFate(lost: set<Key>, ok: bool, reach: set<Key>)

  /** How a write or delete goes: whether it fails, what took effect anyway, and what is lost after. */
  datatype WriteFate = WriteFate(ok: bool, reach: set<Key>, lost: set<Key>)

  datatype Fetched<+T> = Fetched(value: T) | FetchError

  /** The store, the two options of a cache, and how many tokens its limiter has granted. */
  datatype Box = Box(entries: map<Key, Value>, fallbackWhenError: bool, limited: bool, granted: nat)

  // ---------- the store ----------

  function Restrict(m: map<Key, Value>, keys: set<Key>): map<Key, Value> {
    map k | k in m && k in keys :: m[k]
  }

  function KeySet(keys: seq<Key>): set<Key> {
    set k | k in keys
  }

  function ReadMulti(entries: map<Key, Value>, keys: seq<Key>, f: ReadFate): map<Key, Value> {
    Restrict(entries - f.lost, if f.ok then KeySet(keys) else KeySet(keys) * f.reach)
  }

  /** Writes the pairs in turn, those in `reach` when the call fails halfway. */
  function WriteTurns(entries: map<Key, Value>, keys: seq<Key>, values: seq<Value>, f: WriteFate): map<Key, Value>
    requires |keys| == |values|
  {
    if keys == [] then entries
    else
      var last := |keys| - 1;
      var before := WriteTurns(entries, keys[..last], values[..last], f);
      if f.ok || keys[last] in f.reach then before[keys[last] := values[last]] else before
  }

  function WriteMulti(entries: map<Key, Value>, keys: seq<Key>, values: seq<Value>, f: WriteFate): (map<Key, Value>, Option<Error>) {
    if |keys| != |values| then (entries, Some(LengthMismatch))
    else (WriteTurns(entries, keys, values, f) - f.lost, if f.ok then None else Some(StoreFailed))
  }

  function Delete(entries: map<Key, Value>, keys: seq<Key>, f: WriteFate): (map<Key, Value>, Option<Error>) {
    (entries - (if f.ok then KeySet(keys) else KeySet(keys) * f.reach) - f.lost, if f.ok then None else Some(StoreFailed))
  }

  // ---------- the limiter ----------

  /** Whether a failed read may fall back; `grant` is the limiter's answer if it is asked. */
  function AskLimiter(b: Box, grant: bool): (Box, bool) {
    if !b.fallbackWhenError then (b, false)
    else if !b.limited then (b, true)
    else if grant then (b.(granted := b.granted + 1), true)
    else (b, false)
  }

  /** The limiter is asked only when the read failed. */
  function AskedAfter(b: Box, read: ReadFate, grant: bool): (Box, bool) {
    var r := b.(entries := b.entries - read.lost);
    if read.ok then (r, true) else AskLimiter(r, grant)
  }

  // ---------- single entries ----------

  datatype GetEnv = GetEnv(read: ReadFate, grant: bool, fetched: Fetched<Value>, write: WriteFate)

  /** The new state, the error, and the destination. */
  function Get(b: Box, key: Key, dst: Value, e: GetEnv): (Box, Option<Error>, Value) {
    var entries := b.entries - e.read.lost;
    var (q, may) := AskedAfter(b, e.read, e.grant);
    if e.read.ok && key in entries then (q, None, entries[key])
    else if !may then (q, Some(StoreFailed), dst)
    else
      match e.fetched
      case FetchError => (q, Some(FallbackFailed), dst)
      case Fetched(Nil) => (q, None, dst)
      case Fetched(v) => (q.(entries := WriteMulti(entries, [key], [v], e.write).0), None, v)
  }

  datatype RefreshEnv = RefreshEnv(delete: WriteFate, fetched: Fetched<Value>, write: WriteFate)

  function Refresh(b: Box, key: Key, e: RefreshEnv): (Box, Option<Error>) {
    var (left, err) := Delete(b.entries, [key], e.delete);
    var r := b.(entries := left);
    if err.Some? then (r, err)
    else match e.fetched
      case FetchError => (r, Some(FallbackFailed))
      case Fetched(Nil) => (r, None)
      case Fetched(v) =>
        var (entries, err') := WriteMulti(left, [key], [v], e.write);
        (r.(entries := entries), err')
  }

  // ---------- many entries ----------

  function KeysOf(ids: seq<Id>, key: Id -> Key): (keys: seq<Key>)
    ensures |keys| == |ids|
    ensures forall i :: 0 <= i < |ids| ==> keys[i] == key(ids[i])
  {
    seq(|ids|, i requires 0 <= i < |ids| => key(ids[i]))
  }

  /** The map from a key back to the last id that has it. */
  function Reverted(ids: seq<Id>, key: Id -> Key): (m: map<Key, Id>)
    ensures m.Keys == KeySet(KeysOf(ids, key))
    ensures forall k | k in m :: m[k] in ids && key(m[k]) == k
  {
    if ids == [] then map[]
    else
      var last := |ids| - 1;
      assert KeysOf(ids, key) == KeysOf(ids[..last], key) + [key(ids[last])];
      Reverted(ids[..last], key)[key(ids[last]) := ids[last]]
  }

  /** What the loop over the keys does: found values go to `dst`, the other ids to the miss list. */
  function SplitHits(keys: seq<Key>, back: map<Key, Id>, found: map<Key, Value>, dst: map<Id, Value>): (map<Id, Value>, seq<Id>)
    requires forall k | k in keys :: k in back
  {
    if keys == [] then (dst, [])
    else
      var last := |keys| - 1;
      var (d, missed) := SplitHits(keys[..last], back, found, dst);
      var k := keys[last];
      if k in found then (d[back[k] := found[k]], missed) else (d, missed + [back[k]])
  }

  /** What the store has of the ids goes to the destination, the rest is missed. */
  function Triage(b: Box, ids: seq<Id>, key: Id -> Key, dst: map<Id, Value>, read: ReadFate): (map<Id, Value>, seq<Id>) {
    SplitHits(KeysOf(ids, key), Reverted(ids, key), ReadMulti(b.entries, KeysOf(ids, key), read), dst)
  }

  predicate NoRepeats(ids: seq<Id>) {
    forall i, j :: 0 <= i < j < |ids| ==> ids[i] != ids[j]
  }

  /** `order` lists the keys of `m`, each once: one way to iterate over it. */
  ghost predicate IsOrder(order: seq<Id>, m: map<Id, Value>) {
    NoRepeats(order) && forall id :: id in order <==> id in m
  }

  /** The ids of `order` whose values are not nil. */
  function Present(order: seq<Id>, m: map<Id, Value>): (r: seq<Id>)
    requires forall id | id in order :: id in m
    ensures forall id | id in r :: id in m
  {
    if order == [] then []
    else
      var last := |order| - 1;
      Present(order[..last], m) + if m[order[last]].Nil? then [] else [order[last]]
  }

  function ValuesOf(ids: seq<Id>, m: map<Id, Value>): (values: seq<Value>)
    requires forall id | id in ids :: id in m
    ensures |values| == |ids|
    ensures forall i :: 0 <= i < |ids| ==> values[i] == m[ids[i]]
  {
    seq(|ids|, i requires 0 <= i < |ids| => m[ids[i]])
  }

  datatype MultiEnv = MultiEnv(read: ReadFate, grant: bool, order: seq<Id>, write: WriteFate)

  datatype Outcome = Outcome(box: Box, err: Option<Error>, dst: map<Id, Value>, asked: Option<seq<Id>>)

  type Fallback = seq<Id> -> Fetched<map<Id, Value>>

  function Chosen(ids: seq<Id>, m: map<Id, Value>): map<Id, Value>
    requires forall id | id in ids :: id in m
  {
    map id | id in ids :: m[id]
  }

  /** Storing and returning what the fallback fetched for the missing ids. */
  function Absorb(b: Box, key: Id -> Key, dst: map<Id, Value>, missed: seq<Id>, m: map<Id, Value>, e: MultiEnv): Outcome
    requires forall id | id in e.order :: id in m
  {
    var present := Present(e.order, m);
    var entries :=
      if present == [] then b.entries
      else WriteMulti(b.entries, KeysOf(present, key), ValuesOf(present, m), e.write).0;
    Outcome(b.(entries := entries), None, dst + Chosen(present, m), Some(missed))
  }

  ghost predicate GoodOrder(b: Box, ids: seq<Id>, key: Id -> Key, fallback: Fallback, dst: map<Id, Value>, e: MultiEnv) {
    var missed := Triage(b, ids, key, dst, e.read).1;
    fallback(missed).Fetched? ==> IsOrder(e.order, fallback(missed).value)
  }

  /** The state in which the fallback is called, if it is. */
  function AfterRead(b: Box, e: MultiEnv): Box {
    AskedAfter(b, e.read, e.grant).0
  }

  /** The end of the call, once the store has been read; `f` is what the fallback says if it is asked. */
  function Finish(b: Box, key: Id -> Key, d: map<Id, Value>, missed: seq<Id>, f: Fetched<map<Id, Value>>, e: MultiEnv): Outcome
    requires f.Fetched? ==> forall id | id in e.order :: id in f.value
  {
    if missed == [] then Outcome(AfterRead(b, e), None, d, None)
    else
      match f
      case FetchError => Outcome(AfterRead(b, e), Some(FallbackFailed), d, Some(missed))
      case Fetched(m) => Absorb(AfterRead(b, e), key, d, missed, m, e)
  }

  function GetMulti(b: Box, ids: seq<Id>, key: Id -> Key, fallback: Fallback, dst: map<Id, Value>, e: MultiEnv): Outcome
    requires GoodOrder(b, ids, key, fallback, dst, e)
  {
    var (q, may) := AskedAfter(b, e.read, e.grant);
    var (d, missed) := Triage(b, ids, key, dst, e.read);
    if ids == [] then Outcome(b, None, dst, None)
    else if !may then Outcome(q, Some(StoreFailed), dst, None)
    else Finish(b, key, d, missed, fallback(missed), e)
  }

  function EvictMulti(b: Box, ids: seq<Id>, key: Id -> Key, f: WriteFate): (Box, Option<Error>) {
    if ids == [] then (b, None)
    else
      var (entries, err) := Delete(b.entries, KeysOf(ids, key), f);
      (b.(entries := entries), err)
  }

  datatype RefreshMultiEnv = RefreshMultiEnv(delete: WriteFate, order: seq<Id>, write: WriteFate)

  function RefreshMulti(b: Box, ids: seq<Id>, key: Id -> Key, fallback: Fallback, e: RefreshMultiEnv): (Box, Option<Error>)
    requires fallback(ids).Fetched? ==> forall id | id in e.order :: id in fallback(ids).value
  {
    if ids == [] then (b, None)
    else
      var (left, err) := Delete(b.entries, KeysOf(ids, key), e.delete);
      var r := b.(entries := left);
      if err.Some? then (r, err)
      else match fallback(ids)
        case FetchError => (r, Some(FallbackFailed))
        case Fetched(m) =>
          if m == map[] then (r, None)
          else
            var (entries, err') := WriteMulti(left, KeysOf(e.order, key), ValuesOf(e.order, m), e.write);
            (r.(entries := entries), err')
  }
}
