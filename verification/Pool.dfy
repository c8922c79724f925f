/** The declarations shared by both pools: configuration, pooled items and the expiry test. */
module Pool {

  datatype Option<+T> = None | Some(value: T)

  /** The pool limits.  A field that the program reads as "unset" is a number that is not positive. */
  datatype Config = Config(active: int, idle: int, idleTimeout: int, waitTimeout: int, wait: bool)

  /** The configurations that the constructors of both pools accept without a panic. */
  predicate ValidConfig(c: Config) {
    c.idle <= c.active
  }

  /** Whether a Get that finds the pool at its limit waits instead of failing at once. */
  predicate MayWait(c: Config) {
    c.waitTimeout != 0 || c.wait
  }

  /** A pooled item: the resource `c`, named by a number, stamped with the time it was last put. */
  datatype Item = Item(createdAt: int, c: nat)

  predicate Expired(i: Item, timeout: int, now: int) {
    0 < timeout && i.createdAt + timeout < now
  }

  /** The numbers of the resources in a sequence of items. */
  function Ids(s: seq<Item>): set<nat> {
    set i | i in s :: i.c
  }

  predicate Distinct(s: seq<Item>) {
    forall i, j :: 0 <= i < j < |s| ==> s[i].c != s[j].c
  }

  lemma IdsAppend(s: seq<Item>, x: Item)
    ensures Ids(s + [x]) == Ids(s) + {x.c}
    ensures Ids([x] + s) == Ids(s) + {x.c}
  {
    forall y | y in s
      ensures y in s + [x] && y in [x] + s
    {
    }
    assert x in s + [x] && x in [x] + s;
  }

  /** Taking the item at `k` out of a sequence without duplicates takes exactly its number out. */
  lemma IdsRemove(s: seq<Item>, k: nat)
    requires k < |s| && Distinct(s)
    ensures Distinct(s[..k] + s[k + 1..])
    ensures Ids(s[..k] + s[k + 1..]) == Ids(s) - {s[k].c}
  {
    var r := s[..k] + s[k + 1..];
    forall i | 0 <= i < |s| && i != k
      ensures s[i] in r
    {
      assert s[i] == r[if i < k then i else i - 1];
    }
    forall y | y in r
      ensures y in s && y.c != s[k].c
    {
      var i :| 0 <= i < |r| && r[i] == y;
      assert y == s[if i < k then i else i + 1];
    }
  }
}
