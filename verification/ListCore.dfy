/** The lock-protected fields of a List pool and what each region under the lock does to them. */
module ListCore {
  import opened Pool

  /** `idles` is the linked list from front to back: the most recently put item first. */
  datatype Core = Core(conf: Config, closed: bool, active: int, idles: seq<Item>)

  function NewCore(conf: Config): Core {
    Core(conf, false, 0, [])
  }

  /** What a Get leaves the lock with; `rem` is how many more idle items its inner loop may pop. */
  datatype Grant = Reuse(it: Item, rem: nat) | PoolClosed | Dial | Exhausted | Park

  function Admit(c: Core, rem: nat): (Core, Grant) {
    if 0 < rem && c.idles != [] then (c.(idles := c.idles[1..]), Reuse(c.idles[0], rem - 1))
    else if c.closed then (c, PoolClosed)
    else if c.conf.active == 0 || c.active < c.conf.active then (c.(active := c.active + 1), Dial)
    else if c.conf.waitTimeout == 0 && !c.conf.wait then (c, Exhausted)
    else (c, Park)
  }

  function Release(c: Core): Core {
    c.(active := c.active - 1)
  }

  /** The item goes to the front; over the limit the back one leaves.  Also returns what to close. */
  function PutItem(c: Core, i: Item, force: bool): (Core, Option<nat>) {
    if c.closed || force then (Release(c), Some(i.c))
    else
      var pushed := [i] + c.idles;
      if c.conf.idle < |pushed|
      then (Release(c.(idles := pushed[..|pushed| - 1])), Some(pushed[|pushed| - 1].c))
      else (c.(idles := pushed), None)
  }

  /** One turn of the cleaner's loop: the back item leaves if it has expired. */
  function CleanBack(c: Core, now: int): (Core, Option<Item>) {
    var last := |c.idles| - 1;
    if c.idles != [] && Expired(c.idles[last], c.conf.idleTimeout, now)
    then (Release(c.(idles := c.idles[..last])), Some(c.idles[last]))
    else (c, None)
  }

  function Close(c: Core): Core {
    c.(closed := true, idles := [], active := c.active - |c.idles|)
  }

  /** Newest first. */
  predicate Sorted(s: seq<Item>) {
    forall i, j :: 0 <= i < j < |s| ==> s[j].createdAt <= s[i].createdAt
  }

  /** In a list that is newest first, expired items form its back part. */
  lemma {:induction false} FrontDecides(s: seq<Item>, timeout: int, now: int)
    requires Sorted(s)
    ensures (exists x :: x in s && !Expired(x, timeout, now)) <==> s != [] && !Expired(s[0], timeout, now)
  {
    if x :| x in s && !Expired(x, timeout, now) {
      var i :| 0 <= i < |s| && s[i] == x;
      assert s[i].createdAt <= s[0].createdAt;
    }
  }

  /** Put keeps what it can: it closes its own item only when told to, and otherwise an oldest one. */
  lemma PutEvictsTheOldest(c: Core, i: Item, force: bool)
    requires Sorted(c.idles) && forall x | x in c.idles :: x.createdAt <= i.createdAt
    ensures var (r, victim) := PutItem(c, i, force);
            if c.closed || force then victim == Some(i.c) && r.idles == c.idles
            else if victim.None? then multiset(r.idles) == multiset(c.idles) + multiset{i} && |r.idles| <= c.conf.idle
            else exists x: Item ::
                   && x.c == victim.value && multiset(r.idles) + multiset{x} == multiset(c.idles) + multiset{i}
                   && (forall y | y in r.idles :: x.createdAt <= y.createdAt)
                   && c.conf.idle <= |c.idles|
  {
    if !c.closed && !force {
      var pushed := [i] + c.idles;
      var last := |pushed| - 1;
      var x := pushed[last];
      assert multiset(pushed) == multiset{i} + multiset(c.idles);
      assert pushed == pushed[..last] + [x];
      assert forall k :: 0 <= k < last ==> x.createdAt <= pushed[k].createdAt;
      if PutItem(c, i, force).1.Some? {
        assert multiset(PutItem(c, i, force).0.idles) + multiset{x} == multiset(c.idles) + multiset{i};
      }
    }
  }
}
