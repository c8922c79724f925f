/**
 What the locked regions of a List pool have to do, as relations between the fields before and after,
 and that the functions of ListCore do that and nothing else.
 */
module ListSpec {
  import opened Pool
  import opened ListCore

  /** A limit of zero is no limit. */
  predicate HasRoom(c: Core) {
    c.conf.active == 0 || c.active < c.conf.active
  }

  /**
   While turns are left, the most recently put item; then nothing from a closed pool, leave to dial
   below the limit or without one, and at the limit a place to wait or a refusal.
   */
  predicate Granted(c: Core, turns: nat, r: Core, g: Grant) {
    var looked := turns == 0 || c.idles == [];
    match g
    case Reuse(it, rem) => turns == rem + 1 && c.idles == [it] + r.idles && r == c.(idles := r.idles)
    case PoolClosed => looked && c.closed && r == c
    case Dial => looked && !c.closed && HasRoom(c) && r == c.(active := c.active + 1)
    case Park => looked && !c.closed && !HasRoom(c) && MayWait(c.conf) && r == c
    case Exhausted => looked && !c.closed && !HasRoom(c) && !MayWait(c.conf) && r == c
  }

  lemma AdmitGrants(c: Core, turns: nat, r: Core, g: Grant)
    ensures Granted(c, turns, r, g) <==> (r, g) == Admit(c, turns)
  {
    if Granted(c, turns, r, g) && g.Reuse? {
      assert c.idles[0] == g.it && c.idles[1..] == r.idles;
    }
    if c.idles != [] {
      assert c.idles == [c.idles[0]] + c.idles[1..];
    }
  }

  /**
   An item that is put goes to the front.  If there were as many items as are kept, the one at the back
   is to be closed and its slot given up; after Close or when forced that is the item itself.
   */
  ghost predicate TakenIn(c: Core, i: Item, force: bool, r: Core, victim: Option<nat>) {
    if c.closed || force then
      victim == Some(i.c) && r == c.(active := c.active - 1)
    else if |c.idles| < c.conf.idle then
      victim == None && r == c.(idles := [i] + c.idles)
    else
      exists x: Item :: [i] + c.idles == r.idles + [x] && victim == Some(x.c) && r == c.(idles := r.idles, active := c.active - 1)
  }

  lemma PutTakesIn(c: Core, i: Item, force: bool, r: Core, victim: Option<nat>)
    ensures TakenIn(c, i, force, r, victim) <==> (r, victim) == PutItem(c, i, force)
  {
    if !c.closed && !force && c.conf.idle <= |c.idles| {
      var pushed := [i] + c.idles;
      SplitBack(pushed, r.idles, pushed[|pushed| - 1]);
      forall x: Item
        ensures pushed == r.idles + [x] <==> r.idles == pushed[..|pushed| - 1] && x == pushed[|pushed| - 1]
      {
        SplitBack(pushed, r.idles, x);
      }
    }
  }

  lemma SplitBack(s: seq<Item>, r: seq<Item>, x: Item)
    requires s != []
    ensures s == r + [x] <==> r == s[..|s| - 1] && x == s[|s| - 1]
  {
    if s == r + [x] {
      assert r == s[..|s| - 1];
    }
  }

  /** The cleaner takes the back item if it has expired, and gives its slot up; nothing else. */
  predicate Cleaned(c: Core, now: int, r: Core, gone: Option<Item>) {
    match gone
    case Some(x) =>
      && Expired(x, c.conf.idleTimeout, now) && c.idles == r.idles + [x]
      && r == c.(idles := r.idles, active := c.active - 1)
    case None => (c.idles == [] || !Expired(c.idles[|c.idles| - 1], c.conf.idleTimeout, now)) && r == c
  }

  lemma CleanBackCleans(c: Core, now: int, r: Core, gone: Option<Item>)
    ensures Cleaned(c, now, r, gone) <==> (r, gone) == CleanBack(c, now)
  {
    if c.idles != [] {
      SplitBack(c.idles, r.idles, if gone.Some? then gone.value else c.idles[0]);
    }
  }
}
