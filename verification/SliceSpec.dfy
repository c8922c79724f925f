/**
 What the locked regions of a Slice pool have to do, as relations between the fields before and after,
 and that the functions of SliceCore do that and nothing else.
 */
module SliceSpec {
  import opened Pool
  import opened SliceCore

  predicate AtLimit(c: Core) {
    0 < c.conf.active <= c.active
  }

  predicate OverLimit(c: Core) {
    0 < c.conf.active < c.active
  }

  /**
   One slot is given up, and then as many opens are counted as the requests ask for and the limit
   leaves room for; each is queued, but for a closed pool, which counts one at most and queues none.
   */
  predicate Released(c: Core, r: Core) {
    var opens := r.active - (c.active - 1);
    && r == c.(active := r.active, tokens := r.tokens)
    && 0 <= opens <= |c.requests|
    && (0 < opens && 0 < c.conf.active ==> r.active <= c.conf.active)
    && (opens < |c.requests| ==> AtLimit(r) || (c.closed && opens == 1))
    && r.tokens - c.tokens == (if c.closed then 0 else opens)
    && (c.closed ==> opens <= 1)
  }

  lemma ReleaseOpensWhatFits(c: Core, r: Core)
    ensures Released(c, r) <==> r == Release(c)
  {
    if c.requests != map[] {
      assert 0 < |c.requests|;
    }
  }

  /** The oldest idle item if there is one; else below the limit leave to dial; else a request, or a refusal. */
  predicate Granted(c: Core, r: Core, g: Grant) {
    match g
    case Reuse(it) => c.free != [] && c.free == [it] + r.free && r == c.(free := r.free)
    case Dial => c.free == [] && !AtLimit(c) && r == c.(active := c.active + 1)
    case Queue(key, ch) =>
      && c.free == [] && AtLimit(c) && MayWait(c.conf)
      && key == c.nextRequest && ch == |c.chans|
      && r == c.(requests := c.requests[key := ch], nextRequest := key + 1, chans := c.chans + [Chan(None, false)])
    case Exhausted => c.free == [] && AtLimit(c) && !MayWait(c.conf) && r == c
  }

  lemma AdmitGrants(c: Core, r: Core, g: Grant)
    ensures Granted(c, r, g) <==> (r, g) == Admit(c)
  {
    if Granted(c, r, g) && g.Reuse? {
      assert c.free[0] == g.it && c.free[1..] == r.free;
    }
    if c.free != [] {
      assert c.free == [c.free[0]] + c.free[1..];
    }
  }

  /**
   What a Get that nothing interrupts comes to in an open pool, when `gone` is what it closed and `g` the
   last grant: it took the idle items in their order, all of them before it was answered by the limit.
   Each slot it gave up was counted off, and counted on again for an open that it queued.
   */
  predicate Passing(c: Core, r: Core, g: Grant, gone: seq<Item>, now: int) {
    && r == c.(active := r.active, tokens := r.tokens, free := r.free, requests := r.requests,
               nextRequest := r.nextRequest, chans := r.chans)
    && (forall x | x in gone :: Expired(x, c.conf.idleTimeout, now))
    && c.free == gone + (if g.Reuse? then [g.it] else []) + r.free
    && (!g.Reuse? ==> r.free == [])
    && r.active - r.tokens == c.active - c.tokens - |gone| + (if g.Dial? then 1 else 0)
    && (c.requests == map[] ==> r.tokens == c.tokens)
    && (g.Dial? ==> !(0 < c.conf.active < r.active))
    && (g.Queue? || g.Exhausted? ==> AtLimit(r) && (g.Queue? <==> MayWait(c.conf)))
    && (if g.Queue? then r.requests == c.requests[g.key := g.ch] else r.requests == c.requests && r.chans == c.chans)
  }

  lemma PassStarts(c: Core, r: Core, g: Grant, now: int)
    requires (r, g) == Admit(c)
    ensures Passing(c, r, g, [], now)
  {
    AdmitGrants(c, r, g);
  }

  lemma PassGoesOn(c: Core, m: Core, g: Grant, gone: seq<Item>, r: Core, h: Grant, now: int)
    requires Passing(c, m, g, gone, now) && !c.closed && g.Reuse? && Expired(g.it, c.conf.idleTimeout, now)
    requires (r, h) == Admit(Release(m))
    ensures Passing(c, r, h, gone + [g.it], now)
    ensures |r.free| + (if h.Reuse? then 1 else 0) <= |m.free|
  {
    AdmitGrants(Release(m), r, h);
    if h.Reuse? {
      assert m.free == [h.it] + r.free;
    }
  }

  /** How many idle items are kept: the limit, two where it is unset, none where it is negative. */
  function Room(conf: Config): int {
    if conf.idle == 0 then 2 else conf.idle
  }

  /**
   An item that is put goes to the request `pick` if there is one, else to the end of the idle items
   if there is room; it is refused, and its slot given up, where there is none, over the limit, and
   after Close.
   */
  predicate TakenIn(c: Core, i: Item, pick: nat, r: Core, d: Delivery) {
    match d
    case Sent(ch) =>
      && !c.closed && !OverLimit(c) && pick in c.requests && ch == c.requests[pick] < |c.chans|
      && r == c.(requests := c.requests - {pick}, chans := c.chans[ch := c.chans[ch].(buf := Some(i))])
    case Stored =>
      && !c.closed && !OverLimit(c) && c.requests == map[] && |c.free| < Room(c.conf)
      && r == c.(free := c.free + [i])
    case Refused =>
      && (c.closed || OverLimit(c) || (c.requests == map[] && Room(c.conf) <= |c.free|))
      && r == c.(active := c.active - 1)
  }

  lemma PutTakesIn(c: Core, i: Item, pick: nat, r: Core, d: Delivery)
    requires WellKeyed(c) && ValidPick(c, pick)
    ensures TakenIn(c, i, pick, r, d) <==> (r, d) == PutOrDrop(c, i, pick)
  {
  }

  /** The idle items are gone, the pending channels are closed and no others, and the rest is as before. */
  predicate Shut(c: Core, r: Core) {
    && r == c.(closed := true, free := [], chans := r.chans) && |r.chans| == |c.chans|
    && forall k :: 0 <= k < |c.chans| ==> r.chans[k] == if k in c.requests then c.chans[k].(closed := true) else c.chans[k]
  }

  lemma CloseShuts(c: Core, r: Core)
    requires WellKeyed(c) && !c.closed
    ensures Shut(c, r) <==> r == Close(c)
  {
    var d := Close(c);
    forall k: nat
      ensures k in c.requests.Values <==> k in c.requests
    {
      if k in c.requests {
        assert c.requests[k] in c.requests.Values;
      }
    }
    if Shut(c, r) {
      assert r.chans == d.chans;
    }
  }
}
