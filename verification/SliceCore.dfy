/** The lock-protected fields of a Slice pool and what each region under the lock does to them. */
module SliceCore {
  import opened Pool

  const OPENER_CAPACITY := 1_000_000

  const DEFAULT_IDLE_ITEMS := 2

  /** A request channel: a one-slot buffer that Close may close. */
  datatype Chan = Chan(buf: Option<Item>, closed: bool)

  /** `chans` is every request channel ever made, `requests` maps a pending key to its channel. */
  datatype Core = Core(
    conf: Config,
    closed: bool,
    active: int,
    free: seq<Item>,
    requests: map<nat, nat>,
    nextRequest: nat,
    chans: seq<Chan>,
    tokens: nat)

  function NewCore(conf: Config): Core {
    Core(conf, false, 0, [], map[], 0, [], 0)
  }

  /** Keys are fresh, and every pending channel is one that can still be sent on without blocking. */
  predicate WellKeyed(c: Core) {
    && c.nextRequest == |c.chans|
    && (forall k | k in c.requests :: k < |c.chans| && c.requests[k] == k)
    && (forall k | k in c.requests :: c.chans[k].buf.None?)
    && (!c.closed ==> forall k | k in c.requests :: !c.chans[k].closed)
  }

  function MaxIdle(conf: Config): nat {
    if conf.idle == 0 then DEFAULT_IDLE_ITEMS else if conf.idle < 0 then 0 else conf.idle
  }

  /** How many opens the waiting requests ask for under the limit. */
  function Wanted(c: Core): int {
    if 0 < c.conf.active && c.conf.active - c.active < |c.requests|
    then c.conf.active - c.active else |c.requests|
  }

  function MaybeOpen(c: Core): (r: Core)
    ensures r == c.(active := r.active, tokens := r.tokens)
    ensures c.active <= r.active
    ensures r.tokens - c.tokens == if c.closed then 0 else r.active - c.active
    ensures 0 < c.conf.active && c.active < r.active ==> r.active <= c.conf.active
    ensures c.requests != map[] && !c.closed && 0 < c.conf.active && c.conf.active - 1 <= c.active
            ==> c.conf.active <= r.active
  {
    var n := Wanted(c);
    if n <= 0 then c
    else if c.closed then c.(active := c.active + 1)
    else c.(active := c.active + n, tokens := c.tokens + n)
  }

  function Release(c: Core): (r: Core)
    ensures r == c.(active := r.active, tokens := r.tokens)
  {
    MaybeOpen(c.(active := c.active - 1))
  }

  /** What a Get leaves the lock with. */
  datatype Grant = Reuse(it: Item) | Exhausted | Queue(key: nat, ch: nat) | Dial

  function Admit(c: Core): (Core, Grant) {
    if c.free != [] then
      (c.(free := c.free[1..]), Reuse(c.free[0]))
    else if 0 < c.conf.active <= c.active then
      if c.conf.waitTimeout == 0 && !c.conf.wait then (c, Exhausted)
      else
        var ch := |c.chans|;
        (c.(requests := c.requests[c.nextRequest := ch],
            nextRequest := c.nextRequest + 1,
            chans := c.chans + [Chan(None, false)]),
         Queue(c.nextRequest, ch))
    else (c.(active := c.active + 1), Dial)
  }

  /** After a hand-off that had expired: the slot is released, then taken again without a check. */
  function Redial(c: Core): (r: Core)
    ensures r == c.(active := r.active, tokens := r.tokens)
  {
    var r := Release(c);
    r.(active := r.active + 1)
  }

  datatype Delivery = Refused | Stored | Sent(ch: nat)

  /** `pick` is the key that iterating over the request map yields first. */
  ghost predicate ValidPick(c: Core, pick: nat) {
    c.requests != map[] ==> pick in c.requests
  }

  function PutItem(c: Core, i: Item, pick: nat): (Core, Delivery)
    requires WellKeyed(c) && (c.requests != map[] ==> pick in c.requests)
  {
    if c.closed || 0 < c.conf.active < c.active then (c, Refused)
    else if c.requests != map[] then
      var ch := c.requests[pick];
      (c.(requests := c.requests - {pick}, chans := c.chans[ch := c.chans[ch].(buf := Some(i))]), Sent(ch))
    else if |c.free| < MaxIdle(c.conf) then
      (c.(free := c.free + [i]), Stored)
    else (c, Refused)
  }

  /** An item that putItemLocked refuses gives its slot up, with no refill. */
  function PutOrDrop(c: Core, i: Item, pick: nat): (Core, Delivery)
    requires WellKeyed(c) && (c.requests != map[] ==> pick in c.requests)
  {
    var (r, d) := PutItem(c, i, pick);
    (if d.Refused? then r.(active := r.active - 1) else r, d)
  }

  function Cancel(c: Core, key: nat): Core {
    c.(requests := c.requests - {key})
  }

  function CloseAll(chans: seq<Chan>, refs: set<nat>): (r: seq<Chan>)
    ensures |r| == |chans|
  {
    seq(|chans|, k requires 0 <= k < |chans| => if k in refs then chans[k].(closed := true) else chans[k])
  }

  function Close(c: Core): Core {
    if c.closed then c
    else c.(closed := true, free := [], chans := CloseAll(c.chans, c.requests.Values))
  }

  /** The items kept and the items taken out by the swap-and-shrink loop from index `i` on. */
  function Sweep(s: seq<Item>, i: nat, since: int): (seq<Item>, seq<Item>)
    requires i <= |s|
    decreases |s| - i
  {
    if i == |s| then (s, [])
    else if s[i].createdAt < since then
      var (kept, closing) := Sweep(SwapOut(s, i), i, since);
      (kept, [s[i]] + closing)
    else Sweep(s, i + 1, since)
  }

  function SwapOut(s: seq<Item>, i: nat): (r: seq<Item>)
    requires i < |s|
    ensures |r| == |s| - 1
  {
    s[i := s[|s| - 1]][..|s| - 1]
  }

  lemma SweepOn(s: seq<Item>, i: nat, since: int)
    requires i < |s| && s[i].createdAt < since
    ensures var (kept, closing) := Sweep(s, i, since);
            closing != [] && closing[0] == s[i] && Sweep(SwapOut(s, i), i, since) == (kept, closing[1..])
  {
    var (kept, closing) := Sweep(SwapOut(s, i), i, since);
    assert Sweep(s, i, since) == (kept, [s[i]] + closing);
    assert ([s[i]] + closing)[1..] == closing;
  }

  function SweepCore(c: Core, now: int): (Core, seq<Item>) {
    if c.closed || c.conf.idleTimeout <= 0 then (c, [])
    else
      var (kept, closing) := Sweep(c.free, 0, now - c.conf.idleTimeout);
      (c.(free := kept, active := c.active - |closing|), closing)
  }

  lemma SwapOutMultiset(s: seq<Item>, i: nat)
    requires i < |s|
    ensures multiset(s) == multiset(SwapOut(s, i)) + multiset{s[i]}
  {
    var last := |s| - 1;
    var t := s[i := s[last]];
    assert multiset(t) == multiset(s) - multiset{s[i]} + multiset{s[last]};
    assert t == SwapOut(s, i) + [s[last]];
  }

  /** The sweep loses nothing and duplicates nothing, whatever order it leaves the items in. */
  lemma {:induction false} SweepKeepsMultiset(s: seq<Item>, i: nat, since: int)
    requires i <= |s|
    ensures var (kept, closing) := Sweep(s, i, since);
            multiset(kept) + multiset(closing) == multiset(s) && |kept| + |closing| == |s|
    decreases |s| - i
  {
    if i < |s| {
      if s[i].createdAt < since {
        SwapOutMultiset(s, i);
        SweepKeepsMultiset(SwapOut(s, i), i, since);
        assert multiset([s[i]] + Sweep(SwapOut(s, i), i, since).1)
            == multiset{s[i]} + multiset(Sweep(SwapOut(s, i), i, since).1);
      } else {
        SweepKeepsMultiset(s, i + 1, since);
      }
    }
  }

  /** Items already passed over stay where they are; the rest are kept exactly when not too old. */
  lemma {:induction false} SweepSeparates(s: seq<Item>, i: nat, since: int)
    requires i <= |s|
    requires forall j :: 0 <= j < i ==> since <= s[j].createdAt
    ensures var (kept, closing) := Sweep(s, i, since);
            && (forall x | x in kept :: since <= x.createdAt)
            && (forall x | x in closing :: x.createdAt < since)
    decreases |s| - i
  {
    if i < |s| {
      if s[i].createdAt < since {
        SweepSeparates(SwapOut(s, i), i, since);
      } else {
        SweepSeparates(s, i + 1, since);
      }
    }
  }

  /** The sweep removes exactly the items that a Get would find expired at the same instant. */
  lemma {:induction false} SweepTakesExactlyTheExpired(c: Core, now: int)
    requires !c.closed && 0 < c.conf.idleTimeout
    ensures var (r, closing) := SweepCore(c, now);
            && multiset(r.free) + multiset(closing) == multiset(c.free)
            && (forall x | x in r.free :: !Expired(x, c.conf.idleTimeout, now))
            && (forall x | x in closing :: Expired(x, c.conf.idleTimeout, now))
            && c.active - r.active == |c.free| - |r.free| == |closing|
            && r == c.(free := r.free, active := r.active)
  {
    SweepKeepsMultiset(c.free, 0, now - c.conf.idleTimeout);
    SweepSeparates(c.free, 0, now - c.conf.idleTimeout);
  }

  lemma SwapOutIds(s: seq<Item>, i: nat)
    requires i < |s| && Distinct(s)
    ensures Distinct(SwapOut(s, i)) && Ids(SwapOut(s, i)) == Ids(s) - {s[i].c}
  {
    var r := SwapOut(s, i);
    forall j | 0 <= j < |s| && j != i
      ensures s[j] in r
    {
      assert s[j] == r[if j == |s| - 1 then i else j];
    }
    forall y | y in r
      ensures y in s && y.c != s[i].c
    {
      var j :| 0 <= j < |r| && r[j] == y;
      assert y == s[if j == i then |s| - 1 else j];
    }
  }

  lemma {:induction false} SweepIds(s: seq<Item>, i: nat, since: int)
    requires i <= |s| && Distinct(s)
    ensures var (kept, closing) := Sweep(s, i, since);
            Distinct(kept) && Distinct(closing) && Ids(kept) + Ids(closing) == Ids(s) && Ids(kept) !! Ids(closing)
    decreases |s| - i
  {
    if i < |s| {
      if s[i].createdAt < since {
        SwapOutIds(s, i);
        SweepIds(SwapOut(s, i), i, since);
        var rest := Sweep(SwapOut(s, i), i, since).1;
        IdsAppend(rest, s[i]);
        forall j | 0 <= j < |rest|
          ensures rest[j].c != s[i].c
        {
          assert rest[j].c in Ids(rest);
        }
      } else {
        SweepIds(s, i + 1, since);
      }
    }
  }
}
