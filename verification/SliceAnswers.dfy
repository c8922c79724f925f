/** What each step of a Slice pool does for the one who takes it, and what a few steps in a row come to. */
module SliceAnswers {
  import opened Pool
  import opened Lifecycle
  import opened SliceCore
  import opened SliceSpec
  import opened SliceMachine
  import opened SliceTheorems

  // ---------- Get ----------

  /**
   How a locked region of Get ends for caller `t`: with the oldest idle item if there is one, else
   below the limit with leave to dial, else at the limit with a request of its own, or with a refusal.
   */
  ghost predicate Answered(s: State, r: State, t: nat) {
    var (c, n) := (s.core, |s.core.chans|);
    if c.free != [] then
      r == s.(core := c.(free := c.free[1..]), callers := s.callers[t := Popped(c.free[0])],
              hist := Move(s.hist, c.free[0].c, Caller(t)))
    else if !AtLimit(c) then
      r == s.(core := c.(active := c.active + 1), callers := s.callers[t := Dialing])
    else if MayWait(c.conf) then
      r == s.(core := c.(requests := c.requests[c.nextRequest := n], nextRequest := c.nextRequest + 1,
                         chans := c.chans + [Chan(None, false)]),
              callers := s.callers[t := Waiting(c.nextRequest, n)], asker := s.asker + [t])
    else
      r == s.(callers := s.callers - {t})
  }

  /** An open pool answers a Get by its idle items and its limit; a closed one refuses and stays as it is. */
  lemma GetAnswers(s: State, t: nat)
    requires t !in s.callers
    ensures if s.core.closed then Next(s, GetStart(t)) == s else Answered(s, Next(s, GetStart(t)), t)
  {
    assert s.callers - {t} == s.callers;
  }

  /** After it closed an expired idle item a Get first gives the slot up and then looks again, open or closed. */
  lemma RelockAnswers(s: State, t: nat)
    requires Enabled(s, Relock(t))
    ensures exists c :: Released(s.core, c) && Answered(s.(core := c), Next(s, Relock(t)), t)
  {
    ReleaseOpensWhatFits(s.core, Release(s.core));
    assert Answered(s.(core := Release(s.core)), Next(s, Relock(t)), t);
  }

  /** The age test: an expired item is closed and its slot kept for now, any other goes to the client. */
  lemma TestAnswers(s: State, step: Step)
    requires Enabled(s, step) && (step.TestPopped? || step.TestReceived?)
    ensures var (t, it) := (step.t, s.callers[step.t].it);
            Next(s, step) ==
              if Expired(it, s.core.conf.idleTimeout, s.now)
              then s.(callers := s.callers[t := if step.TestPopped? then Discarded else DiscardedHandOff],
                      hist := Move(s.hist, it.c, Closed))
              else s.(callers := s.callers - {t}, out := s.out + {it.c}, hist := Move(s.hist, it.c, Leased))
  {
  }

  /** A waiting Get leaves with its item, with the news that the pool is closed, or with its request withdrawn. */
  lemma WaitAnswers(s: State, step: Step)
    requires Enabled(s, step) && (step.Receive? || step.ReceiveClosed? || step.ContextDone? || step.CancelLocked?)
    ensures var (t, pc, r) := (step.t, s.callers[step.t], Next(s, step));
            match step
            case Receive(_) =>
              && s.core.chans[pc.ch].buf.Some? && r.core.chans == s.core.chans[pc.ch := s.core.chans[pc.ch].(buf := None)]
              && r == s.(core := s.core.(chans := r.core.chans), callers := s.callers[t := Received(s.core.chans[pc.ch].buf.value)],
                         hist := Move(s.hist, s.core.chans[pc.ch].buf.value.c, Caller(t)))
            case ReceiveClosed(_) => r == s.(callers := s.callers - {t})
            case ContextDone(_) => r == s.(callers := s.callers[t := Cancelling(pc.key, pc.ch)], cancelled := s.cancelled + {pc.ch})
            case CancelLocked(_) => r == s.(core := s.core.(requests := s.core.requests - {pc.key}), callers := s.callers - {t})
  {
  }

  /** After an expired hand-off the slot is given up, which may open an item for a request, and one is taken unchecked. */
  lemma RedialAnswers(s: State, t: nat)
    requires Enabled(s, RelockHandOff(t))
    ensures exists c :: Released(s.core, c)
              && Next(s, RelockHandOff(t)) == s.(core := c.(active := c.active + 1), callers := s.callers[t := Dialing])
  {
    ReleaseOpensWhatFits(s.core, Release(s.core));
  }

  /** A resource that New returns is the client's; after an error of New the slot is given up. */
  lemma DialAnswers(s: State, step: Step)
    requires Enabled(s, step) && (step.DialOk? || step.DialErr? || step.DialFailedLocked?)
    ensures var (t, r) := (step.t, Next(s, step));
            && (step.DialOk? ==> r.out == s.out + {step.id} && Where(r.hist, step.id) == Leased)
            && (!step.DialOk? ==> r.out == s.out && r.hist == s.hist)
            && (step.DialErr? ==> r.callers == s.callers[t := DialFailed])
            && (!step.DialErr? ==> r.callers == s.callers - {t})
            && (step.DialFailedLocked? ==> Released(s.core, r.core))
            && (!step.DialFailedLocked? ==> r.core == s.core)
            && r == s.(core := r.core, callers := r.callers, out := r.out, hist := r.hist)
  {
    ReleaseOpensWhatFits(s.core, Release(s.core));
  }

  // ---------- Put and the opener ----------

  /** What putLocked makes of a resource, by the fields alone. */
  ghost predicate PutBack(s: State, r: State, id: nat, pick: nat) {
    exists d ::
      && TakenIn(s.core, Item(s.now, id), pick, r.core, d)
      && r == s.(core := r.core, hist := Move(s.hist, id, if d.Sent? then HandOff(d.ch) else if d.Stored? then Idle else Closed))
  }

  lemma LandedIsPutBack(s: State, id: nat, pick: nat)
    requires WellKeyed(s.core) && ValidPick(s.core, pick)
    ensures PutBack(s, Landed(s, id, pick), id, pick)
  {
    var (r, d) := PutOrDrop(s.core, Item(s.now, id), pick);
    PutTakesIn(s.core, Item(s.now, id), pick, r, d);
  }

  /** A forced Put closes the resource and gives its slot up; any other hands it over, stores it or closes it. */
  lemma PutAnswers(s: State, id: nat, force: bool, pick: nat)
    requires Enabled(s, Put(id, force, pick))
    ensures var (m, r) := (s.(out := s.out - {id}), Next(s, Put(id, force, pick)));
            if force then Released(s.core, r.core) && r == m.(core := r.core, hist := Move(s.hist, id, Closed))
            else PutBack(m, r, id, pick)
  {
    if force {
      ReleaseOpensWhatFits(s.core, Release(s.core));
    } else {
      LandedIsPutBack(s.(out := s.out - {id}), id, pick);
    }
  }

  /** The opener opens one item for each token and puts it like a client, or gives the slot up after an error. */
  lemma OpenerAnswers(s: State, step: Step)
    requires Enabled(s, step)
    ensures var r := Next(s, step);
            match step
            case OpenerTake => r == s.(core := s.core.(tokens := s.core.tokens - 1), opener := Opening)
            case OpenerOk(id) => r.opener == Opened(id) && Where(r.hist, id) == Opener && r == s.(opener := r.opener, hist := r.hist)
            case OpenerErr => r == s.(opener := OpenFailed)
            case OpenerPut(pick) => PutBack(s.(opener := Ready), r, s.opener.id, pick)
            case OpenerFailedLocked => Released(s.core, r.core) && r == s.(core := r.core, opener := Ready)
            case OpenerStop => r == s.(opener := Stopped)
            case _ => true
  {
    if step.OpenerPut? {
      LandedIsPutBack(s.(opener := Ready), s.opener.id, step.pick);
    } else if step.OpenerFailedLocked? {
      ReleaseOpensWhatFits(s.core, Release(s.core));
    }
  }

  // ---------- Close ----------

  lemma MovedAll(h: History, ids: set<nat>, p: Place)
    ensures forall id :: Where(MoveAll(h, ids, p), id) == if id in ids then p else Where(h, id)
  {
  }

  /** Close closes the idle resources and the channels of the pending requests, once; the rest stays as it is. */
  lemma CloseAnswers(s: State)
    requires WellKeyed(s.core)
    ensures var r := Next(s, ClosePool);
            && (if s.core.closed then r.core == s.core else Shut(s.core, r.core))
            && r == s.(core := r.core, hist := r.hist)
            && forall id :: Where(r.hist, id) == if !s.core.closed && id in Ids(s.core.free) then Closed else Where(s.hist, id)
  {
    if !s.core.closed {
      CloseShuts(s.core, Close(s.core));
    }
    MovedAll(s.hist, Ids(if s.core.closed then [] else s.core.free), Closed);
  }

  // ---------- the cleaner ----------

  lemma SweepAnswers(s: State)
    requires Enabled(s, CleanerSweep)
    ensures var r := Next(s, CleanerSweep);
            && r == s.(core := r.core, closing := r.closing, hist := r.hist)
            && (s.core.closed || s.core.conf.idleTimeout <= 0 ==> r.core == s.core && r.closing == [])
            && multiset(r.core.free) + multiset(r.closing) == multiset(s.core.free)
            && (forall x | x in r.closing :: Expired(x, s.core.conf.idleTimeout, s.now))
            && (!s.core.closed ==> forall x | x in r.core.free :: !Expired(x, s.core.conf.idleTimeout, s.now))
            && r.core == s.core.(free := r.core.free, active := s.core.active - |r.closing|)
            && (forall id :: Where(r.hist, id) == if id in Ids(r.closing) then Sweeping else Where(s.hist, id))
  {
    var (c, closing) := SweepCore(s.core, s.now);
    MovedAll(s.hist, Ids(closing), Sweeping);
    if !s.core.closed && 0 < s.core.conf.idleTimeout {
      SweepTakesExactlyTheExpired(s.core, s.now);
    }
  }

  /** The end of the cleaner's round: it closes one item after the other. */
  function Closings(n: nat): seq<Step> {
    seq(n, _ => CleanerClose)
  }

  lemma CleanerCloses(s: State)
    requires s.closing != []
    ensures var (r, x) := (Next(s, CleanerClose), s.closing[0]);
            && r == s.(closing := s.closing[1..], hist := r.hist)
            && forall id :: Where(r.hist, id) == if id == x.c then Closed else Where(s.hist, id)
  {
  }

  /** `r` is `s` after the cleaner closed the first `n` items it had taken. */
  ghost predicate ClosedFirst(s: State, r: State, n: nat)
    requires n <= |s.closing|
  {
    && r == s.(closing := s.closing[n..], hist := r.hist)
    && forall id :: Where(r.hist, id) == if id in Ids(s.closing[..n]) then Closed else Where(s.hist, id)
  }

  lemma OneMoreCloses(s: State, m: State, n: nat)
    requires n < |s.closing| && ClosedFirst(s, m, n)
    ensures ClosedFirst(s, Next(m, CleanerClose), n + 1)
  {
    assert m.closing[0] == s.closing[n] && m.closing[1..] == s.closing[n + 1..];
    CleanerCloses(m);
    assert s.closing[..n + 1] == s.closing[..n] + [s.closing[n]];
    IdsAppend(s.closing[..n], s.closing[n]);
  }

  lemma {:induction false} ClosingsClose(s: State, n: nat)
    requires n <= |s.closing|
    ensures ClosedFirst(s, Run(s, Closings(n)), n)
  {
    if n == 0 {
      assert Closings(0) == [];
    } else {
      ClosingsClose(s, n - 1);
      OneMoreCloses(s, Run(s, Closings(n - 1)), n - 1);
      RunAppend(s, Closings(n - 1), CleanerClose);
      assert Closings(n) == Closings(n - 1) + [CleanerClose];
    }
  }

  /** A whole round closes exactly the resources of the idle items that had expired when it began. */
  lemma CleanerClosesExactlyTheExpired(conf: Config, now: int, before: seq<Step>)
    requires Run(Init(conf, now), before).closing == [] && !Run(Init(conf, now), before).core.closed
    ensures var s := Run(Init(conf, now), before);
            var n := |Next(s, CleanerSweep).closing|;
            var r := Run(s, [CleanerSweep] + Closings(n));
            && r.closing == [] && r.core == s.core.(free := r.core.free, active := s.core.active - n)
            && (forall x | x in s.core.free :: Where(r.hist, x.c) == if Expired(x, conf.idleTimeout, s.now) then Closed else Idle)
            && (forall x :: x in r.core.free <==> x in s.core.free && !Expired(x, conf.idleTimeout, s.now))
            && r.callers == s.callers && r.out == s.out && r.opener == s.opener
  {
    var s := Run(Init(conf, now), before);
    InvReached(conf, now, before);
    RunKeepsConf(Init(conf, now), before);
    SweepAnswers(s);
    var m := Next(s, CleanerSweep);
    var n := |m.closing|;
    ClosingsClose(m, n);
    assert m.closing[..n] == m.closing;
    RunOne(s, CleanerSweep);
    RunConcat(s, [CleanerSweep], Closings(n));
    SplitByExpiry(s.core.free, m.core.free, m.closing, conf.idleTimeout, s.now);
    forall x | x in s.core.free
      ensures Where(s.hist, x.c) == Idle
    {
      assert x.c in Ids(s.core.free);
    }
  }

  lemma SplitByExpiry(all: seq<Item>, kept: seq<Item>, gone: seq<Item>, timeout: int, now: int)
    requires Distinct(all) && multiset(kept) + multiset(gone) == multiset(all)
    requires forall x | x in gone :: Expired(x, timeout, now)
    requires forall x | x in kept :: !Expired(x, timeout, now)
    ensures forall x :: x in kept <==> x in all && !Expired(x, timeout, now)
    ensures forall x | x in all :: x.c in Ids(gone) <==> Expired(x, timeout, now)
  {
    forall x: Item
      ensures x in all <==> x in kept || x in gone
    {
      assert x in multiset(all) <==> x in multiset(kept) || x in multiset(gone);
    }
    forall x, y | x in all && y in gone && x.c == y.c
      ensures x == y
    {
      var i :| 0 <= i < |all| && all[i] == x;
      assert y in all;
      var j :| 0 <= j < |all| && all[j] == y;
    }
  }

  // ---------- round trips ----------

  /** What is put into a pool with nothing idle and nobody waiting, the next Get is given, and the pool is as before. */
  lemma PutThenGet(s: State, id: nat, pick: nat, t: nat)
    requires WellKeyed(s.core) && !s.core.closed && !OverLimit(s.core) && s.core.requests == map[] && s.core.free == []
    requires 0 < Room(s.core.conf) && id in s.out && t !in s.callers
    ensures var r := Run(s, [Put(id, false, pick), GetStart(t)] + [TestPopped(t)]);
            r.core == s.core && r.out == s.out && r.callers == s.callers && Where(r.hist, id) == Leased
  {
    RunPair(s, Put(id, false, pick), GetStart(t));
    RunAppend(s, [Put(id, false, pick), GetStart(t)], TestPopped(t));
    PutAnswers(s, id, false, pick);
    var m := Next(s, Put(id, false, pick));
    GetAnswers(m, t);
    TestAnswers(Next(m, GetStart(t)), TestPopped(t));
  }

  lemma PutSends(s: State, id: nat, ch: nat)
    requires WellKeyed(s.core) && !s.core.closed && !OverLimit(s.core) && ch in s.core.requests && id in s.out
    ensures Next(s, Put(id, false, ch)) == s.(
              core := s.core.(requests := s.core.requests - {ch}, chans := s.core.chans[ch := Chan(Some(Item(s.now, id)), false)]),
              out := s.out - {id}, hist := Move(s.hist, id, HandOff(ch)))
  {
    PutAnswers(s, id, false, ch);
  }

  lemma ReceiverTakesIt(m: State, id: nat, t: nat, ch: nat)
    requires ch < |m.core.chans| && m.core.chans[ch] == Chan(Some(Item(m.now, id)), false)
    requires t in m.callers && m.callers[t] == Waiting(ch, ch)
    ensures var r := Next(Next(m, Receive(t)), TestReceived(t));
            && r.core == m.core.(chans := m.core.chans[ch := Chan(None, false)])
            && r.out == m.out + {id} && r.callers == m.callers - {t} && Where(r.hist, id) == Leased
  {
    WaitAnswers(m, Receive(t));
    var w := Next(m, Receive(t));
    assert w.callers == m.callers[t := Received(Item(m.now, id))];
    TestAnswers(w, TestReceived(t));
  }

  /** What is put while a Get waits can go to that Get, with its slot, and past the idle items. */
  lemma HandOffServes(s: State, id: nat, t: nat, ch: nat)
    requires WellKeyed(s.core) && !s.core.closed && !OverLimit(s.core) && ch in s.core.requests
    requires id in s.out && t in s.callers && s.callers[t] == Waiting(ch, ch)
    ensures var r := Run(s, [Put(id, false, ch), Receive(t)] + [TestReceived(t)]);
            && r.core == s.core.(requests := s.core.requests - {ch})
            && r.out == s.out && r.callers == s.callers - {t} && Where(r.hist, id) == Leased
  {
    RunPair(s, Put(id, false, ch), Receive(t));
    RunAppend(s, [Put(id, false, ch), Receive(t)], TestReceived(t));
    PutSends(s, id, ch);
    var m := Next(s, Put(id, false, ch));
    ReceiverTakesIt(m, id, t, ch);
    assert m.core.chans[ch := Chan(None, false)] == s.core.chans;
  }
}
