/** Every item a Slice pool ever made is in exactly one place, and moves only along legal edges. */
module SlicePlacement {
  import opened Pool
  import opened Lifecycle
  import opened SliceCore
  import opened SliceMachine

  predicate Buffers(chans: seq<Chan>, ch: nat, id: nat) {
    ch < |chans| && chans[ch].buf.Some? && chans[ch].buf.value.c == id
  }

  predicate Carries(callers: map<nat, Pc>, t: nat, id: nat) {
    t in callers && (callers[t].Popped? || callers[t].Received?) && callers[t].it.c == id
  }

  /** What the pool really holds and what the histories say agree, in both directions. */
  ghost predicate Placed(s: State) {
    && Legal(s.hist)
    && Distinct(s.core.free)
    && Distinct(s.closing)
    && (forall id :: id in Ids(s.core.free) <==> Where(s.hist, id) == Idle)
    && (forall id :: id in s.out <==> Where(s.hist, id) == Leased)
    && (forall id :: id in Ids(s.closing) <==> Where(s.hist, id) == Sweeping)
    && (forall id :: s.opener == Opened(id) <==> Where(s.hist, id) == Opener)
    && (forall id, ch :: Buffers(s.core.chans, ch, id) <==> Where(s.hist, id) == HandOff(ch))
    && (forall id, t :: Carries(s.callers, t, id) <==> Where(s.hist, id) == Caller(t))
  }

  lemma BuffersSet(chans: seq<Chan>, ch: nat, b: Option<Item>)
    requires ch < |chans|
    ensures var r := chans[ch := chans[ch].(buf := b)];
            && (forall id :: Buffers(r, ch, id) <==> b.Some? && b.value.c == id)
            && (forall k, id :: k != ch ==> (Buffers(r, k, id) <==> Buffers(chans, k, id)))
  {
  }

  lemma CarriesSet(callers: map<nat, Pc>, t: nat, pc: Pc)
    ensures var (r, w) := (callers[t := pc], Without(callers, t));
            && (forall id :: Carries(r, t, id) <==> (pc.Popped? || pc.Received?) && pc.it.c == id)
            && (forall id :: !Carries(w, t, id))
            && (forall u, id :: u != t ==> (Carries(r, u, id) <==> Carries(callers, u, id)))
            && (forall u, id :: u != t ==> (Carries(w, u, id) <==> Carries(callers, u, id)))
  {
  }

  ghost predicate Empty(callers: map<nat, Pc>, t: nat) {
    t in callers ==> !callers[t].Popped? && !callers[t].Received?
  }

  lemma PlacedReuse(s: State, t: nat)
    requires Placed(s) && Empty(s.callers, t) && s.core.free != []
    ensures Placed(Admitted(s, t))
  {
    var it := s.core.free[0];
    IdsRemove(s.core.free, 0);
    assert s.core.free[..0] + s.core.free[1..] == s.core.free[1..];
    assert it.c in Ids(s.core.free);
    CarriesSet(s.callers, t, Popped(it));
    MoveLegal(s.hist, it.c, Caller(t));
  }

  ghost predicate SameHoldings(s: State, r: State) {
    && r.hist == s.hist && r.core.free == s.core.free && r.core.chans == s.core.chans
    && r.out == s.out && r.closing == s.closing
    && (forall id :: r.opener == Opened(id) <==> s.opener == Opened(id))
    && (forall t, id :: Carries(r.callers, t, id) <==> Carries(s.callers, t, id))
  }

  lemma PlacedSame(s: State, r: State)
    requires Placed(s) && SameHoldings(s, r)
    ensures Placed(r)
  {
  }

  lemma AdmittedHoldings(s: State, t: nat)
    requires Empty(s.callers, t) && s.core.free == []
    ensures var r := Admitted(s, t);
            SameHoldings(s.(core := s.core.(chans := r.core.chans)), r) && s.core.chans <= r.core.chans
            && forall ch :: |s.core.chans| <= ch < |r.core.chans| ==> r.core.chans[ch].buf.None?
  {
    CarriesSet(s.callers, t, if Admit(s.core).1.Dial? then Dialing else DialFailed);
  }

  lemma PlacedMoreChannels(s: State, r: State)
    requires Placed(s) && s.core.chans <= r.core.chans && SameHoldings(s.(core := s.core.(chans := r.core.chans)), r)
    requires forall ch :: |s.core.chans| <= ch < |r.core.chans| ==> r.core.chans[ch].buf.None?
    ensures Placed(r)
  {
    assert forall ch, id :: Buffers(r.core.chans, ch, id) <==> Buffers(s.core.chans, ch, id);
  }

  lemma PlacedAdmitted(s: State, t: nat)
    requires Placed(s) && Empty(s.callers, t)
    ensures Placed(Admitted(s, t))
  {
    if s.core.free != [] {
      PlacedReuse(s, t);
    } else {
      AdmittedHoldings(s, t);
      PlacedMoreChannels(s, Admitted(s, t));
    }
  }

  lemma PlacedTested(s: State, t: nat, it: Item, discarded: Pc)
    requires Placed(s) && Carries(s.callers, t, it.c) && !discarded.Popped? && !discarded.Received?
    ensures Placed(Tested(s, t, it, discarded))
  {
    CarriesSet(s.callers, t, discarded);
    if Expired(it, s.core.conf.idleTimeout, s.now) {
      MoveLegal(s.hist, it.c, Closed);
    } else {
      MoveLegal(s.hist, it.c, Leased);
    }
  }

  /** `id` is in nobody's hands: it has just left `from`, where only its history still has it. */
  ghost predicate InTransit(s: State, id: nat) {
    && Legal(s.hist)
    && Distinct(s.core.free)
    && Distinct(s.closing)
    && (Where(s.hist, id) == Leased || Where(s.hist, id) == Opener)
    && (forall j :: j in Ids(s.core.free) <==> Where(s.hist, j) == Idle)
    && (forall j :: j in s.out <==> j != id && Where(s.hist, j) == Leased)
    && (forall j :: j in Ids(s.closing) <==> Where(s.hist, j) == Sweeping)
    && (forall j :: s.opener == Opened(j) <==> j != id && Where(s.hist, j) == Opener)
    && (forall j, ch :: Buffers(s.core.chans, ch, j) <==> Where(s.hist, j) == HandOff(ch))
    && (forall j, t :: Carries(s.callers, t, j) <==> Where(s.hist, j) == Caller(t))
  }

  lemma PlacedStored(s: State, id: nat, pick: nat)
    requires InTransit(s, id) && WellKeyed(s.core) && ValidPick(s.core, pick)
    requires PutOrDrop(s.core, Item(s.now, id), pick).1.Stored?
    ensures Placed(Landed(s, id, pick))
  {
    MoveLegal(s.hist, id, Idle);
    IdsAppend(s.core.free, Item(s.now, id));
    forall i | 0 <= i < |s.core.free|
      ensures s.core.free[i].c != id
    {
      assert s.core.free[i].c in Ids(s.core.free);
    }
  }

  lemma PlacedSent(s: State, id: nat, pick: nat)
    requires InTransit(s, id) && WellKeyed(s.core) && ValidPick(s.core, pick)
    requires PutOrDrop(s.core, Item(s.now, id), pick).1.Sent?
    ensures Placed(Landed(s, id, pick))
  {
    MoveLegal(s.hist, id, HandOff(pick));
    BuffersSet(s.core.chans, pick, Some(Item(s.now, id)));
  }

  lemma PlacedRefused(s: State, id: nat, pick: nat)
    requires InTransit(s, id) && WellKeyed(s.core) && ValidPick(s.core, pick)
    requires PutOrDrop(s.core, Item(s.now, id), pick).1.Refused?
    ensures Placed(Landed(s, id, pick))
  {
    MoveLegal(s.hist, id, Closed);
  }

  lemma PlacedLanded(s: State, id: nat, pick: nat)
    requires InTransit(s, id) && WellKeyed(s.core) && ValidPick(s.core, pick)
    ensures Placed(Landed(s, id, pick))
  {
    match PutOrDrop(s.core, Item(s.now, id), pick).1
    case Stored => PlacedStored(s, id, pick);
    case Sent(_) => PlacedSent(s, id, pick);
    case Refused => PlacedRefused(s, id, pick);
  }

  lemma PlacedPut(s: State, id: nat, force: bool, pick: nat)
    requires Placed(s) && Enabled(s, Put(id, force, pick))
    ensures Placed(Apply(s, Put(id, force, pick)))
  {
    var m := s.(out := s.out - {id});
    assert InTransit(m, id);
    if force {
      MoveLegal(s.hist, id, Closed);
    } else {
      PlacedLanded(m, id, pick);
    }
  }

  lemma PlacedOpenerPut(s: State, pick: nat)
    requires Placed(s) && Enabled(s, OpenerPut(pick))
    ensures Placed(Apply(s, OpenerPut(pick)))
  {
    var m := s.(opener := Ready);
    assert InTransit(m, s.opener.id);
    PlacedLanded(m, s.opener.id, pick);
  }

  lemma PlacedReceive(s: State, t: nat)
    requires Placed(s) && Enabled(s, Receive(t))
    ensures Placed(Apply(s, Receive(t)))
  {
    var ch := s.callers[t].ch;
    var id := s.core.chans[ch].buf.value.c;
    assert Buffers(s.core.chans, ch, id);
    BuffersSet(s.core.chans, ch, None);
    CarriesSet(s.callers, t, Received(s.core.chans[ch].buf.value));
    MoveLegal(s.hist, id, Caller(t));
  }

  lemma PlacedBirth(s: State, step: Step)
    requires Placed(s) && Enabled(s, step) && (step.DialOk? || step.OpenerOk?)
    ensures Placed(Apply(s, step))
  {
    if step.DialOk? {
      BirthLegal(s.hist, step.id, step.t);
    } else {
      MoveLegal(s.hist, step.id, Opener);
    }
  }

  lemma PlacedSweep(s: State)
    requires Placed(s) && Enabled(s, CleanerSweep)
    ensures Placed(Apply(s, CleanerSweep))
  {
    var (c, closing) := SweepCore(s.core, s.now);
    if !s.core.closed && 0 < s.core.conf.idleTimeout {
      SweepIds(s.core.free, 0, s.now - s.core.conf.idleTimeout);
    }
    MoveAllLegal(s.hist, Ids(closing), Sweeping);
  }

  lemma PlacedCleanerClose(s: State)
    requires Placed(s) && Enabled(s, CleanerClose)
    ensures Placed(Apply(s, CleanerClose))
  {
    IdsRemove(s.closing, 0);
    assert s.closing[..0] + s.closing[1..] == s.closing[1..];
    assert s.closing[0].c in Ids(s.closing);
    MoveLegal(s.hist, s.closing[0].c, Closed);
  }

  lemma CloseKeepsBuffers(c: Core)
    ensures forall ch, id :: Buffers(Close(c).chans, ch, id) <==> Buffers(c.chans, ch, id)
  {
  }

  lemma PlacedClose(s: State)
    requires Placed(s)
    ensures Placed(Apply(s, ClosePool))
  {
    CloseKeepsBuffers(s.core);
    if s.core.closed {
      assert MoveAll(s.hist, Ids([]), Closed) == s.hist;
    } else {
      MoveAllLegal(s.hist, Ids(s.core.free), Closed);
    }
  }

  /** The steps in which no item changes hands. */
  predicate Still(step: Step) {
    step.ContextDone? || step.CancelLocked? || step.ReceiveClosed? || step.RelockHandOff? || step.DialErr?
    || step.DialFailedLocked? || step.OpenerTake? || step.OpenerErr? || step.OpenerFailedLocked?
    || step.OpenerStop? || step.Tick?
  }

  lemma StillHoldings(s: State, step: Step)
    requires Enabled(s, step) && Still(step)
    ensures SameHoldings(s, Apply(s, step))
  {
  }

  /** The steps of Get that hand an item on. */
  lemma PlacedGet(s: State, step: Step)
    requires Placed(s) && Enabled(s, step)
    requires step.GetStart? || step.Relock? || step.TestPopped? || step.TestReceived?
    ensures Placed(Apply(s, step))
  {
    if step.GetStart? {
      PlacedAdmitted(s, step.t);
    } else if step.Relock? {
      PlacedAdmitted(s.(core := Release(s.core)), step.t);
    } else if step.TestPopped? {
      PlacedTested(s, step.t, s.callers[step.t].it, Discarded);
    } else {
      PlacedTested(s, step.t, s.callers[step.t].it, DiscardedHandOff);
    }
  }

  lemma PlacedNext(s: State, step: Step)
    requires Placed(s)
    ensures Placed(Next(s, step))
  {
    if Enabled(s, step) {
      if Still(step) {
        StillHoldings(s, step);
        PlacedSame(s, Apply(s, step));
      } else if step.Receive? {
        PlacedReceive(s, step.t);
      } else if step.DialOk? || step.OpenerOk? {
        PlacedBirth(s, step);
      } else if step.Put? {
        PlacedPut(s, step.id, step.force, step.pick);
      } else if step.OpenerPut? {
        PlacedOpenerPut(s, step.pick);
      } else if step.CleanerSweep? {
        PlacedSweep(s);
      } else if step.CleanerClose? {
        PlacedCleanerClose(s);
      } else if step.ClosePool? {
        PlacedClose(s);
      } else {
        PlacedGet(s, step);
      }
    }
  }
}
