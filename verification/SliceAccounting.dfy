/** What the active counter of a Slice pool counts, and the limits it respects. */
module SliceAccounting {
  import opened Pool
  import opened Lifecycle
  import opened SliceCore
  import opened SliceMachine
  import opened SlicePlacement

  /** Channels that hold an item nobody has received. */
  function Buffered(chans: seq<Chan>): set<nat> {
    set ch: nat | ch < |chans| && chans[ch].buf.Some?
  }

  predicate IsBusy(pc: Pc) {
    !pc.Waiting? && !pc.Cancelling?
  }

  /** Callers that own a slot: with an item, dialling, or about to release. */
  function Busy(callers: map<nat, Pc>): set<nat> {
    set t | t in callers && IsBusy(callers[t])
  }

  function OpenerUnits(o: OpenerPc): nat {
    if o.Opening? || o.Opened? || o.OpenFailed? then 1 else 0
  }

  /** Idle items, leases, undelivered hand-offs, busy callers, queued opens and the open in progress. */
  function Units(s: State): nat {
    |s.core.free| + |s.out| + |Buffered(s.core.chans)| + |Busy(s.callers)| + s.core.tokens + OpenerUnits(s.opener)
  }

  ghost predicate Accounted(s: State) {
    if s.core.closed then Units(s) <= s.core.active else Units(s) == s.core.active
  }

  lemma BusySet(callers: map<nat, Pc>, t: nat, pc: Pc)
    ensures Busy(callers[t := pc]) == if IsBusy(pc) then Busy(callers) + {t} else Busy(callers) - {t}
  {
  }

  lemma BusyWithout(callers: map<nat, Pc>, t: nat)
    ensures Busy(Without(callers, t)) == Busy(callers) - {t}
  {
  }

  lemma BufferedSend(chans: seq<Chan>, ch: nat, it: Item)
    requires ch < |chans|
    ensures Buffered(chans[ch := chans[ch].(buf := Some(it))]) == Buffered(chans) + {ch}
    ensures Buffered(chans[ch := chans[ch].(buf := None)]) == Buffered(chans) - {ch}
  {
  }

  lemma BufferedMore(chans: seq<Chan>)
    ensures Buffered(chans + [Chan(None, false)]) == Buffered(chans)
  {
  }

  lemma BufferedClose(c: Core)
    ensures Buffered(Close(c).chans) == Buffered(c.chans)
  {
  }

  /** A release of a closed pool takes a slot for a waiting request and then queues no open for it. */
  predicate Misfills(c: Core) {
    c.closed && 0 < Wanted(c.(active := c.active - 1))
  }

  /** The steps that end in release. */
  predicate Releases(step: Step) {
    step.Relock? || step.RelockHandOff? || step.DialFailedLocked? || step.OpenerFailedLocked? || (step.Put? && step.force)
  }

  /** What the steps of Get under the lock, and all that release, leave of the locked fields. */
  function CoreAfter(c: Core, step: Step): Core {
    if step.GetStart? then if c.closed then c else Admit(c).0
    else if step.Relock? then Admit(Release(c)).0
    else if step.RelockHandOff? then Redial(c)
    else Release(c)
  }

  lemma AppliesCoreAfter(s: State, step: Step)
    requires Enabled(s, step) && (Releases(step) || step.GetStart?)
    ensures Apply(s, step).core == CoreAfter(s.core, step)
  {
  }

  function ReleaseDrift(c: Core): nat {
    if Misfills(c) then 1 else 0
  }

  /** By how much a step makes the counter exceed what it counts. */
  ghost function Drift(s: State, step: Step): nat {
    if !Enabled(s, step) then 0
    else if step.ClosePool? && !s.core.closed then |s.core.free|
    else if Releases(step) then ReleaseDrift(s.core)
    else 0
  }

  /** The counter moves by exactly what the slots in use do, and by the drift. */
  ghost predicate Balanced(s: State, r: State, drift: nat) {
    && r.core.active - Units(r) == s.core.active - Units(s) + drift
    && (s.core.closed ==> r.core.closed)
    && (!r.core.closed ==> drift == 0)
  }

  lemma ReleaseDrifts(c: Core)
    ensures var r := Release(c);
            r.active - r.tokens == c.active - c.tokens - 1 + ReleaseDrift(c)
  {
  }

  lemma BalancedAdmitted(s: State, t: nat, slot: int)
    requires slot == if t in Busy(s.callers) then 1 else 0
    ensures var r := Admitted(s, t);
            && r.core.active - Units(r) == s.core.active - Units(s) + slot
            && r.core.closed == s.core.closed
  {
    match Admit(s.core).1
    case Reuse(it) => BusySet(s.callers, t, Popped(it));
    case Queue(key, ch) =>
      BusySet(s.callers, t, Waiting(key, ch));
      BufferedMore(s.core.chans);
    case Exhausted => BusyWithout(s.callers, t);
    case Dial => BusySet(s.callers, t, Dialing);
  }

  lemma BalancedTested(s: State, t: nat, it: Item, discarded: Pc)
    requires t in Busy(s.callers) && IsBusy(discarded) && it.c !in s.out
    ensures Balanced(s, Tested(s, t, it, discarded), 0)
  {
    BusyWithout(s.callers, t);
    BusySet(s.callers, t, discarded);
    assert Busy(s.callers) + {t} == Busy(s.callers);
  }

  lemma BalancedLanded(s: State, id: nat, pick: nat)
    requires WellKeyed(s.core) && ValidPick(s.core, pick)
    ensures var r := Landed(s, id, pick);
            && r.core.active - Units(r) == s.core.active - Units(s) - 1
            && r.core.closed == s.core.closed
  {
    var it := Item(s.now, id);
    if PutOrDrop(s.core, it, pick).1.Sent? {
      BufferedSend(s.core.chans, s.core.requests[pick], it);
    }
  }

  lemma BalancedGetStart(s: State, t: nat)
    requires Enabled(s, GetStart(t))
    ensures Balanced(s, Apply(s, GetStart(t)), 0)
  {
    BalancedAdmitted(s, t, 0);
  }

  lemma BalancedRelock(s: State, t: nat)
    requires Enabled(s, Relock(t))
    ensures Balanced(s, Apply(s, Relock(t)), ReleaseDrift(s.core))
  {
    ReleaseDrifts(s.core);
    BalancedAdmitted(s.(core := Release(s.core)), t, 1);
  }

  lemma BalancedTests(s: State, step: Step)
    requires Placed(s) && Enabled(s, step) && (step.TestPopped? || step.TestReceived?)
    ensures Balanced(s, Apply(s, step), 0)
  {
    var it := s.callers[step.t].it;
    assert Carries(s.callers, step.t, it.c);
    BalancedTested(s, step.t, it, if step.TestPopped? then Discarded else DiscardedHandOff);
  }

  lemma BalancedReceive(s: State, t: nat)
    requires Enabled(s, Receive(t))
    ensures Balanced(s, Apply(s, Receive(t)), 0)
  {
    var pc := s.callers[t];
    var it := s.core.chans[pc.ch].buf.value;
    BusySet(s.callers, t, Received(it));
    BufferedSend(s.core.chans, pc.ch, it);
  }

  lemma BalancedWaiting(s: State, step: Step)
    requires Enabled(s, step) && (step.ContextDone? || step.CancelLocked? || step.ReceiveClosed?)
    ensures Balanced(s, Apply(s, step), 0)
  {
    BusyWithout(s.callers, step.t);
    if step.ContextDone? {
      BusySet(s.callers, step.t, Cancelling(s.callers[step.t].key, s.callers[step.t].ch));
    }
  }

  lemma BalancedRedial(s: State, t: nat)
    requires Enabled(s, RelockHandOff(t))
    ensures Balanced(s, Apply(s, RelockHandOff(t)), ReleaseDrift(s.core))
  {
    ReleaseDrifts(s.core);
    BusySet(s.callers, t, Dialing);
    assert Busy(s.callers) + {t} == Busy(s.callers);
  }

  lemma BalancedDialErr(s: State, t: nat)
    requires Enabled(s, DialErr(t))
    ensures Balanced(s, Apply(s, DialErr(t)), 0)
  {
    BusySet(s.callers, t, DialFailed);
    assert Busy(s.callers) + {t} == Busy(s.callers);
  }

  lemma BalancedDialFailed(s: State, t: nat)
    requires Enabled(s, DialFailedLocked(t))
    ensures Balanced(s, Apply(s, DialFailedLocked(t)), ReleaseDrift(s.core))
  {
    ReleaseDrifts(s.core);
    BusyWithout(s.callers, t);
  }

  lemma BalancedDialOk(s: State, t: nat, id: nat)
    requires Placed(s) && Enabled(s, DialOk(t, id))
    ensures Balanced(s, Apply(s, DialOk(t, id)), 0)
  {
    BusyWithout(s.callers, t);
    assert Where(s.hist, id) == Unborn;
  }

  lemma BalancedPut(s: State, id: nat, pick: nat)
    requires Enabled(s, Put(id, false, pick))
    ensures Balanced(s, Apply(s, Put(id, false, pick)), 0)
  {
    BalancedLanded(s.(out := s.out - {id}), id, pick);
  }

  lemma BalancedForcedPut(s: State, id: nat, pick: nat)
    requires Enabled(s, Put(id, true, pick))
    ensures Balanced(s, Apply(s, Put(id, true, pick)), ReleaseDrift(s.core))
  {
    ReleaseDrifts(s.core);
  }

  lemma BalancedOpenerPut(s: State, pick: nat)
    requires Enabled(s, OpenerPut(pick))
    ensures Balanced(s, Apply(s, OpenerPut(pick)), 0)
  {
    BalancedLanded(s.(opener := Ready), s.opener.id, pick);
  }

  lemma BalancedOpenerFailed(s: State)
    requires Enabled(s, OpenerFailedLocked)
    ensures Balanced(s, Apply(s, OpenerFailedLocked), ReleaseDrift(s.core))
  {
    ReleaseDrifts(s.core);
  }

  lemma BalancedCleaner(s: State)
    requires Enabled(s, CleanerSweep)
    ensures Balanced(s, Apply(s, CleanerSweep), 0)
  {
    SweepKeepsMultiset(s.core.free, 0, s.now - s.core.conf.idleTimeout);
  }

  lemma BalancedClose(s: State)
    ensures Balanced(s, Apply(s, ClosePool), if s.core.closed then 0 else |s.core.free|)
  {
    BufferedClose(s.core);
  }

  lemma BalancedRest(s: State, step: Step)
    requires Enabled(s, step)
    requires step.OpenerTake? || step.OpenerOk? || step.OpenerErr? || step.OpenerStop? || step.CleanerClose? || step.Tick?
    ensures Balanced(s, Apply(s, step), 0)
  {
  }

  lemma BalancedCaller(s: State, step: Step)
    requires Placed(s) && Enabled(s, step)
    requires step.GetStart? || step.TestPopped? || step.TestReceived? || step.Receive? || step.ContextDone?
          || step.CancelLocked? || step.ReceiveClosed? || step.DialErr? || step.DialOk?
    ensures Balanced(s, Apply(s, step), 0)
  {
    match step
    case GetStart(t) => BalancedGetStart(s, t);
    case Receive(t) => BalancedReceive(s, t);
    case DialErr(t) => BalancedDialErr(s, t);
    case DialOk(t, id) => BalancedDialOk(s, t, id);
    case TestPopped(_) | TestReceived(_) => BalancedTests(s, step);
    case ContextDone(_) | CancelLocked(_) | ReceiveClosed(_) => BalancedWaiting(s, step);
  }

  lemma BalancedReleases(s: State, step: Step)
    requires Enabled(s, step) && Releases(step)
    ensures Balanced(s, Apply(s, step), ReleaseDrift(s.core))
  {
    match step
    case Relock(t) => BalancedRelock(s, t);
    case RelockHandOff(t) => BalancedRedial(s, t);
    case DialFailedLocked(t) => BalancedDialFailed(s, t);
    case Put(id, _, pick) => BalancedForcedPut(s, id, pick);
    case OpenerFailedLocked => BalancedOpenerFailed(s);
  }

  lemma BalancedNext(s: State, step: Step)
    requires Placed(s)
    ensures Balanced(s, Next(s, step), Drift(s, step))
  {
    if Enabled(s, step) {
      if Releases(step) {
        BalancedReleases(s, step);
      } else if step.Put? {
        BalancedPut(s, step.id, step.pick);
      } else if step.OpenerPut? {
        BalancedOpenerPut(s, step.pick);
      } else if step.CleanerSweep? {
        BalancedCleaner(s);
      } else if step.ClosePool? {
        BalancedClose(s);
      } else if step.OpenerTake? || step.OpenerOk? || step.OpenerErr? || step.OpenerStop? || step.CleanerClose? || step.Tick? {
        BalancedRest(s, step);
      } else {
        BalancedCaller(s, step);
      }
    }
  }

  // ---------- limits, as properties of the locked fields ----------

  /** While the pool is open, a request waits only when nothing is idle and the limit is reached. */
  predicate Conserving(c: Core) {
    !c.closed && c.requests != map[] ==> c.free == [] && 0 < c.conf.active <= c.active
  }

  /** The counter passes the limit by one at most. */
  predicate Bounded(c: Core) {
    0 < c.conf.active ==> c.active <= c.conf.active + 1
  }

  /** Requests are made, and what they are handed can expire before it is received. */
  predicate CanOvershoot(conf: Config) {
    0 < conf.idleTimeout && MayWait(conf)
  }

  /** Otherwise the counter never passes the limit, since no received item is ever discarded. */
  ghost predicate Strict(s: State) {
    0 < s.core.conf.active && !CanOvershoot(s.core.conf) ==>
      && s.core.active <= s.core.conf.active
      && (forall t | t in s.callers :: !s.callers[t].DiscardedHandOff?)
      && (!MayWait(s.core.conf) ==> forall t | t in s.callers :: !s.callers[t].Waiting? && !s.callers[t].Received?)
  }

  /** Whether a Get ever queues for an item. */
  predicate MayQueue(conf: Config) {
    0 < conf.active && MayWait(conf)
  }

  predicate Roomy(c: Core) {
    c.conf.active <= OPENER_CAPACITY || !MayWait(c.conf) ==> c.tokens <= OPENER_CAPACITY
  }

  predicate Limited(c: Core) {
    && Conserving(c)
    && Bounded(c)
    && |c.free| <= MaxIdle(c.conf)
    && (!MayQueue(c.conf) ==> c.requests == map[])
  }

  lemma LimitedAdmit(c: Core)
    requires Limited(c)
    ensures Limited(Admit(c).0)
  {
  }

  lemma LimitedRelease(c: Core)
    requires Limited(c)
    ensures Limited(Release(c))
  {
  }

  /** The one place where the counter grows unchecked starts from a counter that was lowered. */
  lemma LimitedRedial(c: Core)
    requires Limited(c)
    ensures Limited(Redial(c))
  {
  }

  lemma LimitedPut(c: Core, i: Item, pick: nat)
    requires Limited(c) && WellKeyed(c) && ValidPick(c, pick)
    ensures Limited(PutOrDrop(c, i, pick).0)
  {
  }

  lemma LimitedRest(c: Core, key: nat, now: int)
    requires Limited(c)
    ensures Limited(Cancel(c, key)) && Limited(SweepCore(c, now).0) && Limited(Close(c))
  {
    SweepKeepsMultiset(c.free, 0, now - c.conf.idleTimeout);
    assert c.requests == map[] ==> c.requests - {key} == map[];
  }

  lemma LimitedReleases(s: State, step: Step)
    requires Limited(s.core) && Enabled(s, step) && Releases(step)
    ensures Limited(Apply(s, step).core)
  {
    AppliesCoreAfter(s, step);
    LimitedRelease(s.core);
    LimitedAdmit(Release(s.core));
    LimitedRedial(s.core);
  }

  lemma LimitedLands(s: State, step: Step)
    requires Limited(s.core) && Enabled(s, step) && ((step.Put? && !step.force) || step.OpenerPut?)
    ensures Limited(Apply(s, step).core)
  {
    LimitedPut(s.core, Item(s.now, if step.Put? then step.id else s.opener.id), step.pick);
  }

  lemma LimitedNext(s: State, step: Step)
    requires Limited(s.core)
    ensures Limited(Next(s, step).core)
  {
    if Enabled(s, step) {
      if Releases(step) {
        LimitedReleases(s, step);
      } else if step.Put? || step.OpenerPut? {
        LimitedLands(s, step);
      } else if step.GetStart? {
        LimitedAdmit(s.core);
      } else if step.CancelLocked? {
        LimitedRest(s.core, s.callers[step.t].key, s.now);
      } else if step.CleanerSweep? || step.ClosePool? {
        LimitedRest(s.core, 0, s.now);
      }
    }
  }

  lemma StrictAdmitted(s: State, t: nat)
    requires Strict(s) && (t in s.callers ==> !s.callers[t].DiscardedHandOff?)
    ensures Strict(Admitted(s, t))
  {
  }

  lemma StrictReleased(s: State)
    requires Strict(s)
    ensures Strict(s.(core := Release(s.core)))
  {
  }

  lemma StrictGets(s: State, step: Step)
    requires Strict(s) && Enabled(s, step) && (step.GetStart? || step.Relock?)
    ensures Strict(Apply(s, step))
  {
    if step.GetStart? {
      StrictAdmitted(s, step.t);
    } else {
      StrictReleased(s);
      StrictAdmitted(s.(core := Release(s.core)), step.t);
    }
  }

  lemma StrictReleases(s: State, step: Step)
    requires Strict(s) && Enabled(s, step) && Releases(step) && !step.Relock?
    ensures Strict(Apply(s, step))
  {
    StrictReleased(s);
  }

  lemma StrictPuts(s: State, step: Step)
    requires Strict(s) && Enabled(s, step) && ((step.Put? && !step.force) || step.OpenerPut?)
    ensures Strict(Apply(s, step))
  {
  }

  lemma StrictRest(s: State, step: Step)
    requires Strict(s) && Enabled(s, step)
    requires !Releases(step) && !step.GetStart? && !step.Put? && !step.OpenerPut?
    ensures Strict(Apply(s, step))
  {
  }

  lemma StrictNext(s: State, step: Step)
    requires Strict(s)
    ensures Strict(Next(s, step))
  {
    if Enabled(s, step) {
      if step.GetStart? || step.Relock? {
        StrictGets(s, step);
      } else if Releases(step) {
        StrictReleases(s, step);
      } else if step.Put? || step.OpenerPut? {
        StrictPuts(s, step);
      } else {
        StrictRest(s, step);
      }
    }
  }

  lemma TokensRiseOnRelease(s: State, step: Step)
    requires Enabled(s, step) && !Releases(step)
    ensures Apply(s, step).core.tokens <= s.core.tokens && Apply(s, step).core.conf == s.core.conf
  {
  }

  lemma ReleaseQueuesToTheLimit(c: Core, step: Step)
    requires Releases(step)
    ensures var r := CoreAfter(c, step);
            && r.conf == c.conf
            && (c.tokens < r.tokens ==> c.requests != map[])
            && (0 < c.conf.active && c.tokens < r.tokens ==>
                  r.active <= c.conf.active + if step.RelockHandOff? then 1 else 0)
  {
  }

  /** Tokens are only queued up to the limit; a re-dial after a hand-off then takes one slot more. */
  lemma TokensRiseToTheLimit(s: State, step: Step)
    requires Enabled(s, step) && Releases(step)
    ensures var r := Apply(s, step);
            && r.core.conf == s.core.conf
            && (s.core.tokens < r.core.tokens ==> s.core.requests != map[])
            && (0 < s.core.conf.active && s.core.tokens < r.core.tokens ==>
                  r.core.active <= s.core.conf.active + if step.RelockHandOff? then 1 else 0)
  {
    AppliesCoreAfter(s, step);
    ReleaseQueuesToTheLimit(s.core, step);
  }

  lemma RoomyReleases(s: State, step: Step)
    requires Roomy(s.core) && Limited(s.core) && Enabled(s, step) && Releases(step) && Accounted(Apply(s, step))
    ensures Roomy(Apply(s, step).core)
  {
    TokensRiseToTheLimit(s, step);
    if step.RelockHandOff? {
      assert step.t in Busy(Apply(s, step).callers);
    }
  }

  lemma RoomyNext(s: State, step: Step)
    requires Roomy(s.core) && Limited(s.core) && Accounted(Next(s, step))
    ensures Roomy(Next(s, step).core)
  {
    if Enabled(s, step) {
      if Releases(step) {
        RoomyReleases(s, step);
      } else {
        TokensRiseOnRelease(s, step);
      }
    }
  }
}
