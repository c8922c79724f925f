/** What holds in every run of a Slice pool, whatever the interleaving. */
module SliceTheorems {
  import opened Pool
  import opened Lifecycle
  import opened SliceCore
  import opened SliceMachine
  import opened SliceInvariants
  import opened SlicePlacement
  import opened SliceAccounting

  ghost predicate Inv(s: State) {
    Keyed(s) && Placed(s) && Accounted(s) && Limited(s.core) && Strict(s) && Roomy(s.core)
  }

  lemma InvNext(s: State, step: Step)
    requires Inv(s)
    ensures Inv(Next(s, step))
  {
    KeyedNext(s, step);
    PlacedNext(s, step);
    BalancedNext(s, step);
    LimitedNext(s, step);
    StrictNext(s, step);
    RoomyNext(s, step);
  }

  lemma {:induction false} InvRun(s: State, steps: seq<Step>)
    requires Inv(s)
    ensures Inv(Run(s, steps))
  {
    if steps != [] {
      InvRun(s, steps[..|steps| - 1]);
      InvNext(Run(s, steps[..|steps| - 1]), steps[|steps| - 1]);
    }
  }

  lemma InvReached(conf: Config, now: int, steps: seq<Step>)
    ensures Inv(Run(Init(conf, now), steps))
  {
    InvRun(Init(conf, now), steps);
  }

  lemma RunAppend(s: State, a: seq<Step>, step: Step)
    ensures Run(s, a + [step]) == Next(Run(s, a), step)
  {
    assert (a + [step])[..|a|] == a;
  }

  lemma RunOne(s: State, step: Step)
    ensures Run(s, [step]) == Next(s, step)
  {
    RunAppend(s, [], step);
    assert [] + [step] == [step];
  }

  lemma RunPair(s: State, a: Step, b: Step)
    ensures Run(s, [a, b]) == Next(Next(s, a), b)
  {
    RunOne(s, a);
    RunAppend(s, [a], b);
    assert [a] + [b] == [a, b];
  }

  lemma {:induction false} RunConcat(s: State, a: seq<Step>, b: seq<Step>)
    ensures Run(s, a + b) == Run(Run(s, a), b)
  {
    if b == [] {
      assert a + b == a;
    } else {
      var c := b[..|b| - 1];
      assert (a + b)[..|a + b| - 1] == a + c;
      RunConcat(s, a, c);
    }
  }

  lemma ApplyKeepsConf(s: State, step: Step)
    requires Enabled(s, step)
    ensures Apply(s, step).core.conf == s.core.conf
  {
    if Releases(step) || step.GetStart? {
      AppliesCoreAfter(s, step);
    }
  }

  lemma {:induction false} RunKeepsConf(s: State, steps: seq<Step>)
    ensures Run(s, steps).core.conf == s.core.conf
  {
    if steps != [] {
      var (m, step) := (Run(s, steps[..|steps| - 1]), steps[|steps| - 1]);
      RunKeepsConf(s, steps[..|steps| - 1]);
      if Enabled(m, step) {
        ApplyKeepsConf(m, step);
      }
    }
  }

  // ---------- accounting, conservation, bounds ----------

  /** What a run adds up of drift: the idle items at Close, and one for each release that misfills. */
  ghost function TotalDrift(s: State, steps: seq<Step>): nat {
    if steps == [] then 0
    else
      var front := steps[..|steps| - 1];
      TotalDrift(s, front) + Drift(Run(s, front), steps[|steps| - 1])
  }

  /** The counter is what is in use plus the drift, and there is no drift while the pool is open. */
  lemma {:induction false} CounterIsExact(conf: Config, now: int, steps: seq<Step>)
    ensures var s := Run(Init(conf, now), steps);
            && s.core.active == Units(s) + TotalDrift(Init(conf, now), steps)
            && (!s.core.closed ==> TotalDrift(Init(conf, now), steps) == 0)
  {
    if steps != [] {
      var front := steps[..|steps| - 1];
      CounterIsExact(conf, now, front);
      InvReached(conf, now, front);
      BalancedNext(Run(Init(conf, now), front), steps[|steps| - 1]);
    }
  }

  lemma WorkIsConserved(conf: Config, now: int, steps: seq<Step>)
    ensures var c := Run(Init(conf, now), steps).core;
            !c.closed && c.requests != map[] ==> c.free == [] && 0 < conf.active <= c.active
  {
    InvReached(conf, now, steps);
    RunKeepsConf(Init(conf, now), steps);
  }

  lemma OvershootIsOneAtMost(conf: Config, now: int, steps: seq<Step>)
    requires 0 < conf.active
    ensures var active := Run(Init(conf, now), steps).core.active;
            active <= conf.active + if CanOvershoot(conf) then 1 else 0
  {
    InvReached(conf, now, steps);
    RunKeepsConf(Init(conf, now), steps);
  }

  /** No more than `idle` items are ever kept; none where it is negative, two where it is unset. */
  lemma IdleItemsAreFew(conf: Config, now: int, steps: seq<Step>)
    ensures var kept := |Run(Init(conf, now), steps).core.free|;
            kept <= if 0 < conf.idle then conf.idle else if conf.idle < 0 then 0 else DEFAULT_IDLE_ITEMS
  {
    InvReached(conf, now, steps);
    RunKeepsConf(Init(conf, now), steps);
  }

  /** Where a Get never queues there is no request to hand to, to close or to open an item for. */
  lemma NobodyQueues(conf: Config, now: int, steps: seq<Step>)
    requires !MayQueue(conf)
    ensures Run(Init(conf, now), steps).core.requests == map[]
  {
    InvReached(conf, now, steps);
    RunKeepsConf(Init(conf, now), steps);
  }

  /** No send on the opener's channel is made with the channel full, so none blocks under the lock. */
  lemma OpenerChannelHasRoom(conf: Config, now: int, steps: seq<Step>)
    requires conf.active <= OPENER_CAPACITY || !MayWait(conf)
    ensures Run(Init(conf, now), steps).core.tokens <= OPENER_CAPACITY
  {
    InvReached(conf, now, steps);
    RunKeepsConf(Init(conf, now), steps);
  }

  // ---------- exclusive leases ----------

  /** Every resource is in one place at a time, and where its history says. */
  lemma LeasesAreExclusive(conf: Config, now: int, steps: seq<Step>)
    ensures Placed(Run(Init(conf, now), steps))
  {
    InvReached(conf, now, steps);
  }

  /** Over a whole run a resource is closed at most once, last, and put back between two leases. */
  lemma LivesAreLegal(conf: Config, now: int, steps: seq<Step>, id: nat)
    requires id in Run(Init(conf, now), steps).hist
    ensures var p := Run(Init(conf, now), steps).hist[id];
            && (forall i :: 0 <= i < |p| - 1 ==> !p[i].Closed?)
            && (forall i, j :: 0 <= i < j < |p| && p[i].Leased? && p[j].Leased? ==>
                  i + 2 < j && (p[i + 1].Idle? || p[i + 1].HandOff?) && p[j - 1].Caller?)
  {
    InvReached(conf, now, steps);
    var p := Run(Init(conf, now), steps).hist[id];
    ClosedIsFinal(p);
    forall i, j | 0 <= i < j < |p| && p[i].Leased? && p[j].Leased?
      ensures i + 2 < j && (p[i + 1].Idle? || p[i + 1].HandOff?) && p[j - 1].Caller?
    {
      PutBetweenLeases(p, i, j);
    }
  }

  lemma TestedFresh(s: State, step: Step)
    requires Placed(s) && Enabled(s, step) && (step.TestPopped? || step.TestReceived?)
    ensures var it := s.callers[step.t].it;
            var after := Where(Apply(s, step).hist, it.c);
            && Where(s.hist, it.c) == Caller(step.t)
            && after == if Expired(it, s.core.conf.idleTimeout, s.now) then Closed else Leased
  {
    assert Carries(s.callers, step.t, s.callers[step.t].it.c);
  }

  /** An item already in the pool is leased only unexpired, and closed by a Get only expired. */
  lemma ReusedItemsAreFresh(conf: Config, now: int, steps: seq<Step>, step: Step)
    requires Enabled(Run(Init(conf, now), steps), step) && (step.TestPopped? || step.TestReceived?)
    ensures var s := Run(Init(conf, now), steps);
            var it := s.callers[step.t].it;
            var after := Where(Apply(s, step).hist, it.c);
            && Where(s.hist, it.c) == Caller(step.t)
            && (after == Leased <==> !Expired(it, conf.idleTimeout, s.now))
            && (after == Closed <==> Expired(it, conf.idleTimeout, s.now))
  {
    InvReached(conf, now, steps);
    RunKeepsConf(Init(conf, now), steps);
    TestedFresh(Run(Init(conf, now), steps), step);
  }

  // ---------- hand-off protocol ----------

  ghost predicate SendsOn(s: State, step: Step, ch: nat) {
    var (before, after) := (s.core.chans, Next(s, step).core.chans);
    ch < |before| <= |after| && before[ch].buf != after[ch].buf && after[ch].buf.Some?
  }

  ghost predicate Closes(s: State, step: Step, ch: nat) {
    ch < |s.core.chans| && step.ClosePool? && !s.core.closed && ch in s.core.requests.Values
  }

  /** Old channels get no new item and old keys do not become pending again. */
  predicate NothingSent(c: Core, d: Core) {
    && |c.chans| <= |d.chans|
    && (forall ch :: 0 <= ch < |c.chans| && d.chans[ch].buf.Some? ==> d.chans[ch].buf == c.chans[ch].buf)
    && (forall ch :: 0 <= ch < |c.chans| && ch in d.requests ==> ch in c.requests)
  }

  lemma AdmitSendsNothing(c: Core)
    requires WellKeyed(c)
    ensures NothingSent(c, Admit(c).0)
  {
  }

  lemma CoreAfterSendsNothing(c: Core, step: Step)
    requires WellKeyed(c)
    ensures NothingSent(c, CoreAfter(c, step))
  {
    AdmitSendsNothing(c);
    AdmitSendsNothing(Release(c));
  }

  lemma NothingSentOnGet(s: State, step: Step)
    requires WellKeyed(s.core) && Enabled(s, step) && (Releases(step) || step.GetStart?)
    ensures NothingSent(s.core, Apply(s, step).core)
  {
    AppliesCoreAfter(s, step);
    CoreAfterSendsNothing(s.core, step);
  }

  lemma NothingSentElsewhere(s: State, step: Step)
    requires Enabled(s, step) && !Releases(step) && !step.GetStart? && !step.Put? && !step.OpenerPut?
    ensures NothingSent(s.core, Apply(s, step).core)
  {
  }

  /** Putting an item sends it, if at all, on the one channel that then is pending no more. */
  lemma PutSendsOnce(c: Core, i: Item, pick: nat)
    requires WellKeyed(c) && ValidPick(c, pick)
    ensures var (d, l) := PutOrDrop(c, i, pick);
            if l.Sent? then
              && l.ch == pick && pick in c.requests && c.chans[pick] == Chan(None, false) && !c.closed
              && d.requests == c.requests - {pick}
              && d.chans == c.chans[pick := Chan(Some(i), false)]
            else NothingSent(c, d)
  {
  }

  lemma ApplyRequests(s: State, step: Step, ch: nat)
    requires WellKeyed(s.core) && Enabled(s, step) && ch < |s.core.chans|
    ensures ch < |Apply(s, step).core.chans|
    ensures ch !in s.core.requests ==> ch !in Apply(s, step).core.requests
    ensures SendsOn(s, step, ch) ==>
              ch in s.core.requests && s.core.chans[ch] == Chan(None, false) && !s.core.closed
              && ch !in Apply(s, step).core.requests
  {
    if Releases(step) || step.GetStart? {
      NothingSentOnGet(s, step);
    } else if step.Put? {
      PutSendsOnce(s.core, Item(s.now, step.id), step.pick);
    } else if step.OpenerPut? {
      PutSendsOnce(s.core, Item(s.now, s.opener.id), step.pick);
    } else {
      NothingSentElsewhere(s, step);
    }
  }

  /** A send finds its channel pending, open and empty, and leaves it pending no more. */
  lemma SendNeverBlocks(conf: Config, now: int, steps: seq<Step>, step: Step, ch: nat)
    requires SendsOn(Run(Init(conf, now), steps), step, ch)
    ensures var c := Run(Init(conf, now), steps).core;
            ch in c.requests && c.chans[ch] == Chan(None, false) && !c.closed
  {
    InvReached(conf, now, steps);
    var s := Run(Init(conf, now), steps);
    if Enabled(s, step) {
      ApplyRequests(s, step, ch);
    }
  }

  /** Close finds every channel it closes open and empty, so no delivered item is lost to it. */
  lemma CloseFindsChannelsEmpty(conf: Config, now: int, steps: seq<Step>, ch: nat)
    requires Closes(Run(Init(conf, now), steps), ClosePool, ch)
    ensures Run(Init(conf, now), steps).core.chans[ch] == Chan(None, false)
  {
    InvReached(conf, now, steps);
  }

  /** The select of a waiting Get has something to receive. */
  ghost predicate CanGoOn(s: State, t: nat)
    ensures CanGoOn(s, t) <==> Enabled(s, Receive(t)) || Enabled(s, ReceiveClosed(t))
  {
    && t in s.callers && s.callers[t].Waiting? && s.callers[t].ch < |s.core.chans|
    && (s.core.chans[s.callers[t].ch].buf.Some? || s.core.chans[s.callers[t].ch].closed)
  }

  lemma CloseReaches(s: State, t: nat)
    requires Keyed(s) && !s.core.closed && t in s.callers && s.callers[t].Waiting?
    ensures CanGoOn(s.(core := Close(s.core)), t)
  {
    var ch := s.callers[t].ch;
    if ch in s.core.requests {
      assert s.core.requests[ch] in s.core.requests.Values;
    }
  }

  lemma CanGoOnSame(s: State, r: State, t: nat)
    requires CanGoOn(s, t) && r.callers == s.callers && r.core == s.core
    ensures CanGoOn(r, t)
  {
  }

  /** Close lets every Get that waits at that moment go on: its channel holds an item or is closed. */
  lemma CloseReachesEveryWaiter(conf: Config, now: int, steps: seq<Step>, t: nat)
    requires var s := Run(Init(conf, now), steps);
             !s.core.closed && t in s.callers && s.callers[t].Waiting?
    ensures CanGoOn(Apply(Run(Init(conf, now), steps), ClosePool), t)
  {
    var s := Run(Init(conf, now), steps);
    InvReached(conf, now, steps);
    CloseReaches(s, t);
    var r := Apply(s, ClosePool);
    assert r.callers == s.callers && r.core == Close(s.core);
    CanGoOnSame(s.(core := Close(s.core)), r, t);
  }

  lemma {:induction false} SettledRun(s: State, steps: seq<Step>, ch: nat)
    requires Inv(s) && ch < |s.core.chans| && ch !in s.core.requests
    ensures ch < |Run(s, steps).core.chans| && ch !in Run(s, steps).core.requests
  {
    if steps != [] {
      var prefix := steps[..|steps| - 1];
      SettledRun(s, prefix, ch);
      InvRun(s, prefix);
      if Enabled(Run(s, prefix), steps[|steps| - 1]) {
        ApplyRequests(Run(s, prefix), steps[|steps| - 1], ch);
      }
    }
  }

  /** Once a channel was sent on, no later step of any run sends on it or closes it. */
  lemma OneSendPerChannel(conf: Config, now: int, before: seq<Step>, send: Step, after: seq<Step>, later: Step, ch: nat)
    requires SendsOn(Run(Init(conf, now), before), send, ch)
    ensures !SendsOn(Run(Init(conf, now), before + [send] + after), later, ch)
    ensures !Closes(Run(Init(conf, now), before + [send] + after), later, ch)
  {
    var s0 := Init(conf, now);
    InvReached(conf, now, before);
    if Enabled(Run(s0, before), send) {
      ApplyRequests(Run(s0, before), send, ch);
    }
    RunAppend(s0, before, send);
    RunConcat(s0, before + [send], after);
    InvReached(conf, now, before + [send]);
    SettledRun(Run(s0, before + [send]), after, ch);
    InvReached(conf, now, before + [send] + after);
    var last := Run(s0, before + [send] + after);
    if Enabled(last, later) {
      ApplyRequests(last, later, ch);
    }
  }

  // ---------- progress ----------

  /** Items delivered to a Get that had already given up: nobody will ever receive them. */
  function Abandoned(s: State): set<nat> {
    Buffered(s.core.chans) * s.cancelled
  }

  /** Some party holds a slot that it can still hand on, release or turn into an item. */
  predicate SomeoneCanAct(s: State) {
    || s.out != {}
    || Buffered(s.core.chans) - s.cancelled != {}
    || Busy(s.callers) != {}
    || 0 < s.core.tokens
    || OpenerUnits(s.opener) != 0
  }

  /**
   While a request waits in an open pool, somebody can still act for it exactly when fewer slots
   than are counted have been abandoned; in particular whenever no waiting Get was cancelled.
   */
  lemma WaitersDependOnAbandonedSlots(conf: Config, now: int, steps: seq<Step>)
    requires var s := Run(Init(conf, now), steps); !s.core.closed && s.core.requests != map[]
    ensures var s := Run(Init(conf, now), steps);
            && (SomeoneCanAct(s) <==> |Abandoned(s)| < s.core.active)
            && (s.cancelled == {} ==> SomeoneCanAct(s))
  {
    var s := Run(Init(conf, now), steps);
    InvReached(conf, now, steps);
    var b := Buffered(s.core.chans);
    assert b == Abandoned(s) + (b - s.cancelled);
    assert |b| == |Abandoned(s)| + |b - s.cancelled|;
    if s.cancelled == {} {
      assert Abandoned(s) == {};
    }
  }

  /** Every slot is abandoned. */
  ghost predicate Dead(s: State) {
    && !SomeoneCanAct(s)
    && s.core.free == []
    && 0 < s.core.conf.active <= s.core.active
  }

  lemma DeadAdmits(s: State, t: nat)
    requires Dead(s) && t !in s.callers
    ensures Dead(Admitted(s, t))
  {
    BufferedMore(s.core.chans);
    BusyWithout(s.callers, t);
    BusySet(s.callers, t, Waiting(|s.core.chans|, |s.core.chans|));
  }

  /** What is left in the channels belongs to Gets that are gone, so nothing is received. */
  lemma DeadReceives(s: State, step: Step)
    requires Keyed(s) && Dead(s) && Enabled(s, step) && (step.Receive? || step.ReceiveClosed?)
    ensures step.ReceiveClosed? && Dead(Apply(s, step))
  {
    BusyWithout(s.callers, step.t);
    var ch := s.callers[step.t].ch;
    assert ch in Buffered(s.core.chans) ==> ch in Buffered(s.core.chans) - s.cancelled;
  }

  lemma DeadCancels(s: State, step: Step)
    requires Dead(s) && Enabled(s, step) && (step.ContextDone? || step.CancelLocked?)
    ensures Dead(Apply(s, step))
  {
    BusyWithout(s.callers, step.t);
    BusySet(s.callers, step.t, Cancelling(s.callers[step.t].key, s.callers[step.t].ch));
  }

  lemma DeadRest(s: State, step: Step)
    requires Dead(s) && Enabled(s, step)
    requires step.OpenerStop? || step.CleanerSweep? || step.CleanerClose? || step.Tick?
    ensures Dead(Apply(s, step))
  {
  }

  lemma DeadCloses(s: State)
    requires Dead(s)
    ensures Dead(Apply(s, ClosePool))
  {
    BufferedClose(s.core);
  }

  lemma NobodyBusy(callers: map<nat, Pc>)
    ensures Busy(callers) == {} ==> forall t | t in callers :: !IsBusy(callers[t])
  {
    forall t | t in callers && IsBusy(callers[t])
      ensures Busy(callers) != {}
    {
      assert t in Busy(callers);
    }
  }

  /** No other step is left to a pool all of whose slots are abandoned. */
  lemma DeadStops(s: State, step: Step)
    requires Dead(s) && Enabled(s, step)
    ensures step.GetStart? || step.Receive? || step.ReceiveClosed? || step.ContextDone? || step.CancelLocked?
         || step.OpenerStop? || step.CleanerSweep? || step.CleanerClose? || step.ClosePool? || step.Tick?
  {
    NobodyBusy(s.callers);
  }

  lemma {:induction false} DeadForever(s: State, steps: seq<Step>)
    requires Inv(s) && Dead(s)
    ensures Dead(Run(s, steps))
  {
    if steps != [] {
      var (m, step) := (Run(s, steps[..|steps| - 1]), steps[|steps| - 1]);
      InvRun(s, steps[..|steps| - 1]);
      DeadForever(s, steps[..|steps| - 1]);
      if Enabled(m, step) {
        DeadStops(m, step);
        if step.GetStart? {
          DeadAdmits(m, step.t);
        } else if step.Receive? || step.ReceiveClosed? {
          DeadReceives(m, step);
        } else if step.ContextDone? || step.CancelLocked? {
          DeadCancels(m, step);
        } else if step.ClosePool? {
          DeadCloses(m);
        } else {
          DeadRest(m, step);
        }
      }
    }
  }

  /** When nobody can act for a waiting request, no Get of this pool ever returns an item again. */
  lemma AbandonedPoolStaysEmpty(conf: Config, now: int, before: seq<Step>, after: seq<Step>)
    requires var s := Run(Init(conf, now), before);
             !s.core.closed && s.core.requests != map[] && s.core.active <= |Abandoned(s)|
    ensures Run(Init(conf, now), before + after).out == {}
    ensures Busy(Run(Init(conf, now), before + after).callers) == {}
  {
    WaitersDependOnAbandonedSlots(conf, now, before);
    InvReached(conf, now, before);
    DeadForever(Run(Init(conf, now), before), after);
    RunConcat(Init(conf, now), before, after);
  }
}
