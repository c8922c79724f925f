/** Runs that reach the limits of what SliceTheorems promises, and the exact conditions of what fails. */
module SliceWitness {
  import opened Pool
  import opened Lifecycle
  import opened SliceCore
  import opened SliceMachine
  import opened SliceAccounting
  import opened SliceTheorems

  /** `n` resources are leased and nothing else ever happened. */
  ghost predicate Filled(s: State, conf: Config, now: int, n: nat) {
    && s.core == NewCore(conf).(active := n)
    && s.callers == map[] && s.asker == [] && s.cancelled == {} && s.now == now
    && s.opener == Ready
    && (forall id :: id in s.out <==> 0 <= id < n)
    && (forall id :: n <= id ==> id !in s.hist)
  }

  lemma DialAgain(s: State, conf: Config, now: int, n: nat)
    requires (conf.active <= 0 || n < conf.active) && Filled(s, conf, now, n)
    ensures Filled(Next(Next(s, GetStart(1)), DialOk(1, n)), conf, now, n + 1)
  {
    var r := Next(s, GetStart(1));
    assert r == s.(core := s.core.(active := n + 1), callers := map[1 := Dialing]);
    assert Without(r.callers, 1) == map[];
  }

  lemma {:induction false} Fill(conf: Config, now: int, n: nat) returns (steps: seq<Step>)
    requires conf.active <= 0 || n <= conf.active
    ensures Filled(Run(Init(conf, now), steps), conf, now, n)
  {
    steps := [];
    if n != 0 {
      steps := Fill(conf, now, n - 1);
      DialAgain(Run(Init(conf, now), steps), conf, now, n - 1);
      RunPair(Run(Init(conf, now), steps), GetStart(1), DialOk(1, n - 1));
      RunConcat(Init(conf, now), steps, [GetStart(1), DialOk(1, n - 1)]);
      steps := steps + [GetStart(1), DialOk(1, n - 1)];
    }
  }

  /** At the limit with nothing idle, a Get queues under the next key. */
  lemma Queues(s: State, t: nat)
    requires !s.core.closed && s.core.free == [] && MayWait(s.core.conf) && t !in s.callers
    requires 0 < s.core.conf.active <= s.core.active && s.core.nextRequest == |s.core.chans|
    ensures var n := |s.core.chans|;
            Next(s, GetStart(t)) == s.(
              core := s.core.(requests := s.core.requests[n := n], nextRequest := n + 1, chans := s.core.chans + [Chan(None, false)]),
              callers := s.callers[t := Waiting(n, n)], asker := s.asker + [t])
  {
  }

  /** A put resource goes to the only pending request. */
  lemma HandsOver(s: State, id: nat, k: nat)
    requires WellKeyed(s.core) && !s.core.closed && s.core.active <= s.core.conf.active
    requires id in s.out && k in s.core.requests && s.core.requests == map[k := k]
    ensures Next(s, Put(id, false, k)) == s.(
              core := s.core.(requests := map[], chans := s.core.chans[k := s.core.chans[k].(buf := Some(Item(s.now, id)))]),
              out := s.out - {id}, hist := Move(s.hist, id, HandOff(k)))
  {
    assert s.core.requests - {k} == map[];
  }

  /** From a full pool: one caller queues and is handed item 0, then another caller queues. */
  lemma TwoQueue(s: State, conf: Config, now: int)
    requires 0 < conf.active && MayWait(conf) && Filled(s, conf, now, conf.active)
    ensures var r := Run(s, [GetStart(1), Put(0, false, 0)] + [GetStart(2)]);
            && r.core == NewCore(conf).(active := conf.active, requests := map[1 := 1], nextRequest := 2,
                                        chans := [Chan(Some(Item(now, 0)), false), Chan(None, false)])
            && r.callers == map[1 := Waiting(0, 0), 2 := Waiting(1, 1)]
            && r.out == s.out - {0} && r.cancelled == {} && r.now == now
  {
    RunPair(s, GetStart(1), Put(0, false, 0));
    RunAppend(s, [GetStart(1), Put(0, false, 0)], GetStart(2));
    Queues(s, 1);
    HandsOver(Next(s, GetStart(1)), 0, 0);
    Queues(Next(Next(s, GetStart(1)), Put(0, false, 0)), 2);
  }

  lemma ReceivedLate(s: State, conf: Config, now: int)
    requires 0 < conf.idleTimeout && s.core.conf == conf
    requires |s.core.chans| == 2 && s.core.chans[0] == Chan(Some(Item(now, 0)), false)
    requires 1 in s.callers && s.callers[1] == Waiting(0, 0) && now + conf.idleTimeout < s.now
    ensures var r := Next(Next(s, Receive(1)), TestReceived(1));
            && r.core == s.core.(chans := r.core.chans)
            && 1 in r.callers && r.callers[1] == DiscardedHandOff
  {
    var m := Next(s, Receive(1));
    assert m.callers == s.callers[1 := Received(Item(now, 0))];
    assert m.core == s.core.(chans := m.core.chans);
  }

  lemma RedialOvershoots(s: State, conf: Config)
    requires s.core.conf == conf && 0 < conf.active == s.core.active && !s.core.closed
    requires s.core.requests == map[1 := 1] && 1 in s.callers && s.callers[1] == DiscardedHandOff
    ensures Next(s, RelockHandOff(1)).core.active == conf.active + 1
  {
    assert |s.core.requests| == 1;
  }

  /** The hand-off expires before it is received: the refill and the re-dial both count. */
  lemma HandOffExpires(s: State, conf: Config, now: int)
    requires 0 < conf.active && 0 < conf.idleTimeout
    requires s.core == NewCore(conf).(active := conf.active, requests := map[1 := 1], nextRequest := 2,
                                      chans := [Chan(Some(Item(now, 0)), false), Chan(None, false)])
    requires s.callers == map[1 := Waiting(0, 0), 2 := Waiting(1, 1)] && s.now == now
    ensures Run(s, [Tick(conf.idleTimeout + 1), Receive(1)] + [TestReceived(1), RelockHandOff(1)]).core.active == conf.active + 1
  {
    var late := Next(s, Tick(conf.idleTimeout + 1));
    assert late == s.(now := now + conf.idleTimeout + 1);
    ReceivedLate(late, conf, now);
    RedialOvershoots(Next(Next(late, Receive(1)), TestReceived(1)), conf);
    RunPair(s, Tick(conf.idleTimeout + 1), Receive(1));
    RunPair(Next(late, Receive(1)), TestReceived(1), RelockHandOff(1));
    RunConcat(s, [Tick(conf.idleTimeout + 1), Receive(1)], [TestReceived(1), RelockHandOff(1)]);
  }

  lemma OvershootHappens(conf: Config, now: int) returns (steps: seq<Step>)
    requires 0 < conf.active && CanOvershoot(conf)
    ensures Run(Init(conf, now), steps).core.active == conf.active + 1
  {
    var fill := Fill(conf, now, conf.active);
    var queue := [GetStart(1), Put(0, false, 0)] + [GetStart(2)];
    var expire := [Tick(conf.idleTimeout + 1), Receive(1)] + [TestReceived(1), RelockHandOff(1)];
    var s := Run(Init(conf, now), fill);
    TwoQueue(s, conf, now);
    RunConcat(Init(conf, now), fill, queue);
    HandOffExpires(Run(s, queue), conf, now);
    RunConcat(Init(conf, now), fill + queue, expire);
    steps := fill + queue + expire;
  }

  /** The limit holds in every run exactly when hand-offs cannot expire. */
  lemma LimitHoldsExactlyWhen(conf: Config, now: int)
    requires 0 < conf.active
    ensures (forall steps :: Run(Init(conf, now), steps).core.active <= conf.active) <==> !CanOvershoot(conf)
  {
    if CanOvershoot(conf) {
      var steps := OvershootHappens(conf, now);
      assert conf.active < Run(Init(conf, now), steps).core.active;
    } else {
      forall steps
        ensures Run(Init(conf, now), steps).core.active <= conf.active
      {
        OvershootIsOneAtMost(conf, now, steps);
      }
    }
  }

  // ---------- slots that are lost to Gets that gave up ----------

  /** The first `n` resources were each handed to a Get that had just given up. */
  ghost predicate Stranded(s: State, conf: Config, now: int, n: nat) {
    && n == |s.core.chans|
    && s.core == NewCore(conf).(active := conf.active, nextRequest := n, chans := s.core.chans)
    && s.callers == map[] && s.now == now && s.opener == Ready
    && (forall ch :: ch in s.cancelled <==> 0 <= ch < n)
    && (forall id :: id in s.out <==> n <= id < conf.active)
  }

  lemma GivesUp(s: State, t: nat, k: nat)
    requires s.callers == map[t := Waiting(k, k)] && k !in s.core.requests
    ensures Next(Next(s, ContextDone(t)), CancelLocked(t)) == s.(callers := map[], cancelled := s.cancelled + {k})
  {
    var m := Next(s, ContextDone(t));
    assert m == s.(callers := map[t := Cancelling(k, k)], cancelled := s.cancelled + {k});
    assert Without(m.callers, t) == map[];
    assert s.core.requests - {k} == s.core.requests;
  }

  lemma StrandOne(s: State, conf: Config, now: int, n: nat)
    requires MayWait(conf) && n < conf.active && Stranded(s, conf, now, n)
    ensures Stranded(Run(s, [GetStart(1), Put(n, false, n)] + [ContextDone(1), CancelLocked(1)]), conf, now, n + 1)
  {
    RunPair(s, GetStart(1), Put(n, false, n));
    var m := Run(s, [GetStart(1), Put(n, false, n)]);
    RunPair(m, ContextDone(1), CancelLocked(1));
    RunConcat(s, [GetStart(1), Put(n, false, n)], [ContextDone(1), CancelLocked(1)]);
    Queues(s, 1);
    HandsOver(Next(s, GetStart(1)), n, n);
    GivesUp(m, 1, n);
  }

  lemma {:induction false} StrandAll(conf: Config, now: int, n: nat) returns (steps: seq<Step>)
    requires MayWait(conf) && 0 < conf.active && n <= conf.active
    ensures Stranded(Run(Init(conf, now), steps), conf, now, n)
  {
    if n == 0 {
      steps := Fill(conf, now, conf.active);
    } else {
      steps := StrandAll(conf, now, n - 1);
      var more := [GetStart(1), Put(n - 1, false, n - 1)] + [ContextDone(1), CancelLocked(1)];
      StrandOne(Run(Init(conf, now), steps), conf, now, n - 1);
      RunConcat(Init(conf, now), steps, more);
      steps := steps + more;
    }
  }

  /** Every lease is handed to a Get that has just given up; then one more Get queues, and nobody is left to act. */
  lemma CancelledHandOffsAbandonThePool(conf: Config, now: int) returns (steps: seq<Step>)
    requires MayQueue(conf)
    ensures var s := Run(Init(conf, now), steps);
            !s.core.closed && s.core.requests != map[] && !SomeoneCanAct(s)
  {
    var strand := StrandAll(conf, now, conf.active);
    var s := Run(Init(conf, now), strand);
    Queues(s, 1);
    RunAppend(Init(conf, now), strand, GetStart(1));
    steps := strand + [GetStart(1)];
    var r := Run(Init(conf, now), steps);
    assert r.callers == map[1 := Waiting(conf.active, conf.active)];
    assert Busy(r.callers) == {};
    BufferedMore(s.core.chans);
    assert conf.active in r.core.requests;
  }

  /**
   In every run somebody can still act for the requests that wait in an open pool, exactly when the
   configuration lets no Get wait: wherever a Get may queue, the pool can be abandoned.
   */
  lemma NobodyStrandedExactlyWhen(conf: Config, now: int)
    ensures (forall steps ::
               var s := Run(Init(conf, now), steps);
               !s.core.closed && s.core.requests != map[] ==> SomeoneCanAct(s))
            <==> !(0 < conf.active && MayWait(conf))
  {
    if MayQueue(conf) {
      var steps := CancelledHandOffsAbandonThePool(conf, now);
      var s := Run(Init(conf, now), steps);
      assert !s.core.closed && s.core.requests != map[] && !SomeoneCanAct(s);
    } else {
      forall steps
        ensures Run(Init(conf, now), steps).core.requests == map[]
      {
        NobodyQueues(conf, now, steps);
      }
    }
  }

  // ---------- the counter of a closed pool ----------

  lemma CloseForgetsTheIdle(s: State, conf: Config, now: int)
    requires 0 <= conf.idle && Filled(s, conf, now, 1)
    ensures Drift(Next(s, Put(0, false, 0)), ClosePool) == 1
  {
  }

  lemma QueueAndClose(s: State, conf: Config, now: int)
    requires MayQueue(conf) && Filled(s, conf, now, conf.active)
    ensures var r := Next(Next(s, GetStart(1)), ClosePool);
            && r.core == Close(NewCore(conf).(active := conf.active, requests := map[0 := 0], nextRequest := 1, chans := [Chan(None, false)]))
            && 0 in r.out
  {
    Queues(s, 1);
  }

  lemma ReleaseMisfills(s: State, conf: Config)
    requires MayQueue(conf) && 0 in s.out
    requires s.core == Close(NewCore(conf).(active := conf.active, requests := map[0 := 0], nextRequest := 1, chans := [Chan(None, false)]))
    ensures Drift(s, Put(0, true, 0)) == 1
  {
    assert |s.core.requests| == 1;
    assert WellKeyed(s.core) && ValidPick(s.core, 0);
    assert Misfills(s.core);
  }

  /** Close leaves idle items counted, and a release after it counts an open that is never made. */
  lemma CounterDrifts(conf: Config, now: int) returns (steps: seq<Step>)
    requires 0 <= conf.idle || MayQueue(conf)
    ensures var s := Run(Init(conf, now), steps); s.core.active == Units(s) + TotalDrift(Init(conf, now), steps) && Units(s) < s.core.active
  {
    var s0 := Init(conf, now);
    var last: Step;
    if 0 <= conf.idle {
      steps := Fill(conf, now, 1);
      CloseForgetsTheIdle(Run(s0, steps), conf, now);
      RunAppend(s0, steps, Put(0, false, 0));
      steps := steps + [Put(0, false, 0)];
      last := ClosePool;
    } else {
      steps := Fill(conf, now, conf.active);
      QueueAndClose(Run(s0, steps), conf, now);
      ReleaseMisfills(Next(Next(Run(s0, steps), GetStart(1)), ClosePool), conf);
      RunPair(Run(s0, steps), GetStart(1), ClosePool);
      RunConcat(s0, steps, [GetStart(1), ClosePool]);
      steps := steps + [GetStart(1), ClosePool];
      last := Put(0, true, 0);
    }
    assert (steps + [last])[..|steps|] == steps;
    steps := steps + [last];
    CounterIsExact(conf, now, steps);
  }

  lemma {:induction false} NothingDrifts(conf: Config, now: int, steps: seq<Step>)
    requires conf.idle < 0 && !MayQueue(conf)
    ensures TotalDrift(Init(conf, now), steps) == 0
  {
    if steps != [] {
      NothingDrifts(conf, now, steps[..|steps| - 1]);
      NobodyQueues(conf, now, steps[..|steps| - 1]);
      IdleItemsAreFew(conf, now, steps[..|steps| - 1]);
    }
  }

  /** Open or closed, the counter is always right exactly where nothing is kept idle and no Get waits. */
  lemma CounterIsRightExactlyWhen(conf: Config, now: int)
    ensures (forall steps :: var s := Run(Init(conf, now), steps); s.core.active == Units(s))
            <==> conf.idle < 0 && !MayQueue(conf)
  {
    if conf.idle < 0 && !MayQueue(conf) {
      forall steps
        ensures var s := Run(Init(conf, now), steps); s.core.active == Units(s)
      {
        CounterIsExact(conf, now, steps);
        NothingDrifts(conf, now, steps);
      }
    } else {
      var steps := CounterDrifts(conf, now);
      var s := Run(Init(conf, now), steps);
      assert s.core.active != Units(s);
    }
  }

  // ---------- the opener's channel ----------

  /** One Get waits, the first `k` leases were ended by force, and for each of them an open is queued. */
  ghost predicate Congested(s: State, conf: Config, k: nat) {
    && s.core == NewCore(conf).(active := conf.active, requests := map[0 := 0], nextRequest := 1,
                                chans := [Chan(None, false)], tokens := k)
    && (forall id :: id in s.out <==> k <= id < conf.active)
  }

  lemma CongestOne(s: State, conf: Config, k: nat)
    requires k < conf.active && Congested(s, conf, k)
    ensures Congested(Next(s, Put(k, true, 0)), conf, k + 1)
  {
    assert |s.core.requests| == 1;
    assert WellKeyed(s.core);
    var r := Next(s, Put(k, true, 0));
    assert r.core == Release(s.core) && r.out == s.out - {k};
  }

  lemma OneWaits(s: State, conf: Config, now: int)
    requires MayQueue(conf) && Filled(s, conf, now, conf.active)
    ensures Congested(Next(s, GetStart(1)), conf, 0)
  {
    Queues(s, 1);
  }

  lemma CongestFurther(conf: Config, now: int, front: seq<Step>, k: nat) returns (steps: seq<Step>)
    requires k < conf.active && Congested(Run(Init(conf, now), front), conf, k)
    ensures Congested(Run(Init(conf, now), steps), conf, k + 1)
  {
    RunAppend(Init(conf, now), front, Put(k, true, 0));
    CongestOne(Run(Init(conf, now), front), conf, k);
    steps := front + [Put(k, true, 0)];
  }

  lemma CongestFirst(conf: Config, now: int) returns (steps: seq<Step>)
    requires MayQueue(conf)
    ensures Congested(Run(Init(conf, now), steps), conf, 0)
  {
    var fill := Fill(conf, now, conf.active);
    OneWaits(Run(Init(conf, now), fill), conf, now);
    RunAppend(Init(conf, now), fill, GetStart(1));
    steps := fill + [GetStart(1)];
  }

  lemma {:induction false} Congest(conf: Config, now: int, k: nat) returns (steps: seq<Step>)
    requires MayQueue(conf) && k <= conf.active
    ensures Congested(Run(Init(conf, now), steps), conf, k)
  {
    if k == 0 {
      steps := CongestFirst(conf, now);
    } else {
      var front := Congest(conf, now, k - 1);
      steps := CongestFurther(conf, now, front, k - 1);
    }
  }

  /** The opener's channel is never asked to hold more than it can, exactly below its capacity or where no Get waits. */
  lemma OpenerChannelHasRoomExactlyWhen(conf: Config, now: int)
    ensures (forall steps :: Run(Init(conf, now), steps).core.tokens <= OPENER_CAPACITY)
            <==> conf.active <= OPENER_CAPACITY || !MayWait(conf)
  {
    if conf.active <= OPENER_CAPACITY || !MayWait(conf) {
      forall steps
        ensures Run(Init(conf, now), steps).core.tokens <= OPENER_CAPACITY
      {
        OpenerChannelHasRoom(conf, now, steps);
      }
    } else {
      var steps := Congest(conf, now, OPENER_CAPACITY + 1);
      assert OPENER_CAPACITY < Run(Init(conf, now), steps).core.tokens;
    }
  }
}
