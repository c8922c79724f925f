/** What holds in every run of a List pool, whatever the interleaving. */
module ListTheorems {
  import opened Pool
  import opened Lifecycle
  import opened ListCore
  import opened ListMachine
  import opened ListInvariants

  ghost predicate Inv(s: State) {
    Ordered(s) && Placed(s) && Accounted(s) && SweepOnCourse(s)
  }

  // ---------- the cleaner ----------

  /** Expired when the current sweep began. */
  predicate Stale(w: Sweep, x: Item) {
    Expired(x, w.timeout, w.since)
  }

  /** While a sweep goes on, items stale since it began are among the `rem` at the back. */
  ghost predicate StaleAtBack(s: State, rem: nat) {
    forall i :: 0 <= i < |s.core.idles| - rem ==> !Stale(s.sweep, s.core.idles[i])
  }

  function TurnsLeft(c: CleanerPc): nat {
    if c.ClosingOne? || c.Between? then c.rem else 0
  }

  predicate Sweeps(c: CleanerPc) {
    c.ClosingOne? || c.Between?
  }

  ghost predicate SweepOnCourse(s: State) {
    && s.sweep.since <= s.now
    && (Sweeps(s.cleaner) && s.sweep.steady ==>
          && 0 < s.core.conf.idleTimeout <= s.sweep.timeout
          && StaleAtBack(s, TurnsLeft(s.cleaner)))
  }

  /** Nothing that another caller does puts a stale item out of the sweep's reach. */
  lemma ReshapedKeepsStaleAtBack(a: seq<Item>, b: seq<Item>, w: Sweep, now: int, rem: nat)
    requires Reshaped(a, b, now) && w.since <= now
    requires forall i :: 0 <= i < |a| - rem ==> !Stale(w, a[i])
    ensures forall i :: 0 <= i < |b| - rem ==> !Stale(w, b[i])
  {
    forall i | 0 <= i < |b| - rem
      ensures !Stale(w, b[i])
    {
      if b != [] && (b[1..] == a || (a != [] && b[1..] == a[..|a| - 1])) && b[0].createdAt == now && 0 < i {
        assert b[i] == b[1..][i - 1];
      }
    }
  }

  /** One turn: either an item leaves and one turn fewer is left, or nothing stale remains. */
  lemma TurnOnCourse(s: State, rem: nat, pick: nat)
    requires Ordered(s) && s.sweep.since <= s.now
    requires s.sweep.steady ==> 0 < s.core.conf.idleTimeout <= s.sweep.timeout && StaleAtBack(s, rem)
    ensures var r := Swept(s, rem, pick);
            && SweepOnCourse(r) && r.sweep == s.sweep
            && (r.cleaner.Resting? && s.sweep.steady ==> StaleAtBack(r, 0))
  {
    var last := |s.core.idles| - 1;
    if s.core.idles != [] && !Expired(s.core.idles[last], s.core.conf.idleTimeout, s.now) {
      assert forall i :: 0 <= i < last ==> s.core.idles[last].createdAt <= s.core.idles[i].createdAt;
    }
  }

  lemma CleanerOnCourse(s: State, step: Step)
    requires Ordered(s) && SweepOnCourse(s) && Enabled(s, step)
    requires step.CleanerStart? || step.CleanerClose? || step.CleanerResume?
    ensures SweepOnCourse(Apply(s, step))
  {
    if step.CleanerResume? {
      TurnOnCourse(s, s.cleaner.rem, step.pick);
    } else if step.CleanerStart? && !s.core.closed && 0 < s.core.conf.idleTimeout {
      TurnOnCourse(s.(sweep := Sweep(s.now, s.core.conf.idleTimeout, true)), |s.core.idles|, step.pick);
    }
  }

  lemma OthersKeepCleaner(s: State, step: Step)
    requires Enabled(s, step) && !step.CleanerStart? && !step.CleanerClose? && !step.CleanerResume?
    ensures var r := Apply(s, step);
            && (Sweeps(r.cleaner) ==> r.cleaner == s.cleaner)
            && r.sweep.since == s.sweep.since && r.sweep.timeout == s.sweep.timeout
            && (r.sweep.steady ==> s.sweep.steady)
            && (r.sweep.steady && step.Reload? ==> 0 < r.core.conf.idleTimeout <= s.sweep.timeout)
            && (!step.Reload? ==> r.core.conf == s.core.conf)
  {
  }

  lemma SweepOnCourseNext(s: State, step: Step)
    requires Ordered(s) && SweepOnCourse(s)
    ensures SweepOnCourse(Next(s, step))
  {
    if Enabled(s, step) {
      if step.CleanerStart? || step.CleanerClose? || step.CleanerResume? {
        CleanerOnCourse(s, step);
      } else {
        var r := Apply(s, step);
        ApplyMoves(s, step);
        OthersKeepCleaner(s, step);
        if Sweeps(r.cleaner) && r.sweep.steady {
          ReshapedKeepsStaleAtBack(s.core.idles, r.core.idles, s.sweep, s.now, TurnsLeft(s.cleaner));
        }
      }
    }
  }

  // ---------- runs ----------

  lemma InvNext(s: State, step: Step)
    requires Inv(s)
    ensures Inv(Next(s, step))
  {
    OrderedNext(s, step);
    PlacedNext(s, step);
    AccountedNext(s, step);
    SweepOnCourseNext(s, step);
  }

  lemma {:induction false} InvRun(s: State, steps: seq<Step>)
    requires Inv(s)
    ensures Inv(Run(s, steps))
  {
    if steps != [] {
      InvRun(s, steps[..|steps| - 1]);
      InvNext(Run(s, steps[..|steps| - 1]), steps[|steps| - 1]);
    }
  }

  lemma InvReached(conf: Config, now: int, steps: seq<Step>)
    ensures Inv(Run(Init(conf, now), steps))
  {
    InvRun(Init(conf, now), steps);
  }

  lemma RunAppend(s: State, a: seq<Step>, step: Step)
    ensures Run(s, a + [step]) == Next(Run(s, a), step)
  {
    assert (a + [step])[..|a|] == a;
  }

  lemma RunPair(s: State, a: Step, b: Step)
    ensures Run(s, [a, b]) == Next(Next(s, a), b)
  {
    RunAppend(s, [], a);
    RunAppend(s, [a], b);
    assert [] + [a] == [a] && [a] + [b] == [a, b];
  }

  lemma {:induction false} RunConcat(s: State, a: seq<Step>, b: seq<Step>)
    ensures Run(s, a + b) == Run(Run(s, a), b)
  {
    if b == [] {
      assert a + b == a;
    } else {
      var c := b[..|b| - 1];
      assert (a + b)[..|a + b| - 1] == a + c;
      RunConcat(s, a, c);
    }
  }

  /** The counter is exact at all times, closed or reloaded or not. */
  lemma CounterIsExact(conf: Config, now: int, steps: seq<Step>)
    ensures var s := Run(Init(conf, now), steps);
            && s.core.active == |s.core.idles| + |s.out| + |Busy(s.callers)|
            && (s.core.closed ==> s.core.active == |s.out| + |Busy(s.callers)|)
            && (s.core.closed && s.out == {} && s.callers == map[] ==> s.core.active == 0)
  {
    InvReached(conf, now, steps);
    var s := Run(Init(conf, now), steps);
    assert s.callers == map[] ==> Busy(s.callers) == {};
  }

  lemma LeasesAreExclusive(conf: Config, now: int, steps: seq<Step>)
    ensures Placed(Run(Init(conf, now), steps))
  {
    InvReached(conf, now, steps);
  }

  /** Over a whole run a resource is closed at most once, last, and put back between two leases. */
  lemma LivesAreLegal(conf: Config, now: int, steps: seq<Step>, id: nat)
    requires id in Run(Init(conf, now), steps).hist
    ensures var p := Run(Init(conf, now), steps).hist[id];
            && (forall i :: 0 <= i < |p| - 1 ==> !p[i].Closed?)
            && (forall i, j :: 0 <= i < j < |p| && p[i].Leased? && p[j].Leased? ==>
                  i + 2 < j && (p[i + 1].Idle? || p[i + 1].HandOff?) && p[j - 1].Caller?)
  {
    InvReached(conf, now, steps);
    var p := Run(Init(conf, now), steps).hist[id];
    ClosedIsFinal(p);
    forall i, j | 0 <= i < j < |p| && p[i].Leased? && p[j].Leased?
      ensures i + 2 < j && (p[i + 1].Idle? || p[i + 1].HandOff?) && p[j - 1].Caller?
    {
      PutBetweenLeases(p, i, j);
    }
  }

  /** An item already in the pool is leased only unexpired, and closed by a Get only expired. */
  lemma ReusedItemsAreFresh(conf: Config, now: int, steps: seq<Step>, t: nat)
    requires Enabled(Run(Init(conf, now), steps), TestPopped(t))
    ensures var s := Run(Init(conf, now), steps);
            var it := s.callers[t].it;
            var after := Where(Apply(s, TestPopped(t)).hist, it.c);
            && Where(s.hist, it.c) == Caller(t)
            && (after == Leased <==> !Expired(it, s.core.conf.idleTimeout, s.now))
            && (after == Closed <==> Expired(it, s.core.conf.idleTimeout, s.now))
  {
    InvReached(conf, now, steps);
    var s := Run(Init(conf, now), steps);
    assert Carries(s.callers, t, s.callers[t].it.c);
  }

  lemma NewestFirst(conf: Config, now: int, steps: seq<Step>)
    ensures Sorted(Run(Init(conf, now), steps).core.idles)
  {
    InvReached(conf, now, steps);
  }

  /**
   Whenever a sweep ends, whatever went on while it had the lock released, no idle item is left that
   was expired when it began, provided no Reload loosened or switched off the timeout meanwhile.
   */
  lemma SweepLeavesNothingStale(conf: Config, now: int, steps: seq<Step>, step: Step)
    requires var s := Run(Init(conf, now), steps);
             && Enabled(s, step) && (step.CleanerStart? || step.CleanerResume?)
             && Apply(s, step).cleaner.Resting? && Apply(s, step).sweep.steady
    ensures var r := Apply(Run(Init(conf, now), steps), step);
            forall x | x in r.core.idles :: !Expired(x, r.sweep.timeout, r.sweep.since)
  {
    InvReached(conf, now, steps);
    var s := Run(Init(conf, now), steps);
    if step.CleanerResume? {
      TurnOnCourse(s, s.cleaner.rem, step.pick);
    } else {
      TurnOnCourse(s.(sweep := Sweep(s.now, s.core.conf.idleTimeout, true)), |s.core.idles|, step.pick);
    }
  }

  // ---------- after Close ----------

  /** Gets that popped an item or began to dial, and so may still return a lease. */
  function Granting(callers: map<nat, Pc>): set<nat> {
    set t | t in callers && (callers[t].Popped? || callers[t].Dialing?)
  }

  /** Nothing is granted in `r` that was not granted already in `s`. */
  ghost predicate NothingGranted(s: State, r: State) {
    && r.core.closed && r.core.idles == []
    && Granting(r.callers) <= Granting(s.callers)
    && |r.out| + |Granting(r.callers)| <= |s.out| + |Granting(s.callers)|
  }

  lemma ClosedAdmits(s: State, t: nat, rem: nat)
    requires s.core.closed && s.core.idles == []
    ensures Admitted(s, t, rem) == s.(callers := Without(s.callers, t))
  {
  }

  lemma ClosedGets(s: State, step: Step)
    requires s.core.closed && s.core.idles == [] && Enabled(s, step)
    requires step.GetStart? || step.Relock? || step.WakeLocked?
    ensures NothingGranted(s, Apply(s, step))
  {
    var r := Apply(s, step);
    if step.Relock? {
      ClosedAdmits(s.(core := Release(s.core), callers := Signal(s.callers, step.pick)), step.t, s.callers[step.t].rem);
    } else if step.WakeLocked? {
      ClosedAdmits(s, step.t, 0);
    }
    assert Granting(r.callers) == Granting(s.callers);
  }

  lemma ClosedLeases(s: State, step: Step)
    requires s.core.closed && s.core.idles == [] && Enabled(s, step) && (step.TestPopped? || step.DialOk?)
    ensures NothingGranted(s, Apply(s, step))
  {
    var r := Apply(s, step);
    assert Granting(r.callers) == Granting(s.callers) - {step.t};
    assert step.t in Granting(s.callers);
  }

  lemma ClosedCallers(s: State, step: Step)
    requires s.core.closed && s.core.idles == [] && Enabled(s, step)
    requires step.EnterSelect? || step.ContextDone? || step.DialErr? || step.DialFailedLocked?
    ensures NothingGranted(s, Apply(s, step))
  {
    assert Granting(Apply(s, step).callers) == Granting(s.callers) - {step.t};
  }

  lemma ClosedRest(s: State, step: Step)
    requires s.core.closed && s.core.idles == [] && Enabled(s, step)
    requires step.Put? || step.CleanerStart? || step.CleanerClose? || step.CleanerResume? || step.ClosePool?
          || step.DrainOne? || step.Reload? || step.Tick?
    ensures NothingGranted(s, Apply(s, step))
  {
    assert Granting(Apply(s, step).callers) == Granting(s.callers);
  }

  lemma ClosedNext(s: State, step: Step)
    requires s.core.closed && s.core.idles == []
    ensures NothingGranted(s, Next(s, step))
  {
    if Enabled(s, step) {
      if step.GetStart? || step.Relock? || step.WakeLocked? {
        ClosedGets(s, step);
      } else if step.TestPopped? || step.DialOk? {
        ClosedLeases(s, step);
      } else if step.EnterSelect? || step.ContextDone? || step.DialErr? || step.DialFailedLocked? {
        ClosedCallers(s, step);
      } else {
        ClosedRest(s, step);
      }
    }
  }

  /**
   From Close on the idle list stays empty, only Gets that had left the lock with a grant may succeed,
   and whatever is put is closed, forced or not.
   */
  lemma {:induction false} ClosedForever(s: State, steps: seq<Step>)
    requires Inv(s) && s.core.closed
    ensures NothingGranted(s, Run(s, steps))
    ensures forall put: Step | put.Put? && Enabled(Run(s, steps), put) ::
              Where(Next(Run(s, steps), put).hist, put.id) == Closed
  {
    if steps != [] {
      ClosedForever(s, steps[..|steps| - 1]);
      ClosedNext(Run(s, steps[..|steps| - 1]), steps[|steps| - 1]);
    }
  }

  // ---------- limits across Reload ----------

  /** The largest limits among the first configuration and those of the Reloads in `steps`. */
  function MaxActive(first: Config, steps: seq<Step>): int {
    if steps == [] then first.active
    else
      var m := MaxActive(first, steps[..|steps| - 1]);
      var step := steps[|steps| - 1];
      if step.Reload? && m < step.conf.active then step.conf.active else m
  }

  function MaxIdle(first: Config, steps: seq<Step>): int {
    if steps == [] then first.idle
    else
      var m := MaxIdle(first, steps[..|steps| - 1]);
      var step := steps[|steps| - 1];
      if step.Reload? && m < step.conf.idle then step.conf.idle else m
  }

  predicate PositiveLimits(first: Config, steps: seq<Step>) {
    0 < first.active && forall i :: 0 <= i < |steps| && steps[i].Reload? ==> 0 < steps[i].conf.active
  }

  lemma AdmitRespectsLimits(c: Core, rem: nat)
    ensures var r := Admit(c, rem).0;
            && r.conf == c.conf && |r.idles| <= |c.idles|
            && (0 < c.conf.active <= c.active ==> r.active <= c.active)
            && (0 < c.conf.active ==> r.active <= c.active || r.active <= c.conf.active)
  {
  }

  /** No step raises the counter at its limit or the idle list past the idle limit in force. */
  ghost predicate Respects(c: Core, r: Core) {
    && (0 < c.conf.active <= c.active ==> r.active <= c.active)
    && (0 < c.conf.active ==> r.active <= c.active || r.active <= c.conf.active)
    && (|r.idles| <= |c.idles| || |r.idles| <= c.conf.idle)
  }

  lemma GetRespectsLimits(s: State, step: Step)
    requires Enabled(s, step) && (step.GetStart? || step.Relock? || step.WakeLocked?)
    ensures Respects(s.core, Apply(s, step).core) && Apply(s, step).core.conf == s.core.conf
  {
    if step.Relock? {
      AdmitRespectsLimits(Release(s.core), s.callers[step.t].rem);
    } else {
      AdmitRespectsLimits(s.core, |s.core.idles|);
    }
  }

  lemma OthersRespectLimits(s: State, step: Step)
    requires Enabled(s, step) && !step.GetStart? && !step.Relock? && !step.WakeLocked?
    ensures Respects(s.core, Apply(s, step).core)
    ensures Apply(s, step).core.conf == if step.Reload? then step.conf else s.core.conf
  {
  }

  lemma NextRespectsLimits(s: State, step: Step)
    ensures Respects(s.core, Next(s, step).core)
    ensures Next(s, step).core.conf == if step.Reload? then step.conf else s.core.conf
  {
    if Enabled(s, step) {
      if step.GetStart? || step.Relock? || step.WakeLocked? {
        GetRespectsLimits(s, step);
      } else {
        OthersRespectLimits(s, step);
      }
    }
  }

  /** Over a run with positive limits both stay within the largest limits ever configured. */
  lemma {:induction false} LimitsAcrossReload(conf: Config, now: int, steps: seq<Step>)
    requires PositiveLimits(conf, steps)
    ensures var c := Run(Init(conf, now), steps).core;
            && 0 < c.conf.active <= MaxActive(conf, steps) && c.conf.idle <= MaxIdle(conf, steps)
            && c.active <= MaxActive(conf, steps)
            && |c.idles| <= (if MaxIdle(conf, steps) < 0 then 0 else MaxIdle(conf, steps))
  {
    if steps != [] {
      var (front, step) := (steps[..|steps| - 1], steps[|steps| - 1]);
      LimitsAcrossReload(conf, now, front);
      NextRespectsLimits(Run(Init(conf, now), front), step);
    }
  }
}
