/** When what a List pool seems to promise fails: exact conditions, each with the runs that fail. */
module ListWitness {
  import opened Pool
  import opened ListCore
  import opened ListMachine
  import opened ListTheorems

  // ---------- waiting beside an idle item ----------

  /** `n` resources are leased and nothing else ever happened. */
  ghost predicate Filled(s: State, conf: Config, n: nat) {
    && s.core == NewCore(conf).(active := n)
    && s.callers == map[]
    && (forall id :: id in s.out <==> 0 <= id < n)
    && (forall id :: n <= id ==> id !in s.hist)
  }

  lemma DialAgain(s: State, conf: Config, n: nat)
    requires n < conf.active && Filled(s, conf, n)
    ensures Filled(Next(Next(s, GetStart(1)), DialOk(1, n)), conf, n + 1)
  {
    var r := Next(s, GetStart(1));
    assert r == s.(core := s.core.(active := n + 1), callers := map[1 := Dialing]);
    assert Without(r.callers, 1) == map[];
  }

  predicate NoReload(steps: seq<Step>) {
    forall i :: 0 <= i < |steps| ==> !steps[i].Reload?
  }

  lemma {:induction false} Fill(conf: Config, now: int, n: nat) returns (steps: seq<Step>)
    requires n <= conf.active
    ensures Filled(Run(Init(conf, now), steps), conf, n) && NoReload(steps)
  {
    steps := [];
    if n != 0 {
      steps := Fill(conf, now, n - 1);
      DialAgain(Run(Init(conf, now), steps), conf, n - 1);
      RunPair(Run(Init(conf, now), steps), GetStart(1), DialOk(1, n - 1));
      RunConcat(Init(conf, now), steps, [GetStart(1), DialOk(1, n - 1)]);
      steps := steps + [GetStart(1), DialOk(1, n - 1)];
    }
  }

  /** A Get sits in its select although the pool is open and holds an idle item. */
  ghost predicate MissesItem(s: State) {
    !s.core.closed && s.core.idles != [] && exists t :: t in s.callers && s.callers[t].Parked?
  }

  lemma PutUnheard(s: State, conf: Config)
    requires 0 < conf.active && 0 < conf.idle && s.callers == map[1 := Parking] && 0 in s.out
    requires s.core == NewCore(conf).(active := conf.active)
    ensures MissesItem(Next(Next(s, Put(0, false, 0)), EnterSelect(1)))
  {
    var m := Next(s, Put(0, false, 0));
    assert m.callers == map[1 := Parking] && m.core.idles == [Item(s.now, 0)] && !m.core.closed;
    assert 1 in Next(m, EnterSelect(1)).callers;
  }

  /** The signal of a Put that falls between unlocking and the select is lost. */
  lemma SignalIsMissed(conf: Config, now: int) returns (steps: seq<Step>)
    requires 0 < conf.active && 0 < conf.idle && MayWait(conf)
    ensures NoReload(steps) && MissesItem(Run(Init(conf, now), steps))
  {
    var fill := Fill(conf, now, conf.active);
    var s := Run(Init(conf, now), fill);
    var r := Next(s, GetStart(1));
    assert r == s.(callers := map[1 := Parking]);
    PutUnheard(r, conf);
    RunAppend(Init(conf, now), fill, GetStart(1));
    RunPair(r, Put(0, false, 0), EnterSelect(1));
    RunConcat(Init(conf, now), fill + [GetStart(1)], [Put(0, false, 0), EnterSelect(1)]);
    steps := fill + [GetStart(1)] + [Put(0, false, 0), EnterSelect(1)];
  }

  predicate Waits(pc: Pc) {
    pc.Parking? || pc.Parked? || pc.Woken?
  }

  /** Without a positive limit nobody waits or nothing is ever opened; without a positive idle limit nothing is kept. */
  ghost predicate Calm(s: State) {
    && (!MayWait(s.core.conf) || s.core.conf.active == 0 ==> forall t | t in s.callers :: !Waits(s.callers[t]))
    && (s.core.conf.active < 0 ==>
          s.core.active == 0 && s.core.idles == [] && s.out == {} && forall t | t in s.callers :: Waits(s.callers[t]))
    && (s.core.conf.idle <= 0 ==> s.core.idles == [])
  }

  lemma CalmAdmitted(s: State, t: nat, rem: nat)
    requires Calm(s)
    ensures Calm(Admitted(s, t, rem))
  {
  }

  lemma CalmReleased(s: State, pick: nat)
    requires Calm(s) && 0 <= s.core.conf.active
    ensures Calm(s.(core := Release(s.core), callers := Signal(s.callers, pick)))
  {
  }

  lemma CalmGets(s: State, step: Step)
    requires Calm(s) && Enabled(s, step) && (step.GetStart? || step.Relock? || step.WakeLocked?)
    ensures Calm(Apply(s, step))
  {
    if step.Relock? {
      CalmReleased(s, step.pick);
      CalmAdmitted(s.(core := Release(s.core), callers := Signal(s.callers, step.pick)), step.t, s.callers[step.t].rem);
    } else {
      CalmAdmitted(s, step.t, |s.core.idles|);
    }
  }

  lemma CalmRest(s: State, step: Step)
    requires Calm(s) && Enabled(s, step) && !step.GetStart? && !step.Relock? && !step.WakeLocked? && !step.Reload?
    ensures Calm(Apply(s, step))
  {
  }

  lemma {:induction false} CalmRun(conf: Config, now: int, steps: seq<Step>)
    requires NoReload(steps)
    ensures Calm(Run(Init(conf, now), steps)) && Run(Init(conf, now), steps).core.conf == conf
  {
    if steps != [] {
      var (front, step) := (steps[..|steps| - 1], steps[|steps| - 1]);
      CalmRun(conf, now, front);
      var s := Run(Init(conf, now), front);
      NextRespectsLimits(s, step);
      if Enabled(s, step) {
        if step.GetStart? || step.Relock? || step.WakeLocked? {
          CalmGets(s, step);
        } else {
          CalmRest(s, step);
        }
      }
    }
  }

  /**
   While nothing is reloaded, no Get ever waits beside an idle item exactly when the limits keep Gets
   from waiting or items from being kept: wherever both can happen, a signal can be missed.
   */
  lemma NobodyMissesAnItemExactlyWhen(conf: Config, now: int)
    ensures (forall steps | NoReload(steps) :: !MissesItem(Run(Init(conf, now), steps)))
            <==> !(0 < conf.active && 0 < conf.idle && MayWait(conf))
  {
    if 0 < conf.active && 0 < conf.idle && MayWait(conf) {
      var steps := SignalIsMissed(conf, now);
      assert NoReload(steps) && MissesItem(Run(Init(conf, now), steps));
    } else {
      forall steps | NoReload(steps)
        ensures !MissesItem(Run(Init(conf, now), steps))
      {
        CalmRun(conf, now, steps);
      }
    }
  }

  // ---------- the cleaner that stops ----------

  lemma DoneNext(s: State, step: Step)
    requires s.cleaner.Done?
    ensures Next(s, step).cleaner.Done?
  {
  }

  /** A cleaner that has stopped never starts again, whatever is reloaded. */
  lemma {:induction false} DoneIsFinal(s: State, steps: seq<Step>)
    requires s.cleaner.Done?
    ensures Run(s, steps).cleaner.Done?
  {
    if steps != [] {
      DoneIsFinal(s, steps[..|steps| - 1]);
      DoneNext(Run(s, steps[..|steps| - 1]), steps[|steps| - 1]);
    }
  }

  /** The configurations that a run goes through. */
  function Configs(first: Config, steps: seq<Step>): (cs: seq<Config>)
    ensures cs != [] && cs[0] == first
  {
    if steps == [] then [first]
    else
      var cs := Configs(first, steps[..|steps| - 1]);
      var step := steps[|steps| - 1];
      if step.Reload? then cs + [step.conf] else cs
  }

  predicate On(c: Config) {
    0 < c.idleTimeout
  }

  predicate EverOn(cs: seq<Config>) {
    exists i :: 0 <= i < |cs| && On(cs[i])
  }

  /** The idle timeout was on and a later configuration turned it off. */
  predicate SwitchedOff(cs: seq<Config>) {
    exists i, j :: 0 <= i < j < |cs| && On(cs[i]) && !On(cs[j])
  }

  lemma MoreConfigs(cs: seq<Config>, c: Config)
    ensures EverOn(cs + [c]) <==> EverOn(cs) || On(c)
    ensures SwitchedOff(cs + [c]) <==> SwitchedOff(cs) || (EverOn(cs) && !On(c))
  {
    var ds := cs + [c];
    forall i | 0 <= i < |cs| && On(cs[i])
      ensures EverOn(ds) && (!On(c) ==> SwitchedOff(ds))
    {
      assert On(ds[i]) && ds[|cs|] == c;
    }
    if On(c) {
      assert On(ds[|cs|]);
    }
    forall i, j | 0 <= i < j < |cs| && On(cs[i]) && !On(cs[j])
      ensures SwitchedOff(ds)
    {
      assert On(ds[i]) && !On(ds[j]);
    }
  }

  /** The cleaner exists once the timeout was ever on, and has stopped only after it was switched off. */
  ghost predicate CleanerOnRecord(s: State, cs: seq<Config>) {
    && cs != [] && s.core.conf == cs[|cs| - 1]
    && (s.cleaner.Absent? <==> !EverOn(cs))
    && (!s.core.closed && s.cleaner.Done? ==> SwitchedOff(cs))
  }

  lemma CleanerOnRecordNext(s: State, step: Step, cs: seq<Config>)
    requires CleanerOnRecord(s, cs)
    ensures CleanerOnRecord(Next(s, step), if step.Reload? then cs + [step.conf] else cs)
  {
    NextRespectsLimits(s, step);
    if step.Reload? {
      MoreConfigs(cs, step.conf);
    } else if step.CleanerStart? && Enabled(s, step) {
      if i :| 0 <= i < |cs| && On(cs[i]) {
        assert !On(s.core.conf) ==> On(cs[i]) && !On(cs[|cs| - 1]) && i != |cs| - 1;
      }
    }
  }

  lemma {:induction false} CleanerIsOnRecord(conf: Config, now: int, steps: seq<Step>)
    ensures CleanerOnRecord(Run(Init(conf, now), steps), Configs(conf, steps))
  {
    if steps != [] {
      CleanerIsOnRecord(conf, now, steps[..|steps| - 1]);
      CleanerOnRecordNext(Run(Init(conf, now), steps[..|steps| - 1]), steps[|steps| - 1], Configs(conf, steps[..|steps| - 1]));
    } else {
      assert [conf][0] == conf;
    }
  }

  /** The pool was only ever reloaded, and its cleaner is where that leads it. */
  ghost predicate OnlyReloaded(s: State, cs: seq<Config>) {
    && cs != [] && s.core == NewCore(cs[|cs| - 1]) && s.callers == map[]
    && s.cleaner == if SwitchedOff(cs) then Done else if EverOn(cs) then Resting else Absent
  }

  lemma ConfigsAppend(first: Config, front: seq<Step>, step: Step)
    ensures Configs(first, front + [step]) == Configs(first, front) + if step.Reload? then [step.conf] else []
  {
    assert (front + [step])[..|front|] == front;
  }

  lemma ReloadStep(s: State, c: Config)
    ensures var r := Next(s, Reload(c));
            && r.core == s.core.(conf := c) && r.callers == s.callers
            && r.cleaner == if s.cleaner.Absent? && On(c) then Resting else s.cleaner
  {
  }

  lemma LookStep(s: State)
    requires s.cleaner.Resting? && s.callers == map[] && !On(s.core.conf)
    ensures Next(s, CleanerStart(0)) == s.(cleaner := Done)
  {
  }

  /** One more Reload; where it switches the timeout off, the cleaner looks, if it has not yet. */
  lemma ReloadOnce(first: Config, now: int, front: seq<Step>, c: Config) returns (steps: seq<Step>)
    requires OnlyReloaded(Run(Init(first, now), front), Configs(first, front))
    ensures Configs(first, steps) == Configs(first, front) + [c]
    ensures OnlyReloaded(Run(Init(first, now), steps), Configs(first, steps))
  {
    var s := Run(Init(first, now), front);
    var r := Next(s, Reload(c));
    steps := front + [Reload(c)];
    RunAppend(Init(first, now), front, Reload(c));
    ConfigsAppend(first, front, Reload(c));
    MoreConfigs(Configs(first, front), c);
    ReloadStep(s, c);
    if r.cleaner.Resting? && !On(c) {
      RunAppend(Init(first, now), steps, CleanerStart(0));
      ConfigsAppend(first, steps, CleanerStart(0));
      LookStep(r);
      steps := steps + [CleanerStart(0)];
    }
  }

  lemma {:induction false} ReloadOnly(now: int, cs: seq<Config>) returns (steps: seq<Step>)
    requires cs != []
    ensures Configs(cs[0], steps) == cs
    ensures OnlyReloaded(Run(Init(cs[0], now), steps), cs)
  {
    var n := |cs| - 1;
    if n == 0 {
      steps := [];
      assert cs == [cs[0]];
    } else {
      assert cs[..n] + [cs[n]] == cs;
      steps := ReloadOnly(now, cs[..n]);
      steps := ReloadOnce(cs[0], now, steps, cs[n]);
    }
  }

  /**
   For each sequence of configurations, the first and those reloaded: in every run with these the
   cleaner of the open pool lives on, exactly when the idle timeout is never switched off after it was on.
   */
  lemma CleanerLivesExactlyWhen(cs: seq<Config>, now: int)
    requires cs != []
    ensures (forall steps | Configs(cs[0], steps) == cs ::
               var s := Run(Init(cs[0], now), steps); !s.core.closed ==> !s.cleaner.Done?)
            <==> !SwitchedOff(cs)
  {
    if SwitchedOff(cs) {
      var steps := ReloadOnly(now, cs);
      var s := Run(Init(cs[0], now), steps);
      assert Configs(cs[0], steps) == cs && !s.core.closed && s.cleaner.Done?;
    } else {
      forall steps | Configs(cs[0], steps) == cs
        ensures var s := Run(Init(cs[0], now), steps); !s.core.closed ==> !s.cleaner.Done?
      {
        CleanerIsOnRecord(cs[0], now, steps);
      }
    }
  }

  /** Off, one look of the cleaner, on again: the pool is as configured at first and is never swept again. */
  lemma CleanerIsLost(conf: Config, now: int, later: seq<Step>)
    requires 0 < conf.idleTimeout
    ensures var s := Run(Init(conf, now), [Reload(conf.(idleTimeout := 0)), CleanerStart(0)] + [Reload(conf)]);
            s.core == NewCore(conf) && Run(s, later).cleaner.Done?
  {
    var off := conf.(idleTimeout := 0);
    RunPair(Init(conf, now), Reload(off), CleanerStart(0));
    RunAppend(Init(conf, now), [Reload(off), CleanerStart(0)], Reload(conf));
    DoneIsFinal(Run(Init(conf, now), [Reload(off), CleanerStart(0)] + [Reload(conf)]), later);
  }
}
