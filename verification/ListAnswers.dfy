/** What each step of a List pool does for the one who takes it, and what a few steps in a row come to. */
module ListAnswers {
  import opened Pool
  import opened Lifecycle
  import opened ListCore
  import opened ListSpec
  import opened ListMachine
  import opened ListTheorems

  // ---------- Get ----------

  /**
   How a locked region of Get ends for caller `t` with `turns` left: with the most recently put item,
   or refused by a closed pool, with leave to dial, on its way to wait, or refused at the limit.
   */
  ghost predicate Answered(s: State, r: State, t: nat, turns: nat) {
    var c := s.core;
    if 0 < turns && c.idles != [] then
      r == s.(core := c.(idles := c.idles[1..]), callers := s.callers[t := Popped(c.idles[0], turns - 1)],
              hist := Move(s.hist, c.idles[0].c, Caller(t)))
    else if c.closed then
      r == s.(callers := s.callers - {t})
    else if c.conf.active == 0 || c.active < c.conf.active then
      r == s.(core := c.(active := c.active + 1), callers := s.callers[t := Dialing])
    else if MayWait(c.conf) then
      r == s.(callers := s.callers[t := Parking])
    else
      r == s.(callers := s.callers - {t})
  }

  /** A Get, or one that was woken, may look at every idle item; one that closed an item goes on with its turns. */
  lemma GetAnswers(s: State, step: Step)
    requires Enabled(s, step) && (step.GetStart? || step.WakeLocked? || step.Relock?)
    ensures var r := Next(s, step);
            match step
            case GetStart(t) => if s.core.closed then r == s else Answered(s, r, t, |s.core.idles|)
            case WakeLocked(t) => Answered(s, r, t, |s.core.idles|)
            case Relock(t, pick) =>
              var m := s.(core := s.core.(active := s.core.active - 1), callers := Signal(s.callers, pick));
              Answered(m, r, t, s.callers[t].rem)
  {
    if step.GetStart? {
      assert s.callers - {step.t} == s.callers;
    }
  }

  /** The age test: an expired item is closed and its slot kept for now, any other goes to the client. */
  lemma TestAnswers(s: State, t: nat)
    requires Enabled(s, TestPopped(t))
    ensures var pc := s.callers[t];
            Next(s, TestPopped(t)) ==
              if Expired(pc.it, s.core.conf.idleTimeout, s.now)
              then s.(callers := s.callers[t := Discarded(pc.rem)], hist := Move(s.hist, pc.it.c, Closed))
              else s.(callers := s.callers - {t}, out := s.out + {pc.it.c}, hist := Move(s.hist, pc.it.c, Leased))
  {
  }

  /** A resource that New returns is the client's; after an error of New the slot is given up. */
  lemma DialAnswers(s: State, step: Step)
    requires Enabled(s, step) && (step.DialOk? || step.DialErr? || step.DialFailedLocked?)
    ensures var (t, r) := (step.t, Next(s, step));
            && (step.DialOk? ==> r.out == s.out + {step.id} && Where(r.hist, step.id) == Leased && r.callers == s.callers - {t})
            && (!step.DialOk? ==> r.out == s.out && r.hist == s.hist)
            && (step.DialErr? ==> r.callers == s.callers[t := DialFailed])
            && (step.DialFailedLocked? ==> t !in r.callers)
            && r.core == s.core.(active := s.core.active - if step.DialFailedLocked? then 1 else 0)
            && r == s.(core := r.core, callers := r.callers, out := r.out, hist := r.hist)
  {
  }

  // ---------- signals ----------

  function ParkedSet(callers: map<nat, Pc>): set<nat> {
    set t | t in callers && callers[t].Parked?
  }

  function WokenSet(callers: map<nat, Pc>): set<nat> {
    set t | t in callers && callers[t].Woken?
  }

  /** The steps that signal: each Put, each release, and each item that the cleaner takes. */
  ghost predicate Signals(s: State, step: Step) {
    && Enabled(s, step)
    && (step.Put? || step.Relock? || step.DialFailedLocked?
        || ((step.CleanerStart? || step.CleanerResume?) && Next(s, step).core.active < s.core.active))
  }

  ghost predicate WokeOne(s: State, r: State, pick: nat) {
    var (parked, woken) := (ParkedSet(s.callers), WokenSet(s.callers));
    if parked == {} then ParkedSet(r.callers) == {} && WokenSet(r.callers) == woken
    else pick in parked && ParkedSet(r.callers) == parked - {pick} && WokenSet(r.callers) == woken + {pick}
  }

  lemma SignalWakesOne(s: State, r: State, pick: nat)
    requires ValidWake(s.callers, pick) && r.callers == Signal(s.callers, pick)
    ensures WokeOne(s, r, pick)
    ensures forall t | t in s.callers && !s.callers[t].Parked? :: t in r.callers && r.callers[t] == s.callers[t]
    ensures r.callers.Keys == s.callers.Keys
  {
    var parked := ParkedSet(s.callers);
    if parked == {} {
      assert pick in s.callers && s.callers[pick] == Parked ==> pick in parked;
    } else {
      var t :| t in parked;
      assert t in s.callers && s.callers[t] == Parked;
      assert pick in parked && r.callers == s.callers[pick := Woken];
      assert ParkedSet(r.callers) == parked - {pick};
      assert WokenSet(r.callers) == WokenSet(s.callers) + {pick};
    }
  }

  /** Moving one caller that is neither parked nor woken to such a place wakes nobody. */
  lemma OthersStayAsleep(s: State, m: State, r: State, pick: nat, t: nat)
    requires WokeOne(s, m, pick) && t in m.callers && !m.callers[t].Parked? && !m.callers[t].Woken?
    requires r.callers - {t} == m.callers - {t}
    requires t in r.callers ==> !r.callers[t].Parked? && !r.callers[t].Woken?
    ensures WokeOne(s, r, pick)
  {
    forall u
      ensures u != t ==> (u in r.callers <==> u in m.callers) && (u in m.callers ==> r.callers[u] == m.callers[u])
    {
      if u != t {
        assert u in r.callers <==> u in r.callers - {t};
        assert u in m.callers <==> u in m.callers - {t};
        if u in m.callers {
          assert (r.callers - {t})[u] == (m.callers - {t})[u];
        }
      }
    }
    assert ParkedSet(r.callers) == ParkedSet(m.callers) && WokenSet(r.callers) == WokenSet(m.callers);
  }

  lemma CallerWakesOne(s: State, step: Step)
    requires Enabled(s, step) && (step.Relock? || step.DialFailedLocked?)
    ensures WokeOne(s, Next(s, step), step.pick)
  {
    var m := s.(callers := Signal(s.callers, step.pick));
    SignalWakesOne(s, m, step.pick);
    OthersStayAsleep(s, m, Next(s, step), step.pick, step.t);
  }

  /** With somebody parked a signal wakes exactly one caller, and without it wakes nobody; no other step wakes. */
  lemma SignalReachesOne(s: State, step: Step)
    ensures if Signals(s, step) then WokeOne(s, Next(s, step), step.pick)
            else WokenSet(Next(s, step).callers) <= WokenSet(s.callers)
  {
    if Signals(s, step) {
      if step.Relock? || step.DialFailedLocked? {
        CallerWakesOne(s, step);
      } else {
        SignalWakesOne(s, Next(s, step), step.pick);
      }
    }
  }

  /** A Get enters its select, gives up there, or leaves it when it is woken, and nothing else changes. */
  lemma WaitAnswers(s: State, t: nat)
    ensures At(s, t, Parking) ==> Next(s, EnterSelect(t)) == s.(callers := s.callers[t := Parked])
    ensures At(s, t, Parked) ==> Next(s, ContextDone(t)) == s.(callers := s.callers - {t})
  {
  }

  // ---------- Put ----------

  /** The fields and the histories after a Put, the signal apart. */
  ghost predicate PutBack(s: State, r: State, id: nat, force: bool) {
    && r == s.(core := r.core, hist := r.hist)
    && exists victim ::
         && TakenIn(s.core, Item(s.now, id), force, r.core, victim)
         && (victim.Some? ==> Where(r.hist, victim.value) == Closed)
         && (victim != Some(id) ==> Where(r.hist, id) == Idle)
  }

  lemma ReturnedIsPutBack(s: State, id: nat, force: bool)
    ensures PutBack(s, Returned(s, id, force), id, force)
  {
    var (r, victim) := PutItem(s.core, Item(s.now, id), force);
    PutTakesIn(s.core, Item(s.now, id), force, r, victim);
  }

  /** A Put ends the lease, signals, and keeps the item at the front or closes it or the oldest one. */
  lemma PutAnswers(s: State, id: nat, force: bool, pick: nat)
    requires Enabled(s, Put(id, force, pick))
    ensures PutBack(s.(out := s.out - {id}, callers := Signal(s.callers, pick)), Next(s, Put(id, force, pick)), id, force)
  {
    ReturnedIsPutBack(s.(out := s.out - {id}, callers := Signal(s.callers, pick)), id, force);
  }

  // ---------- the cleaner, Close and Reload ----------

  /**
   The cleaner stops for good at a closed pool or a timeout that is off.  Otherwise it takes the back
   item if it has expired, while it has turns, and rests when there is none.
   */
  lemma CleanerAnswers(s: State, step: Step)
    requires Enabled(s, step) && (step.CleanerStart? || step.CleanerResume?)
    ensures var r := Next(s, step);
            var turns := if step.CleanerStart? then |s.core.idles| else s.cleaner.rem;
            if step.CleanerStart? && (s.core.closed || s.core.conf.idleTimeout <= 0) then r == s.(cleaner := Done)
            else exists gone ::
              && Cleaned(s.core, s.now, if turns == 0 then CleanBack(s.core, s.now).0 else r.core, gone)
              && r.cleaner == (if 0 < turns && gone.Some? then ClosingOne(gone.value, turns - 1) else Resting)
              && (turns == 0 || gone.None? ==> r.core == s.core && r.hist == s.hist && r.callers == s.callers)
              && r.sweep == (if step.CleanerStart? then Sweep(s.now, s.core.conf.idleTimeout, true) else s.sweep)
              && r.out == s.out && r.draining == s.draining && r.now == s.now
  {
    var (r, gone) := CleanBack(s.core, s.now);
    CleanBackCleans(s.core, s.now, r, gone);
  }

  lemma CleanerCloses(s: State)
    requires Enabled(s, CleanerClose)
    ensures Next(s, CleanerClose) == s.(cleaner := Between(s.cleaner.rem), hist := Move(s.hist, s.cleaner.it.c, Closed))
  {
  }

  /** Close takes all idle items with their slots, and closes them one after the other when it has unlocked. */
  lemma CloseAnswers(s: State)
    ensures var r := Next(s, ClosePool);
            && r == s.(core := s.core.(closed := true, idles := [], active := s.core.active - |s.core.idles|),
                       draining := s.draining + s.core.idles, hist := r.hist)
            && forall id :: Where(r.hist, id) == if id in Ids(s.core.idles) then Draining else Where(s.hist, id)
    ensures s.draining != [] ==>
              Next(s, DrainOne) == s.(draining := s.draining[1..], hist := Move(s.hist, s.draining[0].c, Closed))
  {
  }

  lemma TimePasses(s: State, d: nat)
    ensures Next(s, Tick(d)) == s.(now := s.now + d)
  {
  }

  /** Reload changes the configuration and may start the cleaner; it takes nothing from anybody. */
  lemma ReloadAnswers(s: State, conf: Config)
    ensures var r := Next(s, Reload(conf));
            && r == s.(core := s.core.(conf := conf), cleaner := r.cleaner, sweep := r.sweep)
            && r.cleaner == (if s.cleaner.Absent? && 0 < conf.idleTimeout then Resting else s.cleaner)
            && r.sweep == s.sweep.(steady := s.sweep.steady && 0 < conf.idleTimeout <= s.sweep.timeout)
  {
  }

  // ---------- round trips ----------

  /** While there is room for it, what is put the next Get is given, whatever else is idle, and the pool is as before. */
  lemma PutThenGet(s: State, id: nat, pick: nat, t: nat)
    requires !s.core.closed && |s.core.idles| < s.core.conf.idle
    requires Enabled(s, Put(id, false, pick)) && t !in s.callers
    ensures var r := Run(s, [Put(id, false, pick), GetStart(t)] + [TestPopped(t)]);
            r.core == s.core && r.out == s.out && r.callers == Signal(s.callers, pick) && Where(r.hist, id) == Leased
  {
    RunPair(s, Put(id, false, pick), GetStart(t));
    RunAppend(s, [Put(id, false, pick), GetStart(t)], TestPopped(t));
    PutAnswers(s, id, false, pick);
    var m := Next(s, Put(id, false, pick));
    assert m.core.idles[0] == Item(s.now, id) && m.core.idles[1..] == s.core.idles;
    GetAnswers(m, GetStart(t));
    TestAnswers(Next(m, GetStart(t)), t);
  }

  lemma PutWakes(s: State, id: nat, t: nat)
    requires !s.core.closed && 0 < s.core.conf.idle && id in s.out && At(s, t, Parked)
    ensures var m := Next(s, Put(id, false, t));
            && m.callers == s.callers[t := Woken] && m.now == s.now
            && m.core.idles != [] && m.core.idles[0] == Item(s.now, id)
  {
    PutAnswers(s, id, false, t);
  }

  lemma WokenTakesTheFront(m: State, t: nat)
    requires At(m, t, Woken) && m.core.idles != [] && m.core.idles[0].createdAt == m.now
    ensures var (r, id) := (Next(Next(m, WakeLocked(t)), TestPopped(t)), m.core.idles[0].c);
            r.callers == m.callers - {t} && r.out == m.out + {id} && Where(r.hist, id) == Leased
  {
    GetAnswers(m, WakeLocked(t));
    var w := Next(m, WakeLocked(t));
    assert w.callers == m.callers[t := Popped(m.core.idles[0], |m.core.idles| - 1)];
    TestAnswers(w, t);
  }

  /** A Get in its select that a Put wakes can take what was put, even where that evicts the oldest item. */
  lemma PutServesParked(s: State, id: nat, t: nat)
    requires !s.core.closed && 0 < s.core.conf.idle && id in s.out && At(s, t, Parked)
    ensures var r := Run(s, [Put(id, false, t), WakeLocked(t)] + [TestPopped(t)]);
            r.callers == s.callers - {t} && id in r.out && Where(r.hist, id) == Leased
  {
    RunPair(s, Put(id, false, t), WakeLocked(t));
    RunAppend(s, [Put(id, false, t), WakeLocked(t)], TestPopped(t));
    PutWakes(s, id, t);
    WokenTakesTheFront(Next(s, Put(id, false, t)), t);
  }

  /** A forced Put passes its slot on: the Get that it wakes may dial. */
  lemma ForcedPutServesParked(s: State, id: nat, t: nat)
    requires !s.core.closed && s.core.idles == [] && s.core.active <= s.core.conf.active && id in s.out && At(s, t, Parked)
    ensures var r := Run(s, [Put(id, true, t), WakeLocked(t)]);
            r.callers == s.callers[t := Dialing] && r.core == s.core && r.out == s.out - {id}
  {
    RunPair(s, Put(id, true, t), WakeLocked(t));
    PutAnswers(s, id, true, t);
    var m := Next(s, Put(id, true, t));
    assert m.callers == s.callers[t := Woken];
    GetAnswers(m, WakeLocked(t));
  }
}
