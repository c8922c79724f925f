/** What every step of a List pool keeps. */
module ListInvariants {
  import opened Pool
  import opened Lifecycle
  import opened ListCore
  import opened ListMachine

  // ---------- order ----------

  /** The idle items are newest first, none is from the future, and a closed pool has none. */
  predicate Ordered(s: State) {
    && Sorted(s.core.idles)
    && (forall x | x in s.core.idles :: x.createdAt <= s.now)
    && (s.core.closed ==> s.core.idles == [])
  }

  /** Every locked region shortens the list at its ends or puts one item of the present at its front. */
  predicate Reshaped(a: seq<Item>, b: seq<Item>, now: int) {
    || b == a
    || b == []
    || (a != [] && (b == a[1..] || b == a[..|a| - 1]))
    || (b != [] && b[0].createdAt == now && (b[1..] == a || (a != [] && b[1..] == a[..|a| - 1])))
  }

  lemma ReshapedSorted(a: seq<Item>, b: seq<Item>, now: int)
    requires Sorted(a) && Reshaped(a, b, now) && forall x | x in a :: x.createdAt <= now
    ensures Sorted(b) && forall x | x in b :: x.createdAt <= now
  {
    if b != [] && b[1..] == a {
      assert b == [b[0]] + a;
    } else if b != [] && a != [] && b[1..] == a[..|a| - 1] {
      assert b == [b[0]] + a[..|a| - 1];
    }
  }

  lemma AdmitReshapes(c: Core, rem: nat, now: int)
    ensures Reshaped(c.idles, Admit(c, rem).0.idles, now)
    ensures Admit(c, rem).0 == c.(idles := Admit(c, rem).0.idles, active := Admit(c, rem).0.active)
  {
  }

  lemma PutReshapes(c: Core, i: Item, force: bool)
    ensures Reshaped(c.idles, PutItem(c, i, force).0.idles, i.createdAt)
    ensures c.closed ==> PutItem(c, i, force).0.idles == c.idles
    ensures PutItem(c, i, force).0 == c.(idles := PutItem(c, i, force).0.idles, active := PutItem(c, i, force).0.active)
  {
    if !c.closed && !force {
      var pushed := [i] + c.idles;
      assert pushed[1..] == c.idles;
      if c.idles != [] {
        assert pushed[..|pushed| - 1][1..] == c.idles[..|c.idles| - 1];
      }
    }
  }

  /** What a step may do to the idle list, and to the fields that only Close and Reload change. */
  ghost predicate ListMove(s: State, r: State) {
    && Reshaped(s.core.idles, r.core.idles, s.now)
    && (s.core.closed ==> r.core.closed && (s.core.idles == [] ==> r.core.idles == []))
    && (!s.core.closed && r.core.closed ==> r.core.idles == [])
    && s.now <= r.now
  }

  lemma GetMoves(s: State, step: Step)
    requires Enabled(s, step) && (step.GetStart? || step.Relock? || step.WakeLocked? || step.TestPopped?)
    ensures ListMove(s, Apply(s, step))
  {
    if step.GetStart? || step.WakeLocked? {
      AdmitReshapes(s.core, |s.core.idles|, s.now);
    } else if step.Relock? {
      AdmitReshapes(Release(s.core), s.callers[step.t].rem, s.now);
    }
  }

  lemma PutMoves(s: State, step: Step)
    requires Enabled(s, step) && step.Put?
    ensures ListMove(s, Apply(s, step))
  {
    PutReshapes(s.core, Item(s.now, step.id), step.force);
  }

  lemma RestMoves(s: State, step: Step)
    requires Enabled(s, step)
    requires !step.GetStart? && !step.Relock? && !step.WakeLocked? && !step.TestPopped? && !step.Put?
    ensures ListMove(s, Apply(s, step))
  {
  }

  lemma ApplyMoves(s: State, step: Step)
    requires Enabled(s, step)
    ensures ListMove(s, Apply(s, step))
  {
    if step.GetStart? || step.Relock? || step.WakeLocked? || step.TestPopped? {
      GetMoves(s, step);
    } else if step.Put? {
      PutMoves(s, step);
    } else {
      RestMoves(s, step);
    }
  }

  lemma OrderedNext(s: State, step: Step)
    requires Ordered(s)
    ensures Ordered(Next(s, step))
  {
    if Enabled(s, step) {
      ApplyMoves(s, step);
      ReshapedSorted(s.core.idles, Apply(s, step).core.idles, s.now);
    }
  }

  // ---------- placement ----------

  predicate Carries(callers: map<nat, Pc>, t: nat, id: nat) {
    t in callers && callers[t].Popped? && callers[t].it.c == id
  }

  predicate Cleans(c: CleanerPc, id: nat) {
    c.ClosingOne? && c.it.c == id
  }

  /** What the pool really holds and what the histories say agree, in both directions. */
  ghost predicate Placed(s: State) {
    && Legal(s.hist)
    && Distinct(s.core.idles)
    && Distinct(s.draining)
    && (forall id :: id in Ids(s.core.idles) <==> Where(s.hist, id) == Idle)
    && (forall id :: id in s.out <==> Where(s.hist, id) == Leased)
    && (forall id :: id in Ids(s.draining) <==> Where(s.hist, id) == Draining)
    && (forall id :: Cleans(s.cleaner, id) <==> Where(s.hist, id) == Sweeping)
    && (forall id, t :: Carries(s.callers, t, id) <==> Where(s.hist, id) == Caller(t))
    && (forall id :: Where(s.hist, id) != Opener)
    && (forall id, ch :: Where(s.hist, id) != HandOff(ch))
  }

  lemma CarriesSet(callers: map<nat, Pc>, t: nat, pc: Pc)
    ensures var (r, w) := (callers[t := pc], Without(callers, t));
            && (forall id :: Carries(r, t, id) <==> pc.Popped? && pc.it.c == id)
            && (forall id :: !Carries(w, t, id))
            && (forall u, id :: u != t ==> (Carries(r, u, id) <==> Carries(callers, u, id)))
            && (forall u, id :: u != t ==> (Carries(w, u, id) <==> Carries(callers, u, id)))
  {
  }

  lemma SignalCarries(callers: map<nat, Pc>, pick: nat)
    ensures forall u, id :: Carries(Signal(callers, pick), u, id) <==> Carries(callers, u, id)
    ensures forall t :: t in Signal(callers, pick) <==> t in callers
    ensures forall t :: t in callers && callers[t] != Parked ==> Signal(callers, pick)[t] == callers[t]
  {
  }

  lemma PlacedSignal(s: State, active: int, pick: nat)
    requires Placed(s)
    ensures Placed(s.(core := s.core.(active := active), callers := Signal(s.callers, pick)))
  {
    SignalCarries(s.callers, pick);
  }

  lemma FrontIds(s: seq<Item>)
    requires s != [] && Distinct(s)
    ensures Distinct(s[1..]) && Ids(s[1..]) == Ids(s) - {s[0].c} && s[0].c in Ids(s)
  {
    IdsRemove(s, 0);
    assert s[..0] + s[1..] == s[1..];
  }

  lemma PlacedReuse(s: State, t: nat, rem: nat)
    requires Placed(s) && (t in s.callers ==> !s.callers[t].Popped?) && 0 < rem && s.core.idles != []
    ensures Placed(Admitted(s, t, rem))
  {
    var it := s.core.idles[0];
    FrontIds(s.core.idles);
    CarriesSet(s.callers, t, Popped(it, rem - 1));
    MoveLegal(s.hist, it.c, Caller(t));
  }

  ghost predicate SameHoldings(s: State, r: State) {
    && r.hist == s.hist && r.core.idles == s.core.idles && r.out == s.out && r.draining == s.draining
    && (forall id :: Cleans(r.cleaner, id) <==> Cleans(s.cleaner, id))
    && (forall t, id :: Carries(r.callers, t, id) <==> Carries(s.callers, t, id))
  }

  lemma PlacedSame(s: State, r: State)
    requires Placed(s) && SameHoldings(s, r)
    ensures Placed(r)
  {
  }

  lemma AdmittedHoldings(s: State, t: nat, rem: nat)
    requires (t in s.callers ==> !s.callers[t].Popped?) && !Admit(s.core, rem).1.Reuse?
    ensures SameHoldings(s, Admitted(s, t, rem))
  {
    CarriesSet(s.callers, t, if Admit(s.core, rem).1.Dial? then Dialing else Parking);
  }

  lemma PlacedAdmitted(s: State, t: nat, rem: nat)
    requires Placed(s) && (t in s.callers ==> !s.callers[t].Popped?)
    ensures Placed(Admitted(s, t, rem))
  {
    if 0 < rem && s.core.idles != [] {
      PlacedReuse(s, t, rem);
    } else {
      AdmittedHoldings(s, t, rem);
      PlacedSame(s, Admitted(s, t, rem));
    }
  }

  lemma PlacedDiscarded(s: State, t: nat, it: Item, rem: nat)
    requires Placed(s) && Carries(s.callers, t, it.c)
    ensures Placed(s.(callers := s.callers[t := Discarded(rem)], hist := Move(s.hist, it.c, Closed)))
  {
    CarriesSet(s.callers, t, Discarded(rem));
    MoveLegal(s.hist, it.c, Closed);
  }

  lemma PlacedLeased(s: State, t: nat, it: Item)
    requires Placed(s) && Carries(s.callers, t, it.c)
    ensures Placed(s.(callers := Without(s.callers, t), out := s.out + {it.c}, hist := Move(s.hist, it.c, Leased)))
  {
    CarriesSet(s.callers, t, Parking);
    MoveLegal(s.hist, it.c, Leased);
  }

  lemma PlacedTested(s: State, t: nat, it: Item, rem: nat)
    requires Placed(s) && Carries(s.callers, t, it.c)
    ensures Placed(Tested(s, t, it, rem))
  {
    PlacedDiscarded(s, t, it, rem);
    PlacedLeased(s, t, it);
  }

  lemma PlacedDialOk(s: State, t: nat, id: nat)
    requires Placed(s) && Enabled(s, DialOk(t, id))
    ensures Placed(Apply(s, DialOk(t, id)))
  {
    CarriesSet(s.callers, t, Dialing);
    BirthLegal(s.hist, id, t);
  }

  /** The first half of Put: the lease ends and the item is the front one of the idle list. */
  lemma PlacedPushed(s: State, id: nat)
    requires Placed(s) && id in s.out
    ensures var it := Item(s.now, id);
            Placed(s.(core := s.core.(idles := [it] + s.core.idles), out := s.out - {id}, hist := Move(s.hist, id, Idle)))
  {
    MoveLegal(s.hist, id, Idle);
    IdsAppend(s.core.idles, Item(s.now, id));
    forall i | 0 <= i < |s.core.idles|
      ensures s.core.idles[i].c != id
    {
      assert s.core.idles[i].c in Ids(s.core.idles);
    }
  }

  /** The back item leaves the idle list for `to`. */
  lemma PlacedPopBack(s: State, r: State, to: Place)
    requires Placed(s) && s.core.idles != [] && (to.Closed? || to.Sweeping?)
    requires var last := |s.core.idles| - 1;
             && r.core.idles == s.core.idles[..last]
             && r.hist == Move(s.hist, s.core.idles[last].c, to)
             && r.out == s.out && r.draining == s.draining && r.callers == s.callers
             && (if to.Closed? then r.cleaner == s.cleaner
                 else !s.cleaner.ClosingOne? && r.cleaner.ClosingOne? && r.cleaner.it == s.core.idles[last])
    ensures Placed(r)
  {
    var last := |s.core.idles| - 1;
    IdsRemove(s.core.idles, last);
    assert s.core.idles[..last] + s.core.idles[last + 1..] == s.core.idles[..last];
    assert s.core.idles[last].c in Ids(s.core.idles);
    MoveLegal(s.hist, s.core.idles[last].c, to);
  }

  lemma PlacedReturned(s: State, id: nat, force: bool)
    requires Placed(s) && id in s.out
    ensures Placed(Returned(s.(out := s.out - {id}), id, force))
  {
    if s.core.closed || force {
      MoveLegal(s.hist, id, Closed);
    } else {
      PlacedPushed(s, id);
      var it := Item(s.now, id);
      var m := s.(core := s.core.(idles := [it] + s.core.idles), out := s.out - {id}, hist := Move(s.hist, id, Idle));
      var r := Returned(s.(out := s.out - {id}), id, force);
      if PutItem(s.core, it, force).1.Some? {
        PlacedPopBack(m, r, Closed);
      } else {
        assert r == m;
      }
    }
  }

  lemma PlacedSwept(s: State, rem: nat, pick: nat)
    requires Placed(s) && !s.cleaner.ClosingOne?
    ensures Placed(Swept(s, rem, pick))
  {
    if 0 < rem && CleanBack(s.core, s.now).1.Some? {
      PlacedSignal(s, s.core.active, pick);
      PlacedPopBack(s.(callers := Signal(s.callers, pick)), Swept(s, rem, pick), Sweeping);
    }
  }

  lemma PlacedCleaner(s: State, step: Step)
    requires Placed(s) && Enabled(s, step) && (step.CleanerStart? || step.CleanerClose? || step.CleanerResume?)
    ensures Placed(Apply(s, step))
  {
    if step.CleanerClose? {
      assert Cleans(s.cleaner, s.cleaner.it.c);
      MoveLegal(s.hist, s.cleaner.it.c, Closed);
    } else if step.CleanerResume? {
      PlacedSwept(s, s.cleaner.rem, step.pick);
    } else if !s.core.closed && 0 < s.core.conf.idleTimeout {
      PlacedSwept(s.(sweep := Sweep(s.now, s.core.conf.idleTimeout, true)), |s.core.idles|, step.pick);
    }
  }

  lemma PlacedClose(s: State)
    requires Placed(s)
    ensures Placed(Apply(s, ClosePool))
  {
    var all := s.draining + s.core.idles;
    MoveAllLegal(s.hist, Ids(s.core.idles), Draining);
    assert Ids(all) == Ids(s.draining) + Ids(s.core.idles) by {
      forall x | x in s.draining || x in s.core.idles
        ensures x in all
      {
      }
    }
    forall i, j | 0 <= i < |s.draining| && 0 <= j < |s.core.idles|
      ensures s.draining[i].c != s.core.idles[j].c
    {
      assert s.draining[i].c in Ids(s.draining) && s.core.idles[j].c in Ids(s.core.idles);
    }
  }

  lemma PlacedDrain(s: State)
    requires Placed(s) && Enabled(s, DrainOne)
    ensures Placed(Apply(s, DrainOne))
  {
    FrontIds(s.draining);
    MoveLegal(s.hist, s.draining[0].c, Closed);
  }

  lemma PlacedGet(s: State, step: Step)
    requires Placed(s) && Enabled(s, step) && (step.GetStart? || step.Relock? || step.WakeLocked?)
    ensures Placed(Apply(s, step))
  {
    if step.Relock? {
      PlacedSignal(s, s.core.active - 1, step.pick);
      SignalCarries(s.callers, step.pick);
      PlacedAdmitted(s.(core := Release(s.core), callers := Signal(s.callers, step.pick)), step.t, s.callers[step.t].rem);
    } else {
      PlacedAdmitted(s, step.t, |s.core.idles|);
    }
  }

  /** The steps in which no item changes hands. */
  predicate Still(step: Step) {
    step.EnterSelect? || step.ContextDone? || step.DialErr? || step.DialFailedLocked? || step.Reload? || step.Tick?
  }

  lemma StillHoldings(s: State, step: Step)
    requires Enabled(s, step) && Still(step)
    ensures SameHoldings(s, Apply(s, step))
  {
  }

  lemma PlacedNext(s: State, step: Step)
    requires Placed(s)
    ensures Placed(Next(s, step))
  {
    if Enabled(s, step) {
      if Still(step) {
        StillHoldings(s, step);
        PlacedSame(s, Apply(s, step));
      } else if step.TestPopped? {
        PlacedTested(s, step.t, s.callers[step.t].it, s.callers[step.t].rem);
      } else if step.DialOk? {
        PlacedDialOk(s, step.t, step.id);
      } else if step.Put? {
        PlacedSignal(s, s.core.active, step.pick);
        PlacedReturned(s.(callers := Signal(s.callers, step.pick)), step.id, step.force);
      } else if step.ClosePool? {
        PlacedClose(s);
      } else if step.DrainOne? {
        PlacedDrain(s);
      } else if step.CleanerStart? || step.CleanerClose? || step.CleanerResume? {
        PlacedCleaner(s, step);
      } else {
        PlacedGet(s, step);
      }
    }
  }

  // ---------- accounting ----------

  predicate IsBusy(pc: Pc) {
    pc.Popped? || pc.Discarded? || pc.Dialing? || pc.DialFailed?
  }

  /** Callers that own a slot. */
  function Busy(callers: map<nat, Pc>): set<nat> {
    set t | t in callers && IsBusy(callers[t])
  }

  ghost predicate Accounted(s: State) {
    s.core.active == |s.core.idles| + |s.out| + |Busy(s.callers)|
  }

  lemma BusySet(callers: map<nat, Pc>, t: nat, pc: Pc)
    ensures Busy(callers[t := pc]) == if IsBusy(pc) then Busy(callers) + {t} else Busy(callers) - {t}
    ensures Busy(Without(callers, t)) == Busy(callers) - {t}
  {
  }

  lemma BusySignal(callers: map<nat, Pc>, pick: nat)
    ensures Busy(Signal(callers, pick)) == Busy(callers)
  {
  }

  function Slack(s: State): int {
    s.core.active - |s.core.idles| - |s.out| - |Busy(s.callers)|
  }

  /** What a grant takes from the counter and the list goes to the caller. */
  lemma AdmitTrades(c: Core, rem: nat)
    ensures var (d, g) := Admit(c, rem);
            d.active - |d.idles| == c.active - |c.idles| + if g.Reuse? || g.Dial? then 1 else 0
  {
  }

  lemma SlackAdmitted(s: State, t: nat, rem: nat)
    ensures Slack(Admitted(s, t, rem)) == Slack(s) + if t in Busy(s.callers) then 1 else 0
  {
    AdmitTrades(s.core, rem);
    match Admit(s.core, rem).1
    case Reuse(it, left) => BusySet(s.callers, t, Popped(it, left));
    case Dial => BusySet(s.callers, t, Dialing);
    case _ => BusySet(s.callers, t, Parking);
  }

  lemma SlackGet(s: State, step: Step)
    requires Enabled(s, step) && (step.GetStart? || step.Relock? || step.WakeLocked?)
    ensures Slack(Apply(s, step)) == Slack(s)
  {
    if step.Relock? {
      BusySignal(s.callers, step.pick);
      SlackAdmitted(s.(core := Release(s.core), callers := Signal(s.callers, step.pick)), step.t, s.callers[step.t].rem);
    } else {
      SlackAdmitted(s, step.t, |s.core.idles|);
    }
  }

  lemma SlackTested(s: State, step: Step)
    requires Placed(s) && Enabled(s, step) && step.TestPopped?
    ensures Slack(Apply(s, step)) == Slack(s)
  {
    assert Carries(s.callers, step.t, s.callers[step.t].it.c);
    BusySet(s.callers, step.t, Discarded(s.callers[step.t].rem));
    assert Busy(s.callers) + {step.t} == Busy(s.callers);
  }

  lemma SlackDialOk(s: State, step: Step)
    requires Placed(s) && Enabled(s, step) && step.DialOk?
    ensures Slack(Apply(s, step)) == Slack(s)
  {
    assert Where(s.hist, step.id) == Unborn;
    BusySet(s.callers, step.t, Dialing);
  }

  lemma SlackCaller(s: State, step: Step)
    requires Enabled(s, step) && (step.EnterSelect? || step.ContextDone? || step.DialErr? || step.DialFailedLocked?)
    ensures Slack(Apply(s, step)) == Slack(s)
  {
    if step.DialFailedLocked? {
      BusySignal(s.callers, step.pick);
      BusySet(Signal(s.callers, step.pick), step.t, Parked);
    } else {
      BusySet(s.callers, step.t, if step.DialErr? then DialFailed else Parked);
      assert step.DialErr? ==> Busy(s.callers) + {step.t} == Busy(s.callers);
    }
  }

  lemma SlackPut(s: State, step: Step)
    requires Enabled(s, step) && step.Put?
    ensures Slack(Apply(s, step)) == Slack(s)
  {
    BusySignal(s.callers, step.pick);
  }

  lemma SlackCleaner(s: State, step: Step)
    requires Enabled(s, step) && (step.CleanerStart? || step.CleanerResume?)
    ensures Slack(Apply(s, step)) == Slack(s)
  {
    BusySignal(s.callers, step.pick);
  }

  lemma SlackClose(s: State)
    ensures Slack(Apply(s, ClosePool)) == Slack(s)
  {
  }

  lemma AccountedNext(s: State, step: Step)
    requires Placed(s) && Accounted(s)
    ensures Accounted(Next(s, step))
  {
    assert Slack(s) == 0;
    if Enabled(s, step) {
      if step.GetStart? || step.Relock? || step.WakeLocked? {
        SlackGet(s, step);
      } else if step.TestPopped? {
        SlackTested(s, step);
      } else if step.DialOk? {
        SlackDialOk(s, step);
      } else if step.EnterSelect? || step.ContextDone? || step.DialErr? || step.DialFailedLocked? {
        SlackCaller(s, step);
      } else if step.Put? {
        SlackPut(s, step);
      } else if step.CleanerStart? || step.CleanerResume? {
        SlackCleaner(s, step);
      } else if step.ClosePool? {
        SlackClose(s);
      }
    }
  }
}
