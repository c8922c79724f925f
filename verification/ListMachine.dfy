/**
 A List pool at work: any number of callers, the cleaner, calls to Close and Reload, and the holders of leases.
 Every region between locking and unlocking the mutex is one step, and so is every unlocked action.
 */
module ListMachine {
  import opened Pool
  import opened Lifecycle
  import opened ListCore

  datatype Pc =
    | Popped(it: Item, rem: nat)  // took an idle item, has not tested its age yet
    | Discarded(rem: nat)         // closed an expired idle item, has not relocked yet
    | Parking                     // unlocked to wait, not yet in its select
    | Parked                      // in its select, where a signal can reach it
    | Woken                       // signalled, has not relocked yet
    | Dialing                     // inside New
    | DialFailed                  // New failed, has not relocked yet

  /** The cleaner; `rem` is how many more items its sweep may take. */
  datatype CleanerPc =
    | Absent
    | Resting
    | ClosingOne(it: Item, rem: nat)
    | Between(rem: nat)
    | Done

  /** When the current sweep began, the timeout then, and whether no Reload has loosened it since. */
  datatype Sweep = Sweep(since: int, timeout: int, steady: bool)

  datatype State = State(
    core: Core,
    callers: map<nat, Pc>,
    cleaner: CleanerPc,
    sweep: Sweep,
    draining: seq<Item>,  // taken by Close, not yet closed
    out: set<nat>,        // leased to clients
    hist: History,
    now: int)

  function Started(conf: Config): CleanerPc {
    if 0 < conf.idleTimeout then Resting else Absent
  }

  function Init(conf: Config, now: int): State {
    State(NewCore(conf), map[], Started(conf), Sweep(now, 0, false), [], {}, map[], now)
  }

  datatype Step =
    | GetStart(t: nat)
    | TestPopped(t: nat)
    | Relock(t: nat, pick: nat)
    | EnterSelect(t: nat)
    | ContextDone(t: nat)
    | WakeLocked(t: nat)
    | DialOk(t: nat, id: nat)
    | DialErr(t: nat)
    | DialFailedLocked(t: nat, pick: nat)
    | Put(id: nat, force: bool, pick: nat)
    | CleanerStart(pick: nat)
    | CleanerClose
    | CleanerResume(pick: nat)
    | ClosePool
    | DrainOne
    | Reload(conf: Config)
    | Tick(d: nat)

  ghost predicate At(s: State, t: nat, pc: Pc) {
    t in s.callers && s.callers[t] == pc
  }

  /** A signal wakes one caller that is in its select, if there is one. */
  ghost predicate ValidWake(callers: map<nat, Pc>, pick: nat) {
    (exists t :: t in callers && callers[t] == Parked) ==> pick in callers && callers[pick] == Parked
  }

  ghost predicate Enabled(s: State, step: Step) {
    match step
    case GetStart(t) => t !in s.callers
    case TestPopped(t) => t in s.callers && s.callers[t].Popped?
    case Relock(t, pick) => t in s.callers && s.callers[t].Discarded? && ValidWake(s.callers, pick)
    case EnterSelect(t) => At(s, t, Parking)
    case ContextDone(t) => At(s, t, Parked)
    case WakeLocked(t) => At(s, t, Woken)
    case DialOk(t, id) => At(s, t, Dialing) && id !in s.hist
    case DialErr(t) => At(s, t, Dialing)
    case DialFailedLocked(t, pick) => At(s, t, DialFailed) && ValidWake(s.callers, pick)
    case Put(id, _, pick) => id in s.out && ValidWake(s.callers, pick)
    case CleanerStart(pick) => s.cleaner.Resting? && ValidWake(s.callers, pick)
    case CleanerClose => s.cleaner.ClosingOne?
    case CleanerResume(pick) => s.cleaner.Between? && ValidWake(s.callers, pick)
    case ClosePool => true
    case DrainOne => s.draining != []
    case Reload(_) => true
    case Tick(_) => true
  }

  function Without(callers: map<nat, Pc>, t: nat): map<nat, Pc> {
    callers - {t}
  }

  function Signal(callers: map<nat, Pc>, pick: nat): map<nat, Pc> {
    if pick in callers && callers[pick] == Parked then callers[pick := Woken] else callers
  }

  /** A locked region of Get with `rem` turns of its inner loop left. */
  function Admitted(s: State, t: nat, rem: nat): State {
    var (c, g) := Admit(s.core, rem);
    match g
    case Reuse(it, left) => s.(core := c, callers := s.callers[t := Popped(it, left)], hist := Move(s.hist, it.c, Caller(t)))
    case PoolClosed => s.(core := c, callers := Without(s.callers, t))
    case Dial => s.(core := c, callers := s.callers[t := Dialing])
    case Exhausted => s.(core := c, callers := Without(s.callers, t))
    case Park => s.(core := c, callers := s.callers[t := Parking])
  }

  /** The unlocked age test, with the clock and the configuration of that moment. */
  function Tested(s: State, t: nat, it: Item, rem: nat): State {
    if Expired(it, s.core.conf.idleTimeout, s.now)
    then s.(callers := s.callers[t := Discarded(rem)], hist := Move(s.hist, it.c, Closed))
    else s.(callers := Without(s.callers, t), out := s.out + {it.c}, hist := Move(s.hist, it.c, Leased))
  }

  /** The item first joins the idle ones, unless it is closed at once; then the evicted one is closed. */
  function Returned(s: State, id: nat, force: bool): State {
    var (c, victim) := PutItem(s.core, Item(s.now, id), force);
    var h := if s.core.closed || force then s.hist else Move(s.hist, id, Idle);
    s.(core := c, hist := if victim.Some? then Move(h, victim.value, Closed) else h)
  }

  function Swept(s: State, rem: nat, pick: nat): State {
    var (c, gone) := CleanBack(s.core, s.now);
    if 0 < rem && gone.Some? then
      s.(core := c, callers := Signal(s.callers, pick), cleaner := ClosingOne(gone.value, rem - 1),
         hist := Move(s.hist, gone.value.c, Sweeping))
    else s.(cleaner := Resting)
  }

  ghost function Apply(s: State, step: Step): State
    requires Enabled(s, step)
  {
    match step
    case GetStart(t) => if s.core.closed then s else Admitted(s, t, |s.core.idles|)
    case TestPopped(t) => Tested(s, t, s.callers[t].it, s.callers[t].rem)
    case Relock(t, pick) =>
      Admitted(s.(core := Release(s.core), callers := Signal(s.callers, pick)), t, s.callers[t].rem)
    case EnterSelect(t) => s.(callers := s.callers[t := Parked])
    case ContextDone(t) => s.(callers := Without(s.callers, t))
    case WakeLocked(t) => Admitted(s, t, |s.core.idles|)
    case DialOk(t, id) =>
      s.(callers := Without(s.callers, t), out := s.out + {id},
         hist := Move(Move(s.hist, id, Caller(t)), id, Leased))
    case DialErr(t) => s.(callers := s.callers[t := DialFailed])
    case DialFailedLocked(t, pick) =>
      s.(core := Release(s.core), callers := Without(Signal(s.callers, pick), t))
    case Put(id, force, pick) =>
      Returned(s.(out := s.out - {id}, callers := Signal(s.callers, pick)), id, force)
    case CleanerStart(pick) =>
      if s.core.closed || s.core.conf.idleTimeout <= 0 then s.(cleaner := Done)
      else Swept(s.(sweep := Sweep(s.now, s.core.conf.idleTimeout, true)), |s.core.idles|, pick)
    case CleanerClose =>
      s.(cleaner := Between(s.cleaner.rem), hist := Move(s.hist, s.cleaner.it.c, Closed))
    case CleanerResume(pick) => Swept(s, s.cleaner.rem, pick)
    case ClosePool =>
      s.(core := Close(s.core), draining := s.draining + s.core.idles,
         hist := MoveAll(s.hist, Ids(s.core.idles), Draining))
    case DrainOne => s.(draining := s.draining[1..], hist := Move(s.hist, s.draining[0].c, Closed))
    case Reload(conf) =>
      s.(core := s.core.(conf := conf),
         cleaner := if s.cleaner.Absent? then Started(conf) else s.cleaner,
         sweep := s.sweep.(steady := s.sweep.steady && 0 < conf.idleTimeout <= s.sweep.timeout))
    case Tick(d) => s.(now := s.now + d)
  }

  /** A step that is not enabled does nothing, so every sequence of steps is a run. */
  ghost function Next(s: State, step: Step): State {
    if Enabled(s, step) then Apply(s, step) else s
  }

  ghost function Run(s: State, steps: seq<Step>): State {
    if steps == [] then s else Next(Run(s, steps[..|steps| - 1]), steps[|steps| - 1])
  }
}
