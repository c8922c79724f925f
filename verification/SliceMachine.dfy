/**
 A Slice pool at work: any number of callers, the opener, the cleaner and the holders of leases.
 Every region between locking and unlocking the mutex is one step, and so is every unlocked action.
 */
module SliceMachine {
  import opened Pool
  import opened Lifecycle
  import opened SliceCore

  /** Where a Get in progress stands, between two steps. */
  datatype Pc =
    | Popped(it: Item)              // took an idle item, has not tested its age yet
    | Discarded                     // closed an expired idle item, has not relocked yet
    | Waiting(key: nat, ch: nat)    // selecting between its context and its request channel
    | Cancelling(key: nat, ch: nat) // its context was done, has not relocked yet
    | Received(it: Item)            // received an item, has not tested its age yet
    | DiscardedHandOff              // closed an expired received item, has not relocked yet
    | Dialing                       // inside New
    | DialFailed                    // New failed, has not relocked yet

  /** The goroutine that opens items for waiting requests. */
  datatype OpenerPc = Ready | Opening | Opened(id: nat) | OpenFailed | Stopped

  datatype State = State(
    core: Core,
    callers: map<nat, Pc>,
    opener: OpenerPc,
    closing: seq<Item>,   // swept by the cleaner, not yet closed
    out: set<nat>,        // leased to clients
    hist: History,
    asker: seq<nat>,      // the caller that made each request channel
    cancelled: set<nat>,  // channels whose Get chose its context over them
    now: int)

  function Init(conf: Config, now: int): State {
    State(NewCore(conf), map[], Ready, [], {}, map[], [], {}, now)
  }

  datatype Step =
    | GetStart(t: nat)
    | TestPopped(t: nat)
    | Relock(t: nat)
    | ContextDone(t: nat)
    | CancelLocked(t: nat)
    | Receive(t: nat)
    | ReceiveClosed(t: nat)
    | TestReceived(t: nat)
    | RelockHandOff(t: nat)
    | DialOk(t: nat, id: nat)
    | DialErr(t: nat)
    | DialFailedLocked(t: nat)
    | Put(id: nat, force: bool, pick: nat)
    | OpenerTake
    | OpenerOk(id: nat)
    | OpenerErr
    | OpenerPut(pick: nat)
    | OpenerFailedLocked
    | OpenerStop
    | CleanerSweep
    | CleanerClose
    | ClosePool
    | Tick(d: nat)

  ghost predicate Enabled(s: State, step: Step) {
    match step
    case GetStart(t) => t !in s.callers
    case TestPopped(t) => t in s.callers && s.callers[t].Popped?
    case Relock(t) => t in s.callers && s.callers[t].Discarded?
    case ContextDone(t) => t in s.callers && s.callers[t].Waiting?
    case CancelLocked(t) => t in s.callers && s.callers[t].Cancelling?
    case Receive(t) =>
      && t in s.callers && s.callers[t].Waiting?
      && s.callers[t].ch < |s.core.chans| && s.core.chans[s.callers[t].ch].buf.Some?
    case ReceiveClosed(t) =>
      && t in s.callers && s.callers[t].Waiting?
      && s.callers[t].ch < |s.core.chans| && s.core.chans[s.callers[t].ch] == Chan(None, true)
    case TestReceived(t) => t in s.callers && s.callers[t].Received?
    case RelockHandOff(t) => t in s.callers && s.callers[t].DiscardedHandOff?
    case DialOk(t, id) => t in s.callers && s.callers[t].Dialing? && id !in s.hist
    case DialErr(t) => t in s.callers && s.callers[t].Dialing?
    case DialFailedLocked(t) => t in s.callers && s.callers[t].DialFailed?
    case Put(id, _, pick) => id in s.out && WellKeyed(s.core) && ValidPick(s.core, pick)
    case OpenerTake => s.opener.Ready? && 0 < s.core.tokens
    case OpenerOk(id) => s.opener.Opening? && id !in s.hist
    case OpenerErr => s.opener.Opening?
    case OpenerPut(pick) => s.opener.Opened? && WellKeyed(s.core) && ValidPick(s.core, pick)
    case OpenerFailedLocked => s.opener.OpenFailed?
    case OpenerStop => s.opener.Ready? && s.core.closed
    case CleanerSweep => s.closing == []
    case CleanerClose => s.closing != []
    case ClosePool => true
    case Tick(_) => true
  }

  function Without(callers: map<nat, Pc>, t: nat): map<nat, Pc> {
    callers - {t}
  }

  /** The end of a locked region of Get: the caller leaves with what `core` grants it. */
  function Admitted(s: State, t: nat): State {
    var (c, g) := Admit(s.core);
    match g
    case Reuse(it) => s.(core := c, callers := s.callers[t := Popped(it)], hist := Move(s.hist, it.c, Caller(t)))
    case Exhausted => s.(core := c, callers := Without(s.callers, t))
    case Queue(key, ch) => s.(core := c, callers := s.callers[t := Waiting(key, ch)], asker := s.asker + [t])
    case Dial => s.(core := c, callers := s.callers[t := Dialing])
  }

  /** The unlocked age test: an expired item is closed, any other is returned to the client. */
  function Tested(s: State, t: nat, it: Item, discarded: Pc): State {
    if Expired(it, s.core.conf.idleTimeout, s.now)
    then s.(callers := s.callers[t := discarded], hist := Move(s.hist, it.c, Closed))
    else s.(callers := Without(s.callers, t), out := s.out + {it.c}, hist := Move(s.hist, it.c, Leased))
  }

  /** The place PutOrDrop leaves the item in. */
  function Landing(d: Delivery): Place {
    match d
    case Refused => Closed
    case Stored => Idle
    case Sent(ch) => HandOff(ch)
  }

  function Landed(s: State, id: nat, pick: nat): State
    requires WellKeyed(s.core) && (s.core.requests != map[] ==> pick in s.core.requests)
  {
    var (c, d) := PutOrDrop(s.core, Item(s.now, id), pick);
    s.(core := c, hist := Move(s.hist, id, Landing(d)))
  }

  function Swept(s: State): State {
    var (c, closing) := SweepCore(s.core, s.now);
    s.(core := c, closing := closing, hist := MoveAll(s.hist, Ids(closing), Sweeping))
  }

  ghost function Apply(s: State, step: Step): State
    requires Enabled(s, step)
  {
    match step
    case GetStart(t) => if s.core.closed then s else Admitted(s, t)
    case TestPopped(t) => Tested(s, t, s.callers[t].it, Discarded)
    case Relock(t) => Admitted(s.(core := Release(s.core)), t)
    case ContextDone(t) =>
      var w := s.callers[t];
      s.(callers := s.callers[t := Cancelling(w.key, w.ch)], cancelled := s.cancelled + {w.ch})
    case CancelLocked(t) =>
      s.(core := Cancel(s.core, s.callers[t].key), callers := Without(s.callers, t))
    case Receive(t) =>
      var ch := s.callers[t].ch;
      var it := s.core.chans[ch].buf.value;
      s.(core := s.core.(chans := s.core.chans[ch := s.core.chans[ch].(buf := None)]),
         callers := s.callers[t := Received(it)], hist := Move(s.hist, it.c, Caller(t)))
    case ReceiveClosed(t) => s.(callers := Without(s.callers, t))
    case TestReceived(t) => Tested(s, t, s.callers[t].it, DiscardedHandOff)
    case RelockHandOff(t) => s.(core := Redial(s.core), callers := s.callers[t := Dialing])
    case DialOk(t, id) =>
      s.(callers := Without(s.callers, t), out := s.out + {id},
         hist := Move(Move(s.hist, id, Caller(t)), id, Leased))
    case DialErr(t) => s.(callers := s.callers[t := DialFailed])
    case DialFailedLocked(t) => s.(core := Release(s.core), callers := Without(s.callers, t))
    case Put(id, force, pick) =>
      var r := s.(out := s.out - {id});
      if force then r.(core := Release(s.core), hist := Move(s.hist, id, Closed)) else Landed(r, id, pick)
    case OpenerTake => s.(core := s.core.(tokens := s.core.tokens - 1), opener := Opening)
    case OpenerOk(id) => s.(opener := Opened(id), hist := Move(s.hist, id, Opener))
    case OpenerErr => s.(opener := OpenFailed)
    case OpenerPut(pick) => Landed(s.(opener := Ready), s.opener.id, pick)
    case OpenerFailedLocked => s.(core := Release(s.core), opener := Ready)
    case OpenerStop => s.(opener := Stopped)
    case CleanerSweep => Swept(s)
    case CleanerClose => s.(closing := s.closing[1..], hist := Move(s.hist, s.closing[0].c, Closed))
    case ClosePool => s.(core := Close(s.core), hist := MoveAll(s.hist, Ids(if s.core.closed then [] else s.core.free), Closed))
    case Tick(d) => s.(now := s.now + d)
  }

  /** A step that is not enabled does nothing, so every sequence of steps is a run. */
  ghost function Next(s: State, step: Step): State {
    if Enabled(s, step) then Apply(s, step) else s
  }

  ghost function Run(s: State, steps: seq<Step>): State {
    if steps == [] then s else Next(Run(s, steps[..|steps| - 1]), steps[|steps| - 1])
  }
}
