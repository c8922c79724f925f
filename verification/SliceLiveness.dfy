/** When a Get that waits in an open Slice pool can still be served, whatever has happened so far. */
module SliceLiveness {
  import opened Pool
  import opened SliceCore
  import opened SliceMachine
  import opened SliceAccounting
  import opened SliceTheorems

  // ---------- the slot over the limit ----------

  /** One over the limit, two slots at least are not undelivered hand-offs. */
  predicate Spare(s: State) {
    !s.core.closed && 0 < s.core.conf.active < s.core.active ==> |Buffered(s.core.chans)| < s.core.conf.active
  }

  /** The opener stops only in a closed pool. */
  predicate Awake(s: State) {
    s.opener.Stopped? ==> s.core.closed
  }

  lemma CoreAfterStaysBelow(c: Core, step: Step)
    requires (Releases(step) && !step.RelockHandOff?) || step.GetStart?
    ensures var r := CoreAfter(c, step);
            && (0 < c.conf.active < r.active ==> r.active <= c.active)
            && Buffered(r.chans) == Buffered(c.chans)
            && r.closed == c.closed && r.conf == c.conf
  {
    BufferedMore(c.chans);
  }

  lemma PutStaysBelow(c: Core, i: Item, pick: nat)
    requires WellKeyed(c) && ValidPick(c, pick)
    ensures var r := PutOrDrop(c, i, pick).0;
            && r.active <= c.active && r.closed == c.closed && r.conf == c.conf
            && (0 < c.conf.active < c.active ==> r.chans == c.chans)
  {
  }

  lemma RestStaysBelow(s: State, step: Step)
    requires Enabled(s, step) && !Releases(step) && !step.GetStart? && !step.Put? && !step.OpenerPut? && !step.ClosePool?
    ensures var r := Apply(s, step);
            && r.core.active <= s.core.active && r.core.closed == s.core.closed && r.core.conf == s.core.conf
            && |Buffered(r.core.chans)| <= |Buffered(s.core.chans)|
  {
    if step.Receive? {
      var ch := s.callers[step.t].ch;
      BufferedSend(s.core.chans, ch, s.core.chans[ch].buf.value);
    }
  }

  /** Only a re-dial takes the counter over the limit, and while it is over it nothing is handed over. */
  lemma StaysBelow(s: State, step: Step)
    requires Enabled(s, step) && !step.RelockHandOff? && !step.ClosePool?
    ensures var r := Apply(s, step);
            && r.core.closed == s.core.closed && r.core.conf == s.core.conf
            && (0 < s.core.conf.active < r.core.active ==>
                  r.core.active <= s.core.active && |Buffered(r.core.chans)| <= |Buffered(s.core.chans)|)
  {
    if Releases(step) || step.GetStart? {
      AppliesCoreAfter(s, step);
      CoreAfterStaysBelow(s.core, step);
    } else if step.Put? {
      PutStaysBelow(s.core, Item(s.now, step.id), step.pick);
    } else if step.OpenerPut? {
      PutStaysBelow(s.core, Item(s.now, s.opener.id), step.pick);
    } else {
      RestStaysBelow(s, step);
    }
  }

  lemma SpareRedial(s: State, t: nat)
    requires Spare(s) && Enabled(s, RelockHandOff(t)) && Accounted(Apply(s, RelockHandOff(t)))
    ensures Spare(Apply(s, RelockHandOff(t)))
  {
    assert t in Busy(Apply(s, RelockHandOff(t)).callers);
  }

  lemma SpareNext(s: State, step: Step)
    requires Spare(s) && Accounted(Next(s, step))
    ensures Spare(Next(s, step))
  {
    if Enabled(s, step) {
      if step.RelockHandOff? {
        SpareRedial(s, step.t);
      } else if !step.ClosePool? {
        StaysBelow(s, step);
      }
    }
  }

  lemma AwakeNext(s: State, step: Step)
    requires Awake(s)
    ensures Awake(Next(s, step))
  {
    if Enabled(s, step) && !step.ClosePool? && !step.RelockHandOff? {
      StaysBelow(s, step);
    }
  }

  ghost predicate Lively(s: State) {
    Inv(s) && Spare(s) && Awake(s)
  }

  lemma LivelyNext(s: State, step: Step)
    requires Lively(s)
    ensures Lively(Next(s, step))
  {
    InvNext(s, step);
    SpareNext(s, step);
    AwakeNext(s, step);
  }

  lemma {:induction false} LivelyReached(conf: Config, now: int, steps: seq<Step>)
    ensures Lively(Run(Init(conf, now), steps))
  {
    if steps != [] {
      LivelyReached(conf, now, steps[..|steps| - 1]);
      LivelyNext(Run(Init(conf, now), steps[..|steps| - 1]), steps[|steps| - 1]);
    }
  }

  ghost predicate Reached(s: State) {
    exists conf, now, steps :: s == Run(Init(conf, now), steps)
  }

  lemma ReachedNext(s: State, step: Step)
    requires Reached(s)
    ensures Reached(Next(s, step))
  {
    var conf, now, steps :| s == Run(Init(conf, now), steps);
    RunAppend(Init(conf, now), steps, step);
    assert Next(s, step) == Run(Init(conf, now), steps + [step]);
  }

  lemma ReachedIsLively(s: State)
    requires Reached(s)
    ensures Lively(s)
  {
    var conf, now, steps :| s == Run(Init(conf, now), steps);
    LivelyReached(conf, now, steps);
  }

  // ---------- serving one Get ----------

  /** The channel `ch` is pending in an open pool: nothing is idle and the limit is reached, or passed by one. */
  predicate Short(c: Core, ch: nat) {
    WellKeyed(c) && !c.closed && ch in c.requests && c.free == [] && 0 < c.conf.active <= c.active <= c.conf.active + 1
  }

  /** Caller `t` waits on `ch`, and has been sent nothing yet. */
  ghost predicate Pending(s: State, t: nat, ch: nat) {
    Reached(s) && Short(s.core, ch) && t in s.callers && s.callers[t] == Waiting(ch, ch)
  }

  predicate NoClose(steps: seq<Step>) {
    forall i :: 0 <= i < |steps| ==> !steps[i].ClosePool?
  }

  /** Caller `t` still waits on `ch`, which holds an item for it. */
  ghost predicate Served(s: State, t: nat, ch: nat) {
    && t in s.callers && s.callers[t] == Waiting(ch, ch)
    && ch < |s.core.chans| && s.core.chans[ch].buf.Some?
  }

  predicate Over(c: Core) {
    c.conf.active < c.active
  }

  /** At the limit the run serves `t`; over the limit it gives the extra slot up and hands nothing over. */
  ghost predicate Helps(s: State, steps: seq<Step>, t: nat, ch: nat) {
    var r := Run(s, steps);
    && NoClose(steps)
    && (if Over(s.core) then Pending(r, t, ch) && !Over(r.core) && |Buffered(r.core.chans)| <= |Buffered(s.core.chans)|
        else Served(r, t, ch))
  }

  lemma ReachedIsShort(s: State, ch: nat)
    requires Reached(s) && !s.core.closed && ch in s.core.requests
    ensures Short(s.core, ch)
  {
    ReachedIsLively(s);
    assert s.core.requests != map[];
  }

  lemma PendingKept(s: State, step: Step, t: nat, ch: nat)
    requires Pending(s, t, ch) && Enabled(s, step)
    requires var r := Apply(s, step);
             t in r.callers && r.callers[t] == s.callers[t] && ch in r.core.requests && !r.core.closed
    ensures Pending(Next(s, step), t, ch)
  {
    ReachedNext(s, step);
    ReachedIsShort(Next(s, step), ch);
  }

  lemma HelpsLater(s: State, step: Step, rest: seq<Step>, t: nat, ch: nat)
    requires !step.ClosePool? && Helps(Next(s, step), rest, t, ch)
    requires Over(Next(s, step).core) == Over(s.core)
    requires |Buffered(Next(s, step).core.chans)| <= |Buffered(s.core.chans)|
    ensures Helps(s, [step] + rest, t, ch)
  {
    RunOne(s, step);
    RunConcat(s, [step], rest);
  }

  lemma HelpsAtOnce(s: State, step: Step, t: nat, ch: nat)
    requires !step.ClosePool?
    requires var r := Next(s, step);
             if Over(s.core) then Pending(r, t, ch) && !Over(r.core) && |Buffered(r.core.chans)| <= |Buffered(s.core.chans)|
             else Served(r, t, ch)
    ensures Helps(s, [step], t, ch)
  {
    RunOne(s, step);
  }

  /** Putting an item for `ch`: sent at the limit, refused over it. */
  lemma PutShort(c: Core, i: Item, ch: nat)
    requires Short(c, ch)
    ensures var (r, d) := PutOrDrop(c, i, ch);
            if Over(c) then r == c.(active := c.active - 1)
            else ch < |r.chans| == |c.chans| && r.chans[ch].buf.Some?
  {
  }

  lemma LeaseHelps(s: State, t: nat, ch: nat, id: nat) returns (steps: seq<Step>)
    requires Pending(s, t, ch) && id in s.out
    ensures Helps(s, steps, t, ch)
  {
    var step := Put(id, false, ch);
    PutShort(s.core, Item(s.now, id), ch);
    if Over(s.core) {
      PendingKept(s, step, t, ch);
    }
    HelpsAtOnce(s, step, t, ch);
    steps := [step];
  }

  lemma OpenedHelps(s: State, t: nat, ch: nat) returns (steps: seq<Step>)
    requires Pending(s, t, ch) && s.opener.Opened?
    ensures Helps(s, steps, t, ch)
  {
    var step := OpenerPut(ch);
    PutShort(s.core, Item(s.now, s.opener.id), ch);
    if Over(s.core) {
      PendingKept(s, step, t, ch);
    }
    HelpsAtOnce(s, step, t, ch);
    steps := [step];
  }

  lemma {:induction false} SomeBound(ids: set<nat>) returns (n: nat)
    ensures forall id | id in ids :: id < n
  {
    n := 0;
    if ids != {} {
      var id :| id in ids;
      var m := SomeBound(ids - {id});
      n := if m <= id then id + 1 else m;
      assert forall x | x in ids :: x == id || x in ids - {id};
    }
  }

  lemma OpeningHelps(s: State, t: nat, ch: nat) returns (steps: seq<Step>)
    requires Pending(s, t, ch) && s.opener.Opening?
    ensures Helps(s, steps, t, ch)
  {
    var id := SomeBound(s.hist.Keys);
    var step := OpenerOk(id);
    PendingKept(s, step, t, ch);
    steps := OpenedHelps(Next(s, step), t, ch);
    HelpsLater(s, step, steps, t, ch);
    steps := [step] + steps;
  }

  lemma TokenHelps(s: State, t: nat, ch: nat) returns (steps: seq<Step>)
    requires Pending(s, t, ch) && s.opener.Ready? && 0 < s.core.tokens
    ensures Helps(s, steps, t, ch)
  {
    PendingKept(s, OpenerTake, t, ch);
    steps := OpeningHelps(Next(s, OpenerTake), t, ch);
    HelpsLater(s, OpenerTake, steps, t, ch);
    steps := [OpenerTake] + steps;
  }

  /** A release at the limit queues an open for `ch`; over the limit it only gives the extra slot up. */
  lemma ReleaseShort(c: Core, ch: nat)
    requires Short(c, ch)
    ensures Release(c) == if Over(c) then c.(active := c.active - 1) else c.(tokens := c.tokens + 1)
  {
    assert c.requests != map[];
  }

  lemma OpenFailedHelps(s: State, t: nat, ch: nat) returns (steps: seq<Step>)
    requires Pending(s, t, ch) && s.opener.OpenFailed?
    ensures Helps(s, steps, t, ch)
  {
    ReleaseShort(s.core, ch);
    PendingKept(s, OpenerFailedLocked, t, ch);
    if Over(s.core) {
      HelpsAtOnce(s, OpenerFailedLocked, t, ch);
      steps := [OpenerFailedLocked];
    } else {
      steps := TokenHelps(Next(s, OpenerFailedLocked), t, ch);
      HelpsLater(s, OpenerFailedLocked, steps, t, ch);
      steps := [OpenerFailedLocked] + steps;
    }
  }

  lemma OpenerHelps(s: State, t: nat, ch: nat) returns (steps: seq<Step>)
    requires Pending(s, t, ch) && (0 < s.core.tokens || OpenerUnits(s.opener) != 0)
    ensures Helps(s, steps, t, ch)
  {
    if s.opener.Opened? {
      steps := OpenedHelps(s, t, ch);
    } else if s.opener.Opening? {
      steps := OpeningHelps(s, t, ch);
    } else if s.opener.OpenFailed? {
      steps := OpenFailedHelps(s, t, ch);
    } else {
      ReachedIsLively(s);
      steps := TokenHelps(s, t, ch);
    }
  }

  lemma DialShort(s: State, t: nat, ch: nat, u: nat, id: nat)
    requires Pending(s, t, ch) && u in s.callers && s.callers[u].Dialing? && id !in s.hist
    ensures var r := Next(s, DialOk(u, id)); Pending(r, t, ch) && id in r.out && r.core == s.core
  {
    PendingKept(s, DialOk(u, id), t, ch);
  }

  lemma DialingHelps(s: State, t: nat, ch: nat, u: nat) returns (steps: seq<Step>)
    requires Pending(s, t, ch) && u in s.callers && s.callers[u].Dialing?
    ensures Helps(s, steps, t, ch)
  {
    var id := SomeBound(s.hist.Keys);
    var step := DialOk(u, id);
    DialShort(s, t, ch, u, id);
    steps := LeaseHelps(Next(s, step), t, ch, id);
    HelpsLater(s, step, steps, t, ch);
    steps := [step] + steps;
  }

  lemma DialFailedHelps(s: State, t: nat, ch: nat, u: nat) returns (steps: seq<Step>)
    requires Pending(s, t, ch) && u in s.callers && s.callers[u].DialFailed?
    ensures Helps(s, steps, t, ch)
  {
    var step := DialFailedLocked(u);
    ReleaseShort(s.core, ch);
    PendingKept(s, step, t, ch);
    if Over(s.core) {
      HelpsAtOnce(s, step, t, ch);
      steps := [step];
    } else {
      steps := OpenerHelps(Next(s, step), t, ch);
      HelpsLater(s, step, steps, t, ch);
      steps := [step] + steps;
    }
  }

  lemma RelockShort(s: State, t: nat, ch: nat, u: nat)
    requires Pending(s, t, ch) && u in s.callers && s.callers[u].Discarded?
    ensures var r := Next(s, Relock(u));
            && Pending(r, t, ch) && !Over(r.core) && |Buffered(r.core.chans)| == |Buffered(s.core.chans)|
            && (!Over(s.core) ==> 0 < r.core.tokens)
  {
    ReleaseShort(s.core, ch);
    BufferedMore(s.core.chans);
    PendingKept(s, Relock(u), t, ch);
  }

  lemma DiscardedHelps(s: State, t: nat, ch: nat, u: nat) returns (steps: seq<Step>)
    requires Pending(s, t, ch) && u in s.callers && s.callers[u].Discarded?
    ensures Helps(s, steps, t, ch)
  {
    var step := Relock(u);
    RelockShort(s, t, ch, u);
    if Over(s.core) {
      HelpsAtOnce(s, step, t, ch);
      steps := [step];
    } else {
      steps := OpenerHelps(Next(s, step), t, ch);
      HelpsLater(s, step, steps, t, ch);
      steps := [step] + steps;
    }
  }

  lemma PoppedHelps(s: State, t: nat, ch: nat, u: nat) returns (steps: seq<Step>)
    requires Pending(s, t, ch) && u in s.callers && s.callers[u].Popped?
    ensures Helps(s, steps, t, ch)
  {
    var step := TestPopped(u);
    var it := s.callers[u].it;
    PendingKept(s, step, t, ch);
    if Expired(it, s.core.conf.idleTimeout, s.now) {
      steps := DiscardedHelps(Next(s, step), t, ch, u);
    } else {
      steps := LeaseHelps(Next(s, step), t, ch, it.c);
    }
    HelpsLater(s, step, steps, t, ch);
    steps := [step] + steps;
  }

  lemma RefusedPut(s: State, t: nat, ch: nat, id: nat)
    requires Pending(s, t, ch) && id in s.out && Over(s.core)
    ensures var r := Next(s, Put(id, false, ch));
            Pending(r, t, ch) && !Over(r.core) && r.core.tokens == s.core.tokens
  {
    PutShort(s.core, Item(s.now, id), ch);
    PendingKept(s, Put(id, false, ch), t, ch);
  }

  /** Over the limit a dialled resource is refused, and the opens queued by then stay queued. */
  lemma DialAndDrop(s: State, t: nat, ch: nat, u: nat) returns (steps: seq<Step>)
    requires Pending(s, t, ch) && u in s.callers && s.callers[u].Dialing? && Over(s.core)
    ensures NoClose(steps)
    ensures var r := Run(s, steps); Pending(r, t, ch) && !Over(r.core) && r.core.tokens == s.core.tokens
  {
    var id := SomeBound(s.hist.Keys);
    DialShort(s, t, ch, u, id);
    RefusedPut(Next(s, DialOk(u, id)), t, ch, id);
    RunOne(s, DialOk(u, id));
    RunAppend(s, [DialOk(u, id)], Put(id, false, ch));
    steps := [DialOk(u, id)] + [Put(id, false, ch)];
  }

  lemma RedialShort(s: State, t: nat, ch: nat, u: nat)
    requires Pending(s, t, ch) && u in s.callers && s.callers[u].DiscardedHandOff?
    ensures var r := Next(s, RelockHandOff(u));
            && Pending(r, t, ch) && Over(r.core) && r.core.chans == s.core.chans
            && u in r.callers && r.callers[u].Dialing?
            && (!Over(s.core) ==> 0 < r.core.tokens)
  {
    ReleaseShort(s.core, ch);
    PendingKept(s, RelockHandOff(u), t, ch);
  }

  lemma RedialAndDrop(s: State, t: nat, ch: nat, u: nat) returns (steps: seq<Step>)
    requires Pending(s, t, ch) && u in s.callers && s.callers[u].DiscardedHandOff? && !Over(s.core)
    ensures NoClose(steps)
    ensures var r := Run(s, steps); Pending(r, t, ch) && !Over(r.core) && 0 < r.core.tokens
  {
    var step := RelockHandOff(u);
    RedialShort(s, t, ch, u);
    steps := DialAndDrop(Next(s, step), t, ch, u);
    RunOne(s, step);
    RunConcat(s, [step], steps);
    steps := [step] + steps;
  }

  lemma DiscardedHandOffHelps(s: State, t: nat, ch: nat, u: nat) returns (steps: seq<Step>)
    requires Pending(s, t, ch) && u in s.callers && s.callers[u].DiscardedHandOff?
    ensures Helps(s, steps, t, ch)
  {
    if Over(s.core) {
      RedialShort(s, t, ch, u);
      steps := DialingHelps(Next(s, RelockHandOff(u)), t, ch, u);
      HelpsLater(s, RelockHandOff(u), steps, t, ch);
      steps := [RelockHandOff(u)] + steps;
    } else {
      var redial := RedialAndDrop(s, t, ch, u);
      steps := OpenerHelps(Run(s, redial), t, ch);
      RunConcat(s, redial, steps);
      steps := redial + steps;
    }
  }

  lemma ReceivedHelps(s: State, t: nat, ch: nat, u: nat) returns (steps: seq<Step>)
    requires Pending(s, t, ch) && u in s.callers && s.callers[u].Received?
    ensures Helps(s, steps, t, ch)
  {
    var step := TestReceived(u);
    var it := s.callers[u].it;
    PendingKept(s, step, t, ch);
    if Expired(it, s.core.conf.idleTimeout, s.now) {
      steps := DiscardedHandOffHelps(Next(s, step), t, ch, u);
    } else {
      steps := LeaseHelps(Next(s, step), t, ch, it.c);
    }
    HelpsLater(s, step, steps, t, ch);
    steps := [step] + steps;
  }

  lemma BusyHelps(s: State, t: nat, ch: nat, u: nat) returns (steps: seq<Step>)
    requires Pending(s, t, ch) && u in Busy(s.callers)
    ensures Helps(s, steps, t, ch)
  {
    if s.callers[u].Popped? {
      steps := PoppedHelps(s, t, ch, u);
    } else if s.callers[u].Discarded? {
      steps := DiscardedHelps(s, t, ch, u);
    } else if s.callers[u].Received? {
      steps := ReceivedHelps(s, t, ch, u);
    } else if s.callers[u].DiscardedHandOff? {
      steps := DiscardedHandOffHelps(s, t, ch, u);
    } else if s.callers[u].Dialing? {
      steps := DialingHelps(s, t, ch, u);
    } else {
      steps := DialFailedHelps(s, t, ch, u);
    }
  }

  /** Another Get has an item in its channel: once it has received that, it holds a slot itself. */
  lemma BufferedHelps(s: State, t: nat, ch: nat, k: nat) returns (steps: seq<Step>)
    requires Pending(s, t, ch) && k in Buffered(s.core.chans) - s.cancelled
    ensures Helps(s, steps, t, ch)
  {
    ReachedIsLively(s);
    var u := s.asker[k];
    assert u in s.callers && s.callers[u] == Waiting(k, k);
    PendingKept(s, Receive(u), t, ch);
    BufferedSend(s.core.chans, k, s.core.chans[k].buf.value);
    steps := ReceivedHelps(Next(s, Receive(u)), t, ch, u);
    HelpsLater(s, Receive(u), steps, t, ch);
    steps := [Receive(u)] + steps;
  }

  lemma AnyHelps(s: State, t: nat, ch: nat) returns (steps: seq<Step>)
    requires Pending(s, t, ch) && SomeoneCanAct(s)
    ensures Helps(s, steps, t, ch)
  {
    if id :| id in s.out {
      steps := LeaseHelps(s, t, ch, id);
    } else if 0 < s.core.tokens || OpenerUnits(s.opener) != 0 {
      steps := OpenerHelps(s, t, ch);
    } else if u :| u in Busy(s.callers) {
      steps := BusyHelps(s, t, ch, u);
    } else {
      var k :| k in Buffered(s.core.chans) - s.cancelled;
      steps := BufferedHelps(s, t, ch, k);
    }
  }

  /** Fewer undelivered hand-offs than slots leave somebody else with a slot. */
  lemma SomeoneElse(s: State, t: nat, ch: nat)
    requires Pending(s, t, ch) && |Buffered(s.core.chans)| < s.core.conf.active
    ensures SomeoneCanAct(s)
  {
    ReachedIsLively(s);
  }

  lemma Serve(s: State, t: nat, ch: nat) returns (steps: seq<Step>)
    requires Pending(s, t, ch) && SomeoneCanAct(s)
    ensures NoClose(steps) && Served(Run(s, steps), t, ch)
  {
    steps := AnyHelps(s, t, ch);
    if Over(s.core) {
      var m := Run(s, steps);
      ReachedIsLively(s);
      RunKeepsConf(s, steps);
      SomeoneElse(m, t, ch);
      var rest := AnyHelps(m, t, ch);
      RunConcat(s, steps, rest);
      steps := steps + rest;
    }
  }

  // ---------- and when it cannot ----------

  lemma {:induction false} StaysOpen(s: State, steps: seq<Step>)
    requires NoClose(steps) && !s.core.closed
    ensures !Run(s, steps).core.closed
  {
    if steps != [] {
      var (m, step) := (Run(s, steps[..|steps| - 1]), steps[|steps| - 1]);
      StaysOpen(s, steps[..|steps| - 1]);
      if Enabled(m, step) && !step.RelockHandOff? {
        StaysBelow(m, step);
      }
    }
  }

  lemma DeadServesNobody(s: State, t: nat)
    requires Inv(s) && Dead(s)
    ensures !s.core.closed ==> !CanGoOn(s, t)
  {
    if t in s.callers && s.callers[t].Waiting? {
      var ch := s.callers[t].ch;
      assert ch in Buffered(s.core.chans) ==> ch in Buffered(s.core.chans) - s.cancelled;
    }
  }

  lemma ServedAlready(s: State, t: nat)
    requires Inv(s) && t in s.callers && s.callers[t].Waiting? && s.callers[t].ch !in s.core.requests
    ensures Served(s, t, s.callers[t].ch) && SomeoneCanAct(s)
  {
    assert s.callers[t].ch in Buffered(s.core.chans) - s.cancelled;
  }

  lemma NobodyIsServed(s: State, steps: seq<Step>, u: nat)
    requires Inv(s) && Dead(s) && !s.core.closed && NoClose(steps)
    ensures !CanGoOn(Run(s, steps), u)
  {
    DeadForever(s, steps);
    InvRun(s, steps);
    StaysOpen(s, steps);
    DeadServesNobody(Run(s, steps), u);
  }

  /** Some continuation, in which nobody closes the pool, has an item for the Get of `t`. */
  ghost predicate CanBeServed(s: State, t: nat, ch: nat) {
    exists steps :: NoClose(steps) && Served(Run(s, steps), t, ch)
  }

  lemma NobodyIsEverServed(s: State, t: nat, ch: nat)
    requires Pending(s, t, ch) && !SomeoneCanAct(s)
    ensures forall steps, u | NoClose(steps) :: !CanGoOn(Run(s, steps), u)
  {
    ReachedIsLively(s);
    forall steps, u | NoClose(steps)
      ensures !CanGoOn(Run(s, steps), u)
    {
      NobodyIsServed(s, steps, u);
    }
  }

  lemma ServedCanGoOn(s: State, t: nat, ch: nat)
    requires CanBeServed(s, t, ch)
    ensures exists steps :: NoClose(steps) && CanGoOn(Run(s, steps), t)
  {
    var steps :| NoClose(steps) && Served(Run(s, steps), t, ch);
    assert CanGoOn(Run(s, steps), t);
  }

  lemma PendingIsServed(s: State, t: nat, ch: nat)
    requires Pending(s, t, ch) && SomeoneCanAct(s)
    ensures CanBeServed(s, t, ch)
  {
    var steps := Serve(s, t, ch);
  }

  /**
   While the pool is open, a waiting Get can still be served, by some continuation in which nobody
   closes the pool, exactly when somebody can act; otherwise no continuation serves any Get.
   */
  lemma CanBeServedExactlyWhen(conf: Config, now: int, before: seq<Step>, t: nat)
    requires var s := Run(Init(conf, now), before); !s.core.closed && t in s.callers && s.callers[t].Waiting?
    ensures var s := Run(Init(conf, now), before);
            && (CanBeServed(s, t, s.callers[t].ch) <==> SomeoneCanAct(s))
            && (!SomeoneCanAct(s) ==> forall steps, u | NoClose(steps) :: !CanGoOn(Run(s, steps), u))
  {
    var s := Run(Init(conf, now), before);
    var ch := s.callers[t].ch;
    LivelyReached(conf, now, before);
    if ch !in s.core.requests {
      ServedAlready(s, t);
      assert NoClose([]) && Run(s, []) == s;
    } else {
      ReachedIsShort(s, ch);
      if SomeoneCanAct(s) {
        PendingIsServed(s, t, ch);
      } else {
        NobodyIsEverServed(s, t, ch);
        if CanBeServed(s, t, ch) {
          ServedCanGoOn(s, t, ch);
        }
      }
    }
  }
}
