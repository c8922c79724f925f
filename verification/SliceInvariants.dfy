/** What every step of a Slice pool keeps. */
module SliceInvariants {
  import opened Pool
  import opened SliceCore
  import opened SliceMachine

  // ---------- request channels ----------

  predicate OnChannel(pc: Pc, ch: nat) {
    pc == Waiting(ch, ch) || pc == Cancelling(ch, ch)
  }

  /**
   A caller on a channel made that channel itself and has not lost what was sent on it; a pending
   channel has its Get on it, and so has a delivered item unless that Get was cancelled.
   */
  ghost predicate Keyed(s: State) {
    var chans, requests := s.core.chans, s.core.requests;
    && WellKeyed(s.core)
    && |s.asker| == |chans|
    && (forall t | t in s.callers && s.callers[t].Waiting? ::
          var pc := s.callers[t];
          && pc.key == pc.ch < |chans| && s.asker[pc.ch] == t && pc.ch !in s.cancelled
          && (pc.ch in requests || chans[pc.ch].buf.Some?))
    && (forall t | t in s.callers && s.callers[t].Cancelling? ::
          var pc := s.callers[t]; pc.key == pc.ch < |chans| && s.asker[pc.ch] == t && pc.ch in s.cancelled)
    && (forall ch | ch in requests ::
          chans[ch].closed || (s.asker[ch] in s.callers && OnChannel(s.callers[s.asker[ch]], ch)))
    && (forall ch | 0 <= ch < |chans| && chans[ch].buf.Some? ::
          ch in s.cancelled || (s.asker[ch] in s.callers && s.callers[s.asker[ch]] == Waiting(ch, ch)))
    && (forall ch | ch in s.cancelled :: ch < |chans|)
  }

  ghost predicate OffChannels(callers: map<nat, Pc>, t: nat) {
    t in callers ==> !callers[t].Waiting? && !callers[t].Cancelling?
  }

  ghost predicate SameRequests(c: Core, d: Core) {
    c.requests == d.requests && c.chans == d.chans && c.nextRequest == d.nextRequest && c.closed == d.closed
  }

  lemma SameElsewhere(a: map<nat, Pc>, b: map<nat, Pc>, t: nat)
    requires a - {t} == b - {t}
    ensures forall u :: u != t ==> (u in a <==> u in b) && (u in a ==> a[u] == b[u])
  {
    forall u | u != t
      ensures (u in a <==> u in b) && (u in a ==> a[u] == b[u])
    {
      assert u in a <==> u in a - {t};
      assert u in b <==> u in b - {t};
      if u in a {
        assert (a - {t})[u] == (b - {t})[u];
      }
    }
  }

  /** A step that touches no request and moves one caller between places off the channels. */
  lemma KeyedFrame(s: State, r: State, t: nat)
    requires Keyed(s)
    requires SameRequests(s.core, r.core) && s.cancelled == r.cancelled && s.asker == r.asker
    requires s.callers - {t} == r.callers - {t} && OffChannels(s.callers, t) && OffChannels(r.callers, t)
    ensures Keyed(r)
  {
    SameElsewhere(s.callers, r.callers, t);
  }

  lemma KeyedQueue(s: State, t: nat)
    requires Keyed(s) && OffChannels(s.callers, t) && Admit(s.core).1.Queue?
    ensures Keyed(Admitted(s, t))
  {
    var r := Admitted(s, t);
    var ch := |s.core.chans|;
    assert r.callers[t] == Waiting(ch, ch);
    assert OnChannel(r.callers[t], ch);
    assert r.core.requests.Keys == s.core.requests.Keys + {ch};
  }

  lemma KeyedAdmitted(s: State, t: nat)
    requires Keyed(s) && OffChannels(s.callers, t)
    ensures Keyed(Admitted(s, t))
  {
    if Admit(s.core).1.Queue? {
      KeyedQueue(s, t);
    } else {
      KeyedFrame(s, Admitted(s, t), t);
    }
  }

  /** Handing an item to the Get that waits on a pending channel. */
  lemma KeyedSend(s: State, r: State, ch: nat, it: Item)
    requires Keyed(s) && ch in s.core.requests
    requires r.core.requests == s.core.requests - {ch}
    requires r.core.chans == s.core.chans[ch := s.core.chans[ch].(buf := Some(it))]
    requires r.core.nextRequest == s.core.nextRequest && r.core.closed == s.core.closed && !s.core.closed
    requires r.callers == s.callers && r.cancelled == s.cancelled && r.asker == s.asker
    ensures Keyed(r)
  {
    assert WellKeyed(r.core);
    assert forall k | 0 <= k < |s.core.chans| && k != ch :: r.core.chans[k] == s.core.chans[k];
  }

  lemma KeyedLanded(s: State, id: nat, pick: nat)
    requires Keyed(s) && ValidPick(s.core, pick)
    ensures Keyed(Landed(s, id, pick))
  {
    var it := Item(s.now, id);
    if PutOrDrop(s.core, it, pick).1.Sent? {
      KeyedSend(s, Landed(s, id, pick), pick, it);
    } else {
      KeyedSame(s, Landed(s, id, pick));
    }
  }

  lemma KeyedSame(s: State, r: State)
    requires Keyed(s)
    requires SameRequests(s.core, r.core) && s.cancelled == r.cancelled && s.asker == r.asker && s.callers == r.callers
    ensures Keyed(r)
  {
  }

  lemma KeyedContextDone(s: State, t: nat)
    requires Keyed(s) && Enabled(s, ContextDone(t))
    ensures Keyed(Apply(s, ContextDone(t)))
  {
    var r := Apply(s, ContextDone(t));
    assert OnChannel(r.callers[t], s.callers[t].ch);
    assert OnChannel(s.callers[t], s.callers[t].ch);
  }

  lemma KeyedLeave(s: State, t: nat)
    requires Keyed(s) && Enabled(s, CancelLocked(t))
    ensures Keyed(Apply(s, CancelLocked(t)))
  {
    var r := Apply(s, CancelLocked(t));
    assert OnChannel(s.callers[t], s.callers[t].ch);
  }

  lemma KeyedReceive(s: State, t: nat)
    requires Keyed(s) && Enabled(s, Receive(t))
    ensures Keyed(Apply(s, Receive(t)))
  {
    var r := Apply(s, Receive(t));
    assert OnChannel(s.callers[t], s.callers[t].ch);
  }

  lemma KeyedReceiveClosed(s: State, t: nat)
    requires Keyed(s) && Enabled(s, ReceiveClosed(t))
    ensures Keyed(Apply(s, ReceiveClosed(t)))
  {
    var r := Apply(s, ReceiveClosed(t));
    assert OnChannel(s.callers[t], s.callers[t].ch);
  }

  lemma KeyedClose(s: State)
    requires Keyed(s)
    ensures Keyed(Apply(s, ClosePool))
  {
  }

  /** The steps in which one caller moves between places off the channels. */
  predicate Private(step: Step) {
    step.TestPopped? || step.TestReceived? || step.RelockHandOff? || step.DialOk? || step.DialErr? || step.DialFailedLocked?
  }

  ghost predicate PrivateMove(s: State, r: State, t: nat) {
    && SameRequests(s.core, r.core) && s.cancelled == r.cancelled && s.asker == r.asker
    && s.callers - {t} == r.callers - {t} && OffChannels(s.callers, t) && OffChannels(r.callers, t)
  }

  lemma TestedFrame(s: State, t: nat, it: Item, discarded: Pc)
    requires OffChannels(s.callers, t) && !discarded.Waiting? && !discarded.Cancelling?
    ensures PrivateMove(s, Tested(s, t, it, discarded), t)
  {
  }

  lemma PrivateFrame(s: State, step: Step)
    requires Enabled(s, step) && Private(step)
    ensures PrivateMove(s, Apply(s, step), step.t)
  {
    if step.TestPopped? {
      TestedFrame(s, step.t, s.callers[step.t].it, Discarded);
    } else if step.TestReceived? {
      TestedFrame(s, step.t, s.callers[step.t].it, DiscardedHandOff);
    }
  }

  /** The steps that neither move a caller nor touch a request channel. */
  predicate Aloof(step: Step) {
    step.OpenerTake? || step.OpenerOk? || step.OpenerErr? || step.OpenerFailedLocked? || step.OpenerStop?
    || step.CleanerSweep? || step.CleanerClose? || step.Tick? || (step.Put? && step.force)
  }

  lemma KeyedAloof(s: State, step: Step)
    requires Keyed(s) && Enabled(s, step) && Aloof(step)
    ensures Keyed(Apply(s, step))
  {
    KeyedSame(s, Apply(s, step));
  }

  lemma KeyedGet(s: State, step: Step)
    requires Keyed(s) && Enabled(s, step) && (step.GetStart? || step.Relock?)
    ensures Keyed(Apply(s, step))
  {
    if step.GetStart? {
      KeyedAdmitted(s, step.t);
    } else {
      var m := s.(core := Release(s.core));
      KeyedSame(s, m);
      KeyedAdmitted(m, step.t);
    }
  }

  lemma KeyedPut(s: State, step: Step)
    requires Keyed(s) && Enabled(s, step) && ((step.Put? && !step.force) || step.OpenerPut?)
    ensures Keyed(Apply(s, step))
  {
    if step.Put? {
      var m := s.(out := s.out - {step.id});
      KeyedSame(s, m);
      KeyedLanded(m, step.id, step.pick);
    } else {
      var m := s.(opener := Ready);
      KeyedSame(s, m);
      KeyedLanded(m, s.opener.id, step.pick);
    }
  }

  lemma KeyedNext(s: State, step: Step)
    requires Keyed(s)
    ensures Keyed(Next(s, step))
  {
    if Enabled(s, step) {
      if step.GetStart? || step.Relock? {
        KeyedGet(s, step);
      } else if step.ContextDone? {
        KeyedContextDone(s, step.t);
      } else if step.CancelLocked? {
        KeyedLeave(s, step.t);
      } else if step.Receive? {
        KeyedReceive(s, step.t);
      } else if step.ReceiveClosed? {
        KeyedReceiveClosed(s, step.t);
      } else if Private(step) {
        PrivateFrame(s, step);
        KeyedFrame(s, Apply(s, step), step.t);
      } else if (step.Put? && !step.force) || step.OpenerPut? {
        KeyedPut(s, step);
      } else if step.ClosePool? {
        KeyedClose(s);
      } else {
        KeyedAloof(s, step);
      }
    }
  }
}
