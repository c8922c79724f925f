/** The Slice pool as a class: each method is a region under its mutex, proved to compute its SliceCore function. */
module SlicePool {
  import opened Pool
  import opened SliceCore
  import opened SliceSpec

  class Slice {
    const conf: Config
    var freeItem: array<Item>      // the backing array; the first `numFree` slots are in use
    var numFree: nat
    var itemRequests: map<nat, nat>
    var nextRequest: nat
    var chans: seq<Chan>
    var active: int
    var openerCh: nat              // tokens in the opener's channel
    var closed: bool
    var cleanerStarted: bool       // the cleaner's channel is made, and its goroutine with it
    var cleanerClosed: bool        // the cleaner's channel is closed
    var openerStopped: bool        // the opener's context is cancelled

    ghost predicate Valid()
      reads this, freeItem
    {
      && numFree <= freeItem.Length && WellKeyed(Fields())
      && cleanerStarted == (0 < conf.idleTimeout)
      && cleanerClosed == (closed && cleanerStarted)
      && openerStopped == closed
    }

    ghost function Fields(): Core
      reads this, freeItem
      requires numFree <= freeItem.Length
    {
      Core(conf, closed, active, freeItem[..numFree], itemRequests, nextRequest, chans, openerCh)
    }

    constructor (c: Config)
      requires ValidConfig(c)
      ensures Valid() && fresh(freeItem) && Fields() == NewCore(c)
    {
      conf, closed, active := c, false, 0;
      freeItem, numFree := new Item[0], 0;
      itemRequests, nextRequest, chans, openerCh := map[], 0, [], 0;
      cleanerStarted, cleanerClosed, openerStopped := 0 < c.idleTimeout, false, false;
    }

    method MaybeOpenNewItems()
      requires Valid()
      modifies this`active, this`openerCh
      ensures Valid() && Fields() == MaybeOpen(old(Fields()))
    {
      var numRequests: int := |itemRequests|;
      if 0 < conf.active {
        var numCanOpen := conf.active - active;
        if numCanOpen < numRequests {
          numRequests := numCanOpen;
        }
      }
      while 0 < numRequests
        invariant Wanted(old(Fields())) <= 0 ==> numRequests == Wanted(old(Fields()))
        invariant 0 < Wanted(old(Fields())) ==> 0 <= numRequests <= Wanted(old(Fields()))
        invariant active + numRequests == old(active) + Wanted(old(Fields()))
        invariant openerCh + numRequests == old(openerCh) + Wanted(old(Fields()))
        invariant closed && 0 < Wanted(old(Fields())) ==> numRequests == Wanted(old(Fields()))
      {
        active := active + 1;
        numRequests := numRequests - 1;
        if closed {
          return;
        }
        openerCh := openerCh + 1;
      }
    }

    method ReleaseLocked()
      requires Valid()
      modifies this`active, this`openerCh
      ensures Valid() && Fields() == Release(old(Fields()))
      ensures Released(old(Fields()), Fields())
    {
      ghost var before := Fields();
      active := active - 1;
      MaybeOpenNewItems();
      ReleaseOpensWhatFits(before, Fields());
    }

    /** Takes the oldest idle item and shifts the others down in place. */
    method ShiftFree() returns (it: Item)
      requires Valid() && 0 < numFree
      modifies this`numFree, freeItem
      ensures Valid() && it == old(freeItem[0])
      ensures Fields() == old(Fields()).(free := old(freeItem[1..numFree]))
    {
      it := freeItem[0];
      var k := 0;
      while k < numFree - 1
        invariant 0 <= k <= numFree - 1 && numFree == old(numFree)
        invariant forall j :: 0 <= j < k ==> freeItem[j] == old(freeItem[j + 1])
        invariant forall j :: k <= j < numFree ==> freeItem[j] == old(freeItem[j])
      {
        freeItem[k] := freeItem[k + 1];
        k := k + 1;
      }
      numFree := numFree - 1;
      assert freeItem[..numFree] == old(freeItem[1..numFree]);
    }

    /** Adds an item at the end, in a larger array when the present one is full. */
    method AppendFree(it: Item)
      requires Valid()
      modifies this`numFree, this`freeItem, freeItem
      ensures Valid() && (freeItem == old(freeItem) || fresh(freeItem))
      ensures Fields() == old(Fields()).(free := old(freeItem[..numFree]) + [it])
    {
      if numFree == freeItem.Length {
        var larger := new Item[2 * numFree + 1];
        forall k | 0 <= k < numFree {
          larger[k] := freeItem[k];
        }
        freeItem := larger;
      }
      freeItem[numFree] := it;
      numFree := numFree + 1;
      assert freeItem[..numFree] == old(freeItem[..numFree]) + [it];
    }

    /** The tail of Get from its idle loop on, up to where it unlocks. */
    method AdmitLocked() returns (g: Grant)
      requires Valid()
      modifies this, freeItem
      ensures Valid() && freeItem == old(freeItem)
      ensures (Fields(), g) == Admit(old(Fields()))
      ensures Granted(old(Fields()), Fields(), g)
    {
      ghost var before := Fields();
      if 0 < numFree {
        var it := ShiftFree();
        AdmitGrants(before, Fields(), Reuse(it));
        return Reuse(it);
      }
      if 0 < conf.active && conf.active <= active {
        if conf.waitTimeout == 0 && !conf.wait {
          return Exhausted;
        }
        var req := |chans|;
        chans := chans + [Chan(None, false)];
        var reqKey := nextRequest;
        nextRequest := nextRequest + 1;
        itemRequests := itemRequests[reqKey := req];
        return Queue(reqKey, req);
      }
      active := active + 1;
      return Dial;
    }

    /** The first locked region of Get; no grant when the pool is closed. */
    method Get() returns (g: Option<Grant>)
      requires Valid()
      modifies this, freeItem
      ensures Valid() && freeItem == old(freeItem)
      ensures if old(closed) then g.None? && Fields() == old(Fields())
              else g.Some? && (Fields(), g.value) == Admit(old(Fields())) && Granted(old(Fields()), Fields(), g.value)
      ensures g.Some? ==>
                g.value == if 0 < old(numFree) then Reuse(old(freeItem[0]))
                           else if !(0 < conf.active <= old(active)) then Dial
                           else if MayWait(conf) then Queue(old(nextRequest), |old(chans)|)
                           else Exhausted
    {
      if closed {
        return None;
      }
      var grant := AdmitLocked();
      return Some(grant);
    }

    /** The locked region of Get after it closed an expired idle item. */
    method GetAgain() returns (g: Grant)
      requires Valid()
      modifies this, freeItem
      ensures Valid() && freeItem == old(freeItem)
      ensures (Fields(), g) == Admit(Release(old(Fields())))
    {
      ReleaseLocked();
      g := AdmitLocked();
    }

    /** The locked region of Get after it closed an expired item that it had been handed. */
    method GetRedial()
      requires Valid()
      modifies this`active, this`openerCh
      ensures Valid() && Fields() == Redial(old(Fields()))
      ensures exists c :: Released(old(Fields()), c) && Fields() == c.(active := c.active + 1)
    {
      ReleaseLocked();
      active := active + 1;
    }

    /**
     One pass of Get that nothing interrupts, up to where it dials, waits or returns, with the clock at
     `now`; `discarded` is what it closes.  It reuses the oldest idle item that has not expired, if
     any, and closes those before it; otherwise it closes them all and is answered by the limit.
     */
    method GetPass(now: int) returns (g: Option<Grant>, discarded: seq<Item>)
      requires Valid()
      modifies this, freeItem
      ensures Valid()
      ensures if old(closed) then g.None? && discarded == [] && Fields() == old(Fields())
              else g.Some? && Passing(old(Fields()), Fields(), g.value, discarded, now)
                   && (g.value.Reuse? ==> !Expired(g.value.it, conf.idleTimeout, now))
    {
      discarded := [];
      g := Get();
      if g.None? {
        return;
      }
      PassStarts(old(Fields()), Fields(), g.value, now);
      while g.value.Reuse? && Expired(g.value.it, conf.idleTimeout, now)
        invariant Valid() && freeItem == old(freeItem) && g.Some?
        invariant Passing(old(Fields()), Fields(), g.value, discarded, now)
        decreases |Fields().free| + if g.value.Reuse? then 1 else 0
      {
        ghost var before := Fields();
        var again := GetAgain();
        PassGoesOn(old(Fields()), before, g.value, discarded, Fields(), again, now);
        discarded := discarded + [g.value.it];
        g := Some(again);
      }
    }

    method CancelRequest(reqKey: nat)
      requires Valid()
      modifies this`itemRequests
      ensures Valid() && Fields() == Cancel(old(Fields()), reqKey)
    {
      itemRequests := itemRequests - {reqKey};
    }

    /** `pick` is the key the map iteration happens to yield first. */
    method PutItemLocked(c: nat, now: int) returns (added: bool, ghost pick: nat)
      requires Valid()
      modifies this`itemRequests, this`chans, this`numFree, this`freeItem, freeItem
      ensures Valid() && (freeItem == old(freeItem) || fresh(freeItem))
      ensures ValidPick(old(Fields()), pick)
      ensures Fields() == PutItem(old(Fields()), Item(now, c), pick).0
      ensures added <==> !PutItem(old(Fields()), Item(now, c), pick).1.Refused?
    {
      added, pick := false, 0;
      if itemRequests != map[] {
        pick :| pick in itemRequests;
      }
      if closed {
        return;
      }
      if 0 < conf.active && conf.active < active {
        return;
      }
      if itemRequests != map[] {
        var reqKey :| reqKey in itemRequests;
        pick := reqKey;
        var req := itemRequests[reqKey];
        itemRequests := itemRequests - {reqKey};
        chans := chans[req := chans[req].(buf := Some(Item(now, c)))];
        added := true;
      } else if numFree < MaxIdle(conf) {
        AppendFree(Item(now, c));
        added := true;
      }
    }

    /** Returns whether the caller's item is to be closed. */
    method Put(c: nat, forceClose: bool, now: int) returns (toClose: bool, ghost pick: nat)
      requires Valid()
      modifies this, freeItem
      ensures Valid() && (freeItem == old(freeItem) || fresh(freeItem))
      ensures ValidPick(old(Fields()), pick)
      ensures if forceClose then toClose && Released(old(Fields()), Fields())
              else exists d :: TakenIn(old(Fields()), Item(now, c), pick, Fields(), d) && toClose == d.Refused?
      ensures if forceClose then toClose && Fields() == Release(old(Fields()))
              else var (r, d) := PutOrDrop(old(Fields()), Item(now, c), pick); Fields() == r && toClose == d.Refused?
    {
      if forceClose {
        if itemRequests != map[] {
          pick :| pick in itemRequests;
        } else {
          pick := 0;
        }
        ReleaseLocked();
        return true, pick;
      }
      var added;
      added, pick := PutItemLocked(c, now);
      if !added {
        active := active - 1;
      }
      toClose := !added;
      PutTakesIn(old(Fields()), Item(now, c), pick, Fields(), PutOrDrop(old(Fields()), Item(now, c), pick).1);
    }

    /** Fills the place of the item at `i` with the last one. */
    method SwapOutFree(i: nat)
      requires Valid() && i < numFree
      modifies this`numFree, freeItem
      ensures Valid() && Fields() == old(Fields()).(free := SwapOut(old(freeItem[..numFree]), i))
    {
      var last := numFree - 1;
      freeItem[i] := freeItem[last];
      numFree := last;
      assert freeItem[..numFree] == SwapOut(old(freeItem[..numFree]), i);
    }

    /** The in-place sweep of the cleaner; the items it returns are closed after unlocking. */
    method CleanStale(now: int) returns (closing: seq<Item>)
      requires Valid()
      modifies this`active, this`numFree, freeItem
      ensures Valid() && (Fields(), closing) == SweepCore(old(Fields()), now)
    {
      closing := [];
      if closed || conf.idleTimeout <= 0 {
        return;
      }
      var expiredSince := now - conf.idleTimeout;
      ghost var all := Sweep(freeItem[..numFree], 0, expiredSince);
      ghost var rest := all.1;
      var i := 0;
      while i < numFree
        invariant Valid() && i <= numFree
        invariant Fields() == old(Fields()).(free := freeItem[..numFree], active := active)
        invariant active == old(active) - |closing|
        invariant Sweep(freeItem[..numFree], i, expiredSince) == (all.0, rest)
        invariant closing + rest == all.1
        decreases numFree - i
      {
        ghost var before := freeItem[..numFree];
        if freeItem[i].createdAt < expiredSince {
          SweepOn(before, i, expiredSince);
          closing := closing + [freeItem[i]];
          rest := rest[1..];
          active := active - 1;
          SwapOutFree(i);
        } else {
          i := i + 1;
        }
      }
      assert closing == all.1;
    }

    /** Closes the channel of every pending request. */
    method CloseRequestsLocked()
      requires numFree <= freeItem.Length && WellKeyed(Fields())
      modifies this`chans
      ensures |chans| == |old(chans)|
      ensures forall k :: 0 <= k < |chans| ==>
                chans[k] == if k in itemRequests then old(chans)[k].(closed := true) else old(chans)[k]
    {
      var todo := itemRequests.Keys;
      while todo != {}
        invariant todo <= itemRequests.Keys && |chans| == |old(chans)|
        invariant forall k :: 0 <= k < |chans| ==>
                    chans[k] == if k in itemRequests && k !in todo then old(chans)[k].(closed := true) else old(chans)[k]
        decreases todo
      {
        var reqKey :| reqKey in todo;
        var req := itemRequests[reqKey];
        chans := chans[req := chans[req].(closed := true)];
        todo := todo - {reqKey};
      }
    }

    /** Returns the idle items, which Close closes before it unlocks; it also lets the cleaner and the opener stop. */
    method Close() returns (closing: seq<Item>)
      requires Valid()
      modifies this
      ensures Valid() && Fields() == SliceCore.Close(old(Fields()))
      ensures if old(closed) then Fields() == old(Fields()) else Shut(old(Fields()), Fields())
      ensures closing == if old(closed) then [] else old(freeItem[..numFree])
      ensures cleanerStarted == old(cleanerStarted) && cleanerClosed == cleanerStarted && openerStopped
    {
      if closed {
        return [];
      }
      cleanerClosed := cleanerStarted;
      closing := freeItem[..numFree];
      freeItem, numFree := new Item[0], 0;
      closed := true;
      CloseRequestsLocked();
      openerStopped := true;
      CloseShuts(old(Fields()), Fields());
    }
  }
}
