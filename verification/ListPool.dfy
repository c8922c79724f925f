/** The List pool as a class: each method is a region under its mutex, proved to compute its ListCore function. */
module ListPool {
  import opened Pool
  import opened ListCore
  import opened ListSpec

  class List {
    var conf: Config
    var closed: bool
    var active: int
    var idles: seq<Item>      // the linked list, front first
    var cleanerStarted: bool  // the cleaner's channel is made, and its goroutine with it
    var cleanerPoked: bool    // the cleaner's channel, of capacity one, holds a token
    ghost var signals: nat    // how often a waiter was signalled, heard or not

    ghost predicate Valid()
      reads this
    {
      Sorted(idles)
    }

    ghost function Fields(): Core
      reads this
    {
      Core(conf, closed, active, idles)
    }

    constructor (c: Config)
      requires ValidConfig(c)
      ensures Valid() && Fields() == NewCore(c) && signals == 0
      ensures cleanerStarted == (0 < c.idleTimeout) && !cleanerPoked
    {
      conf, closed, active, idles := c, false, 0, [];
      cleanerStarted, cleanerPoked, signals := false, false, 0;
      new;
      StartCleanerLocked(c.idleTimeout);
    }

    /** The cleaner starts when the timeout is first on, once; a shorter timeout than the present one wakes it. */
    method StartCleanerLocked(d: int)
      modifies this`cleanerStarted, this`cleanerPoked
      ensures cleanerStarted == (old(cleanerStarted) || 0 < d)
      ensures cleanerPoked == (old(cleanerPoked) || (old(cleanerStarted) && 0 < d < conf.idleTimeout))
    {
      if d <= 0 {
        return;
      }
      if d < conf.idleTimeout && cleanerStarted {
        cleanerPoked := true;
      }
      if !cleanerStarted {
        cleanerStarted := true;
      }
    }

    method Reload(c: Config)
      requires Valid()
      modifies this`conf, this`cleanerStarted, this`cleanerPoked
      ensures Valid() && Fields() == old(Fields()).(conf := c)
      ensures cleanerStarted == (old(cleanerStarted) || 0 < c.idleTimeout)
      ensures cleanerPoked == (old(cleanerPoked) || (old(cleanerStarted) && 0 < c.idleTimeout < old(conf).idleTimeout))
    {
      StartCleanerLocked(c.idleTimeout);
      conf := c;
    }

    /** A locked region of Get with `rem` turns of its inner loop left. */
    method AdmitLocked(rem: nat) returns (g: Grant)
      requires Valid()
      modifies this`active, this`idles
      ensures Valid() && (Fields(), g) == Admit(old(Fields()), rem)
      ensures !closed && !g.Reuse? ==>
                && (g.Dial? <==> conf.active == 0 || old(active) < conf.active)
                && (g.Park? <==> !g.Dial? && MayWait(conf))
                && (g.Exhausted? <==> !g.Dial? && !MayWait(conf))
    {
      if 0 < rem && idles != [] {
        var ic := idles[0];
        idles := idles[1..];
        return Reuse(ic, rem - 1);
      }
      if closed {
        return PoolClosed;
      }
      if conf.active == 0 || active < conf.active {
        active := active + 1;
        return Dial;
      }
      if conf.waitTimeout == 0 && !conf.wait {
        return Exhausted;
      }
      return Park;
    }

    method ReleaseLocked()
      requires Valid()
      modifies this`active, this`signals
      ensures Valid() && Fields() == Release(old(Fields())) && signals == old(signals) + 1
    {
      active := active - 1;
      signals := signals + 1;
    }

    /** The locked region of Get after it closed an expired idle item. */
    method GetAgain(rem: nat) returns (g: Grant)
      requires Valid()
      modifies this`active, this`idles, this`signals
      ensures Valid() && (Fields(), g) == Admit(Release(old(Fields())), rem) && signals == old(signals) + 1
    {
      ReleaseLocked();
      g := AdmitLocked(rem);
    }

    /**
     One pass of Get that nothing interrupts, with the clock at `now`; `discarded` is what it closes.
     It reuses an idle item exactly when some idle item has not expired, and then the newest one;
     otherwise it closes them all, gives their slots back and is admitted like any newcomer.
     */
    method Get(now: int) returns (g: Grant, discarded: seq<Item>)
      requires Valid()
      modifies this`active, this`idles, this`signals
      ensures Valid() && signals == old(signals) + |discarded|
      ensures closed ==> g.PoolClosed? && discarded == [] && Fields() == old(Fields())
      ensures !closed ==> (g.Reuse? <==> exists x :: x in old(idles) && !Expired(x, conf.idleTimeout, now))
      ensures g.Reuse? ==> old(idles) != [] && discarded == [] && g.it == old(idles[0]) && Fields() == old(Fields()).(idles := old(idles)[1..])
      ensures !closed && !g.Reuse? ==>
                discarded == old(idles)
                && (Fields(), g) == Admit(Core(conf, closed, old(active) - |discarded|, []), 0)
      ensures !closed && !g.Reuse? ==>
                var left := old(active) - |discarded|;
                && idles == [] && active == (if g.Dial? then left + 1 else left)
                && (g.Dial? <==> conf.active == 0 || left < conf.active)
                && (g.Park? <==> !g.Dial? && MayWait(conf))
                && (g.Exhausted? <==> !g.Dial? && !MayWait(conf))
    {
      FrontDecides(idles, conf.idleTimeout, now);
      discarded := [];
      if closed {
        return PoolClosed, [];
      }
      var rem := |idles|;
      g := AdmitLocked(rem);
      while g.Reuse? && Expired(g.it, conf.idleTimeout, now)
        invariant Valid() && signals == old(signals) + |discarded|
        invariant active == old(active) - |discarded| + if g.Dial? then 1 else 0
        invariant if g.Reuse? then discarded + [g.it] + idles == old(idles) && g.rem == |idles|
                  else discarded == old(idles) && (Fields(), g) == Admit(Core(conf, closed, old(active) - |discarded|, []), 0)
        invariant forall x | x in discarded :: Expired(x, conf.idleTimeout, now)
        decreases |idles| + if g.Reuse? then 1 else 0
      {
        discarded := discarded + [g.it];
        g := GetAgain(g.rem);
      }
      if g.Reuse? {
        assert old(idles)[|discarded|] == g.it;
      }
    }

    /** Returns the item that the caller of Put closes after unlocking, if any.  A waiter is signalled in any case. */
    method Put(c: nat, forceClose: bool, now: int) returns (toClose: Option<nat>)
      requires Valid() && forall x | x in idles :: x.createdAt <= now
      modifies this`active, this`idles, this`signals
      ensures Valid() && (Fields(), toClose) == PutItem(old(Fields()), Item(now, c), forceClose)
      ensures TakenIn(old(Fields()), Item(now, c), forceClose, Fields(), toClose)
      ensures signals == old(signals) + 1
    {
      PutTakesIn(Fields(), Item(now, c), forceClose, PutItem(Fields(), Item(now, c), forceClose).0, PutItem(Fields(), Item(now, c), forceClose).1);
      toClose := Some(c);
      if !closed && !forceClose {
        idles := [Item(now, c)] + idles;
        if conf.idle < |idles| {
          var last := |idles| - 1;
          toClose := Some(idles[last].c);
          idles := idles[..last];
        } else {
          toClose := None;
        }
      }
      if toClose.None? {
        signals := signals + 1;
        return;
      }
      ReleaseLocked();
    }

    /** One turn of the cleaner's loop. */
    method CleanBackLocked(now: int) returns (gone: Option<Item>)
      requires Valid()
      modifies this`active, this`idles, this`signals
      ensures Valid() && (Fields(), gone) == CleanBack(old(Fields()), now)
      ensures Cleaned(old(Fields()), now, Fields(), gone)
      ensures signals == old(signals) + if gone.Some? then 1 else 0
    {
      CleanBackCleans(Fields(), now, CleanBack(Fields(), now).0, CleanBack(Fields(), now).1);
      if idles == [] {
        return None;
      }
      var ic := idles[|idles| - 1];
      if !Expired(ic, conf.idleTimeout, now) {
        return None;
      }
      idles := idles[..|idles| - 1];
      ReleaseLocked();
      gone := Some(ic);
    }

    /** A whole sweep that nothing interrupts takes exactly the expired items, oldest first. */
    method CleanStale(now: int) returns (closing: seq<Item>)
      requires Valid()
      modifies this`active, this`idles, this`signals
      ensures Valid() && signals == old(signals) + |closing|
      ensures |closing| == old(|idles|) - |idles| == old(active) - active && idles <= old(idles)
      ensures forall k :: 0 <= k < |closing| ==> closing[k] == old(idles)[old(|idles|) - 1 - k]
      ensures forall x | x in closing :: Expired(x, conf.idleTimeout, now)
      ensures !closed ==> forall x | x in idles :: !Expired(x, conf.idleTimeout, now)
    {
      closing := [];
      if closed || conf.idleTimeout <= 0 {
        return;
      }
      var n := |idles|;
      var i := 0;
      while i < n
        invariant i == |closing| <= n == old(|idles|)
        invariant Valid() && signals == old(signals) + |closing|
        invariant idles == old(idles)[..n - i] && active == old(active) - i
        invariant forall k :: 0 <= k < i ==> closing[k] == old(idles)[n - 1 - k]
        invariant forall x | x in closing :: Expired(x, conf.idleTimeout, now)
      {
        var gone := CleanBackLocked(now);
        if gone.None? {
          assert forall k :: 0 <= k < |idles| ==> idles[|idles| - 1].createdAt <= idles[k].createdAt;
          break;
        }
        closing := closing + [gone.value];
        i := i + 1;
      }
    }

    /** Returns the idle items, which Close closes after unlocking. */
    method Close() returns (closing: seq<Item>)
      requires Valid()
      modifies this`closed, this`active, this`idles
      ensures Valid() && Fields() == ListCore.Close(old(Fields())) && closing == old(idles)
    {
      closing := idles;
      idles := [];
      closed := true;
      active := active - |closing|;
    }
  }
}
