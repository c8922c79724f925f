# Two resource pools and a cache-aside engine, verified

This project models three parts of the eins library in Dafny and proves what every run of them keeps:

- `onepool/slice.go`: a pool with a FIFO of idle items, a map of waiting requests with one-slot hand-off
  channels, and a goroutine that opens items ahead of need;
- `onepool/list.go`: a pool with a LIFO of idle items, a cleaner that releases the lock between removals,
  and a configuration that can be reloaded;
- `onecache/box.go`: `Get`, `GetMulti`, `Refresh`, `RefreshMulti`, `Evict` and `EvictMulti` over a store that
  may lose entries at any time and fail any call.

`dafny verify dfyconfig.toml` checks everything.

## How the model is laid out

| file | content |
|---|---|
| `Pool.dfy`, `Lifecycle.dfy` | configuration, items and expiry; the places a resource can be in and the legal moves |
| `SliceCore.dfy`, `ListCore.dfy` | the fields under the mutex, and one function for each locked region |
| `SliceSpec.dfy`, `ListSpec.dfy` | what a locked region has to do, as a relation; the function is the only way to meet it |
| `SlicePool.dfy`, `ListPool.dfy` | the pools as classes; each method is a locked region and is proved to compute its function |
| `SliceMachine.dfy`, `ListMachine.dfy` | any number of callers, the background goroutines and the clients, as a step machine |
| `SliceInvariants.dfy`, `SlicePlacement.dfy`, `SliceAccounting.dfy`, `ListInvariants.dfy` | what every step keeps |
| `SliceAnswers.dfy`, `ListAnswers.dfy` | what each step does for the one who takes it, and round trips of a few steps |
| `SliceTheorems.dfy`, `ListTheorems.dfy` | what holds in every run |
| `SliceLiveness.dfy` | when a waiting Get of a Slice pool can still be served |
| `SliceWitness.dfy`, `ListWitness.dfy` | the exact conditions of what fails, with the runs that fail |
| `CacheCore.dfy`, `CacheBox.dfy` | the cache as functions, and as classes with the program's loops |
| `CacheTheorems.dfy`, `CacheAnswers.dfy` | the cache against its source; what each call answers, stores and spends |

A step is one region between locking and unlocking the mutex, or one unlocked action (testing an item's age
and closing it, a return of `New`, a receive, choosing the context in a `select`). A run is any sequence of
steps; a step that is not enabled does nothing. The clock is a number that never decreases, and a context may
be done at any time. Which key a map iteration yields first, and which parked waiter a signal reaches, are
parameters of the step. Channels are values in a sequence, so a channel keeps its identity after its key has
left the request map. `hist` records, for each resource `New` ever returned, every place it has been in.

Client obligations are built into the steps: `New` returns a resource that was never seen before, and only a
resource that is out on lease is put back, once per lease. `nextRequest` is unbounded, as the program itself
assumes it does not overflow (`onepool/slice.go:397`).

The cache functions take the environment's choices as arguments: the entries the store loses, the calls it
fails and how much of a failed call took effect, the fallback's answer, the limiter's answer, and the order in
which a map is iterated. Ids and values are numbers; a value may be a nil pointer.

## What the proofs found

Six things do not hold of the code in general. For each the exact condition is proved, over all runs:

- A `Get` that is cancelled while an item is on its way to it abandons that item: nobody receives it and its
  slot is never released (`onepool/slice.go:143-149`). Every slot can be lost so, and then the requests of an
  open pool wait for nothing. `NobodyStrandedExactlyWhen`: this cannot happen exactly where no `Get` may wait,
  that is where the limit is not positive or waiting is off. `CanBeServedExactlyWhen` says of each single
  state whether a waiting `Get` can still be served.
- `active` can pass the limit by one, when an item expires between its hand-off and its receipt
  (`onepool/slice.go:154-164`). `LimitHoldsExactlyWhen`: it cannot exactly where nothing expires or no `Get`
  waits.
- A closed Slice pool keeps counting its idle items, and counts an open that is never made when it releases
  beside a request that is still in its map (`onepool/slice.go:241-257`, `onepool/slice.go:434-441`).
  `CounterIsExact` states `active` exactly, with this drift; `CounterIsRightExactlyWhen`: there is none in any
  run exactly where nothing is kept idle and no `Get` waits. The List pool counts exactly throughout.
- A send on the opener's channel can find it full and block under the mutex (`onepool/slice.go:255`).
  `OpenerChannelHasRoomExactlyWhen`: it cannot exactly where the limit is within the channel's capacity or no
  `Get` waits.
- A List waiter can miss the signal for the very item it waits for, since `signal` only reaches a caller that
  is already in its `select` (`onepool/list.go:184-197`, `onepool/list.go:252-257`).
  `NobodyMissesAnItemExactlyWhen`: it cannot exactly where no `Get` may wait or nothing is kept idle.
- A cleaner of the List pool that finds the timeout switched off stops, and no later `Reload` starts it again,
  since its channel is never reset to nil (`onepool/list.go:95-98`, `onepool/list.go:110-113`).
  `CleanerLivesExactlyWhen`: over the configurations of a run the cleaner of the open pool lives on exactly
  when the timeout is never switched off after it was on; `CleanerIsLost` shows the pool with its first
  configuration back and no sweep ever again.

And of the cache: `RefreshMulti` stores nil values (`onecache/box.go:427-434`), which `GetMulti` passes over
when it fetches them itself (`onecache/box.go:241-243`). So a call can return a nil entry that it would leave
out on an empty store. `WarmEqualsColdExactlyWhen`: it cannot exactly when the source has none of the ids as nil.

## Model

| member | source | states |
|---|---|---|
| Pool.IdsRemove | onepool/slice.go:105-107 | taking one item out of a collection without duplicates removes exactly its resource |
| Lifecycle.ClosedIsFinal | onepool/pool.go:82-84 | a resource on a legal path is closed at most once, as its last move |
| Lifecycle.PutBetweenLeases | onepool/slice.go:178-191 | between two leases of one resource lies a Put that stored it or handed it over |
| SliceCore.SweepKeepsMultiset | onepool/slice.go:369-382 | the swap-and-shrink loop loses and duplicates nothing, whatever order it leaves |
| SliceCore.SweepTakesExactlyTheExpired | onepool/slice.go:362-382 | the cleaner takes exactly the items that `expired` would reject at that instant and lowers `active` by their number |
| SliceCore.SweepIds | onepool/slice.go:371-381 | kept and swept items partition the old ones and stay free of duplicates |
| SliceSpec.ReleaseOpensWhatFits | onepool/slice.go:241-257 | a release counts one slot off and then the most opens that the requests ask for and the limit admits, each queued; a closed pool counts one at most and queues none; nothing else meets this |
| SliceSpec.AdmitGrants | onepool/slice.go:103-133 | a Get is granted the oldest idle item if there is one; below the limit it may dial; at it, it queues where it may wait and is refused otherwise; nothing else meets this |
| SliceSpec.PutTakesIn | onepool/slice.go:178-227 | an unforced Put hands its item to a request, else stores it exactly when there is room (two where the idle limit is unset), and is refused when closed, over the limit or full |
| SliceSpec.CloseShuts | onepool/slice.go:433-441 | Close empties the idle items, closes exactly the pending channels, and changes nothing else |
| SlicePool.Slice.constructor | onepool/slice.go:64-81 | an accepted configuration gives an open, empty pool, whose cleaner runs exactly with a positive timeout |
| SlicePool.Slice.MaybeOpenNewItems | onepool/slice.go:241-257 | the token loop computes the refill in closed form, also when the pool is closed in mid-loop |
| SlicePool.Slice.ReleaseLocked | onepool/slice.go:418-421 | a release is one slot less, then the refill |
| SlicePool.Slice.ShiftFree | onepool/slice.go:105-107 | the in-place shift removes the oldest idle item and keeps the order of the rest |
| SlicePool.Slice.AppendFree | onepool/slice.go:222-224 | appending keeps the items in the array and adds one at the end, also when the array grows |
| SlicePool.Slice.AdmitLocked | onepool/slice.go:103-133 | what a Get leaves the lock with: the oldest idle item, leave to dial below the limit, a fresh request or a refusal at it |
| SlicePool.Slice.Get | onepool/slice.go:95-133 | the first locked region of Get: the answer by idle items, limit and waiting; nothing changes when the pool is closed |
| SlicePool.Slice.GetPass | onepool/slice.go:95-133 | an uninterrupted Get takes idle items oldest first: it closes the expired ones before the first that is unexpired and returns that; with none it closes them all, gives their slots back and is answered by the limit |
| SlicePool.Slice.GetAgain | onepool/slice.go:109-117 | after an expired idle item the slot is released before Get goes on |
| SlicePool.Slice.GetRedial | onepool/slice.go:154-164 | after an expired hand-off the slot is released, possibly refilled, and taken again unchecked |
| SlicePool.Slice.CancelRequest | onepool/slice.go:143-148 | a cancelled Get only removes its request |
| SlicePool.Slice.PutItemLocked | onepool/slice.go:202-227 | an item goes to some waiting request, else to the idle items within the limit, else it is refused |
| SlicePool.Slice.Put | onepool/slice.go:178-191 | a forced Put releases its slot with a refill, a refused one without |
| SlicePool.Slice.CleanStale | onepool/slice.go:362-382 | the in-place loop ends and computes the sweep |
| SlicePool.Slice.Close | onepool/slice.go:424-445 | Close empties the pool, closes every pending channel and the cleaner's, stops the opener and keeps the counter; a second Close does nothing |
| SlicePool.Slice.CloseRequestsLocked | onepool/slice.go:439-441 | the loop closes the channels of exactly the pending requests |
| SliceAnswers.GetAnswers | onepool/slice.go:95-133 | in the machine an open pool answers a Get by its idle items, its limit and its waiting, a closed one refuses it unchanged |
| SliceAnswers.RelockAnswers | onepool/slice.go:109-133 | after an expired idle item the slot is released first, and the answer is by the fields after that |
| SliceAnswers.RedialAnswers | onepool/slice.go:154-164 | after an expired hand-off the slot is released, with its refill, and one more is taken unchecked |
| SliceAnswers.PutAnswers | onepool/slice.go:178-227 | where a Put leaves the resource: in a request's channel, idle or closed, and with what counter |
| SliceAnswers.CleanerClosesExactlyTheExpired | onepool/slice.go:362-387 | from every reachable state of an open pool a whole round of the cleaner closes exactly the idle resources that had expired, keeps the others idle, and lowers `active` by their number |
| SliceAnswers.PutThenGet | onepool/slice.go:95-227 | with nothing idle and nobody waiting, Put then Get returns the same resource and restores the pool |
| SliceAnswers.HandOffServes | onepool/slice.go:150-221 | with a Get waiting, Put, receive and age test move the lease to that Get, counter and idle items unchanged |
| SliceInvariants.KeyedNext | onepool/slice.go:129-161 | every step keeps: one channel for each waiting Get, and a Get for each pending or undelivered channel |
| SlicePlacement.PlacedNext | onepool/slice.go:95-275 | every step keeps each resource in exactly the place its history ends in, along legal moves |
| SliceAccounting.BalancedNext | onepool/slice.go:95-275 | every step, open or closed, moves `active` by exactly what it adds to or takes from the slots in use, and by its drift: the idle items at Close, and one for a later release beside a waiting request |
| SliceAccounting.LimitedNext | onepool/slice.go:104-131 | every step keeps work conservation, the limit plus one, and the idle limit |
| SliceAccounting.TokensRiseToTheLimit | onepool/slice.go:241-257 | tokens are queued only up to the limit |
| SliceTheorems.CounterIsExact | onepool/slice.go:49 | in every run `active` is the slots in use plus the summed drift of the steps, and there is none while the pool is open |
| SliceTheorems.WorkIsConserved | onepool/slice.go:119-131 | in every run of an open pool a request waits only when nothing is idle and the limit is reached |
| SliceTheorems.OvershootIsOneAtMost | onepool/pool.go:53-55 | in every run `active` stays within the limit, plus one where hand-offs can expire |
| SliceTheorems.IdleItemsAreFew | onepool/slice.go:404-416 | in every run the idle items stay within the idle limit or its default |
| SliceTheorems.LeasesAreExclusive | onepool/slice.go:95-275 | in every run a resource is in one place: idle, in a channel, with one caller, with the opener, swept, leased or closed |
| SliceTheorems.LivesAreLegal | onepool/slice.go:349-445 | over a whole run a resource is closed at most once and never leased twice without a Put between |
| SliceTheorems.ReusedItemsAreFresh | onepool/slice.go:109-115 | in every run a Get leases an idle or handed-over item exactly when it is unexpired, and closes it exactly when it is expired |
| SliceTheorems.CloseReachesEveryWaiter | onepool/slice.go:150-153 | after Close every Get that was waiting can go on, with its item or with the closed channel |
| SliceTheorems.SendNeverBlocks | onepool/slice.go:213-221 | every hand-off finds its channel pending, open and empty |
| SliceTheorems.CloseFindsChannelsEmpty | onepool/slice.go:439-441 | Close closes only open channels that hold no item |
| SliceTheorems.OneSendPerChannel | onepool/slice.go:219-220 | after one send on a channel no later step of any run sends on it or closes it |
| SliceTheorems.AbandonedPoolStaysEmpty | onepool/slice.go:143-149 | when as many hand-offs as slots are abandoned while a request waits, no later step of any run leases an item or dials |
| SliceLiveness.SpareNext | onepool/slice.go:154-164 | every step keeps: while `active` is over the limit, fewer items than the limit are undelivered |
| SliceLiveness.Serve | onepool/slice.go:121-275 | from every reachable state in which somebody can act, a run without Close in which a given waiting Get is sent an item |
| SliceLiveness.CanBeServedExactlyWhen | onepool/slice.go:121-275 | in every reachable state of an open pool a waiting Get can still be served if and only if somebody can act; otherwise no continuation serves any Get |
| SliceWitness.OvershootHappens | onepool/slice.go:154-164 | for each configuration with expiring hand-offs, a run that reaches the limit plus one |
| SliceWitness.LimitHoldsExactlyWhen | onepool/slice.go:121-164 | the limit holds in every run if and only if requests are refused or items cannot expire |
| SliceWitness.CancelledHandOffsAbandonThePool | onepool/slice.go:143-149 | for each configuration in which a Get may wait, a run that loses every slot and leaves a request with nobody to act for it |
| SliceWitness.NobodyStrandedExactlyWhen | onepool/slice.go:121-149 | in all runs somebody can act for the waiting requests of an open pool if and only if no Get may wait |
| SliceWitness.CounterDrifts | onepool/slice.go:434-441 | wherever items are kept or a Get may wait, a closed pool that counts more than is in use |
| SliceWitness.CounterIsRightExactlyWhen | onepool/slice.go:241-257 | `active` equals the slots in use in all runs, also after Close, if and only if nothing is kept idle and no Get may wait |
| SliceWitness.OpenerChannelHasRoomExactlyWhen | onepool/slice.go:241-257 | in all runs the opener's tokens stay within its channel's capacity, so that no send blocks under the lock, if and only if the limit does or no Get waits |
| ListCore.FrontDecides | onepool/list.go:145-159 | in a list that is newest first some item is unexpired exactly when the front one is |
| ListCore.PutEvictsTheOldest | onepool/list.go:204-222 | Put keeps all items but one, and that one is its own when closing is due, else an oldest one over the idle limit |
| ListSpec.AdmitGrants | onepool/list.go:145-182 | a Get is granted the newest idle item while it has turns; else nothing when closed; it may dial below the limit or without one (zero); at it, it parks where it may wait and is refused otherwise; nothing else meets this |
| ListSpec.PutTakesIn | onepool/list.go:204-222 | an unforced Put goes to the front and is kept alone below the idle limit, else the back one is evicted with its slot; a forced or late one is closed |
| ListSpec.CleanBackCleans | onepool/list.go:114-130 | a turn of the cleaner takes the back item exactly when it has expired |
| ListPool.List.constructor | onepool/list.go:61-71 | an accepted configuration gives an open, empty pool, whose cleaner runs exactly with a positive timeout |
| ListPool.List.StartCleanerLocked | onepool/list.go:83-99 | the cleaner starts once, when a timeout is first positive; later a shorter timeout than the present one wakes it |
| ListPool.List.Reload | onepool/list.go:74-80 | Reload changes the configuration, starts the cleaner or wakes it, and leaves counter, idle items and closedness alone |
| ListPool.List.AdmitLocked | onepool/list.go:143-183 | what a locked region of Get leaves the lock with; without a reuse it dials exactly below the limit or without one, and else parks exactly where it may wait |
| ListPool.List.Get | onepool/list.go:137-201 | an uninterrupted Get reuses an item exactly when some idle item is unexpired, and then the newest; otherwise it closes them all, releases their slots with a signal each, and then dials exactly below the limit or without one, and else parks exactly where it may wait |
| ListPool.List.Put | onepool/list.go:204-222 | Put stores at the front, evicts from the back over the idle limit, and signals once in every case |
| ListPool.List.CleanBackLocked | onepool/list.go:114-130 | one turn of the cleaner removes the back item if it has expired, and then releases its slot with a signal |
| ListPool.List.CleanStale | onepool/list.go:109-132 | an uninterrupted sweep removes exactly the expired items, oldest first, and releases their slots with a signal each |
| ListPool.List.Close | onepool/list.go:225-236 | Close takes all idle items and their slots |
| ListAnswers.GetAnswers | onepool/list.go:137-201 | in the machine a Get, one that goes on after an expired item, and one that was woken are answered by idle items, closedness, limit and waiting |
| ListAnswers.SignalReachesOne | onepool/list.go:247-257 | a Put, a release or an item the cleaner takes wakes exactly one parked Get if there is one; no other step wakes any |
| ListAnswers.PutAnswers | onepool/list.go:204-222 | where a Put leaves the resource and what it evicts |
| ListAnswers.CleanerAnswers | onepool/list.go:105-132 | the cleaner stops for good exactly at a closed pool or a timeout that is off; else it takes the back item exactly when that has expired and turns are left |
| ListAnswers.PutThenGet | onepool/list.go:137-222 | while the idle limit leaves room, Put then Get returns the same resource and restores the pool, whatever else is idle |
| ListAnswers.PutServesParked | onepool/list.go:184-222 | a Get in its select that a Put wakes can lease what was put, even where the oldest item is evicted |
| ListAnswers.ForcedPutServesParked | onepool/list.go:166-222 | a forced Put passes its slot on to the Get it wakes, which may dial |
| ListInvariants.OrderedNext | onepool/list.go:207-209 | every step keeps the idle items newest first, and a closed pool without any |
| ListInvariants.PlacedNext | onepool/list.go:102-236 | every step keeps each resource in exactly the place its history ends in, along legal moves |
| ListInvariants.AccountedNext | onepool/list.go:137-250 | every step keeps `active` equal to idle items, leases and callers that own a slot |
| ListTheorems.CounterIsExact | onepool/list.go:48-49 | in every run, also after Close and Reload, `active` is exact; after Close it reaches zero when leases and calls drain |
| ListTheorems.LeasesAreExclusive | onepool/list.go:102-236 | in every run a resource is in one place |
| ListTheorems.LivesAreLegal | onepool/list.go:102-236 | over a whole run a resource is closed at most once and never leased twice without a Put between |
| ListTheorems.ReusedItemsAreFresh | onepool/list.go:153-156 | in every run a Get leases an idle item exactly when it is unexpired at the test, and closes it exactly when it is expired |
| ListTheorems.NewestFirst | onepool/list.go:53-54 | in every run the idle items are newest first |
| ListTheorems.SweepLeavesNothingStale | onepool/list.go:114-130 | whatever runs while the sweep has released the lock, at its end no idle item is left that was expired at its start, unless a Reload loosened or switched off the timeout |
| ListTheorems.ClosedForever | onepool/list.go:137-201 | from Close on nothing is idle, only Gets that already popped an item or began to dial may still return one, and every Put closes its resource |
| ListTheorems.NextRespectsLimits | onepool/list.go:166-168 | no step raises `active` at the limit, nor the idle list past its old length and the idle limit |
| ListTheorems.LimitsAcrossReload | onepool/list.go:74-80 | with positive limits both stay within the largest limits ever configured, over any run |
| ListWitness.SignalIsMissed | onepool/list.go:184-197 | for each configuration with positive limits in which a Get may wait, a run in which one waits beside an idle item |
| ListWitness.NobodyMissesAnItemExactlyWhen | onepool/list.go:166-197 | in all runs without Reload no Get of an open pool waits beside an idle item, if and only if no Get may wait or nothing is kept idle |
| ListWitness.DoneIsFinal | onepool/list.go:95-98 | over any run a cleaner that has stopped stays stopped |
| ListWitness.CleanerLivesExactlyWhen | onepool/list.go:83-113 | for each sequence of configurations: in all runs with it the open pool's cleaner has not stopped, if and only if the timeout is never switched off after it was on |
| ListWitness.CleanerIsLost | onepool/list.go:74-113 | off and on again leaves the pool as configured at first, open, and never swept again |
| CacheBox.Store.Get | onecache/store/redis.go:60-71 | a read yields the entry, not-found or a failure |
| CacheBox.Store.GetMulti | onecache/store/redis.go:80-120 | a read fills in what is there, part of it when it fails |
| CacheBox.Store.SetMulti | onecache/store/gcache.go:160-181 | pairs are written in turn; unequal lengths are an error |
| CacheBox.Store.Delete | onecache/store/gcache.go:187-193 | the keys are removed, part of them when the call fails |
| CacheBox.Cache.CanFallbackWhenError | onecache/box.go:58-66 | without the option never, without a limiter always, else for one token |
| CacheBox.Cache.Get | onecache/box.go:68-106 | the branches of get and what each does to store, destination and counts |
| CacheBox.Cache.GetMulti | onecache/box.go:169-255 | the loops of getMulti compute the model's GetMulti |
| CacheBox.Cache.MakeKeys | onecache/box.go:169-177 | keys by position, and for each key the last id that has it |
| CacheBox.Cache.CheckMiss | onecache/box.go:193-205 | found values go under their ids, the other ids to the miss list |
| CacheBox.Cache.Collect | onecache/box.go:232-249 | nil values are passed over; keys and values stay aligned |
| CacheBox.Cache.Evict | onecache/box.go:278-280 | deletes one key |
| CacheBox.Cache.EvictMulti | onecache/box.go:286-309 | deletes the keys of the ids, or nothing for no ids |
| CacheBox.Cache.Refresh | onecache/box.go:315-346 | deletes, fetches and stores, stopping at the first error |
| CacheBox.Cache.RefreshMulti | onecache/box.go:389-435 | the same for many ids |
| CacheBox.Cache.Align | onecache/box.go:427-434 | keys and values of the fallback's result have equal lengths and match by position |
| CacheTheorems.SplitFinds | onecache/box.go:193-205 | with injective keys each found value is filed under its id, however ids repeat |
| CacheTheorems.WrittenAt | onecache/box.go:251-253 | what a series of writes leaves: each stored id its value, every other key untouched |
| CacheTheorems.WriteOrderIsIrrelevant | onecache/box.go:236-253 | two iteration orders leave the same store |
| CacheTheorems.GetMultiAsksOnlyForMisses | onecache/box.go:193-212 | the fallback is asked for exactly the ids that the store did not give |
| CacheTheorems.GetMultiIsTransparent | onecache/box.go:169-255 | a call without an error adds to the destination exactly what the source says about the ids, its nils only where the store had them, whatever the store lost or failed; every call keeps the store coherent |
| CacheTheorems.GetMultiHidesTheStore | onecache/box.go:232-249 | where the store has no nils the result is the source's non-nil values for the ids, whatever the store had, and no nil gets into the store |
| CacheTheorems.GetMultiIgnoresOrder | onecache/box.go:236-253 | the outcome does not depend on how the fallback's map is iterated |
| CacheTheorems.GetIsTransparent | onecache/box.go:68-106 | a Get without an error yields what the source says; where that is nothing or nil it leaves the destination alone, unless the store had the nil, and it stores none |
| CacheTheorems.RefreshMultiLeavesNothingStale | onecache/box.go:389-435 | after the delete each requested key is absent or new, on success and on failure; which error each failure gives; other keys are untouched |
| CacheTheorems.CacheStaysCoherent | onecache/box.go:68-436 | over any run of the six operations and any losses and failures each stored entry is the source's value, and never a nil in runs without RefreshMulti |
| CacheTheorems.NilIsHandedOut | onecache/box.go:193-205 | a nil that the store has comes back from a GetMulti, which omits it on an empty store |
| CacheTheorems.WarmEqualsColdExactlyWhen | onecache/box.go:232-434 | after all runs from an empty store a GetMulti gives what it gives on the empty store, if and only if the source has none of its ids as nil |
| CacheAnswers.GetHits | onecache/box.go:75-77 | a hit is returned as it is and no answer of the fallback would make a difference |
| CacheAnswers.GetIsRefused | onecache/box.go:58-103 | a failed read without the option or a token is the caller's error, the destination stays, and no answer of the fallback would make a difference |
| CacheAnswers.GetFallsBack | onecache/box.go:78-100 | a miss, or a failed read that may fall back, yields the fallback's error, nothing for a nil, or its object, which is then the stored entry as far as the write takes effect |
| CacheAnswers.GetConsultsExactlyWhen | onecache/box.go:75-103 | the outcome depends on the fallback if and only if the read found nothing, or failed and may fall back |
| CacheAnswers.GetThenGetHits | onecache/box.go:75-100 | what a Get fetched and stored the next Get returns without the fallback |
| CacheAnswers.RefreshLeavesNothingStale | onecache/box.go:315-346 | after the delete the key is absent or holds what the fallback said; which error each failure gives; no other key is touched |
| CacheAnswers.EvictMultiRemoves | onecache/box.go:286-309 | the entries of the ids are gone on success, as far as it got on failure; others stay |
| CacheAnswers.EvictThenGetAsks | onecache/box.go:68-100 | a Get after an Evict answers what the fallback says, never what the store had |
| CacheAnswers.GetMultiIsRefused | onecache/box.go:188-191 | a failed read that may not fall back fails the call, which adds, asks and stores nothing |
| CacheAnswers.GetMultiAnswers | onecache/box.go:193-215 | otherwise the fallback is asked for exactly the missing ids in their order, if any; the error is the fallback's, and what the store gave is added even then |
| CacheAnswers.UnaskedFallbackIsIgnored | onecache/box.go:208-210 | a call that asks nothing does the same with every fallback |
| CacheAnswers.GetMultiStores | onecache/box.go:236-253 | every object fetched is stored as far as the write takes effect, nils are not, and every other entry stays |
| CacheAnswers.GetMultiWarms | onecache/box.go:186-253 | after a call without an error or loss the store has every requested id that the source has as an object |
| CacheAnswers.SecondGetMultiIsWarm | onecache/box.go:186-253 | a second call asks the fallback for none of these, and for nothing at all if the source has no nils or gaps there |
| CacheAnswers.FallsBackOnlyIfAllowed | onecache/box.go:58-66 | a failed read whose outcome depends on the fallback had the option, and a token where there is a limiter |
| CacheAnswers.ErrorFallbacksAreBudgeted | onecache/box.go:58-82 | over any run the failed reads whose outcome depends on the fallback are no more than the tokens spent, these no more than granted for failed reads, and none without the option; hits and misses cost nothing |

## Left out

- `Slice.Reload`, `setActive`, `setIdle`: `Reload` locks the mutex twice and cannot return; the configuration of a Slice pool is fixed.
- Whether a List waiter that missed its signal is woken by a later one, and fairness of locks and selects: the theorems are about what runs can reach, not about what they reach in time.
- Reading `conf` without the lock in the List pool's `Get` (`onepool/list.go:153`): modelled as one atomic read at the age test.
- `Put` closes an item after unlocking in the List pool; the model closes it within the step.
- ListPool.List.CleanStale: only the sweep that nothing interrupts; `SweepLeavesNothingStale` is about the one that releases the lock between items.
- ListWitness.NobodyMissesAnItemExactlyWhen: runs without Reload, since a Reload can bring in any configuration.
- A send that finds the opener's channel full: the step counts the token all the same, where the program would wait.
- The linked list of the List pool is a sequence and channels are values, so their pointers are not modelled; the Slice pool's idle items are in an array.
- Reflection and type errors of the cache, its `Must` wrappers, expiry times, and the destination pointer that `get` stores: stored values are copies.
- Cache calls that overlap: they run one after another, with losses in between.
- Serialisation, Redis and gcache themselves: only what their calls may do to the entries. A stored nil is given back, while `LocalStore.Get` panics on one (`onecache/store/gcache.go:59-62`).
- `watchdog`, `onesql`, `onenet` and the other packages: client plumbing, or properties that would have to be assumed.
