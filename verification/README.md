# Lunibee, verified

A Dafny model of the algorithms in Lunibee, a Discord library, that carry
invariants over whole runs, with proofs that they keep them.

- **`Collection`** (`RetentionModel`, `RetentionRuns`, `RetentionLaws`, `HeapOrder`,
  `RetentionPolicy`, `Collections`): a map with time-to-live and least-recently-used eviction, built from
  linked records, a heap with stale and moved entries, and a timer. It is proved to be
  indistinguishable, call by call, from a plain timed LRU list.
- **Rate limits shared by many workers** (`BucketState`, `SharedStore`, `SharedRuns`,
  `SharedLaws`): the four scripts that Redis runs, what holds over every interleaving of
  them, and when exactly a request is let out.
- **The request path** (`Scheduler`, `InFlight`, `Acquiring`, `Requests`,
  `Exchanges`, `InvalidResponses`): one queue per bucket built from a chain of gates, when it keeps
  its promise, the loop that acquires a unit, the retry loop that settles it, and the
  ten-minute count of invalid responses.
- **A collection kept in Redis** (`RedisCollections`): three structures updated by
  atomic scripts from many processes.
- **Managers** (`Managers`, `ManagerLaws`): caches filled by writes and by loads that answer late, on
  top of the verified `Collection`.
- **Command-line algorithms** (`DependencyGraph`, `PublishOrder`, `AcyclicGraph`,
  `EditDistance`, `Masking`, `SourcePieces`, `Rewriting`, `CallTexts`).

Code that changes state is a class or a method with loops, proved against
specification functions; the theorems are about those functions and over whole runs, and
say in terms of the calls and the stored values what the functions amount to.
Concurrent code is a state machine whose steps come in any order. Time is a parameter
of every operation; what is random, or answered by a store or a network, is a parameter
too. `dafny verify dfyconfig.toml` checks everything.

## Where the code and its documentation differ

- `packages/rest/src/scheduler.ts:12-20` promises one request in flight per bucket key.
  A waiting request that is the tail of its queue and gives up while somebody ahead has
  the slot or wants it also removes the queue's entry (line 133), so the next arrival
  starts beside the request still running. That step, and no other, makes two requests in
  flight possible: `InFlight.BrokenByTailOnly` from one state, `InFlight.PromiseExactly`
  over runs; `InFlight.TwoInFlight` is such a run. The order within a chain of gates holds
  always.
- `packages/managers/src/base.ts:46-51` promises that a late answer can neither overwrite
  fresher state nor resurrect a deleted resource. Keys written or deleted while the load
  was in flight are touched in two ways, and no other but a cap's eviction
  (`Managers.UndoneExactly`). A `ResourceManager` stores an answer under the answer's own
  key, which may not be the one the load was started for (`Managers.StrayAnswerRestores`);
  and it copies the answer onto the cached object, which may be cached under another key as
  well (`Managers.SharedObjectOverwritten`). Either way the load's own key must not have
  been written or deleted. `clear` marks no load, so answers in flight across it are stored
  (`Managers.ClearDoesNotCount`).
- `packages/cli/src/migrate.ts:67-71` promises to keep offsets. The mask of a source that
  ends inside a string or a regular expression on a backslash is one space too long, and
  no other is (`Masking.MaskCode`, `Masking.TooLong`).
- `packages/rest/src/index.ts:656-905` is meant to settle every grant once. It does if and
  only if no attempt leaks (`Requests.Request.Attempts`): an attempt leaks when the store
  fails to look a granted bucket up, to record the response or clear the placeholder it
  leaves under another key, or to take back a grant that got no response
  (`Requests.Leaks`; `Requests.StoreFailuresLeak` has one of each kind). Such a unit lapses
  with its window.

## Model

| member | source | states |
|---|---|---|
| Collections.Collection.Replay | tests/collection.model.test.ts:16-98 | Every run of `set`, `setWithoutTTL`, `get`, `peek`, `has`, `delete`, `purge`, `clear` and timer firings, under a clock that never runs backwards, answers call by call what a plain timed LRU list answers (`purge` without its count), and ends with the same live entries, deadlines and recency order |
| Collections.Collection.Apply | packages/collection/src/index.ts:213-402 | One call, or one firing of the timer: the invariant holds after it, and the live entries, deadlines, recency order and reply (`purge` without its count) are those of one step of the model |
| Collections.Collection.Set | packages/collection/src/index.ts:213-244 | Refuses a `ttl` that is not positive and changes nothing; otherwise what is live becomes what the model stores, evicting its head only when more live tracked keys than `maxSize` remain |
| Collections.Collection.SetWithoutTTL | packages/collection/src/index.ts:251-255 | The entry loses its window and its place in the recency order, and keeps the value |
| Collections.Collection.Get | packages/collection/src/index.ts:258-281 | Finds exactly the live value; a hit restarts the window (when sliding) and makes the key newest; hits and misses are counted |
| Collections.Collection.Peek | packages/collection/src/index.ts:303-310 | Finds exactly the live value and changes no deadline, no order and no live entry |
| Collections.Collection.Has | packages/collection/src/index.ts:322-324 | True exactly for a live key, without counting or changing what is live |
| Collections.Collection.Delete | packages/collection/src/index.ts:326-330 | True exactly when the key was live; it alone is gone |
| Collections.Collection.Clear | packages/collection/src/index.ts:332-343 | Nothing is left: no values, no records, an empty heap and no armed timer |
| Collections.Collection.Purge | packages/collection/src/index.ts:387-402 | Removes exactly the entries with `deadline <= now`, returns their number, and leaves a timer armed for the rest |
| Collections.Collection.PurgeAll | packages/collection/src/index.ts:387-402 | The loop of `purge`: the entries it drops are those that have lapsed, each once |
| Collections.Collection.Fire | packages/collection/src/index.ts:645-653 | A firing timer removes what has lapsed and arms the next timer, without the entries that are live noticing |
| Collections.Collection.ExpireIfDue | packages/collection/src/index.ts:405-411 | Drops the key exactly when its deadline has passed |
| Collections.Collection.Expire | packages/collection/src/index.ts:413-418 | Drops one key with its record and counts it as expired |
| Collections.Collection.Remove | packages/collection/src/index.ts:420-431 | Drops one key from the values, the records and the list; everything else stays |
| Collections.Collection.EnforceCap | packages/collection/src/index.ts:583-611 | Purges before it evicts, so a lapsed entry never pushes a live one out; ends with at most `maxSize` tracked records and with what the model keeps |
| Collections.Collection.EvictOldest | packages/collection/src/index.ts:595-608 | Evicts the head of the recency order and nothing else |
| Collections.Collection.SetFast | packages/collection/src/index.ts:226-239 | The in-place rewrite of a timed record does to the model what the slow path does |
| Collections.Collection.SetTracked | packages/collection/src/index.ts:240-243 | The slow path stores the entry and then enforces the cap |
| Collections.Collection.Open | packages/collection/src/index.ts:181-206 | A collection exists exactly for options the constructor accepts; what is live is what the model has after a `set` of each initial entry |
| RetentionModel.LiveLive | packages/collection/src/index.ts:405-411 | Dropping lapsed keys early, and again later, is dropping them later |
| RetentionModel.StoreLive | packages/collection/src/index.ts:441-491 | Storing among entries that have silently lapsed is the same as dropping those first |
| RetentionModel.ReadLive | packages/collection/src/index.ts:258-281 | Reading among lapsed entries is the same as dropping those first |
| RetentionModel.SetWithoutTTLLive | packages/collection/src/index.ts:251-255 | Pinning among lapsed entries is the same as dropping those first |
| RetentionModel.EvictLive | packages/collection/src/index.ts:583-611 | Evicting after lapsed keys are gone agrees with evicting from what is live |
| RetentionModel.WindowPositive | packages/collection/src/index.ts:217-220 | Whatever the jitter, a window is positive: nothing lapses the moment it is stored |
| RetentionRuns.StepForgets | packages/collection/src/index.ts:405-411 | The past shows in a step only through what is still live |
| RetentionRuns.AfterCapped | packages/collection/src/index.ts:583-611 | In every reachable state at most `maxSize` keys are tracked, each once |
| RetentionRuns.AfterPinned | packages/collection/src/index.ts:251-255 | An entry stored by `setWithoutTTL` neither lapses nor is evicted, over every run that does not write or remove it |
| RetentionRuns.SetWithoutTTLPins | packages/collection/src/index.ts:251-255 | `setWithoutTTL` makes an entry of that kind |
| RetentionRuns.AfterDue | packages/collection/src/index.ts:405-411 | A timed entry left alone is found until its deadline and never from then on, over every run that does not evict it; without a cap nothing does |
| RetentionRuns.LosesByCap | packages/collection/src/index.ts:583-611 | A live entry that an operation does not name is lost only to a `set` under a cap, as the head of a recency order too long for it |
| RetentionRuns.PeekAfterSet | packages/collection/src/index.ts:303-310 | `set` with a window, any run that leaves the key alone, then `peek`: the value before `at + window` unless a cap took the entry, nothing after |
| RetentionRuns.RecencyIsLastUse | packages/collection/src/index.ts:530-542 | In every reachable state the recency order is the order of last use, computed from the run alone |
| RetentionRuns.VictimIsLeastRecentlyUsed | packages/collection/src/index.ts:583-611 | A `set` costs at most one live key, never its own, and that key was used longest ago |
| RetentionLaws.OwnTTL | packages/collection/src/index.ts:213-244 | Without jitter an entry set with its own `ttl` is found, over every run that leaves it alone, until `at + ttl` unless a cap took it, and never from then on, whatever the default |
| RetentionLaws.DefaultTTL | packages/collection/src/index.ts:213-244 | Set without a `ttl` it is found until the default has passed |
| RetentionLaws.NoTTL | packages/collection/src/index.ts:213-244 | With neither it has no window, and is found for as long as nobody writes or removes it and no cap takes it |
| RetentionLaws.JitteredWindow | packages/collection/src/index.ts:219-220 | Jitter takes a random part of at most `jitter` off the window, down to a millisecond; a roll of 0 takes nothing |
| RetentionLaws.PlainWindow | packages/collection/src/index.ts:218-218 | Without jitter the stored window is the `ttl` of the call, or else the default |
| RetentionLaws.GetRestarts | packages/collection/src/index.ts:278-278 | A sliding read restarts the window: the entry is found until it has passed again |
| RetentionLaws.ReadsAgree | packages/collection/src/index.ts:258-324 | `get`, `peek` and `has` find the same: what is stored and has not lapsed |
| RetentionLaws.StepSpares | packages/collection/src/index.ts:213-402 | An operation on another key leaves a live entry its value and its deadline, unless the cap takes it; only its own `get` moves its deadline |
| RetentionLaws.DeleteTakes | packages/collection/src/index.ts:326-330 | `delete` takes its key and no other, and answers what `has` would have |
| RetentionLaws.RefusedOrCleared | packages/collection/src/index.ts:153-156 | A `set` that throws changes nothing that is live; `clear` leaves nothing |
| RetentionPolicy.HeapPush | packages/collection/src/index.ts:659-671 | Keeps heap order and adds exactly the one record |
| RetentionPolicy.HeapPop | packages/collection/src/index.ts:673-693 | Keeps heap order and removes exactly the top |
| RetentionPolicy.SiftUp | packages/collection/src/index.ts:662-670 | A hole moved up from the end leaves a heap of the same records and the new one |
| RetentionPolicy.SiftDown | packages/collection/src/index.ts:678-691 | A hole moved down from the top leaves a heap of the same records |
| HeapOrder.TopIsLeast | packages/collection/src/index.ts:613-628 | The top of an ordered heap is filed no later than any record |
| RetentionPolicy.Policy.NextDeadline | packages/collection/src/index.ts:613-628 | Terminates; changes no deadline; what it returns is the deadline of the live record on top, and no record is filed earlier |
| RetentionPolicy.Policy.SurfacedIsLeast | packages/collection/src/index.ts:613-628 | What it returned is the smallest deadline of all live timed keys, and there is one exactly when any key is timed |
| RetentionPolicy.Policy.TopNotDue | packages/collection/src/index.ts:587-593 | When the top of the heap is not filed as due, no live entry has lapsed |
| RetentionPolicy.Policy.TimerCovers | packages/collection/src/index.ts:639-657 | In every reachable state with a live timed entry a timer is armed, no later than the time that entry is filed for, hence no later than its deadline |
| RetentionPolicy.Policy.Refile | packages/collection/src/index.ts:623-626 | Re-files one moved record, leaving one fewer to move |
| RetentionPolicy.Policy.DropStale | packages/collection/src/index.ts:618-621 | Drops one stale record and no live one |
| RetentionPolicy.Policy.Compact | packages/collection/src/index.ts:630-637 | Keeps exactly the live records, still a heap |
| RetentionPolicy.Policy.Rearm | packages/collection/src/index.ts:639-657 | Afterwards a timer covers every live filed record |
| RetentionPolicy.Policy.Forget | packages/collection/src/index.ts:426-432 | Drops one record from map and list; its heap place goes stale and no other record moves |
| RetentionPolicy.Policy.Unlink | packages/collection/src/index.ts:545-555 | Takes one record out of the doubly linked list: both directions and the count stay those of one sequence |
| RetentionPolicy.Policy.LinkNewest | packages/collection/src/index.ts:536-541 | Links a record behind the newest one |
| RetentionPolicy.Policy.Promote | packages/collection/src/index.ts:530-542 | Makes a record the newest; the others keep their order, and the count grows only for a new member |
| RetentionPolicy.Policy.Replace | packages/collection/src/index.ts:507-527 | A fresh record takes the old one's place in the list and the map; the old one goes stale |
| RetentionPolicy.Policy.SwapLinks | packages/collection/src/index.ts:520-525 | Both neighbours of the old record point at the new one: the list reads the same with one record exchanged |
| RetentionPolicy.Policy.Create | packages/collection/src/index.ts:493-504 | A new record is tracked, not yet listed and not yet filed |
| RetentionPolicy.Policy.TrackTimed | packages/collection/src/index.ts:469-490 | A `set` with a window gives the key that window and deadline and makes it newest, whichever of the four branches runs |
| RetentionPolicy.Policy.TrackUntimed | packages/collection/src/index.ts:450-467 | A `set` without a window takes the deadline away, keeping the key only when it counts towards a cap |
| RetentionPolicy.Policy.Refresh | packages/collection/src/index.ts:226-239 | A rewrite whose deadline only moves later touches no heap place and no timer, and all invariants hold |
| RetentionPolicy.Policy.Slide | packages/collection/src/index.ts:278-278 | A read restarts the window without re-filing the record |
| RetentionPolicy.Policy.Use | packages/collection/src/index.ts:277-280 | A read record has a new deadline and is newest |
| RetentionPolicy.Policy.DropOldest | packages/collection/src/index.ts:598-608 | Unlinks the head of the list in place and forgets it |
| RetentionPolicy.Policy.PopDue | packages/collection/src/index.ts:392-396 | Takes the record that lapses next off the heap |
| RetentionPolicy.Policy.RearmAll | packages/collection/src/index.ts:639-657 | After a purge or a firing, the timer invariant is whole again |
| RetentionPolicy.Policy.DistinctKeys | packages/collection/src/index.ts:530-555 | The list visits every tracked key once when `maxSize` is set, and none otherwise; `lruSize` is its length |
| BucketState.Tightens | packages/rest/src/store.ts:240-301 | A response of the stored window never raises `remaining` and never brings `resetAt` forward |
| BucketState.Commute | packages/rest/src/store.ts:240-301 | Two responses of one window, each at its own time, can be reconciled in either order |
| BucketState.Absorb | packages/rest/src/store.ts:240-301 | A response reconciled twice leaves what it left once |
| BucketState.AnyOrder | packages/rest/src/store.ts:240-301 | Any permutation of the responses of one window, each at its own time, leaves the same bucket |
| BucketState.AnyDelivery | packages/rest/src/store.ts:240-301 | Any delivery of the same responses, each at least once and in any order, leaves the same bucket |
| BucketState.AnyTimes | packages/rest/src/store.ts:240-301 | However often, in whatever order and whenever before the reset the same responses arrive, `remaining`, `limit` and `window` come out the same |
| BucketState.LatestReset | packages/rest/src/store.ts:255-263 | `resetAt` is the latest reset that the stored bucket or any of the responses asks for |
| BucketState.IsReconciled | packages/rest/src/store.ts:245-301 | The merge those results are about is what `reconcileState` writes |
| SharedStore.Redis.ReserveScript | packages/rest/src/redis.ts:51-98 | One reservation: the whole new store and the reply, with the global reset, the send log and the bucket checked in that order |
| SharedStore.Redis.TakeUnit | packages/rest/src/redis.ts:74-97 | The bucket half: grants from an open window, opens the next one, or places a probe, as `reserveState` decides |
| SharedStore.Redis.Oldest | packages/rest/src/redis.ts:60-63 | The oldest send of the log |
| SharedStore.Redis.Merge | packages/rest/src/redis.ts:116-128 | The merge into an open window is that of `reconcileState` |
| SharedStore.Redis.ReconcileScript | packages/rest/src/redis.ts:106-145 | One response: the whole new store, equal to `reconcileState` on the stored bucket |
| SharedStore.Redis.ExtendGlobalScript | packages/rest/src/redis.ts:148-157 | The recorded reset only moves later; the reply is the wait that is now in force |
| SharedStore.Redis.ReleaseScript | packages/rest/src/redis.ts:160-175 | Clears a probe, or gives one unit back up to the limit, only for the window it was taken from |
| SharedLaws.GrantedExactly | packages/rest/src/redis.ts:51-98 | A request is let out if and only if no recorded limit closes its scope, its log is not full, and its bucket is absent, past its reset or has a unit left |
| SharedLaws.ToldExactly | packages/rest/src/redis.ts:55-97 | What the caller is told in every case: the reset of the window, or for a refusal how long to wait and why |
| SharedLaws.WaitIsEnough | packages/rest/src/redis.ts:60-64 | Waiting as long as a full log says is enough for its oldest send to leave it |
| SharedLaws.FirstUnits | packages/rest/src/redis.ts:74-82 | Over every run: an open window of `n` units lets out the first `n` unhindered requests before its reset and no others, if nothing else touches the bucket |
| SharedLaws.LimitExactly | packages/rest/src/redis.ts:89-94 | Over every run: of a bucket whose limit `n` is remembered, the first `n` requests after its reset are let out, and no more until the next |
| SharedLaws.ReservationOpens | packages/rest/src/redis.ts:89-94 | A bucket past its reset with a remembered limit opens the next window |
| SharedLaws.ResponseOpens | packages/rest/src/redis.ts:129-143 | The first response to a probe opens the window it speaks of |
| SharedLaws.ResponseExactly | packages/rest/src/redis.ts:129-143 | Over every run: as many requests are let out as that response leaves, before the reset it names |
| SharedLaws.ResponseCorrects | packages/rest/src/redis.ts:113-143 | What a response makes of an open window, by how old it is: units only go down, an estimate gives way, a 429 leaves nothing |
| SharedLaws.Remembered | packages/rest/src/redis.ts:37-40 | A saved bucket is found until `linger` after its reset |
| SharedLaws.RefundUndoes | packages/rest/src/redis.ts:160-175 | A unit taken and given back was never taken |
| SharedLaws.ReleaseExactly | packages/rest/src/redis.ts:160-175 | A release of the matching window clears a probe or returns one unit up to the limit; any other changes nothing |
| SharedLaws.ClosedExactly | packages/rest/src/redis.ts:55-58 | Over every run: a scope is closed at a time if and only if some call recorded a limit that lasts beyond it |
| SharedLaws.FullExactly | packages/rest/src/redis.ts:60-64 | Over every run: a log is full if and only if its scope sent as many requests within the window as the limit allows |
| SharedRuns.AfterKept | packages/rest/src/redis.ts:37-40 | In every reachable state no count is negative and every key outlives its open window |
| SharedRuns.NeverForgotten | packages/rest/src/redis.ts:26-40 | A window that is still open is found by whoever loads it |
| SharedRuns.UnitsConserved | packages/rest/src/redis.ts:74-97 | Over every interleaving, the units granted from a window, less those refunded into it, plus `remaining`, never exceed the units it opened with |
| SharedRuns.ProbeStarts | packages/rest/src/redis.ts:95-97 | A grant on an unknown bucket leaves a placeholder until the probe deadline |
| SharedRuns.ProbeExcludes | packages/rest/src/redis.ts:74-97 | While the placeholder stands, every reservation of that key is refused, over every run without a response, its own release or its deadline |
| SharedRuns.OneProberAtATime | packages/rest/src/redis.ts:74-97 | Over every run from an empty store: after a grant on an unknown bucket, no reservation of it is granted until a response, the prober's release or the probe deadline |
| SharedRuns.ExtendCloses | packages/rest/src/redis.ts:148-157 | Extending a global limit closes its scope until the reset it computed |
| SharedRuns.ClosedMeansClosed | packages/rest/src/redis.ts:55-58 | Nothing is granted for a scope before the largest reset recorded for it, over every run |
| SharedRuns.NothingBeforeReset | packages/rest/src/redis.ts:148-157 | Over every run from an empty store: after a global limit is recorded, no request of its scope is granted before the recorded reset, whatever happened before and since |
| SharedRuns.SendsAreSpread | packages/rest/src/redis.ts:60-73 | With a fixed positive limit, every half-open span of the window's length holds at most that many grants of a scope, over every run of any number of workers |
| SharedRuns.SentAreNames | packages/rest/src/redis.ts:66-73 | The log's member names are unique, so counting names counts grants |
| Scheduler.StartsInTurn | packages/rest/src/scheduler.ts:97-153 | A request starts only once every request ahead of it in its chain has released its slot or was cancelled before starting |
| Scheduler.OpenBehindOpen | packages/rest/src/scheduler.ts:124-130 | A gate never opens before a gate ahead of it |
| Scheduler.OneHolderPerChain | packages/rest/src/scheduler.ts:97-153 | No two requests of one chain hold the slot at once |
| Scheduler.NeverStuck | packages/rest/src/scheduler.ts:136-152 | While any gate is closed, some request can start, settle or pass its opening on: no slot is lost |
| Scheduler.AllOpenInTheEnd | packages/rest/src/scheduler.ts:149-152 | Once nothing is left to start, follow or settle, every gate is open |
| InFlight.FinishingEnds | packages/rest/src/scheduler.ts:136-152 | Steps that only start, follow and settle end, whichever way they go: each leaves less to do |
| InFlight.EveryGateOpens | packages/rest/src/scheduler.ts:136-152 | From any state a run of such steps opens every gate: no slot is lost for good |
| Scheduler.LetsThroughUnlessBusy | packages/rest/src/scheduler.ts:127-130 | A gate lets the next request through exactly when nobody at it or ahead of it has or wants the slot |
| Scheduler.SerialMeansOne | packages/rest/src/scheduler.ts:12-20 | A bucket whose users all queue in one chain has at most one request in flight |
| Scheduler.SerialUnlessTailGivesUp | packages/rest/src/scheduler.ts:133-133 | A step keeps the users of a bucket in one chain if and only if it is not the abort of its tail while somebody ahead is in the way |
| InFlight.SerialExactly | packages/rest/src/scheduler.ts:97-153 | The users of a bucket queue in one chain if and only if two of its requests can get in flight only by a tail giving up |
| InFlight.BrokenByTailOnly | packages/rest/src/scheduler.ts:124-134 | The exact condition of one request in flight per bucket: a step makes it possible to have two, with nobody else giving up, if and only if it is the abort of the tail while somebody ahead has the slot or wants it |
| InFlight.TailBreaks | packages/rest/src/scheduler.ts:124-134 | From any state whatever, such an abort can be followed, nobody else giving up, by two requests in flight |
| InFlight.PromiseExactly | packages/rest/src/scheduler.ts:97-153 | Over every run: a tail gave up in the way of others if and only if the run could have gone on, after the first such step, to two requests in flight |
| InFlight.Collide | packages/rest/src/scheduler.ts:97-153 | From any state whose bucket has users in two chains, a run in which nobody gives up ends with two of its requests in flight |
| InFlight.TakeSlot | packages/rest/src/scheduler.ts:124-149 | A request nobody ahead is in the way of can get the slot, and nobody else moves |
| InFlight.OneInFlight | packages/rest/src/scheduler.ts:12-20 | Over every run without such an abort, at most one request per bucket is in flight |
| InFlight.TwoInFlight | packages/rest/src/scheduler.ts:133-133 | A concrete run of six steps with two requests in flight |
| Scheduler.AlwaysValid | packages/rest/src/scheduler.ts:103-116 | In every reachable state gates and counters agree with the requests waiting, and neither queue limit is exceeded |
| Scheduler.OverloadedMeans | packages/rest/src/scheduler.ts:105-109 | A request is turned away exactly when it would have to wait and as many already do as may, in total or for its bucket |
| Scheduler.RequestScheduler.Enqueue | packages/rest/src/scheduler.ts:103-123 | Refused exactly when a limit is reached and there is somebody to wait for; otherwise behind the bucket's tail |
| Scheduler.RequestScheduler.Release | packages/rest/src/scheduler.ts:124-134 | Frees the slot once: the gate opens now, or after the one ahead when the request never started |
| Scheduler.RequestScheduler.Dequeue | packages/rest/src/scheduler.ts:140-146 | The counters forget one waiting request, in total and for its bucket |
| Scheduler.RequestScheduler.Take | packages/rest/src/scheduler.ts:136-153 | Every step the class takes is the step of the state machine the theorems are about |
| Acquiring.Acquire | packages/rest/src/limiter.ts:216-309 | Whatever the store answers: at most `2 * maxBackoff` rounds waited out and as many milliseconds slept; every waited round was a refusal, at most 16 in a row without a wait; the last round decides, and a grant names the key its reservation was made on |
| Acquiring.FewRounds | packages/rest/src/limiter.ts:272-301 | Each round waited out takes a millisecond, and all of them no more than `2 * maxBackoff` |
| Acquiring.OneEnding | packages/rest/src/limiter.ts:225-308 | The wait ends in one round and no other: the first that is not waited out |
| Acquiring.EndingMeans | packages/rest/src/limiter.ts:232-307 | How the wait ends, case by case: granted, lost, refused too often, too late, cut short, or a failing store |
| Acquiring.WaitedOutMeans | packages/rest/src/limiter.ts:266-307 | A round is waited out exactly when it is refused, and neither the 17th in a row without a wait, nor too late, nor cut short |
| Acquiring.HonoursWait | packages/rest/src/limiter.ts:272-301 | A request sleeps as long as the store says, up to `maxBackoff` |
| Acquiring.BacksOff | packages/rest/src/limiter.ts:273-285 | Without a wait it sleeps 2 ms, then twice as long each time, up to 100 ms |
| Acquiring.ElapsedMeans | packages/rest/src/limiter.ts:266-307 | The clock runs on by what is slept and by what everything else takes |
| Acquiring.KeyMeans | packages/rest/src/limiter.ts:302-307 | A round asks for the key resolved after the last wait for a probe, or for the first one |
| Requests.SettledOnce | packages/rest/src/index.ts:656-905 | A trace that keeps the protocol settles every unit taken exactly once or abandons it, and no unit is both sent and refunded |
| Exchanges.KeptExactly | packages/rest/src/index.ts:656-905 | A trace keeps the protocol and ends with nothing held if and only if it is a sequence of exchanges: a unit taken and given back unsent, spent or lost, or sent and recorded, with the placeholder cleared or lost when the response belongs to another key |
| Exchanges.Read | packages/rest/src/index.ts:656-905 | A trace that keeps the protocol so far is such a sequence and the beginning of one more exchange |
| Requests.Request.Attend | packages/rest/src/index.ts:690-905 | After a grant: sent exactly when it leaves; refunded exactly when cut short unsent and the store takes it; lost exactly when the store is not told; and which outcome, or another attempt, follows |
| Requests.Request.Try | packages/rest/src/index.ts:661-905 | One attempt: what is taken, sent, refunded and lost, the key it moves to, and its outcome, each exactly by what it was granted and how it went |
| Requests.Request.ApplyResponse | packages/rest/src/limiter.ts:404-494 | A response settles the grant under the key it belongs to and the placeholder under the key it was taken on; the grant is lost exactly when the store fails at one of them |
| Requests.Request.ReleaseGrant | packages/rest/src/limiter.ts:502-513 | A grant is given back, or only its placeholder; a store that fails loses it, and the request goes on |
| Requests.Request.Attempts | packages/rest/src/index.ts:656-913 | Over the whole retry loop nothing is held at the end; every unit taken is settled exactly once if and only if none of the attempts leaks, and as many are lost as attempts leak; only the last attempt is refunded, exactly when it was cut short unsent. An attempt is followed by another if and only if one is left and it failed in passing: a response that is not ok, asks for no long wait and is wholly recorded, a network error that is no time-out, or a body that could not be encoded. How the request ends is given by its last attempt |
| Requests.StoreFailuresLeak | packages/rest/src/limiter.ts:247-251 | Four attempts that leak: the lookup after the grant, the recording of the response, the clearing of the placeholder under the old key, or the release fails |
| Requests.NoneLeaked | packages/rest/src/index.ts:656-905 | No unit is lost exactly when no attempt leaks |
| Requests.LeaksMeans | packages/rest/src/limiter.ts:502-513 | An attempt leaks exactly when the store does not say, record, clear or take back what it is asked to |
| Requests.NextKeyMeans | packages/rest/src/index.ts:820-831 | The next attempt asks for the key the response belongs to, or else for the same key |
| InvalidResponses.Counter.InvalidCount | packages/rest/src/index.ts:470-478 | The ten-slot ring returns exactly what a full log holds for this minute and the nine before it, for every sequence of calls in time order |
| InvalidResponses.Counter.Advance | packages/rest/src/index.ts:471-475 | The slots of the minutes gone by are cleared, also after more than ten of them |
| InvalidResponses.LatelyIsSince | packages/rest/src/index.ts:470-478 | Minute by minute, the log holds what it holds in one count |
| InvalidResponses.WholeRing | packages/rest/src/index.ts:477-477 | Summing the slots in array order is going once around the ring from any minute |
| RedisCollections.SharedCollection.Prune | packages/collection/src/redis.ts:61-62 | Drops what is due, the earliest first: everything, unless a thousand or more are due. Each is reported with its entry exactly when Redis still had it, as it does for a second past the deadline |
| RedisCollections.SharedCollection.Cap | packages/collection/src/redis.ts:86-95 | Evicts down to the cap, never the key just written, and only keys used longer ago than every key that stays |
| RedisCollections.SharedCollection.EvictNext | packages/collection/src/redis.ts:89-95 | One more victim: the key used longest ago of those left, never the one just written |
| RedisCollections.SharedCollection.Place | packages/collection/src/redis.ts:75-96 | Writes, marks as used last, and caps |
| RedisCollections.SharedCollection.SetScript | packages/collection/src/redis.ts:66-99 | `nx` keeps an existing entry; otherwise the entry is written and at most `maxSize` keys are left, the key just written among them; a collection within its cap loses one entry at most. Every key dropped is reported with its reason, and with its entry exactly when Redis still had it |
| RedisCollections.FreshKeeps | packages/collection/src/redis.ts:76-85 | An entry holds what it was written with, and is let go a second after its deadline |
| RedisCollections.SharedCollection.GetScript | packages/collection/src/redis.ts:102-121 | What has not lapsed is always served; a lapsed entry only behind a thousand others due; a missing one leaves no trace; a read changes an entry only by restarting its window |
| RedisCollections.SharedCollection.Restart | packages/collection/src/redis.ts:113-118 | A sliding read moves the deadline in both places at once |
| RedisCollections.SharedCollection.DeleteScript | packages/collection/src/redis.ts:124-130 | The key is gone from all three structures |
| RedisCollections.SharedCollection.ClearScript | packages/collection/src/redis.ts:133-144 | Nothing is left in any of the structures |
| RedisCollections.SharedCollection.ListScript | packages/collection/src/redis.ts:133-147 | `size` counts what the prune leaves; `keys` lists it, least recently used first |
| RedisCollections.SharedCollection.Run | packages/collection/src/redis.ts:44-147 | Over every interleaving of all the scripts that share one cap: entries and deadlines are all in the access order, ticks are distinct, and no more than `maxSize` keys are in it |
| RedisCollections.SharedCollection.ServedIsLive | packages/collection/src/redis.ts:75-79 | An entry that is not due is one Redis still holds: the grace second outlives every deadline |
| Managers.OneLoadPerKey | packages/managers/src/base.ts:62-80 | Over every interleaving at most one load of a key is in flight, and it is the one later fetches join |
| Managers.DirtyMeansWritten | packages/managers/src/base.ts:82-99 | A load in flight is dirty exactly when its key was written or deleted since it began |
| Managers.LateAnswer | packages/managers/src/base.ts:44-80 | An answer is stored exactly when the key it was fetched for was neither written nor deleted since the load began; otherwise every cached value stays as it was. A merging answer is stored under its own key |
| Managers.UndoneExactly | packages/managers/src/base.ts:44-80 | The exact condition, on what a lookup shows (the value and what it holds): under a key written or deleted since the load began it changes if and only if the load is clean, merges, and the answer reaches that key with something else, by having that key or by merging into an object also cached there; else it stays, but for what a cap evicts |
| Managers.AnswerHolds | packages/managers/src/base.ts:9-14 | Of all objects, a late answer changes only the one it is merged into, and only when the load is clean: that one holds its fields and the answer over them |
| Managers.StoredExactly | packages/managers/src/base.ts:163-178 | A late answer is stored under a key written or deleted since its load began if and only if the load is clean and the answer strays to that key |
| Managers.SharedObjectOverwritten | packages/managers/src/base.ts:162-178 | An object cached under two keys: an answer for one overwrites what a newer write of the other shows |
| Managers.StrayAnswerRestores | packages/managers/src/base.ts:163-178 | An answer that strays to a deleted key brings the resource back |
| Managers.ReferencesStayCurrent | packages/managers/src/base.ts:162-178 | A merged resource keeps the cached object, which now holds its fields; no other object changes |
| Managers.ClearDoesNotCount | packages/managers/src/base.ts:100-103 | `clear` is no such write: a load in flight across it brings its resource back |
| Managers.PutStores | packages/managers/src/base.ts:88-94 | A value put is there at once, whatever the cap |
| Managers.Manager.Fetch | packages/managers/src/base.ts:62-79 | Joins the load in flight, or starts exactly one |
| Managers.Manager.Resolve | packages/managers/src/base.ts:70-73 | The answer of a dirty load is not stored; its callers get what is cached when there is something |
| Managers.Manager.Reject | packages/managers/src/base.ts:74-77 | A failed load frees its key and stores nothing |
| Managers.Manager.Set | packages/managers/src/base.ts:88-94 | Marks the load in flight and stores, pinned when unbounded and counted when bounded |
| Managers.Manager.Delete | packages/managers/src/base.ts:96-99 | Marks the load in flight and removes the key |
| Managers.Manager.Upsert | packages/managers/src/base.ts:163-178 | Copies the resource onto the cached object and stores that, or stores the resource; the canonical instance is returned |
| Managers.Manager.Assign | packages/managers/src/base.ts:9-14 | Copies every field onto the object, in place |
| Managers.Manager.MarkDirty | packages/managers/src/base.ts:82-85 | Marks the load of that key, if one is in flight, and no other |
| ManagerLaws.AtMostCap | packages/managers/src/base.ts:88-94 | Over every run a manager with a cap of `n` keeps at most `n` values, ordered by when they were last put or looked up |
| ManagerLaws.PutEvicts | packages/managers/src/base.ts:88-94 | Over every run: a put keeps everything while there is room; on a full cache of other keys it takes the place of exactly one, put or looked up longest ago |
| ManagerLaws.StaysCached | packages/managers/src/base.ts:87-94 | Over every run: without a cap, what is cached stays until its key is written or deleted or the cache is cleared |
| ManagerLaws.UnboundedStep | packages/managers/src/base.ts:87-103 | What each event does to an unbounded cache |
| PublishOrder.PublishOrder | packages/cli/src/maintainer.ts:46-67 | What it throws on is a cycle; otherwise every name is published once, each package behind all it depends on. Given distinct names: throws exactly when the dependencies among the packages have a cycle, and otherwise returns a permutation of the packages |
| PublishOrder.EdgeMeansDeclared | packages/cli/src/maintainer.ts:58-61 | The edges a cycle is made of: from a name to one of the names that some package of the first name depends on |
| PublishOrder.Walk.Visit | packages/cli/src/maintainer.ts:52-64 | A finished branch is in order with all it depends on; a failed one names a package on a cycle |
| DependencyGraph.OrderedIsAcyclic | packages/cli/src/maintainer.ts:45-45 | An order with dependencies first exists only without cycles |
| DependencyGraph.BranchCloses | scripts/check-dependency-graph.ts:113-115 | Reaching a package on the current branch again closes a cycle |
| AcyclicGraph.ValidateAcyclicGraph | scripts/check-dependency-graph.ts:107-131 | Throws exactly when there is a cycle, and what it reports is a closed path of dependencies |
| AcyclicGraph.Walk.Visit | scripts/check-dependency-graph.ts:112-128 | A branch without a report is visited whole; a report is a cycle |
| EditDistance.ComputeDistance | packages/cli/src/io.ts:40-53 | The two-row loop computes the recursive edit distance |
| EditDistance.NextRow | packages/cli/src/io.ts:43-50 | One row gives the next |
| EditDistance.CheapScript | packages/cli/src/io.ts:39-53 | Some script of insertions, deletions and replacements costs the distance |
| EditDistance.NoCheaperScript | packages/cli/src/io.ts:39-53 | No script that rewrites one string into the other costs less |
| EditDistance.DistanceIsCheapest | packages/cli/src/io.ts:39-53 | The distance is the cost of the cheapest script |
| EditDistance.ZeroOnlyForEqual | packages/cli/src/io.ts:48-48 | Zero for equal strings and for no others |
| EditDistance.Symmetric | packages/cli/src/io.ts:40-53 | The same in both directions |
| EditDistance.Compose | packages/cli/src/io.ts:39-53 | Two scripts make one that costs no more than both |
| EditDistance.Triangle | packages/cli/src/io.ts:39-53 | A detour through a third string is never shorter |
| EditDistance.ShortestWay | packages/cli/src/io.ts:39-53 | The distance is the least number of single changes, each leaving out, putting in or altering one character, on any way from one string to the other |
| EditDistance.NoShorterWay | packages/cli/src/io.ts:39-53 | No such way is shorter |
| EditDistance.ShortWay | packages/cli/src/io.ts:39-53 | Some such way is as short |
| Masking.MaskCode | packages/cli/src/migrate.ts:67-151 | The token scanner blanks exactly what a character-by-character reading finds to be comment, string, template text or regular expression; one space too many follows exactly when the source ends inside a string or regular expression on a stray backslash |
| Masking.Scanner.ScanToken | packages/cli/src/migrate.ts:104-149 | One token ends where the automaton is back in code, with everything before it masked |
| Masking.Scanner.ScanTemplate | packages/cli/src/migrate.ts:82-103 | Template text is blanked up to its end or the next `${` |
| Masking.Scanner.ScanQuoted | packages/cli/src/migrate.ts:107-112 | A string is blanked up to its closing quote or the end of its line |
| Masking.Scanner.ScanRegex | packages/cli/src/migrate.ts:126-140 | A regular expression is blanked up to a slash outside brackets |
| Masking.Scanner.ScanLineComment | packages/cli/src/migrate.ts:116-120 | A line comment is blanked up to the end of its line |
| Masking.Scanner.ScanBlockComment | packages/cli/src/migrate.ts:121-125 | A block comment is blanked through its end |
| Masking.Scanner.CloseBrace | packages/cli/src/migrate.ts:143-148 | A brace closes the innermost `${` exactly at the depth it was opened at |
| Masking.Scanner.Blank | packages/cli/src/migrate.ts:74-76 | Line ends stay; writing past the end makes the output longer |
| Masking.HolesNest | packages/cli/src/migrate.ts:77-79 | The open `${` nest, each at its own depth below the current one |
| Masking.OnlyBlanks | packages/cli/src/migrate.ts:67-71 | The mask has the source's length, keeps every line end at its offset and changes a character only into a space |
| Masking.EndsEscapingInBackslash | packages/cli/src/migrate.ts:109-111 | A mask that is too long comes only from a source that ends in a backslash |
| Masking.TooLong | packages/cli/src/migrate.ts:109-111 | A source of a quote and a backslash is such a source; a backslash alone, or in a template, is not |
| Masking.SameLine | packages/cli/src/migrate.ts:244-244 | A line number counted on the mask is that of the source |
| SourcePieces.MaskShowsCode | packages/cli/src/migrate.ts:67-71 | The mask of any well-formed sequence of code, strings in either quote, comments, regular expressions, braces and templates with code in their holes is what each of them shows: code and delimiters stay, all else is blank |
| SourcePieces.MaskPieces | packages/cli/src/migrate.ts:72-151 | The scanner shows that of such a source |
| SourcePieces.SlashOpens | packages/cli/src/migrate.ts:62-65 | A slash begins a regular expression exactly after nothing, one of 20 operators or one of 10 keywords, and white space |
| SourcePieces.InString | packages/cli/src/migrate.ts:105-107 | The text of a string, escapes included, is hidden up to its quote |
| SourcePieces.InRegExp | packages/cli/src/migrate.ts:124-135 | The text of a regular expression, brackets and escapes included, is hidden up to its slash |
| SourcePieces.InTemplate | packages/cli/src/migrate.ts:81-100 | Template text is hidden up to its backtick or hole |
| Rewriting.CallArgs | packages/cli/src/migrate.ts:167-190 | Nothing exactly when the bracket is never closed; otherwise the spans between the commas of that call, the last one only when it is not blank |
| CallTexts.ClosedExactly | packages/cli/src/migrate.ts:171-180 | A bracket is closed exactly where nested text after it, of characters and groups in brackets of any kind, meets a closing bracket |
| CallTexts.ArgumentsAsWritten | packages/cli/src/migrate.ts:171-187 | A call written as arguments with commas between is cut into just those arguments, whatever brackets and commas they hold inside |
| CallTexts.Read | packages/cli/src/migrate.ts:175-178 | Text in which the brackets balance is nested text |
| Rewriting.ApplyEdits | packages/cli/src/migrate.ts:472-477 | Edits at different offsets that touch no common text, applied highest offset first, do what they would all at once |
| Rewriting.AnyOrder | packages/cli/src/migrate.ts:473-473 | The order in which such edits were found does not matter |
| Rewriting.BeforeAll | packages/cli/src/migrate.ts:474-477 | Text before the first edit is untouched |
| Rewriting.OneMore | packages/cli/src/migrate.ts:474-477 | One more edit before all the others: its text takes the place of what it removes, and the rest is as it was |
| Rewriting.SortHighestFirst | packages/cli/src/migrate.ts:473-473 | The edits in order, none lost and none made up |

## Left out

- Floating point: times, windows and scores are `real`, and `Math.ceil` is exact on them.
- Clocks that run backwards, several readings of the clock in one operation, and timers longer than `setTimeout` allows.
- `onEvict` callbacks, which may call back into the collection, and the order of a `Map`'s iteration; the helpers that only read (`filter`, `map`, `random`, `ttlOf`).
- Collections.Collection.Replay: in a run `purge` replies without its count, since a read may have dropped a lapsed entry first; `Collections.Collection.Purge` states the count.
- Collections.Collection.Apply: replies to `purge` without its count, for the same reason.
- RetentionPolicy.HeapPush: the heap is a sequence value handed back to its field, so two records never share a slot by aliasing; the hole moves as in the source.
- Redis itself, `cjson`, corrupt stored values, command timeouts, and the modes in which a store degrades to one process or fails closed.
- SharedRuns.SendsAreSpread: the limit and the window are fixed over the run, as for workers configured alike.
- BucketState.AnyTimes: within one window of a bucket that is neither a probe nor an estimate; across windows order does matter.
- Stores without `reserve` or `reservesGlobal` (the wait on `getBucket` and the per-process global slot).
- `runResolved`, which moves a request to another bucket's queue at most twice.
- Acquiring.Acquire: waits are whole milliseconds and a sleep lasts at least as long as asked.
- Requests.Request.Attempts: the retry policy, the delays, telemetry and hooks are inputs; the early release of the slot is in `Scheduler`.
- RedisCollections.SharedCollection.SetScript: Redis letting an entry go at its own expiry is a test at each read rather than a removal.
- SourcePieces.MaskShowsCode: sources whose braces do not balance, or that end inside a string, a template, a comment or a regular expression; `Masking.MaskCode` gives their mask through the automaton.
- Masking.MaskCode: characters are Unicode scalars, where JavaScript counts UTF-16 units.
- Rewriting.CallArgs: which characters are blank is a parameter.
- Rewriting.SortHighestFirst: stands for the library's `sort`, written out as an insertion sort.
- The regular expressions that find names to migrate, `objectKeys`, `isKey`, `closest`.
- Rewriting.ApplyEdits: two edits at one offset, which `scanSource` never makes, since each of its edits removes text.
- Managers.Manager.Fetch: a write that the loader itself makes before it first waits, when the load is not yet registered and so is not marked; starting a load is one step here.
- Managers.Manager.Upsert: the heap of objects is a map from values to what they hold, and what a resource holds before it arrives is given from the start.
- PublishOrder.PublishOrder: when packages share a name, which of them is published (the first met, or the last through a dependency) is not stated, so that it throws exactly on a cycle is stated for distinct names.
- HTTP, sharding, gateways, builders, formatters, routes, command definitions and the rest of the command line.
