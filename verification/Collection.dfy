/**
 The keyed collection: a map with a retention policy beside it. Every operation
 is proved to do to what is live exactly what its model does.
 */
module Collections {
  import opened Wrappers
  import opened RetentionModel
  import opened RetentionPolicy
  import M = RetentionModel
  import R = RetentionRuns

  class Collection {
    /** The `Map` this class extends. */
    var store: map<Key, Value>
    var policy: Policy?
    var hits: nat
    var misses: nat

    ghost function Footprint(): set<object>
      reads this, policy
    {
      if policy == null then {this} else {this, policy} + policy.records
    }

    /** Every tracked key is stored, and its record holds a copy of the value. */
    ghost predicate Copied()
      reads `store, `policy, policy, if policy == null then {} else policy.records
    {
      policy != null ==>
        forall k :: k in policy.entries ==>
          policy.entries[k] in policy.records && k in store && policy.entries[k].value == store[k]
    }

    ghost predicate Sound()
      reads `store, `policy, policy, if policy == null then {} else policy.records
    {
      Copied() && (policy != null ==> policy.Sound())
    }

    /** The invariant of every reachable state. */
    ghost predicate Valid()
      reads `store, `policy, policy, if policy == null then {} else policy.records
    {
      Copied() && (policy != null ==> policy.Valid())
    }

    /** The clock has not run backwards. */
    ghost predicate Current(now: real)
      reads this, policy
    {
      policy != null ==> policy.clock <= now
    }

    ghost function Opts(): Options
      reads this
    {
      if policy == null then NO_OPTIONS else policy.options
    }

    /** Everything stored, lapsed entries included. */
    ghost function Raw(): Model
      reads `store, `policy, policy, if policy == null then {} else policy.records
      requires policy != null ==> policy.MapOk()
    {
      if policy == null then Model(store, map[], [])
      else Model(store, policy.Timers(), policy.Order())
    }

    lemma RawWellFormed()
      requires Sound()
      ensures WellFormed(Opts(), Raw())
      ensures Opts().maxSize.Some? ==> |Raw().recency| == policy.lruSize
    {
    }

    // ---------- removal ----------

    /** Drops a key, tracked or not. */
    method Remove(key: Key, ghost unfiled: set<Key>, ghost unarmed: set<Key>)
      requires policy != null && Copied() && policy.SoundBut({}, unfiled, unarmed + {key}) && unfiled <= {key}
      modifies `store, policy`entries, policy`oldest, policy`newest, policy`lruSize, policy`recency
      modifies policy.records`older, policy.records`newer, policy.records`inLru
      ensures Copied() && policy.SoundBut({}, {}, unarmed) && policy.lruSize <= old(policy.lruSize)
      ensures policy.entries == old(policy.entries) - {key} && Raw() == Drop(old(Raw()), {key})
    {
      hide Minus, Policy.Order, Policy.Timers, Policy.ListOk, Policy.HeapOk, Policy.Tracked, Policy.Filing;
      hide Policy.Windows, Policy.TimerOk, Lapsed;
      policy.Forget(key, unfiled, unarmed);
      store := store - {key};
    }

    /** Drops a lapsed entry. */
    method Expire(entry: Entry)
      requires Valid() && policy != null && entry.key in policy.entries && policy.entries[entry.key] == entry
      modifies `store, policy`entries, policy`oldest, policy`newest, policy`lruSize, policy`recency
      modifies policy.records`older, policy.records`newer, policy.records`inLru
      modifies policy`expired
      ensures Valid() && Raw() == Drop(old(Raw()), {entry.key}) && policy.expired == old(policy.expired) + 1
    {
      hide Minus, Policy.Order, Policy.Timers, Policy.ListOk, Policy.HeapOk, Policy.Tracked, Policy.Filing;
      hide Policy.Windows, Policy.TimerOk, Lapsed;
      policy.TimerOkBut({} + {entry.key});
      Remove(entry.key, {}, {});
      policy.expired := policy.expired + 1;
    }

    /** Whether `key` has a window and it has lapsed. */
    predicate IsDue(key: Key, now: real)
      reads `store, `policy, policy, if policy == null then {} else policy.records
      requires Valid()
      ensures IsDue(key, now) <==> key in Lapsed(Raw(), now)
      ensures IsDue(key, now) ==> policy != null && key in policy.entries && policy.entries[key].key == key
    {
      policy != null && key in policy.entries &&
        var entry := policy.entries[key];
        entry.window != 0.0 && entry.deadline <= now
    }

    /** Drops `key` if its window has lapsed. */
    method ExpireIfDue(key: Key, now: real) returns (gone: bool)
      requires Valid() && Current(now)
      modifies Footprint()
      ensures Valid() && Current(now) && Opts() == old(Opts()) && fresh(Footprint() - old(Footprint()))
      ensures policy == old(policy) && hits == old(hits) && misses == old(misses)
      ensures gone <==> key in Lapsed(old(Raw()), now)
      ensures Raw() == if gone then Drop(old(Raw()), {key}) else old(Raw())
    {
      hide Policy.Sound, Policy.Timers, Policy.Order, Lapsed, Minus;
      gone := IsDue(key, now);
      if gone { Expire(policy.entries[key]); }
    }

    // ---------- public operations that do not add keys ----------

    /** A lookup that leaves deadlines and recency order alone. */
    method Peek(key: Key, now: real) returns (r: Option<Value>)
      requires Valid() && Current(now)
      modifies Footprint()
      ensures Valid() && Current(now) && Opts() == old(Opts()) && fresh(Footprint() - old(Footprint()))
      ensures r == Lookup(Live(old(Raw()), now), key)
      ensures Live(Raw(), now) == Live(old(Raw()), now)
      ensures hits == old(hits) + (if r.Some? then 1 else 0) && misses == old(misses) + (if r.Some? then 0 else 1)
    {
      hide Policy.ListOk, Policy.HeapOk, Policy.Tracked, Policy.Filing, Policy.Windows, Policy.TimerOk;
      hide Copied, Policy.Timers, Policy.Order, Lapsed, Minus, Live, Drop;
      ghost var before := Raw();
      LookupLive(before, key, now);
      var gone := ExpireIfDue(key, now);
      if gone { DropLapsed(before, {key}, now); }
      if !gone && key in store {
        hits := hits + 1;
        return Some(store[key]);
      }
      misses := misses + 1;
      r := None;
    }

    method Has(key: Key, now: real) returns (found: bool)
      requires Valid() && Current(now)
      modifies Footprint()
      ensures Valid() && Current(now) && Opts() == old(Opts()) && fresh(Footprint() - old(Footprint()))
      ensures found <==> key in Live(old(Raw()), now).values
      ensures Live(Raw(), now) == Live(old(Raw()), now) && hits == old(hits) && misses == old(misses)
    {
      hide Policy.ListOk, Policy.HeapOk, Policy.Tracked, Policy.Filing, Policy.Windows, Policy.TimerOk;
      hide Copied, Policy.Timers, Policy.Order, Lapsed, Minus, Live, Drop;
      LookupLive(Raw(), key, now);
      ghost var before := Raw();
      var gone := ExpireIfDue(key, now);
      if gone { DropLapsed(before, {key}, now); }
      found := !gone && key in store;
    }

    method Delete(key: Key, now: real) returns (removed: bool)
      requires Valid() && Current(now)
      modifies Footprint()
      ensures Valid() && Current(now) && Opts() == old(Opts()) && fresh(Footprint() - old(Footprint()))
      ensures removed <==> key in Live(old(Raw()), now).values
      ensures Live(Raw(), now) == Drop(Live(old(Raw()), now), {key}) && hits == old(hits) && misses == old(misses)
    {
      hide Policy.ListOk, Policy.HeapOk, Policy.Tracked, Policy.Filing, Policy.Windows, Policy.TimerOk;
      hide Copied, Policy.Timers, Policy.Order, Lapsed, Minus, Live, Drop;
      ghost var before := Raw();
      LookupLive(before, key, now);
      DropLive(before, {key}, now);
      removed := ExpireIfDue(key, now);
      if removed { return false; }
      removed := key in store;
      Discard(key);
    }

    /** Drops a key's record, if there is one, and its value. */
    method Discard(key: Key)
      requires Valid()
      modifies Footprint()
      ensures Valid() && policy == old(policy) && hits == old(hits) && misses == old(misses)
      ensures Raw() == Drop(old(Raw()), {key}) && Footprint() == old(Footprint())
      ensures policy != null ==> policy.clock == old(policy.clock) && key !in policy.entries
    {
      hide Policy.ListOk, Policy.HeapOk, Policy.Tracked, Policy.Filing, Policy.Windows, Policy.TimerOk;
      hide Policy.Timers, Policy.Order, Minus;
      if policy == null {
        assert Minus([], {key}) == [] by { MinusNothing([], {key}); }
        store := store - {key};
      } else {
        policy.TimerOkBut({} + {key});
        Remove(key, {}, {});
      }
    }

    /** Pins a value: no timer, no place in the recency order. */
    method SetWithoutTTL(key: Key, value: Value, now: real)
      requires Valid() && Current(now)
      modifies Footprint()
      ensures Valid() && Current(now) && Opts() == old(Opts()) && fresh(Footprint() - old(Footprint()))
      ensures Live(Raw(), now) == M.SetWithoutTTL(Live(old(Raw()), now), key, value)
      ensures hits == old(hits) && misses == old(misses)
    {
      hide Policy.ListOk, Policy.HeapOk, Policy.Tracked, Policy.Filing, Policy.Windows, Policy.TimerOk;
      hide Policy.Timers, Policy.Order, Lapsed, Minus, Live;
      SetWithoutTTLLive(Raw(), key, value, now);
      Discard(key);
      store := store[key := value];
    }

    method Clear(now: real)
      requires Valid() && Current(now)
      modifies Footprint()
      ensures Valid() && Current(now) && Opts() == old(Opts()) && fresh(Footprint() - old(Footprint()))
      ensures Raw() == Model(map[], map[], []) && hits == old(hits) && misses == old(misses)
      ensures policy != null ==> !policy.timer && policy.heap == []
    {
      hide Policy.ListOk, Policy.HeapOk, Policy.Tracked, Policy.Filing, Policy.Windows, Policy.TimerOk;
      hide Policy.Timers, Policy.Order;
      store := map[];
      if policy != null { policy.Clear(); }
    }

    /** Reads a value; restarts its window and makes it the most recently used. */
    method Get(key: Key, now: real) returns (r: Option<Value>)
      requires Valid() && Current(now)
      modifies Footprint()
      ensures Valid() && Current(now) && Opts() == old(Opts()) && fresh(Footprint() - old(Footprint()))
      ensures r == Lookup(Live(old(Raw()), now), key)
      ensures Live(Raw(), now) ==
              if r.Some? then Read(Opts(), Live(old(Raw()), now), key, now) else Live(old(Raw()), now)
      ensures hits == old(hits) + (if r.Some? then 1 else 0) && misses == old(misses) + (if r.Some? then 0 else 1)
    {
      hide Policy.ListOk, Policy.HeapOk, Policy.Tracked, Policy.Filing, Policy.Windows, Policy.TimerOk;
      hide Copied, Policy.Timers, Policy.Order, Lapsed, Minus, Live, Drop;
      ghost var before := Raw();
      LookupLive(before, key, now);
      if policy == null || key !in policy.entries {
        Untracked(key);
        UntrackedLive(Opts(), before, key, now);
        if key in store {
          hits := hits + 1;
          return Some(store[key]);
        }
        misses := misses + 1;
        return None;
      }
      var entry := policy.entries[key];
      if IsDue(key, now) {
        DropLapsed(before, {key}, now);
        Expire(entry);
        misses := misses + 1;
        return None;
      }
      hits := hits + 1;
      r := ReadEntry(entry, now);
    }

    lemma Untracked(key: Key)
      requires Valid() && (policy == null || key !in policy.entries)
      ensures key !in Raw().timers && key !in Raw().recency
    {
    }

    method ReadEntry(entry: Entry, now: real) returns (r: Option<Value>)
      requires Valid() && Current(now) && policy != null
      requires entry.key in policy.entries && policy.entries[entry.key] == entry && !IsDue(entry.key, now)
      modifies policy`oldest, policy`newest, policy`lruSize, policy`recency, policy`clock, entry`deadline
      modifies policy.records`older, policy.records`newer, policy.records`inLru
      ensures Valid() && Current(now) && r == Lookup(old(Raw()), entry.key) && r.Some?
      ensures Live(Raw(), now) == Read(Opts(), Live(old(Raw()), now), entry.key, now)
    {
      hide Policy.ListOk, Policy.HeapOk, Policy.Tracked, Policy.Filing, Policy.Windows, Policy.TimerOk;
      hide Policy.Order, Lapsed, Minus, Live, Touch;
      policy.DistinctKeys();
      assert entry.window >= 0.0 by { policy.PositiveWindow(entry.key); }
      ReadLive(Opts(), Raw(), entry.key, now);
      policy.Tick(now);
      policy.Use(entry, now);
      r := Some(entry.value);
    }

    // ---------- lapsing ----------

    /** Drops the record that lapses next. */
    method DropDue(due: Entry, ghost unarmed: set<Key>)
      requires policy != null && Copied() && policy.SoundBut({}, {}, unarmed)
      requires policy.heap != [] && policy.heap[0] == due
      requires due.key in policy.entries && policy.entries[due.key] == due
      modifies `store, policy`entries, policy`oldest, policy`newest, policy`lruSize, policy`recency, policy`heap
      modifies policy.records`older, policy.records`newer, policy.records`inLru
      ensures Copied() && policy.SoundBut({}, {}, unarmed) && policy.lruSize <= old(policy.lruSize)
      ensures policy.entries == old(policy.entries) - {due.key} && Raw() == Drop(old(Raw()), {due.key})
    {
      hide Policy.ListOk, Policy.HeapOk, Policy.Tracked, Policy.Filing, Policy.Windows, Policy.TimerOk;
      hide Policy.Order, Policy.Timers;
      policy.PopDue(due, unarmed);
      policy.Unarmed(due.key, unarmed);
      Remove(due.key, {due.key}, unarmed);
    }

    lemma NextIsLapsed(next: real, now: real, before: Model, gone: set<Key>, unarmed: set<Key>)
      requires policy != null && Copied() && policy.SoundBut({}, {}, unarmed)
      requires policy.Surfaced(Some(next)) && next <= now && Raw() == Drop(before, gone)
      ensures policy.heap[0].key in Lapsed(before, now) && policy.heap[0].key !in gone
    {
      policy.SurfacedIsLeast(Some(next), unarmed);
    }

    /** One round of the loop of `purge`: `gone` are the keys dropped so far. */
    method DropNext(ghost next: real, ghost now: real, ghost before: Model, ghost gone: set<Key>, ghost unarmed: set<Key>)
      returns (ghost key: Key, following: Option<real>)
      requires policy != null && Copied() && policy.SoundBut({}, {}, unarmed)
      requires policy.Surfaced(Some(next)) && next <= now
      requires Raw() == Drop(before, gone) && gone <= Lapsed(before, now)
      modifies `store, policy`entries, policy`oldest, policy`newest, policy`lruSize, policy`recency, policy`heap
      modifies policy.records`older, policy.records`newer, policy.records`inLru, policy.records`filed
      ensures Copied() && policy.SoundBut({}, {}, unarmed) && policy.lruSize <= old(policy.lruSize)
      ensures policy.Surfaced(following) && |policy.entries| < |old(policy.entries)|
      ensures key !in gone && gone + {key} <= Lapsed(before, now) && Raw() == Drop(before, gone + {key})
    {
      hide Policy.ListOk, Policy.HeapOk, Policy.Tracked, Policy.Filing, Policy.Windows, Policy.TimerOk;
      hide Policy.Order, Policy.Timers, Minus, Lapsed, Drop;
      NextIsLapsed(next, now, before, gone, unarmed);
      var due := policy.heap[0];
      key := due.key;
      DropDrop(before, gone, {key});
      DropDue(due, unarmed);
      following := policy.Surface(unarmed);
    }

    lemma NoneLapsed(next: Option<real>, now: real, unarmed: set<Key>)
      requires policy != null && Copied() && policy.SoundBut({}, {}, unarmed) && policy.Surfaced(next)
      requires next.Some? ==> next.value > now
      ensures Lapsed(Raw(), now) == {}
    {
      policy.SurfacedIsLeast(next, unarmed);
    }

    /** The loop of `purge`; the timer may be in any state. */
    method PurgeAll(now: real, ghost unarmed: set<Key>) returns (removed: nat)
      requires policy != null && Copied() && policy.SoundBut({}, {}, unarmed)
      modifies `store, policy`entries, policy`oldest, policy`newest, policy`lruSize, policy`recency, policy`heap
      modifies policy`timer, policy`armedFor, policy`expired
      modifies policy.records`older, policy.records`newer, policy.records`inLru, policy.records`filed
      ensures Copied() && policy.Sound() && policy.lruSize <= old(policy.lruSize)
      ensures Raw() == Live(old(Raw()), now) && removed == |Lapsed(old(Raw()), now)|
      ensures policy.expired == old(policy.expired) + removed
    {
      hide Policy.ListOk, Policy.HeapOk, Policy.Tracked, Policy.Filing, Policy.Windows, Policy.TimerOk;
      hide Policy.Order, Policy.Timers, Minus, Drop, Policy.Surfaced;
      ghost var before, gone := Raw(), {};
      removed := 0;
      var next := policy.Surface(unarmed);
      DropNothing(before);
      while next.Some? && next.value <= now
        invariant Copied() && policy.SoundBut({}, {}, unarmed) && policy.Surfaced(next)
        invariant policy.lruSize <= old(policy.lruSize) && policy.expired == old(policy.expired)
        invariant Raw() == Drop(before, gone) && gone <= Lapsed(before, now) && removed == |gone|
        decreases |policy.entries|
      {
        ghost var due;
        due, next := DropNext(next.value, now, before, gone, unarmed);
        gone := gone + {due};
        removed := removed + 1;
      }
      NoneLapsed(next, now, unarmed);
      AllDropped(before, gone, now);
      EndPurge(removed, unarmed);
    }

    method EndPurge(removed: nat, ghost unarmed: set<Key>)
      requires policy != null && Copied() && policy.SoundBut({}, {}, unarmed)
      modifies policy`heap, policy`timer, policy`armedFor, policy`expired, policy.records`filed
      ensures Copied() && policy.Sound() && Raw() == old(Raw()) && policy.expired == old(policy.expired) + removed
    {
      hide Policy.ListOk, Policy.HeapOk, Policy.Tracked, Policy.Filing, Policy.Windows, Policy.TimerOk;
      hide Policy.Order, Policy.Timers;
      policy.expired := policy.expired + removed;
      policy.RearmAll(unarmed);
    }

    /** Drops every lapsed entry, and nothing else. */
    method Purge(now: real) returns (removed: nat)
      requires Valid() && Current(now)
      modifies Footprint()
      ensures Valid() && Current(now) && Opts() == old(Opts()) && fresh(Footprint() - old(Footprint()))
      ensures Raw() == Live(old(Raw()), now) && removed == |Lapsed(old(Raw()), now)|
      ensures policy == old(policy) && hits == old(hits) && misses == old(misses)
      ensures policy != null ==> policy.expired == old(policy.expired) + removed
    {
      hide Policy.ListOk, Policy.HeapOk, Policy.Tracked, Policy.Filing, Policy.Windows, Policy.TimerOk;
      hide Policy.Order, Policy.Timers, Minus, Drop, Lapsed;
      if policy == null || policy.heap == [] {
        NothingTimed(now);
        DropNothing(Raw());
        return 0;
      }
      removed := PurgeAll(now, {});
    }

    lemma NothingTimed(now: real)
      requires Valid() && (policy == null || policy.heap == [])
      ensures Lapsed(Raw(), now) == {}
    {
    }

    /** The armed timer fires. */
    method Fire(now: real) returns (removed: nat)
      requires policy != null && policy.timer
      requires Valid() && Current(now)
      modifies Footprint()
      ensures Valid() && Current(now) && Opts() == old(Opts()) && fresh(Footprint() - old(Footprint()))
      ensures Raw() == Live(old(Raw()), now) && removed == |Lapsed(old(Raw()), now)|
    {
      hide Policy.ListOk, Policy.HeapOk, Policy.Tracked, Policy.Filing, Policy.Windows, Policy.TimerOk;
      hide Policy.Order, Policy.Timers, Minus, Drop, Lapsed;
      policy.Disarm();
      if policy.heap == [] {
        NothingTimed(now);
        DropNothing(Raw());
        return 0;
      }
      removed := PurgeAll(now, policy.entries.Keys);
    }

    // ---------- the cap ----------

    /** Evicts the least recently used entry. */
    method EvictOldest()
      requires policy != null && Copied() && policy.Sound() && policy.recency != []
      modifies `store, policy`entries, policy`oldest, policy`newest, policy`lruSize, policy`recency, policy`evicted
      modifies policy.records`older, policy.records`newer, policy.records`inLru
      ensures Copied() && policy.Sound() && policy.lruSize == old(policy.lruSize) - 1
      ensures old(Raw()).recency != [] && Raw() == Drop(old(Raw()), {old(Raw()).recency[0]})
    {
      hide Policy.ListOk, Policy.HeapOk, Policy.Tracked, Policy.Filing, Policy.Windows, Policy.TimerOk;
      hide Policy.Order, Policy.Timers, Minus;
      var victim := policy.DropOldest();
      store := store - {victim.key};
      policy.evicted := policy.evicted + 1;
    }

    /** Brings `lruSize` back to the cap: what has lapsed goes first, then the head of the recency order. */
    method EnforceCap(now: real)
      requires policy != null && Copied() && policy.Sound() && policy.options.maxSize.Some?
      requires policy.options.maxSize.value < policy.lruSize <= policy.options.maxSize.value + 1
      modifies `store, policy`entries, policy`oldest, policy`newest, policy`lruSize, policy`recency, policy`heap
      modifies policy`timer, policy`armedFor, policy`expired, policy`evicted
      modifies policy.records`older, policy.records`newer, policy.records`inLru, policy.records`filed
      ensures Valid() && Live(Raw(), now) == Evict(Opts(), Live(old(Raw()), now))
    {
      hide Policy.ListOk, Policy.HeapOk, Policy.Tracked, Policy.Filing, Policy.Windows, Policy.TimerOk;
      hide Policy.Order, Policy.Timers, Minus, Drop, Live, Lapsed;
      var max := policy.options.maxSize.value;
      ghost var start := Live(Raw(), now);
      EvictLive(Opts(), Raw(), now);
      PurgeIfDue(now);
      RawWellFormed();
      while policy.lruSize > max
        invariant Copied() && policy.Sound() && policy.lruSize <= max + 1
        invariant if policy.lruSize > max then Raw() == start && |start.recency| == policy.lruSize
                  else Raw() == Evict(Opts(), start)
      {
        SomeOldest();
        EvictOldest();
      }
    }

    lemma SomeOldest()
      requires policy != null && policy.Sound() && policy.lruSize > 0
      ensures policy.recency != []
    {
    }

    method PurgeIfDue(now: real)
      requires policy != null && Copied() && policy.Sound()
      modifies `store, policy`entries, policy`oldest, policy`newest, policy`lruSize, policy`recency, policy`heap
      modifies policy`timer, policy`armedFor, policy`expired
      modifies policy.records`older, policy.records`newer, policy.records`inLru, policy.records`filed
      ensures Copied() && policy.Sound() && policy.lruSize <= old(policy.lruSize)
      ensures Raw() == Live(old(Raw()), now)
    {
      hide Policy.ListOk, Policy.HeapOk, Policy.Tracked, Policy.Filing, Policy.Windows, Policy.TimerOk;
      hide Policy.Order, Policy.Timers, Minus, Drop;
      if policy.heap != [] && policy.heap[0].filed <= now {
        var removed := PurgeAll(now, {});
      } else {
        policy.TopNotDue(now);
        DropNothing(Raw());
        assert Lapsed(Raw(), now) == {};
      }
    }

    // ---------- set ----------

    /** `set` on a timed record that need not be filed again: three field writes and a promotion. */
    method SetFast(entry: Entry, value: Value, window: real, now: real)
      requires Valid() && policy != null && policy.clock == now && window > 0.0
      requires entry.key in policy.entries && policy.entries[entry.key] == entry
      requires entry.window != 0.0 && now + window >= entry.filed
      modifies `store, policy`oldest, policy`newest, policy`lruSize, policy`recency
      modifies policy.records`older, policy.records`newer, policy.records`inLru
      modifies entry`value, entry`window, entry`deadline
      ensures Valid() && Raw() == Store(Opts(), old(Raw()), entry.key, value, Some(window), now)
    {
      hide Policy.ListOk, Policy.HeapOk, Policy.Tracked, Policy.Filing, Policy.Windows, Policy.TimerOk;
      hide Policy.Order, Policy.Timers, Touch;
      store := store[entry.key := value];
      entry.value := value;
      policy.Refresh(entry, window, now + window);
    }

    /** Tracks a `set` in full. */
    method SetTracked(key: Key, value: Value, window: Option<real>, now: real)
      requires Valid() && policy != null && policy.clock == now && (window.Some? ==> window.value > 0.0)
      modifies `store, policy`entries, policy`records, policy`oldest, policy`newest, policy`lruSize, policy`recency
      modifies policy`heap, policy`timer, policy`armedFor, policy.records
      ensures Copied() && policy.Sound() && policy.lruSize <= old(policy.lruSize) + 1
      ensures fresh(policy.records - old(policy.records))
      ensures Raw() == Store(Opts(), old(Raw()), key, value, window, now)
    {
      hide Policy.ListOk, Policy.HeapOk, Policy.Tracked, Policy.Filing, Policy.Windows, Policy.TimerOk;
      hide Policy.Order, Policy.Timers, Touch;
      store := store[key := value];
      var existing := if key in policy.entries then policy.entries[key] else null;
      if existing != null { existing.value := value; }
      if window.Some? {
        policy.TrackTimed(key, value, window.value, now, existing);
      } else {
        policy.TrackUntimed(key, value, existing);
      }
    }

    method SetWindow(key: Key, value: Value, window: Option<real>, now: real)
      requires Valid() && policy != null && policy.clock == now && (window.Some? ==> window.value > 0.0)
      modifies `store, policy, policy.records
      ensures Valid() && policy.clock == now && fresh(policy.records - old(policy.records))
      ensures Live(Raw(), now) == M.Set(Opts(), Live(old(Raw()), now), key, value, window, now)
    {
      hide Policy.ListOk, Policy.HeapOk, Policy.Tracked, Policy.Filing, Policy.Windows, Policy.TimerOk;
      hide Policy.Order, Policy.Timers, Minus, Drop, Live, Lapsed, Touch, Store, Evict;
      RawWellFormed();
      StoreLive(Opts(), Raw(), key, value, window, now);
      var entry := if key in policy.entries then policy.entries[key] else null;
      if entry != null && window.Some? && entry.window != 0.0 && now + window.value >= entry.filed {
        SetFast(entry, value, window.value, now);
      } else {
        SetTracked(key, value, window, now);
        if policy.options.maxSize.Some? && policy.lruSize > policy.options.maxSize.value {
          EnforceCap(now);
          return;
        }
      }
      RawWellFormed();
      EvictNothing(Opts(), Raw(), now);
    }

    /**
     One step of `M.Set` on what is live, with the window that `Window` works out
     from `ttl`, the options and the random number `roll`. `ok` is false where the
     source throws: a `ttl` that is not positive.
     */
    method Set(key: Key, value: Value, ttl: Option<real>, roll: real, now: real) returns (ok: bool)
      requires Valid() && Current(now)
      modifies Footprint()
      ensures Valid() && Current(now) && Opts() == old(Opts()) && fresh(Footprint() - old(Footprint()))
      ensures ok <==> (ttl.Some? ==> ttl.value > 0.0)
      ensures !ok ==> Raw() == old(Raw())
      ensures ok ==>
        Live(Raw(), now) == M.Set(Opts(), Live(old(Raw()), now), key, value, Window(Opts(), ttl, roll), now)
      ensures hits == old(hits) && misses == old(misses)
    {
      hide Policy.ListOk, Policy.HeapOk, Policy.Tracked, Policy.Filing, Policy.Windows, Policy.TimerOk;
      hide Policy.Order, Policy.Timers, Drop, Live, M.Set, Window;
      if ttl.None? && policy == null {
        SetPlain(key, value, roll, now);
        return true;
      }
      if ttl.Some? && ttl.value <= 0.0 { return false; }
      WindowPositive(Opts(), ttl, roll);
      var window := Window(if policy == null then NO_OPTIONS else policy.options, ttl, roll);
      if policy == null { StartPolicy(now); }
      policy.Tick(now);
      SetWindow(key, value, window, now);
      ok := true;
    }

    /** Without a policy or a `ttl`, `set` is that of a plain map. */
    method SetPlain(key: Key, value: Value, ghost roll: real, ghost now: real)
      requires policy == null
      modifies `store
      ensures Raw() == M.Set(NO_OPTIONS, old(Raw()), key, value, Window(NO_OPTIONS, None, roll), now)
      ensures Live(Raw(), now) == Raw() && Live(old(Raw()), now) == old(Raw())
    {
      store := store[key := value];
    }

    /** The first `ttl` on a plain collection gives it a policy without limits. */
    method StartPolicy(ghost now: real)
      requires policy == null
      modifies `policy
      ensures Valid() && policy != null && fresh(policy) && fresh(policy.records) && policy.clock == now
      ensures policy.options == NO_OPTIONS && Raw() == old(Raw())
    {
      policy := new Policy(NO_OPTIONS, now);
    }

    // ---------- whole runs ----------

    constructor (o: Options, ghost now: real)
      requires ValidOptions(o)
      ensures Valid() && Current(now) && Opts() == o && fresh(Footprint())
      ensures Raw() == Model(map[], map[], []) && hits == misses == 0
    {
      store, hits, misses := map[], 0, 0;
      if o == NO_OPTIONS {
        policy := null;
      } else {
        policy := new Policy(o, now);
      }
    }

    /** A collection of its initial entries, or nothing for options the source throws on. */
    static method Open(o: Options, entries: seq<(Key, Value, real)>, now: real) returns (c: Option<Collection>)
      requires forall e :: e in entries ==> 0.0 <= e.2 < 1.0
      ensures c.Some? <==> ValidOptions(o)
      ensures c.Some? ==> fresh(c.value) && fresh(c.value.Footprint()) && c.value.Valid() && c.value.Current(now)
      ensures c.Some? ==> c.value.Opts() == o
      ensures c.Some? ==>
        Live(c.value.Raw(), now) == Live(R.After(o, Model(map[], map[], []), R.Filling(entries, now)), now)
    {
      hide Policy.ListOk, Policy.HeapOk, Policy.Tracked, Policy.Filing, Policy.Windows, Policy.TimerOk, Live;
      hide Policy.Order, Policy.Timers, R.After, R.Replies, Collection.Copied;
      if !ValidOptions(o) { return None; }
      var made := new Collection(o, now);
      var fill := R.Filling(entries, now);
      assert R.End(fill, now) == now;
      var replies := made.Replay(fill, now);
      c := Some(made);
    }

    /** One operation of a run. */
    method Apply(op: R.Op, now: real) returns (reply: R.Reply)
      requires R.Valid(op)
      requires Valid() && Current(now)
      modifies Footprint()
      ensures Valid() && Current(now) && Opts() == old(Opts()) && fresh(Footprint() - old(Footprint()))
      ensures R.Outcome(Live(Raw(), now), reply) == R.Step(Opts(), old(Raw()), op, now)
    {
      hide Policy.ListOk, Policy.HeapOk, Policy.Tracked, Policy.Filing, Policy.Windows, Policy.TimerOk;
      hide Copied, Live, Lapsed, Drop, M.Set, Read, M.SetWithoutTTL;
      LiveLive(Raw(), now, now);
      EmptyLive(now);
      match op
      case Set(key, value, ttl, roll) =>
        var ok := Set(key, value, ttl, roll, now);
        reply := if ok then R.Done else R.Refused;
      case SetWithoutTTL(key, value) =>
        SetWithoutTTL(key, value, now);
        reply := R.Done;
      case Get(key) =>
        var r := Get(key, now);
        reply := R.Reply.Value(r);
      case Peek(key) =>
        var r := Peek(key, now);
        reply := R.Reply.Value(r);
      case Has(key) =>
        var found := Has(key, now);
        reply := R.Flag(found);
      case Delete(key) =>
        var removed := Delete(key, now);
        reply := R.Flag(removed);
      case Purge =>
        var removed := Purge(now);
        reply := R.Done;
      case Clear =>
        Clear(now);
        reply := R.Done;
      case Fire =>
        if policy != null && policy.timer { var removed := Fire(now); }
        reply := R.Done;
    }

    /**
     Every run of a collection, under a clock that never runs backwards, answers
     call by call what the model answers, and ends with the same live entries,
     deadlines and recency order.
     */
    method Replay(run: seq<R.Event>, ghost start: real) returns (replies: seq<R.Reply>)
      requires Valid() && Current(start) && R.Timely(run, start)
      modifies Footprint()
      ensures Valid() && Current(R.End(run, start)) && Opts() == old(Opts())
      ensures fresh(Footprint() - old(Footprint()))
      ensures replies == R.Replies(Opts(), old(Raw()), run)
      ensures Live(Raw(), R.End(run, start)) == Live(R.After(Opts(), old(Raw()), run), R.End(run, start))
    {
      hide Policy.ListOk, Policy.HeapOk, Policy.Tracked, Policy.Filing, Policy.Windows, Policy.TimerOk, Copied, Live, R.Step;
      ghost var o, m := Opts(), Raw();
      replies := [];
      for i := 0 to |run|
        invariant Valid() && Current(R.End(run[..i], start)) && Opts() == o && fresh(Footprint() - old(Footprint()))
        invariant replies == R.Replies(o, m, run[..i])
        invariant Live(Raw(), R.End(run[..i], start)) == Live(R.After(o, m, run[..i]), R.End(run[..i], start))
      {
        ghost var raw := Raw();
        var reply := Apply(run[i].op, run[i].now);
        R.NextStep(o, m, run, i, start, raw, Raw());
        assert run[..i + 1][..i] == run[..i];
        replies := replies + [reply];
      }
      assert run[..|run|] == run;
    }
  }
}
