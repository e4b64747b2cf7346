/**
 Whole runs of the model, and what holds over every one of them.
 `Collection.Replay` carries each of these results over to the real collection.
 */
module RetentionRuns {
  import opened Wrappers
  import opened Sequences
  import opened RetentionModel
  import M = RetentionModel

  datatype Op =
    | Set(key: Key, value: Value, ttl: Option<real>, roll: real)
    | SetWithoutTTL(key: Key, value: Value)
    | Get(key: Key)
    | Peek(key: Key)
    | Has(key: Key)
    | Delete(key: Key)
    | Purge
    | Clear
    /** The timer goes off, if one is armed. */
    | Fire

  datatype Reply = Done | Refused | Value(value: Option<M.Value>) | Flag(flag: bool)

  datatype Event = Event(op: Op, now: real)

  datatype Outcome = Outcome(model: Model, reply: Reply)

  predicate Valid(op: Op) {
    op.Set? ==> 0.0 <= op.roll < 1.0
  }

  /** One operation at time `now`; what lapsed before it is gone. */
  function Step(o: Options, m: Model, op: Op, now: real): Outcome {
    var live := Live(m, now);
    match op
    case Set(key, value, ttl, roll) =>
      if ttl.Some? && ttl.value <= 0.0 then Outcome(live, Refused)
      else Outcome(M.Set(o, live, key, value, Window(o, ttl, roll), now), Done)
    case SetWithoutTTL(key, value) => Outcome(M.SetWithoutTTL(live, key, value), Done)
    case Get(key) =>
      Outcome(if key in live.values then Read(o, live, key, now) else live, Reply.Value(Lookup(live, key)))
    case Peek(key) => Outcome(live, Reply.Value(Lookup(live, key)))
    case Has(key) => Outcome(live, Flag(key in live.values))
    case Delete(key) => Outcome(Drop(live, {key}), Flag(key in live.values))
    case Purge => Outcome(live, Done)
    case Clear => Outcome(Model(map[], map[], []), Done)
    case Fire => Outcome(live, Done)
  }

  /** The run by which a collection takes its initial entries, each with the random number of its `set`. */
  function Filling(entries: seq<(Key, M.Value, real)>, now: real): seq<Event> {
    seq(|entries|, i requires 0 <= i < |entries| => Event(Set(entries[i].0, entries[i].1, None, entries[i].2), now))
  }

  /** The model after a run. */
  function After(o: Options, m: Model, run: seq<Event>): Model {
    if run == [] then m
    else
      var last := run[|run| - 1];
      Step(o, After(o, m, run[..|run| - 1]), last.op, last.now).model
  }

  /** What a run answers, call by call. */
  function Replies(o: Options, m: Model, run: seq<Event>): (replies: seq<Reply>)
    ensures |replies| == |run|
  {
    if run == [] then []
    else
      var last := run[|run| - 1];
      var before := run[..|run| - 1];
      Replies(o, m, before) + [Step(o, After(o, m, before), last.op, last.now).reply]
  }

  /** The clock never runs backwards, from `start` on. */
  ghost predicate Timely(run: seq<Event>, start: real) {
    && (forall i :: 0 <= i < |run| ==> Valid(run[i].op) && start <= run[i].now)
    && (forall i, j :: 0 <= i < j < |run| ==> run[i].now <= run[j].now)
  }

  /** The time a run has reached. */
  function End(run: seq<Event>, start: real): real {
    if run == [] then start else run[|run| - 1].now
  }

  /** What a step sees of the past is only what is still live. */
  lemma {:induction false} StepForgets(o: Options, m: Model, earlier: real, op: Op, now: real)
    requires earlier <= now
    ensures Step(o, Live(m, earlier), op, now) == Step(o, m, op, now)
  {
    LiveLive(m, earlier, now);
  }

  /** One more step of a run, from anything that cannot be told apart from the model. */
  lemma {:induction false} NextStep(o: Options, m: Model, run: seq<Event>, i: nat, start: real, raw: Model, raw': Model)
    requires i < |run| && Timely(run, start)
    requires Live(raw, End(run[..i], start)) == Live(After(o, m, run[..i]), End(run[..i], start))
    requires Live(raw', run[i].now) == Step(o, raw, run[i].op, run[i].now).model
    ensures Step(o, raw, run[i].op, run[i].now) == Step(o, After(o, m, run[..i]), run[i].op, run[i].now)
    ensures Live(raw', run[i].now) == After(o, m, run[..i + 1]) == Live(After(o, m, run[..i + 1]), run[i].now)
  {
    hide Step, Live;
    var earlier, op, now := End(run[..i], start), run[i].op, run[i].now;
    StepForgets(o, raw, earlier, op, now);
    StepForgets(o, After(o, m, run[..i]), earlier, op, now);
    assert run[..i + 1][..i] == run[..i];
    LiveLive(raw', now, now);
  }

  // ---------- invariants of every run ----------

  ghost predicate Capped(o: Options, m: Model) {
    WellFormed(o, m) && (o.maxSize.Some? ==> |m.recency| <= o.maxSize.value)
  }

  lemma MinusDistinct<T>(s: seq<T>, gone: set<T>)
    requires Distinct(s)
    ensures Distinct(Minus(s, gone))
  {
    if s != [] {
      var front := s[..|s| - 1];
      MinusDistinct(front, gone);
      MinusMembers(front, gone);
    }
  }

  lemma DropCapped(o: Options, m: Model, gone: set<Key>)
    requires Capped(o, m)
    ensures Capped(o, Drop(m, gone))
  {
    MinusDistinct(m.recency, gone);
    MinusMembers(m.recency, gone);
  }

  lemma TouchDistinct(s: seq<Key>, key: Key)
    requires Distinct(s)
    ensures Distinct(Touch(s, key)) && |Touch(s, key)| == |s| + if key in s then 0 else 1
    ensures forall k :: k in Touch(s, key) <==> k in s || k == key
  {
    MinusDistinct(s, {key});
    MinusMembers(s, {key});
    if key in s {
      var i: nat :| i < |s| && s[i] == key;
      MinusAt(s, i);
    } else {
      MinusNothing(s, {key});
    }
  }

  lemma StepCapped(o: Options, m: Model, op: Op, now: real)
    requires ValidOptions(o) && Capped(o, m) && Valid(op)
    ensures Capped(o, Step(o, m, op, now).model)
  {
    hide Minus, Distinct, Lapsed;
    DropCapped(o, m, Lapsed(m, now));
    var live := Live(m, now);
    match op
    case Set(key, value, ttl, roll) =>
      if !(ttl.Some? && ttl.value <= 0.0) {
        SetCapped(o, live, key, value, Window(o, ttl, roll), now);
      }
    case SetWithoutTTL(key, value) => DropCapped(o, live, {key});
    case Get(key) => TouchDistinct(live.recency, key);
    case Peek(key) =>
    case Has(key) =>
    case Delete(key) => DropCapped(o, live, {key});
    case Purge =>
    case Fire =>
    case Clear => assert Distinct<Key>([]) by { EmptyDistinct<Key>(); }
  }

  lemma EmptyDistinct<T>()
    ensures Distinct<T>([])
  {
  }

  lemma SetCapped(o: Options, m: Model, key: Key, value: Value, window: Option<real>, now: real)
    requires ValidOptions(o) && Capped(o, m) && (window.Some? ==> window.value > 0.0)
    ensures Capped(o, M.Set(o, m, key, value, window, now))
  {
    hide Minus, Distinct;
    TouchDistinct(m.recency, key);
    var stored := Store(o, m, key, value, window, now);
    if o.maxSize.Some? && stored.recency != [] && |stored.recency| > o.maxSize.value {
      MinusDistinct(stored.recency, {stored.recency[0]});
      MinusMembers(stored.recency, {stored.recency[0]});
      FirstDropped(stored.recency);
    }
  }

  lemma FirstDropped<T>(s: seq<T>)
    requires s != [] && Distinct(s)
    ensures |Minus(s, {s[0]})| == |s| - 1
  {
    MinusAt(s, 0);
  }

  /** From an empty collection on, the cap and the bookkeeping hold in every reachable state. */
  lemma {:induction false} AfterCapped(o: Options, m: Model, run: seq<Event>)
    requires ValidOptions(o) && Capped(o, m) && forall i :: 0 <= i < |run| ==> Valid(run[i].op)
    ensures Capped(o, After(o, m, run))
  {
    if run != [] {
      var before, last := run[..|run| - 1], run[|run| - 1];
      AfterCapped(o, m, before);
      StepCapped(o, After(o, m, before), last.op, last.now);
    }
  }

  // ---------- entries stored without a window ----------

  ghost predicate Pinned(m: Model, key: Key, value: M.Value) {
    key in m.values && m.values[key] == value && key !in m.timers && key !in m.recency
  }

  /** `op` does not name `key` in a write and is not `clear`. */
  predicate Spares(op: Op, key: Key) {
    match op
    case Set(k, _, _, _) => k != key
    case SetWithoutTTL(k, _) => k != key
    case Delete(k) => k != key
    case Clear => false
    case _ => true
  }

  lemma DropPinned(m: Model, gone: set<Key>, key: Key, value: M.Value)
    requires Pinned(m, key, value) && key !in gone
    ensures Pinned(Drop(m, gone), key, value)
  {
    MinusMembers(m.recency, gone);
  }

  lemma StepPinned(o: Options, m: Model, op: Op, now: real, key: Key, value: M.Value)
    requires Pinned(m, key, value) && Spares(op, key)
    ensures Pinned(Step(o, m, op, now).model, key, value)
  {
    hide Minus;
    DropPinned(m, Lapsed(m, now), key, value);
    var live := Live(m, now);
    match op
    case Set(k, v, ttl, roll) =>
      if !(ttl.Some? && ttl.value <= 0.0) {
        MinusMembers(live.recency, {k});
        var stored := Store(o, live, k, v, Window(o, ttl, roll), now);
        if stored.recency != [] {
          DropPinned(stored, {stored.recency[0]}, key, value);
        }
      }
    case SetWithoutTTL(k, v) => DropPinned(live, {k}, key, value);
    case Get(k) => MinusMembers(live.recency, {k});
    case Delete(k) => DropPinned(live, {k}, key, value);
    case _ =>
  }

  /** An entry stored with `setWithoutTTL` stays, whatever its neighbours and the cap, until it is written or removed. */
  lemma {:induction false} AfterPinned(o: Options, m: Model, run: seq<Event>, key: Key, value: M.Value)
    requires Pinned(m, key, value) && forall i :: 0 <= i < |run| ==> Spares(run[i].op, key)
    ensures Pinned(After(o, m, run), key, value)
  {
    if run != [] {
      var before, last := run[..|run| - 1], run[|run| - 1];
      AfterPinned(o, m, before, key, value);
      StepPinned(o, After(o, m, before), last.op, last.now, key, value);
    }
  }

  lemma SetWithoutTTLPins(o: Options, m: Model, key: Key, value: M.Value, now: real)
    ensures Pinned(Step(o, m, SetWithoutTTL(key, value), now).model, key, value)
  {
    MinusMembers(Live(m, now).recency, {key});
  }

  // ---------- entries stored with a window ----------

  /** `key` is stored with this deadline, or has passed it and is gone. */
  ghost predicate Due(m: Model, key: Key, value: M.Value, timer: Timer, now: real) {
    if now < timer.deadline
    then key in m.values && m.values[key] == value && key in m.timers && m.timers[key] == timer
    else key !in Live(m, now).values
  }

  /** `op` neither names `key` in a write nor restarts its window. */
  predicate LeavesTimer(o: Options, op: Op, key: Key) {
    Spares(op, key) && (o.slide ==> op != Get(key))
  }

  /** `op` takes away a live entry. */
  predicate Loses(o: Options, m: Model, op: Op, now: real, key: Key) {
    key in Live(m, now).values && key !in Step(o, m, op, now).model.values
  }

  /** Some step of the run took `key` away while it was live. */
  predicate Lost(o: Options, m: Model, run: seq<Event>, key: Key) {
    run != [] &&
    (Lost(o, m, run[..|run| - 1], key)
     || Loses(o, After(o, m, run[..|run| - 1]), run[|run| - 1].op, run[|run| - 1].now, key))
  }

  /** An operation that does not name a key takes it away only as the head of a recency order over the cap. */
  lemma LosesByCap(o: Options, m: Model, op: Op, now: real, key: Key)
    requires Spares(op, key) && Loses(o, m, op, now, key)
    ensures o.maxSize.Some? && op.Set? &&
      var stored := Store(o, Live(m, now), op.key, op.value, Window(o, op.ttl, op.roll), now);
      stored.recency != [] && key == stored.recency[0] && |stored.recency| > o.maxSize.value
  {
  }

  lemma StepDue(o: Options, m: Model, op: Op, earlier: real, now: real, key: Key, value: M.Value, timer: Timer)
    requires earlier <= now && LeavesTimer(o, op, key) && m.timers.Keys <= m.values.Keys
    requires Due(m, key, value, timer, earlier) && !Loses(o, m, op, now, key)
    ensures Due(Step(o, m, op, now).model, key, value, timer, now)
  {
    hide Minus, Window;
    LiveLive(m, earlier, now);
    LiveLive(m, now, now);
  }

  lemma StaysGone(o: Options, m: Model, op: Op, now: real, key: Key)
    requires Spares(op, key) && key !in m.values
    ensures key !in Step(o, m, op, now).model.values
  {
  }

  /**
   An entry that is neither written nor (when reads slide) read is found until its
   deadline unless a cap takes it, and never from then on.
   */
  lemma {:induction false} AfterDue(
    o: Options, m: Model, run: seq<Event>, start: real, key: Key, value: M.Value, timer: Timer)
    requires ValidOptions(o) && Capped(o, m) && Timely(run, start)
    requires Due(m, key, value, timer, start) && forall i :: 0 <= i < |run| ==> LeavesTimer(o, run[i].op, key)
    ensures if Lost(o, m, run, key) then key !in After(o, m, run).values
            else Due(After(o, m, run), key, value, timer, End(run, start))
    ensures o.maxSize.None? ==> !Lost(o, m, run, key)
  {
    if run != [] {
      hide Due, Step, Loses, Capped;
      var before, last := run[..|run| - 1], run[|run| - 1];
      var was := After(o, m, before);
      AfterDue(o, m, before, start, key, value, timer);
      AfterCapped(o, m, before);
      if Lost(o, m, before, key) {
        StaysGone(o, was, last.op, last.now, key);
      } else if Loses(o, was, last.op, last.now, key) {
        LosesByCap(o, was, last.op, last.now, key);
        GoneOnceLost(o, was, last.op, last.now, key);
      } else {
        StepDue(o, was, last.op, End(before, start), last.now, key, value, timer);
      }
    }
  }

  lemma GoneOnceLost(o: Options, m: Model, op: Op, now: real, key: Key)
    requires Loses(o, m, op, now, key)
    ensures key !in Step(o, m, op, now).model.values
  {
  }

  /** A `set` with a window, any run that leaves it alone, then a `peek`: it answers up to the deadline, unless a cap took the entry, and not after. */
  lemma {:induction false} PeekAfterSet(
    o: Options, m: Model, key: Key, value: M.Value, ttl: real, roll: real, at: real, run: seq<Event>, now: real)
    requires ValidOptions(o) && Capped(o, m) && ttl > 0.0 && 0.0 <= roll < 1.0
    requires Timely(run, at) && End(run, at) <= now && forall i :: 0 <= i < |run| ==> LeavesTimer(o, run[i].op, key)
    ensures var stored := Step(o, m, Set(key, value, Some(ttl), roll), at).model;
            var window := Window(o, Some(ttl), roll).value;
            Step(o, After(o, stored, run), Peek(key), now).reply
              == Reply.Value(if now < at + window && !Lost(o, stored, run, key) then Some(value) else None)
    ensures o.maxSize.None? ==> !Lost(o, Step(o, m, Set(key, value, Some(ttl), roll), at).model, run, key)
  {
    var op := Set(key, value, Some(ttl), roll);
    var stored := Step(o, m, op, at).model;
    var timer := Timer(Window(o, Some(ttl), roll).value, at + Window(o, Some(ttl), roll).value);
    StepCapped(o, m, op, at);
    SetIsDue(o, Live(m, at), key, value, timer.window, at);
    AfterDue(o, stored, run, at, key, value, timer);
    LiveLive(After(o, stored, run), End(run, at), now);
  }

  lemma SetIsDue(o: Options, m: Model, key: Key, value: M.Value, window: real, at: real)
    requires ValidOptions(o) && window > 0.0
    ensures Due(M.Set(o, m, key, value, Some(window), at), key, value, Timer(window, at + window), at)
  {
    MinusMembers(m.recency, {key});
  }

  // ---------- the recency order ----------

  /** Whether `op` makes `key` the most recently used entry of what is live. */
  predicate Uses(m: Model, op: Op, now: real, key: Key) {
    match op
    case Set(k, _, ttl, _) => k == key && !(ttl.Some? && ttl.value <= 0.0)
    case Get(k) => k == key && key in Live(m, now).values
    case _ => false
  }

  /** The index of the last operation of a run that used `key`, or -1. */
  function LastUse(o: Options, m: Model, run: seq<Event>, key: Key): (index: int)
    ensures -1 <= index < |run|
  {
    if run == [] then -1
    else
      var before, last := run[..|run| - 1], run[|run| - 1];
      if Uses(After(o, m, before), last.op, last.now, key) then |run| - 1 else LastUse(o, m, before, key)
  }

  /** `s` lists keys by when a run last used them, and all of them were. */
  ghost predicate ByLastUse(o: Options, m: Model, run: seq<Event>, s: seq<Key>) {
    && (forall k :: k in s ==> LastUse(o, m, run, k) >= 0)
    && (forall i, j :: 0 <= i < j < |s| ==> LastUse(o, m, run, s[i]) < LastUse(o, m, run, s[j]))
  }

  lemma MinusByLastUse(o: Options, m: Model, run: seq<Event>, s: seq<Key>, gone: set<Key>)
    requires ByLastUse(o, m, run, s)
    ensures ByLastUse(o, m, run, Minus(s, gone))
  {
    MinusMembers(s, gone);
    if s != [] {
      var front, last := s[..|s| - 1], s[|s| - 1];
      MinusByLastUse(o, m, run, front, gone);
      forall k | k in Minus(front, gone) ensures LastUse(o, m, run, k) < LastUse(o, m, run, last) {
        MinusMembers(front, gone);
        var i :| 0 <= i < |front| && front[i] == k;
      }
    }
  }

  /** An operation that uses none of `s` leaves its order by last use. */
  lemma StepByLastUse(o: Options, m: Model, run: seq<Event>, s: seq<Key>)
    requires run != [] && ByLastUse(o, m, run[..|run| - 1], s)
    requires forall k :: k in s ==> !Uses(After(o, m, run[..|run| - 1]), run[|run| - 1].op, run[|run| - 1].now, k)
    ensures ByLastUse(o, m, run, s)
  {
    forall k | k in s ensures LastUse(o, m, run, k) == LastUse(o, m, run[..|run| - 1], k) {
    }
  }

  /** `key`, used last, goes behind everything else. */
  lemma TouchByLastUse(o: Options, m: Model, run: seq<Event>, s: seq<Key>, key: Key)
    requires run != [] && ByLastUse(o, m, run[..|run| - 1], s)
    requires Uses(After(o, m, run[..|run| - 1]), run[|run| - 1].op, run[|run| - 1].now, key)
    ensures ByLastUse(o, m, run, Touch(s, key))
  {
    var rest := Minus(s, {key});
    MinusByLastUse(o, m, run[..|run| - 1], s, {key});
    MinusMembers(s, {key});
    StepByLastUse(o, m, run, rest);
    forall k | k in rest ensures LastUse(o, m, run, k) < LastUse(o, m, run, key) {
    }
  }

  /** What a step leaves of the recency order before anything is evicted. */
  function Unevicted(o: Options, live: Model, op: Op, now: real): Model {
    match op
    case Set(key, value, ttl, roll) =>
      if ttl.Some? && ttl.value <= 0.0 then live else Store(o, live, key, value, Window(o, ttl, roll), now)
    case _ => Step(o, live, op, now).model
  }

  lemma UnevictedByLastUse(o: Options, m: Model, run: seq<Event>)
    requires run != [] && (o.maxSize.None? ==> After(o, m, run[..|run| - 1]).recency == [])
    requires ByLastUse(o, m, run[..|run| - 1], After(o, m, run[..|run| - 1]).recency)
    ensures var last, before := run[|run| - 1], After(o, m, run[..|run| - 1]);
            ByLastUse(o, m, run, Unevicted(o, Live(before, last.now), last.op, last.now).recency)
  {
    hide Minus, Touch, Lapsed, ByLastUse;
    var last, before := run[|run| - 1], After(o, m, run[..|run| - 1]);
    var live := Live(before, last.now);
    var prefix := run[..|run| - 1];
    MinusByLastUse(o, m, prefix, before.recency, Lapsed(before, last.now));
    LiveLive(before, last.now, last.now);
    assert Minus<Key>([], Lapsed(before, last.now)) == [] by { MinusNothing<Key>([], Lapsed(before, last.now)); }
    match last.op
    case Set(key, value, ttl, roll) =>
      if o.maxSize.Some? && !(ttl.Some? && ttl.value <= 0.0) {
        TouchByLastUse(o, m, run, live.recency, key);
      } else {
        NothingUsed(o, m, run, live.recency);
      }
    case Get(key) =>
      if key in live.values && key in live.recency {
        TouchByLastUse(o, m, run, live.recency, key);
      } else {
        NothingUsed(o, m, run, live.recency);
      }
    case SetWithoutTTL(key, value) =>
      NothingUsed(o, m, run, live.recency);
      MinusByLastUse(o, m, run, live.recency, {key});
    case Delete(key) =>
      NothingUsed(o, m, run, live.recency);
      MinusByLastUse(o, m, run, live.recency, {key});
    case Clear => NothingUsed(o, m, run, []);
    case _ => NothingUsed(o, m, run, live.recency);
  }

  lemma NothingUsed(o: Options, m: Model, run: seq<Event>, s: seq<Key>)
    requires run != [] ==> s == [] || ByLastUse(o, m, run[..|run| - 1], s)
    requires run != []
    requires forall k :: k in s ==> !Uses(After(o, m, run[..|run| - 1]), run[|run| - 1].op, run[|run| - 1].now, k)
    ensures ByLastUse(o, m, run, s)
  {
    if s != [] {
      StepByLastUse(o, m, run, s);
    }
  }

  /** In every reachable state the recency order is the order of last use. */
  lemma {:induction false} RecencyIsLastUse(o: Options, m: Model, run: seq<Event>)
    requires ValidOptions(o) && Capped(o, m) && m.recency == []
    requires forall i :: 0 <= i < |run| ==> Valid(run[i].op)
    ensures ByLastUse(o, m, run, After(o, m, run).recency)
  {
    if run != [] {
      var prefix, last := run[..|run| - 1], run[|run| - 1];
      RecencyIsLastUse(o, m, prefix);
      AfterCapped(o, m, prefix);
      UnevictedByLastUse(o, m, run);
      EvictByLastUse(o, m, run);
    }
  }

  lemma EvictByLastUse(o: Options, m: Model, run: seq<Event>)
    requires run != []
    requires var last, before := run[|run| - 1], After(o, m, run[..|run| - 1]);
             ByLastUse(o, m, run, Unevicted(o, Live(before, last.now), last.op, last.now).recency)
    ensures ByLastUse(o, m, run, After(o, m, run).recency)
  {
    hide Minus, Touch, Lapsed, ByLastUse, Live, Store;
    var last, before := run[|run| - 1], After(o, m, run[..|run| - 1]);
    var unevicted := Unevicted(o, Live(before, last.now), last.op, last.now);
    LiveLive(before, last.now, last.now);
    if last.op.Set? && unevicted.recency != [] {
      MinusByLastUse(o, m, run, unevicted.recency, {unevicted.recency[0]});
    }
  }

  lemma SetEvicts(o: Options, m: Model, key: Key, value: M.Value, window: Option<real>, now: real)
    requires ValidOptions(o) && Capped(o, m)
    ensures var stored, end := Store(o, m, key, value, window, now), M.Set(o, m, key, value, window, now);
            && key in end.values
            && (forall a :: a in m.values && a !in end.values ==>
                stored.recency != [] && a == stored.recency[0] && end == Drop(stored, {a}))
  {
    hide Minus;
    TouchDistinct(m.recency, key);
    EndsWithKey(m.recency, key);
  }

  lemma EndsWithKey(s: seq<Key>, key: Key)
    ensures Touch(s, key)[|Touch(s, key)| - 1] == key
  {
  }

  lemma FirstUsedLongestAgo(o: Options, m: Model, run: seq<Event>, s: seq<Key>)
    requires s != [] && ByLastUse(o, m, run, s)
    ensures forall k :: k in Minus(s, {s[0]}) ==> LastUse(o, m, run, s[0]) < LastUse(o, m, run, k)
  {
    MinusMembers(s, {s[0]});
  }

  /**
   What the cap costs: a `set` never evicts the key it stores, evicts at most one
   live key, and that one was used longer ago than every tracked key that stays.
   */
  lemma {:induction false} VictimIsLeastRecentlyUsed(o: Options, m: Model, run: seq<Event>)
    requires ValidOptions(o) && Capped(o, m) && m.recency == []
    requires forall i :: 0 <= i < |run| ==> Valid(run[i].op)
    requires run != [] && var op := run[|run| - 1].op; op.Set? && (op.ttl.Some? ==> op.ttl.value > 0.0)
    ensures var last := run[|run| - 1];
            var live, end := Live(After(o, m, run[..|run| - 1]), last.now), After(o, m, run);
            && last.op.key in end.values
            && (forall a, b :: a in live.values && b in live.values && a !in end.values && b !in end.values ==> a == b)
            && (forall victim, k :: victim in live.values && victim !in end.values && k in end.recency ==>
                                      LastUse(o, m, run, victim) < LastUse(o, m, run, k))
  {
    hide Minus, Lapsed, ByLastUse, Live, Store, M.Set, LastUse, Capped, Window;
    var prefix, last := run[..|run| - 1], run[|run| - 1];
    var before := After(o, m, prefix);
    var live := Live(before, last.now);
    assert Capped(o, live) by {
      AfterCapped(o, m, prefix);
      LiveCapped(o, before, last.now);
    }
    assert o.maxSize.None? ==> before.recency == [] by { AfterUnlisted(o, m, prefix); }
    assert ByLastUse(o, m, run, Unevicted(o, live, last.op, last.now).recency) by {
      RecencyIsLastUse(o, m, prefix);
      UnevictedByLastUse(o, m, run);
    }
    var window := Window(o, last.op.ttl, last.op.roll);
    var stored := Store(o, live, last.op.key, last.op.value, window, last.now);
    SetEvicts(o, live, last.op.key, last.op.value, window, last.now);
    if stored.recency != [] {
      FirstUsedLongestAgo(o, m, run, stored.recency);
    }
  }

  lemma AfterUnlisted(o: Options, m: Model, run: seq<Event>)
    requires ValidOptions(o) && Capped(o, m) && forall i :: 0 <= i < |run| ==> Valid(run[i].op)
    ensures o.maxSize.None? ==> After(o, m, run).recency == []
  {
    AfterCapped(o, m, run);
  }

  lemma LiveCapped(o: Options, m: Model, now: real)
    requires Capped(o, m)
    ensures Capped(o, Live(m, now))
  {
    DropCapped(o, m, Lapsed(m, now));
  }
}
