/**
 What a `Collection` means to its callers: a map of values, the deadline of each
 timed key, and the keys under the cap, least recently used first. Keys go the
 moment they lapse. `Collections` proves that the real one cannot be told apart.
 */
module RetentionModel {
  import opened Wrappers
  import opened Sequences

  type Key(==, !new)
  type Value(==)

  datatype Timer = Timer(window: real, deadline: real)

  datatype Model = Model(values: map<Key, Value>, timers: map<Key, Timer>, recency: seq<Key>)

  /** The options of a collection that matter to the policy. */
  datatype Options = Options(ttl: Option<real>, jitter: real, maxSize: Option<int>, slide: bool)

  const NO_OPTIONS := Options(None, 0.0, None, true)

  predicate ValidOptions(o: Options) {
    && (o.ttl.Some? ==> o.ttl.value > 0.0)
    && 0.0 <= o.jitter <= 1.0
    && (o.maxSize.Some? ==> o.maxSize.value > 0)
  }

  // ---------- dropping keys ----------

  /** `s` without the elements in `gone`, in the same order. */
  function Minus<T(==)>(s: seq<T>, gone: set<T>): seq<T> {
    if s == [] then []
    else Minus(s[..|s| - 1], gone) + if s[|s| - 1] in gone then [] else [s[|s| - 1]]
  }

  function Drop(m: Model, gone: set<Key>): Model {
    Model(m.values - gone, m.timers - gone, Minus(m.recency, gone))
  }

  function Lapsed(m: Model, now: real): set<Key> {
    set k | k in m.timers && m.timers[k].deadline <= now
  }

  /** What is left of `m` at time `now`. */
  function Live(m: Model, now: real): Model {
    Drop(m, Lapsed(m, now))
  }

  // ---------- operations ----------

  /** `key` as the most recently used of `s`. */
  function Touch(s: seq<Key>, key: Key): seq<Key> {
    Minus(s, {key}) + [key]
  }

  /** Evicts the least recently used key when one too many count towards the cap. */
  function Evict(o: Options, m: Model): Model {
    if o.maxSize.Some? && m.recency != [] && |m.recency| > o.maxSize.value then Drop(m, {m.recency[0]}) else m
  }

  /** Stores a tracked entry, whatever the cap. */
  function Store(o: Options, m: Model, key: Key, value: Value, window: Option<real>, now: real): Model {
    Model(
      m.values[key := value],
      if window.Some? then m.timers[key := Timer(window.value, now + window.value)] else m.timers - {key},
      if o.maxSize.Some? then Touch(m.recency, key) else m.recency)
  }

  function Set(o: Options, m: Model, key: Key, value: Value, window: Option<real>, now: real): Model {
    Evict(o, Store(o, m, key, value, window, now))
  }

  function SetWithoutTTL(m: Model, key: Key, value: Value): Model {
    var rest := Drop(m, {key});
    rest.(values := rest.values[key := value])
  }

  /** The model after a `get` of `key`: its window restarts and it becomes the newest. */
  function Read(o: Options, m: Model, key: Key, now: real): Model {
    Model(
      m.values,
      if key in m.timers && o.slide then m.timers[key := Timer(m.timers[key].window, now + m.timers[key].window)]
      else m.timers,
      if key in m.recency then Touch(m.recency, key) else m.recency)
  }

  function Lookup(m: Model, key: Key): Option<Value> {
    if key in m.values then Some(m.values[key]) else None
  }

  /** The window a `set` gives its entry; `roll` is the random number drawn for the jitter. */
  function Window(o: Options, ttl: Option<real>, roll: real): Option<real> {
    var window := if ttl.Some? then ttl else o.ttl;
    if window.Some? && o.jitter > 0.0 then
      var shaved := window.value * (1.0 - o.jitter * roll);
      Some(if shaved > 1.0 then shaved else 1.0)
    else window
  }

  /** A window is always positive, so no entry lapses the moment it is stored. */
  lemma WindowPositive(o: Options, ttl: Option<real>, roll: real)
    requires ValidOptions(o) && (ttl.Some? ==> ttl.value > 0.0)
    ensures Window(o, ttl, roll).Some? ==> Window(o, ttl, roll).value > 0.0
  {
  }

  // ---------- lemmas about Minus and Drop ----------

  lemma {:induction false} MinusMembers<T>(s: seq<T>, gone: set<T>)
    ensures forall x :: x in Minus(s, gone) <==> x in s && x !in gone
    ensures |Minus(s, gone)| <= |s|
  {
    if s != [] {
      MinusMembers(s[..|s| - 1], gone);
      assert s == s[..|s| - 1] + [s[|s| - 1]];
    }
  }

  lemma {:induction false} MinusConcat<T>(a: seq<T>, b: seq<T>, gone: set<T>)
    ensures Minus(a + b, gone) == Minus(a, gone) + Minus(b, gone)
  {
    if b == [] {
      assert a + b == a;
    } else {
      assert (a + b)[..|a + b| - 1] == a + b[..|b| - 1];
      MinusConcat(a, b[..|b| - 1], gone);
    }
  }

  lemma {:induction false} MinusNothing<T>(s: seq<T>, gone: set<T>)
    requires forall x :: x in s ==> x !in gone
    ensures Minus(s, gone) == s
  {
    if s != [] {
      assert s == s[..|s| - 1] + [s[|s| - 1]];
      MinusNothing(s[..|s| - 1], gone);
    }
  }

  lemma {:induction false} MinusMinus<T>(s: seq<T>, a: set<T>, b: set<T>)
    ensures Minus(Minus(s, a), b) == Minus(s, a + b)
  {
    if s != [] {
      var front, last := s[..|s| - 1], s[|s| - 1];
      MinusMinus(front, a, b);
      MinusConcat(Minus(front, a), if last in a then [] else [last], b);
    }
  }

  lemma {:induction false} MinusAt<T>(s: seq<T>, i: nat)
    requires i < |s| && Distinct(s)
    ensures Minus(s, {s[i]}) == s[..i] + s[i + 1..]
  {
    var front := s[..|s| - 1];
    if i == |s| - 1 {
      MinusNothing(front, {s[i]});
    } else {
      MinusAt(front, i);
      assert s[i + 1..] == front[i + 1..] + [s[|s| - 1]];
    }
  }

  lemma DropDrop(m: Model, a: set<Key>, b: set<Key>)
    ensures Drop(Drop(m, a), b) == Drop(m, a + b)
  {
    MinusMinus(m.recency, a, b);
    assert (m.values - a) - b == m.values - (a + b);
    assert (m.timers - a) - b == m.timers - (a + b);
  }

  lemma DropNothing(m: Model)
    ensures Drop(m, {}) == m
  {
    MinusNothing(m.recency, {});
  }

  // ---------- operations commute with the passing of time ----------

  /** What every reachable model keeps. */
  ghost predicate WellFormed(o: Options, m: Model) {
    && m.timers.Keys <= m.values.Keys
    && (forall k :: k in m.recency ==> k in m.values)
    && Distinct(m.recency)
    && (forall k :: k in m.timers ==> m.timers[k].window > 0.0)
    && (o.maxSize.None? ==> m.recency == [])
  }

  /** Letting time pass in two steps is letting it pass in one. */
  lemma {:induction false} LiveLive(m: Model, earlier: real, later: real)
    requires earlier <= later
    ensures Live(Live(m, earlier), later) == Live(m, later)
  {
    var a, b := Lapsed(m, earlier), Lapsed(Live(m, earlier), later);
    DropDrop(m, a, b);
    assert a + b == Lapsed(m, later);
  }

  lemma EmptyLive(now: real)
    ensures Live(Model(map[], map[], []), now) == Model(map[], map[], [])
  {
  }

  /** Dropping lapsed keys early cannot be seen. */
  lemma {:induction false} DropLapsed(m: Model, gone: set<Key>, now: real)
    requires gone <= Lapsed(m, now)
    ensures Live(Drop(m, gone), now) == Live(m, now)
  {
    DropDrop(m, gone, Lapsed(Drop(m, gone), now));
    assert gone + Lapsed(Drop(m, gone), now) == Lapsed(m, now);
  }

  lemma {:induction false} DropLive(m: Model, gone: set<Key>, now: real)
    ensures Live(Drop(m, gone), now) == Drop(Live(m, now), gone)
  {
    DropDrop(m, gone, Lapsed(Drop(m, gone), now));
    DropDrop(m, Lapsed(m, now), gone);
    assert gone + Lapsed(Drop(m, gone), now) == Lapsed(m, now) + gone;
  }

  lemma {:induction false} TouchLive(s: seq<Key>, key: Key, lapsed: set<Key>)
    ensures Minus(Touch(s, key), lapsed - {key}) == Touch(Minus(s, lapsed), key)
  {
    MinusConcat(Minus(s, {key}), [key], lapsed - {key});
    MinusMinus(s, {key}, lapsed - {key});
    MinusMinus(s, lapsed, {key});
    assert {key} + (lapsed - {key}) == lapsed + {key};
  }

  lemma PutLive<V>(m: map<Key, V>, key: Key, v: V, lapsed: set<Key>)
    ensures m[key := v] - (lapsed - {key}) == (m - lapsed)[key := v]
    ensures (m - {key}) - (lapsed - {key}) == (m - lapsed) - {key}
  {
  }

  lemma StoreLapses(o: Options, m: Model, key: Key, value: Value, window: Option<real>, now: real)
    requires window.Some? ==> window.value > 0.0
    ensures Lapsed(Store(o, m, key, value, window, now), now) == Lapsed(m, now) - {key}
  {
  }

  lemma {:induction false} StoreLive(o: Options, m: Model, key: Key, value: Value, window: Option<real>, now: real)
    requires (o.maxSize.None? ==> m.recency == []) && (window.Some? ==> window.value > 0.0)
    ensures Live(Store(o, m, key, value, window, now), now) == Store(o, Live(m, now), key, value, window, now)
  {
    hide Minus, Touch, Lapsed;
    var lapsed := Lapsed(m, now);
    StoreLapses(o, m, key, value, window, now);
    if o.maxSize.Some? {
      TouchLive(m.recency, key, lapsed);
    } else {
      MinusNothing(m.recency, lapsed - {key});
      MinusNothing(m.recency, lapsed);
    }
    PutLive(m.values, key, value, lapsed);
    PutLive(m.timers, key, if window.Some? then Timer(window.value, now + window.value) else Timer(0.0, 0.0), lapsed);
  }

  lemma {:induction false} SetWithoutTTLLive(m: Model, key: Key, value: Value, now: real)
    ensures Live(SetWithoutTTL(m, key, value), now) == SetWithoutTTL(Live(m, now), key, value)
  {
    DropLive(m, {key}, now);
    var lapsed := Lapsed(Drop(m, {key}), now);
    assert Lapsed(SetWithoutTTL(m, key, value), now) == lapsed;
  }

  lemma ReadLapses(o: Options, m: Model, key: Key, now: real)
    requires key !in Lapsed(m, now) && (key in m.timers ==> m.timers[key].window > 0.0)
    ensures Lapsed(Read(o, m, key, now), now) == Lapsed(m, now)
  {
  }

  lemma {:induction false} ReadLive(o: Options, m: Model, key: Key, now: real)
    requires key !in Lapsed(m, now) && (key in m.timers ==> m.timers[key].window > 0.0)
    ensures Live(Read(o, m, key, now), now) == Read(o, Live(m, now), key, now)
  {
    hide Minus, Touch, Lapsed;
    var lapsed := Lapsed(m, now);
    ReadLapses(o, m, key, now);
    assert lapsed - {key} == lapsed;
    if key in m.timers {
      PutLive(m.timers, key, Timer(m.timers[key].window, now + m.timers[key].window), lapsed);
    }
    MinusMembers(m.recency, lapsed);
    TouchLive(m.recency, key, lapsed);
  }

  /** Once nothing lapsed is left, exactly the lapsed keys were dropped. */
  lemma {:induction false} AllDropped(m: Model, gone: set<Key>, now: real)
    requires gone <= Lapsed(m, now) && Lapsed(Drop(m, gone), now) == {}
    ensures gone == Lapsed(m, now) && Drop(m, gone) == Live(m, now)
  {
    forall k | k in Lapsed(m, now) ensures k in gone {
      assert k in gone || k in Lapsed(Drop(m, gone), now);
    }
  }

  /** A key that is not due is found live exactly when it is found at all. */
  lemma LookupLive(m: Model, key: Key, now: real)
    ensures Lookup(Live(m, now), key) == if key in Lapsed(m, now) then None else Lookup(m, key)
  {
  }

  /** A key with no window and no place in the recency order lives through anything but its removal. */
  lemma UntrackedLive(o: Options, m: Model, key: Key, now: real)
    requires key !in m.timers && key !in m.recency
    ensures key !in Lapsed(m, now) && Read(o, Live(m, now), key, now) == Live(m, now)
  {
    MinusMembers(m.recency, Lapsed(m, now));
  }

  /** A cap that the lapsed keys already fit under evicts nothing. */
  lemma {:induction false} EvictNothing(o: Options, m: Model, now: real)
    requires o.maxSize.Some? ==> |m.recency| <= o.maxSize.value
    ensures Evict(o, Live(m, now)) == Live(m, now)
  {
    MinusMembers(m.recency, Lapsed(m, now));
  }

  /** Evicting from what is live leaves only what is live. */
  lemma {:induction false} EvictLive(o: Options, m: Model, now: real)
    ensures Live(Evict(o, Live(m, now)), now) == Evict(o, Live(m, now))
  {
    var live := Live(m, now);
    LiveLive(m, now, now);
    if o.maxSize.Some? && live.recency != [] && |live.recency| > o.maxSize.value {
      DropLive(live, {live.recency[0]}, now);
    }
  }
}
