/**
 How many resources a manager keeps, and which: a bounded one no more than its cap,
 dropping the one put or looked up longest ago; an unbounded one every resource
 until it is written, deleted or cleared.
 */
module ManagerLaws {
  import opened Wrappers
  import opened Sequences
  import opened RetentionModel
  import opened Managers
  import R = RetentionRuns
  import M = RetentionModel

  /** Everything cached counts towards the cap of `n`, each key once. */
  ghost predicate Bounded(m: Model, n: int) {
    && m.timers == map[] && Distinct(m.recency) && |m.recency| <= n
    && (forall k :: k in m.recency <==> k in m.values)
  }

  lemma BoundedSize(m: Model, n: int)
    requires Bounded(m, n)
    ensures |m.values| == |m.recency| <= n
  {
    DistinctSize(m.recency);
    assert (set k | k in m.recency) == m.values.Keys;
    assert |m.values.Keys| == |m.values|;
  }

  lemma {:induction false} DistinctSize(s: seq<Key>)
    requires Distinct(s)
    ensures |set k | k in s| == |s|
  {
    if s != [] {
      var front, last := s[..|s| - 1], s[|s| - 1];
      DistinctSize(front);
      assert s == front + [last];
      assert (set k | k in s) == (set k | k in front) + {last};
      assert forall i :: 0 <= i < |front| ==> s[i] != s[|front|];
      assert last !in front;
    } else {
      assert (set k | k in s) == {};
    }
  }

  /** While there is room, or the key is there already, storing takes nobody's place. */
  lemma PutWithRoom(c: Config, m: Model, n: int, key: Key, value: Value)
    requires c.maxSize == Some(n) && n > 0 && Bounded(m, n) && (key in m.values || |m.values| < n)
    ensures var next := Cached(c, m, key, value);
      Bounded(next, n) && next.values == m.values[key := value] && next.recency == Touch(m.recency, key)
  {
    BoundedSize(m, n);
    hide Minus, Distinct, Touch;
    R.TouchDistinct(m.recency, key);
    assert |Touch(m.recency, key)| <= n;
  }

  /** When it is full, the head of the recency order makes room. */
  lemma PutWhenFull(c: Config, m: Model, n: int, key: Key, value: Value)
    requires c.maxSize == Some(n) && n > 0 && Bounded(m, n) && key !in m.values && |m.values| == n
    ensures m.recency != []
    ensures var next := Cached(c, m, key, value);
      && Bounded(next, n) && next.values == (m.values - {m.recency[0]})[key := value]
      && next.recency == Minus(Touch(m.recency, key), {m.recency[0]})
  {
    BoundedSize(m, n);
    var first := m.recency[0];
    RoomMade(m.recency, key);
    hide Minus, Distinct;
    var stored := M.Store(CacheOptions(c), m, key, value, None, 0.0);
    assert Cached(c, m, key, value) == Drop(stored, {first});
    assert m.values[key := value] - {first} == (m.values - {first})[key := value];
  }

  lemma RoomMade(recency: seq<Key>, key: Key)
    requires Distinct(recency) && key !in recency && recency != []
    ensures var touched := Touch(recency, key);
      && touched != [] && touched[0] == recency[0] && |touched| == |recency| + 1
      && Distinct(Minus(touched, {recency[0]})) && |Minus(touched, {recency[0]})| == |recency|
      && (forall k :: k in Minus(touched, {recency[0]}) <==> (k in recency && k != recency[0]) || k == key)
  {
    hide Minus;
    R.TouchDistinct(recency, key);
    MinusNothing(recency, {key});
    var touched := Touch(recency, key);
    assert touched == recency + [key];
    R.FirstDropped(touched);
    R.MinusDistinct(touched, {touched[0]});
    MinusMembers(touched, {touched[0]});
  }

  // ---------- the order of last touch ----------

  /** `e` puts a value under `key`, or finds one there. */
  predicate Touches(c: Config, s: State, e: Event, key: Key) {
    match e
    case Set(k, _) => k == key
    case Upsert(v) => KeyOf(c, s, v) == key
    case Get(k) => k == key && key in s.cache.values
    case Answer(l, v) =>
      if l in s.dirty then l.key == key && key in s.cache.values
      else if l.merging then KeyOf(c, s, v) == key
      else l.key == key
    case _ => false
  }

  /** The index of the last event of a run that touched `key`, or -1. */
  function LastTouch(c: Config, s: State, run: seq<Event>, key: Key): (index: int)
    ensures -1 <= index < |run|
  {
    if run == [] then -1
    else
      var before := run[..|run| - 1];
      if Touches(c, After(c, s, before), run[|run| - 1], key) then |run| - 1 else LastTouch(c, s, before, key)
  }

  ghost predicate ByLastTouch(c: Config, s: State, run: seq<Event>, keys: seq<Key>) {
    forall i, j :: 0 <= i < j < |keys| ==> LastTouch(c, s, run, keys[i]) < LastTouch(c, s, run, keys[j])
  }

  lemma {:induction false} MinusByLastTouch(c: Config, s: State, run: seq<Event>, keys: seq<Key>, gone: set<Key>)
    requires ByLastTouch(c, s, run, keys)
    ensures ByLastTouch(c, s, run, Minus(keys, gone))
  {
    if keys != [] {
      hide LastTouch;
      var front, last := keys[..|keys| - 1], keys[|keys| - 1];
      MinusByLastTouch(c, s, run, front, gone);
      MinusMembers(front, gone);
      forall k | k in Minus(front, gone) ensures LastTouch(c, s, run, k) < LastTouch(c, s, run, last) {
        var i :| 0 <= i < |front| && front[i] == k;
        assert keys[i] == k;
      }
    }
  }

  /** An event that touches none of `keys` leaves their order. */
  lemma UntouchedOrder(c: Config, s: State, run: seq<Event>, keys: seq<Key>)
    requires run != [] && ByLastTouch(c, s, run[..|run| - 1], keys)
    requires forall k :: k in keys ==> !Touches(c, After(c, s, run[..|run| - 1]), run[|run| - 1], k)
    ensures ByLastTouch(c, s, run, keys)
  {
    hide Touches, After;
    forall i | 0 <= i < |keys| ensures LastTouch(c, s, run, keys[i]) == LastTouch(c, s, run[..|run| - 1], keys[i]) {
      assert keys[i] in keys;
    }
  }

  ghost predicate TouchesOnly(c: Config, s: State, e: Event, key: Key) {
    forall k :: Touches(c, s, e, k) <==> k == key
  }

  /** The one that is touched goes behind all others. */
  lemma TouchedOrder(c: Config, s: State, run: seq<Event>, keys: seq<Key>, key: Key)
    requires run != [] && ByLastTouch(c, s, run[..|run| - 1], keys)
    requires TouchesOnly(c, After(c, s, run[..|run| - 1]), run[|run| - 1], key)
    ensures ByLastTouch(c, s, run, Touch(keys, key))
  {
    hide Touches, After;
    var rest := Minus(keys, {key});
    MinusByLastTouch(c, s, run[..|run| - 1], keys, {key});
    MinusMembers(keys, {key});
    UntouchedOrder(c, s, run, rest);
    assert LastTouch(c, s, run, key) == |run| - 1;
    forall i | 0 <= i < |rest| ensures LastTouch(c, s, run, rest[i]) < |run| - 1 {
      assert rest[i] in rest;
    }
  }

  // ---------- what one event does to the cache ----------

  /** The value an event stores, and its key. */
  function Puts(c: Config, s: State, e: Event): Option<(Key, Value)> {
    match e
    case Set(k, v) => Some((k, v))
    case Upsert(v) => Some((KeyOf(c, s, v), Canonical(c, s, v)))
    case Answer(l, v) =>
      if l in s.dirty then None
      else if l.merging then Some((KeyOf(c, s, v), Canonical(c, s, v)))
      else Some((l.key, v))
    case _ => None
  }

  /** What a put finds: the cache once it has looked its key up. */
  function Before(c: Config, s: State, e: Event): Model {
    if Puts(c, s, e).Some? && (e.Upsert? || (e.Answer? && e.load.merging)) then Looked(c, s, Puts(c, s, e).value.0).cache
    else s.cache
  }

  lemma PutIsCached(c: Config, s: State, e: Event)
    requires Puts(c, s, e).Some?
    ensures Step(c, s, e).cache == Cached(c, Before(c, s, e), Puts(c, s, e).value.0, Puts(c, s, e).value.1)
  {
    hide Cached;
  }

  lemma LookedBounded(c: Config, s: State, n: int, key: Key)
    requires c.maxSize == Some(n) && Bounded(s.cache, n)
    ensures var next := Looked(c, s, key).cache;
      && Bounded(next, n) && next.values == s.cache.values
      && next.recency == if key in s.cache.values then Touch(s.cache.recency, key) else s.cache.recency
  {
    R.TouchDistinct(s.cache.recency, key);
  }

  lemma {:induction false} TouchTwice(keys: seq<Key>, key: Key)
    ensures Touch(Touch(keys, key), key) == Touch(keys, key)
  {
    MinusConcat(Minus(keys, {key}), [key], {key});
    MinusMembers(keys, {key});
    MinusNothing(Minus(keys, {key}), {key});
    assert [key][..0] == [];
  }

  /** Room for `key`: it is there already, or fewer than the cap are. */
  predicate HasRoom(m: Model, n: int, key: Key) {
    key in m.values || |m.values| < n
  }

  lemma PutStep(c: Config, s: State, n: int, e: Event)
    requires c.maxSize == Some(n) && n > 0 && Bounded(s.cache, n) && Puts(c, s, e).Some?
    ensures var next, (k, v) := Step(c, s, e).cache, Puts(c, s, e).value;
      && Bounded(next, n)
      && (HasRoom(s.cache, n, k) ==> next.values == s.cache.values[k := v] && next.recency == Touch(s.cache.recency, k))
      && (!HasRoom(s.cache, n, k) ==>
          && s.cache.recency != [] && s.cache.recency[0] in s.cache.values
          && next.values == (s.cache.values - {s.cache.recency[0]})[k := v]
          && next.recency == Minus(Touch(s.cache.recency, k), {s.cache.recency[0]}))
  {
    hide Step, Bounded, Cached, Looked, Touch, Minus, KeyOf, Canonical;
    var (k, v) := Puts(c, s, e).value;
    var m := Before(c, s, e);
    BoundedSize(s.cache, n);
    PutIsCached(c, s, e);
    LookedBounded(c, s, n, k);
    TouchTwice(s.cache.recency, k);
    if HasRoom(s.cache, n, k) {
      PutWithRoom(c, m, n, k, v);
    } else {
      assert m == s.cache by { NotLooked(c, s, k); }
      PutWhenFull(c, m, n, k, v);
    }
  }

  lemma NotLooked(c: Config, s: State, key: Key)
    requires key !in s.cache.values
    ensures Looked(c, s, key) == s
  {
  }

  lemma OtherStep(c: Config, s: State, n: int, e: Event)
    requires c.maxSize == Some(n) && n > 0 && Bounded(s.cache, n) && Puts(c, s, e).None?
    ensures var next := Step(c, s, e).cache;
      && Bounded(next, n)
      && (e.Delete? ==> next.values == s.cache.values - {e.key} && next.recency == Minus(s.cache.recency, {e.key}))
      && (e.Clear? ==> next.values == map[] && next.recency == [])
      && (!e.Delete? && !e.Clear? ==> next.values == s.cache.values)
      && (e.Get? || e.Answer? ==>
          next.recency == if Target(e) in s.cache.values then Touch(s.cache.recency, Target(e)) else s.cache.recency)
      && (e.Fetch? || e.Fail? ==> next.recency == s.cache.recency)
  {
    match e
    case Get(k) => LookedBounded(c, s, n, k);
    case Answer(l, _) => LookedBounded(c, Settled(s, l), n, l.key);
    case Delete(k) =>
      R.MinusDistinct(s.cache.recency, {k});
      MinusMembers(s.cache.recency, {k});
    case _ =>
  }

  /** One event keeps the cache within its cap, and in the order of last touch. */
  lemma StepOrdered(c: Config, s: State, n: int, run: seq<Event>)
    requires c.maxSize == Some(n) && n > 0 && run != []
    requires var was := After(c, s, run[..|run| - 1]).cache; Bounded(was, n) && ByLastTouch(c, s, run[..|run| - 1], was.recency)
    ensures Bounded(After(c, s, run).cache, n) && ByLastTouch(c, s, run, After(c, s, run).cache.recency)
  {
    var e, was := run[|run| - 1], After(c, s, run[..|run| - 1]);
    var recency := was.cache.recency;
    hide Step, Bounded, ByLastTouch, Touch, Minus, KeyOf, Canonical;
    if Puts(c, was, e).Some? {
      var k := Puts(c, was, e).value.0;
      PutStep(c, was, n, e);
      hide Touches, Puts, After;
      TouchedOrder(c, s, run, recency, k);
      if !HasRoom(was.cache, n, k) { MinusByLastTouch(c, s, run, Touch(recency, k), {recency[0]}); }
    } else {
      OtherStep(c, was, n, e);
      OtherOrdered(c, s, n, run);
    }
  }

  lemma OtherOrdered(c: Config, s: State, n: int, run: seq<Event>)
    requires c.maxSize == Some(n) && n > 0 && run != []
    requires var was := After(c, s, run[..|run| - 1]);
      Bounded(was.cache, n) && ByLastTouch(c, s, run[..|run| - 1], was.cache.recency) && Puts(c, was, run[|run| - 1]).None?
    ensures ByLastTouch(c, s, run, After(c, s, run).cache.recency)
  {
    var e, was := run[|run| - 1], After(c, s, run[..|run| - 1]);
    var recency := was.cache.recency;
    OtherStep(c, was, n, e);
    LooksUp(c, was, e);
    hide Step, Bounded, Touch, Minus, Touches, Puts, ByLastTouch;
    if (e.Get? || e.Answer?) && Target(e) in was.cache.values {
      TouchedOrder(c, s, run, recency, Target(e));
    } else {
      UntouchedOrder(c, s, run, recency);
      if e.Delete? { MinusByLastTouch(c, s, run, recency, {e.key}); }
    }
  }

  /** The key that a lookup, or the answer of a load, is about. */
  function Target(e: Event): Key
    requires e.Get? || e.Answer?
  {
    if e.Get? then e.key else e.load.key
  }

  /** An event that puts nothing touches what it finds. */
  lemma LooksUp(c: Config, s: State, e: Event)
    requires Puts(c, s, e).None?
    ensures (e.Get? || e.Answer?) && Target(e) in s.cache.values ==> TouchesOnly(c, s, e, Target(e))
    ensures !((e.Get? || e.Answer?) && Target(e) in s.cache.values) ==> forall k :: !Touches(c, s, e, k)
  {
  }

  // ---------- over every run ----------

  /** Over every run a manager with a cap of `n` keeps at most `n` values, in the order they were last put or looked up. */
  lemma {:induction false} AtMostCap(c: Config, fields: map<Value, Fields>, n: int, run: seq<Event>)
    requires c.maxSize == Some(n) && n > 0
    ensures var m := After(c, Empty(fields), run).cache;
      Bounded(m, n) && |m.values| <= n && ByLastTouch(c, Empty(fields), run, m.recency)
  {
    if run != [] {
      hide Bounded, ByLastTouch, After;
      AtMostCap(c, fields, n, run[..|run| - 1]);
      StepOrdered(c, Empty(fields), n, run);
    }
    BoundedSize(After(c, Empty(fields), run).cache, n);
  }

  /**
   Over every run: a put keeps everything while there is room. On a full cache of
   other keys it takes the place of exactly one, the one put or looked up longest ago.
   */
  lemma PutEvicts(c: Config, fields: map<Value, Fields>, n: int, run: seq<Event>, e: Event) returns (victim: Key)
    requires c.maxSize == Some(n) && n > 0
    requires Puts(c, After(c, Empty(fields), run), e).Some?
    ensures
      var was := After(c, Empty(fields), run);
      var (k, v) := Puts(c, was, e).value;
      var next := Step(c, was, e).cache.values;
      if k in was.cache.values || |was.cache.values| < n then next == was.cache.values[k := v]
      else
        && |was.cache.values| == n && victim in was.cache.values && next == (was.cache.values - {victim})[k := v]
        && forall other :: other in was.cache.values && other != victim ==>
             LastTouch(c, Empty(fields), run, victim) < LastTouch(c, Empty(fields), run, other)
  {
    hide Step, Touch, Minus, After, LastTouch;
    var was := After(c, Empty(fields), run);
    var k := Puts(c, was, e).value.0;
    AtMostCap(c, fields, n, run);
    PutStep(c, was, n, e);
    victim := k;
    if !HasRoom(was.cache, n, k) {
      victim := was.cache.recency[0];
      forall other | other in was.cache.values && other != victim
        ensures LastTouch(c, Empty(fields), run, victim) < LastTouch(c, Empty(fields), run, other)
      {
        var j :| 0 <= j < |was.cache.recency| && was.cache.recency[j] == other;
      }
    }
  }

  // ---------- without a cap ----------

  /** An unbounded manager forgets only what it is told to. */
  lemma UnboundedStep(c: Config, s: State, e: Event)
    requires c.maxSize.None?
    ensures var next := Step(c, s, e).cache.values;
      && (Puts(c, s, e).Some? ==> next == s.cache.values[Puts(c, s, e).value.0 := Puts(c, s, e).value.1])
      && (e.Delete? ==> next == s.cache.values - {e.key})
      && (e.Clear? ==> next == map[])
      && (Puts(c, s, e).None? && !e.Delete? && !e.Clear? ==> next == s.cache.values)
  {
    if Puts(c, s, e).Some? {
      PutIsCached(c, s, e);
      hide Step, Canonical, KeyOf, Read, Minus;
    }
  }

  /** Over every run: what is cached without a cap stays until its key is written or deleted, or the cache is cleared. */
  lemma {:induction false} StaysCached(c: Config, s: State, run: seq<Event>, key: Key, value: Value)
    requires c.maxSize.None? && Lookup(s.cache, key) == Some(value) && !Written(c, s, run, key) && Clear !in run
    ensures Lookup(After(c, s, run).cache, key) == Some(value)
  {
    if run != [] {
      hide Step, Writes, Lookup;
      var before, last := run[..|run| - 1], run[|run| - 1];
      assert run == before + [last];
      StaysCached(c, s, before, key, value);
      StaysOneStep(c, After(c, s, before), last, key, value);
    }
  }

  lemma StaysOneStep(c: Config, s: State, e: Event, key: Key, value: Value)
    requires c.maxSize.None? && Lookup(s.cache, key) == Some(value) && Writes(c, s, e) != Some(key) && e != Clear
    ensures Lookup(Step(c, s, e).cache, key) == Some(value)
  {
    hide Step, Canonical, KeyOf;
    UnboundedStep(c, s, e);
  }
}
