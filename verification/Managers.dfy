/**
 A cache of resources filled both by writes and by loads that answer late. The
 state machine says what one event does; the theorems are over every
 interleaving of loads, writes and answers; the class is what runs.
 */
module Managers {
  import opened Wrappers
  import opened RetentionModel
  import M = RetentionModel
  import Collections
  import opened RetentionPolicy

  type Field(==)

  /** What an object holds. */
  type Fields = map<string, Field>

  /** What a manager is built with: its cap, and how it reads a resource's key. */
  datatype Config = Config(maxSize: Option<int>, key: (Value, Fields) -> Key)

  function CacheOptions(c: Config): Options {
    NO_OPTIONS.(maxSize := c.maxSize)
  }

  /** A load in flight. A merging one stores its answer under that answer's own key. */
  class Load {
    const key: Key
    const merging: bool
    var dirty: bool

    constructor (key: Key, merging: bool)
      ensures this.key == key && this.merging == merging && !dirty
    {
      this.key, this.merging, dirty := key, merging, false;
    }
  }

  /**
   `inflight` is what the manager looks up; `loads` are those still to answer.
   `fields` is the heap: the values that are objects, those still to come as well,
   with what they hold.
   */
  datatype State =
    State(cache: Model, inflight: map<Key, Load>, loads: set<Load>, dirty: set<Load>, fields: map<Value, Fields>)

  datatype Event =
    | Fetch(load: Load)
    | Answer(load: Load, value: Value)
    | Fail(load: Load)
    | Set(key: Key, value: Value)
    | Upsert(value: Value)
    | Delete(key: Key)
    | Clear
    | Get(key: Key)

  function Empty(fields: map<Value, Fields>): State {
    State(Model(map[], map[], []), map[], {}, {}, fields)
  }

  ghost predicate Coherent(s: State) {
    && s.cache.timers == map[] && s.dirty <= s.loads
    && (forall k :: k in s.inflight ==> s.inflight[k] in s.loads && s.inflight[k].key == k)
    && (forall l :: l in s.loads ==> l.key in s.inflight && s.inflight[l.key] == l)
  }

  lemma CoherentWith(c: Config, s: State, key: Key, value: Value)
    requires Coherent(s)
    ensures Coherent(s.(cache := Cached(c, s.cache, key, value)))
  {
    hide Cached;
    UntimedCached(c, s.cache, key, value);
  }

  lemma EmptyCoherent(fields: map<Value, Fields>)
    ensures Coherent(Empty(fields))
  {
  }

  /** Loads start once, and answer or fail once, after they started. */
  ghost predicate Possible(s: State, e: Event) {
    match e
    case Fetch(l) => l !in s.loads
    case Answer(l, _) => l in s.loads
    case Fail(l) => l in s.loads
    case _ => true
  }

  // ---------- what each call does ----------

  function Marked(s: State, key: Key): State {
    if key in s.inflight then s.(dirty := s.dirty + {s.inflight[key]}) else s
  }

  /** Entries never lapse. Only a cap makes them count. */
  function Cached(c: Config, m: Model, key: Key, value: Value): Model {
    if c.maxSize.Some? then M.Set(CacheOptions(c), m, key, value, None, 0.0) else M.SetWithoutTTL(m, key, value)
  }

  function Put(c: Config, s: State, key: Key, value: Value): State {
    Marked(s, key).(cache := Cached(c, s.cache, key, value))
  }

  function Looked(c: Config, s: State, key: Key): State {
    if key in s.cache.values then s.(cache := Read(CacheOptions(c), s.cache, key, 0.0)) else s
  }

  function Held(s: State, value: Value): Fields {
    if value in s.fields then s.fields[value] else map[]
  }

  function KeyOf(c: Config, s: State, value: Value): Key {
    c.key(value, Held(s, value))
  }

  /** There is a cached object for a resource to be copied onto. */
  predicate Merges(c: Config, s: State, value: Value) {
    KeyOf(c, s, value) in s.cache.values && s.cache.values[KeyOf(c, s, value)] in s.fields
  }

  /** The instance that stands for a resource: the cached object, or else the resource itself. */
  function Canonical(c: Config, s: State, value: Value): Value {
    if Merges(c, s, value) then s.cache.values[KeyOf(c, s, value)] else value
  }

  /** The heap once a resource's fields are copied onto the cached object. */
  function Assigned(c: Config, s: State, value: Value): map<Value, Fields> {
    if Merges(c, s, value) then
      s.fields[Canonical(c, s, value) := Held(s, Canonical(c, s, value)) + Held(s, value)]
    else s.fields
  }

  function Upserted(c: Config, s: State, value: Value): State {
    var key := KeyOf(c, s, value);
    Put(c, Looked(c, s, key).(fields := Assigned(c, s, value)), key, Canonical(c, s, value))
  }

  /** A load that is over, whatever came of it. */
  function Settled(s: State, l: Load): State {
    State(s.cache, s.inflight - {l.key}, s.loads - {l}, s.dirty - {l}, s.fields)
  }

  function Answered(c: Config, s: State, l: Load, value: Value): State {
    var t := Settled(s, l);
    if l in s.dirty then Looked(c, t, l.key)
    else if l.merging then Upserted(c, t, value)
    else Put(c, t, l.key, value)
  }

  /** A second fetch of a key shares the load in flight. */
  function Fetched(s: State, l: Load): State {
    if l.key in s.inflight then s else s.(inflight := s.inflight[l.key := l], loads := s.loads + {l})
  }

  function Step(c: Config, s: State, e: Event): State {
    match e
    case Fetch(l) => Fetched(s, l)
    case Answer(l, value) => Answered(c, s, l, value)
    case Fail(l) => Settled(s, l)
    case Set(key, value) => Put(c, s, key, value)
    case Upsert(value) => Upserted(c, s, value)
    case Delete(key) => Marked(s, key).(cache := Drop(s.cache, {key}))
    case Clear => s.(cache := Model(map[], map[], []))
    case Get(key) => Looked(c, s, key)
  }

  /** The key an event writes or deletes. */
  function Writes(c: Config, s: State, e: Event): Option<Key> {
    match e
    case Set(key, _) => Some(key)
    case Upsert(value) => Some(KeyOf(c, s, value))
    case Delete(key) => Some(key)
    case Answer(l, value) => if l in s.dirty then None else Some(if l.merging then KeyOf(c, s, value) else l.key)
    case _ => None
  }

  function After(c: Config, s: State, run: seq<Event>): State {
    if run == [] then s else Step(c, After(c, s, run[..|run| - 1]), run[|run| - 1])
  }

  ghost predicate Run(c: Config, s: State, run: seq<Event>) {
    run != [] ==> Run(c, s, run[..|run| - 1]) && Possible(After(c, s, run[..|run| - 1]), run[|run| - 1])
  }

  // ---------- over every run ----------

  lemma UntimedCached(c: Config, m: Model, key: Key, value: Value)
    requires m.timers == map[]
    ensures Cached(c, m, key, value).timers == map[]
  {
  }

  lemma PutValid(c: Config, s: State, key: Key, value: Value)
    requires Coherent(s)
    ensures Coherent(Put(c, s, key, value))
  {
    hide Cached;
    UntimedCached(c, s.cache, key, value);
  }

  lemma LookedValid(c: Config, s: State, key: Key)
    requires Coherent(s)
    ensures Coherent(Looked(c, s, key))
  {
  }

  lemma SettledValid(s: State, l: Load)
    requires Coherent(s) && l in s.loads
    ensures Coherent(Settled(s, l))
  {
  }

  lemma UpsertedValid(c: Config, s: State, value: Value)
    requires Coherent(s)
    ensures Coherent(Upserted(c, s, value))
  {
    hide Canonical, Assigned, KeyOf, Put, Cached;
    var key := KeyOf(c, s, value);
    LookedValid(c, s, key);
    PutValid(c, Looked(c, s, key).(fields := Assigned(c, s, value)), key, Canonical(c, s, value));
  }

  lemma StepValid(c: Config, s: State, e: Event)
    requires Coherent(s) && Possible(s, e)
    ensures Coherent(Step(c, s, e))
  {
    hide Put, Looked, Upserted, Settled;
    match e
    case Set(k, v) => PutValid(c, s, k, v);
    case Get(k) => LookedValid(c, s, k);
    case Upsert(v) => UpsertedValid(c, s, v);
    case Fail(l) => SettledValid(s, l);
    case Answer(l, v) =>
      var t := Settled(s, l);
      SettledValid(s, l);
      LookedValid(c, t, l.key);
      UpsertedValid(c, t, v);
      PutValid(c, t, l.key, v);
    case _ =>
  }

  /** At most one load of a key is in flight, and it is the one later fetches share. */
  lemma {:induction false} OneLoadPerKey(c: Config, s: State, run: seq<Event>, a: Load, b: Load)
    requires Coherent(s) && Run(c, s, run)
    ensures Coherent(After(c, s, run))
    ensures a in After(c, s, run).loads && b in After(c, s, run).loads && a.key == b.key ==> a == b
  {
    if run != [] {
      OneLoadPerKey(c, s, run[..|run| - 1], a, b);
      StepValid(c, After(c, s, run[..|run| - 1]), run[|run| - 1]);
    }
  }

  /** Somebody wrote or deleted `key` during the run. */
  ghost predicate Written(c: Config, s: State, run: seq<Event>, key: Key) {
    run != [] &&
    (Written(c, s, run[..|run| - 1], key)
     || Writes(c, After(c, s, run[..|run| - 1]), run[|run| - 1]) == Some(key))
  }

  /** A step makes a load it leaves in flight dirty exactly when it writes or deletes its key. */
  lemma StepDirty(c: Config, s: State, e: Event, l: Load)
    requires Coherent(s) && Possible(s, e) && l in s.loads && l in Step(c, s, e).loads
    ensures l in Step(c, s, e).dirty <==> l in s.dirty || Writes(c, s, e) == Some(l.key)
  {
    hide Cached, Canonical, Assigned, Read;
  }

  lemma StepLoads(c: Config, s: State, e: Event, l: Load)
    requires l in Step(c, s, e).loads
    ensures l in s.loads || e == Fetch(l)
  {
    hide Cached;
  }

  /** A load still in flight is dirty exactly when its key was written or deleted since it began. */
  lemma {:induction false} DirtyMeansWritten(c: Config, s: State, run: seq<Event>, l: Load)
    requires Coherent(s) && Run(c, s, run) && Fetch(l) !in run && l in s.loads && l !in s.dirty
    requires l in After(c, s, run).loads
    ensures l in After(c, s, run).dirty <==> Written(c, s, run, l.key)
  {
    if run != [] {
      var before, e := run[..|run| - 1], run[|run| - 1];
      assert run == before + [e];
      var t := After(c, s, before);
      OneLoadPerKey(c, s, before, l, l);
      StepLoads(c, t, e, l);
      DirtyMeansWritten(c, s, before, l);
      StepDirty(c, t, e, l);
    }
  }

  /** What is put is there at once: the cap never evicts the newest entry. */
  lemma PutStores(c: Config, s: State, key: Key, value: Value)
    requires ValidOptions(CacheOptions(c))
    ensures Lookup(Put(c, s, key, value).cache, key) == Some(value)
  {
    MinusMembers(s.cache.recency, {key});
  }

  /**
   A late answer is stored exactly when nobody wrote or deleted the key it was
   fetched for since the load began, and otherwise leaves every cached value, and
   what it holds, as it was. A merging load stores it under the answer's own key.
   */
  lemma LateAnswer(c: Config, s: State, run: seq<Event>, l: Load, value: Value)
    requires Coherent(s) && Run(c, s, run) && Fetch(l) !in run && l in s.loads && l !in s.dirty
    requires l in After(c, s, run).loads && ValidOptions(CacheOptions(c))
    ensures
      var was := After(c, s, run);
      var now := Step(c, was, Answer(l, value));
      if Written(c, s, run, l.key) then
        now.cache.values == was.cache.values && now.fields == was.fields && now.dirty == was.dirty - {l}
      else if l.merging then
        Lookup(now.cache, KeyOf(c, was, value)) == Some(Canonical(c, was, value)) && now.fields == Assigned(c, was, value)
      else Lookup(now.cache, l.key) == Some(value) && now.fields == was.fields
  {
    hide After, Run, Written, Cached, Coherent, ValidOptions, Canonical, Assigned, KeyOf;
    DirtyMeansWritten(c, s, run, l);
    var was := After(c, s, run);
    var t := Settled(was, l);
    SameAnswer(c, t, was, value);
    PutStores(c, t, l.key, value);
    PutStores(c, Looked(c, t, KeyOf(c, t, value)).(fields := Assigned(c, t, value)), KeyOf(c, t, value), Canonical(c, t, value));
  }

  lemma SameAnswer(c: Config, s: State, t: State, value: Value)
    requires s.cache == t.cache && s.fields == t.fields
    ensures KeyOf(c, s, value) == KeyOf(c, t, value) && Canonical(c, s, value) == Canonical(c, t, value)
    ensures Assigned(c, s, value) == Assigned(c, t, value)
  {
  }

  /** A merged resource keeps the cached object, which now holds the resource's fields; no other object changes. */
  lemma ReferencesStayCurrent(c: Config, s: State, value: Value)
    requires Merges(c, s, value) && ValidOptions(CacheOptions(c))
    ensures
      var key := KeyOf(c, s, value);
      var now := Step(c, s, Upsert(value));
      && Lookup(now.cache, key) == Lookup(s.cache, key) == Some(Canonical(c, s, value))
      && (forall f :: f in Held(s, value) ==>
            f in Held(now, Canonical(c, s, value)) && Held(now, Canonical(c, s, value))[f] == Held(s, value)[f])
      && (forall v :: v != Canonical(c, s, value) ==> Held(now, v) == Held(s, v))
  {
    hide Cached, ValidOptions;
    var key := KeyOf(c, s, value);
    PutStores(c, Looked(c, s, key).(fields := Assigned(c, s, value)), key, Canonical(c, s, value));
  }

  /** The answer belongs to another key than the one it was fetched for, and is stored there. */
  predicate Strays(c: Config, s: State, l: Load, value: Value) {
    l.merging && KeyOf(c, s, value) != l.key
  }

  /**
   A late answer is stored under a key that was written or deleted since its load
   began if and only if the load is clean and the answer strays to that very key;
   under every other such key the same value stays, but for what a cap evicts.
   */
  lemma StoredExactly(c: Config, s: State, run: seq<Event>, l: Load, value: Value, k: Key)
    requires Coherent(s) && Run(c, s, run) && Fetch(l) !in run && l in s.loads && l !in s.dirty
    requires l in After(c, s, run).loads && ValidOptions(CacheOptions(c)) && Written(c, s, run, k)
    ensures
      var was := After(c, s, run);
      var now := Step(c, was, Answer(l, value));
      && (Writes(c, was, Answer(l, value)) == Some(k) <==>
          !Written(c, s, run, l.key) && Strays(c, was, l, value) && KeyOf(c, was, value) == k)
      && Lookup(now.cache, k) ==
         if Writes(c, was, Answer(l, value)) == Some(k) then Some(Canonical(c, was, value))
         else if c.maxSize.Some? && k !in now.cache.values then None
         else Lookup(was.cache, k)
  {
    hide After, Run, Written, Cached, Coherent, ValidOptions, Canonical, Assigned, KeyOf;
    DirtyMeansWritten(c, s, run, l);
    LateAnswer(c, s, run, l, value);
    var was := After(c, s, run);
    var t := Settled(was, l);
    SameAnswer(c, t, was, value);
    CachedElsewhere(c, t.cache, l.key, value, k);
    CachedElsewhere(c, Looked(c, t, KeyOf(c, t, value)).cache, KeyOf(c, t, value), Canonical(c, t, value), k);
  }

  /** What a late answer leaves every object with: only the one it is merged into changes. */
  lemma AnswerHolds(c: Config, s: State, run: seq<Event>, l: Load, value: Value)
    requires Coherent(s) && Run(c, s, run) && Fetch(l) !in run && l in s.loads && l !in s.dirty
    requires l in After(c, s, run).loads && ValidOptions(CacheOptions(c))
    ensures
      var was := After(c, s, run);
      var now := Step(c, was, Answer(l, value));
      forall o :: Held(now, o) ==
        if !Written(c, s, run, l.key) && l.merging && Merges(c, was, value) && o == Canonical(c, was, value)
        then Held(was, o) + Held(was, value)
        else Held(was, o)
  {
    hide After, Run, Written, Cached, Coherent, ValidOptions, KeyOf, Step;
    LateAnswer(c, s, run, l, value);
  }

  /** What a lookup of `key` shows: a value and what it holds. */
  function Seen(s: State, key: Key): Option<(Value, Fields)> {
    if key in s.cache.values then Some((s.cache.values[key], Held(s, s.cache.values[key]))) else None
  }

  /** What a merging answer shows where it is stored. */
  function Brought(c: Config, s: State, value: Value): (Value, Fields) {
    var v := Canonical(c, s, value);
    (v, if Merges(c, s, value) then Held(s, v) + Held(s, value) else Held(s, v))
  }

  /** A merging answer shows under `k`: it has that key, or the object it is merged into is cached there as well. */
  predicate Reaches(c: Config, s: State, l: Load, value: Value, k: Key) {
    l.merging &&
    (KeyOf(c, s, value) == k || (Merges(c, s, value) && Lookup(s.cache, k) == Some(Canonical(c, s, value))))
  }

  /** `k` shows something it did not show before. */
  predicate Undone(s: State, now: State, k: Key) {
    Seen(now, k).Some? && Seen(now, k) != Seen(s, k)
  }

  /**
   Exactly when a late answer undoes newer state. What a key shows that was written
   or deleted since the load began changes if and only if the load is clean and the
   answer reaches that key with something else; it then shows the answer. Nothing
   else happens to such a key but that a cap evicts it.
   */
  lemma UndoneExactly(c: Config, s: State, run: seq<Event>, l: Load, value: Value, k: Key)
    requires Coherent(s) && Run(c, s, run) && Fetch(l) !in run && l in s.loads && l !in s.dirty
    requires l in After(c, s, run).loads && ValidOptions(CacheOptions(c)) && Written(c, s, run, k)
    ensures
      var was := After(c, s, run);
      var now := Step(c, was, Answer(l, value));
      var reached := !Written(c, s, run, l.key) && Reaches(c, was, l, value, k);
      && Seen(now, k) ==
         (if c.maxSize.Some? && k !in now.cache.values then None
          else if reached then Some(Brought(c, was, value))
          else Seen(was, k))
      && (k in now.cache.values ==>
          (Undone(was, now, k) <==> reached && Seen(was, k) != Some(Brought(c, was, value))))
  {
    hide After, Run, Written, Coherent, ValidOptions, KeyOf, Step;
    StoredExactly(c, s, run, l, value, k);
    AnswerHolds(c, s, run, l, value);
  }

  /**
   An object cached under two keys: an answer for the one overwrites what a write
   of the other, newer than the load, made it show.
   */
  lemma SharedObjectOverwritten(c: Config, fields: map<Value, Fields>, l: Load, other: Key, obj: Value, value: Value)
    requires c.maxSize.None? && obj in fields && other != l.key
    requires l.merging && KeyOf(c, Empty(fields), value) == l.key
    ensures
      var run := [Set(l.key, obj), Fetch(l), Set(other, obj), Answer(l, value)];
      var start := Empty(fields);
      && Run(c, start, run) && !Strays(c, start, l, value)
      && Seen(After(c, start, run[..3]), other) == Some((obj, Held(start, obj)))
      && Seen(After(c, start, run), other) == Some((obj, Held(start, obj) + Held(start, value)))
  {
    var start := Empty(fields);
    var run := [Set(l.key, obj), Fetch(l), Set(other, obj), Answer(l, value)];
    assert run[..4] == run && run[..3][..2] == run[..2] && run[..2][..1] == run[..1] && run[..1][..0] == [];
    var a := Step(c, start, run[0]);
    var b := Step(c, a, run[1]);
    var d := Step(c, b, run[2]);
    assert After(c, start, run[..0]) == start && Run(c, start, run[..0]);
    assert After(c, start, run[..1]) == a && Run(c, start, run[..1]);
    assert After(c, start, run[..2]) == b && Run(c, start, run[..2]);
    assert After(c, start, run[..3]) == d && Run(c, start, run[..3]);
    assert After(c, start, run) == Step(c, d, run[3]) && Run(c, start, run);
    hide After, Run;
    assert d.cache.values == map[l.key := obj, other := obj] && d.dirty == {} && d.loads == {l};
  }

  /** Storing under one key changes no other, but for what a cap evicts. */
  lemma CachedElsewhere(c: Config, m: Model, key: Key, value: Value, k: Key)
    ensures k != key ==>
      Lookup(Cached(c, m, key, value), k) ==
      if c.maxSize.Some? && k !in Cached(c, m, key, value).values then None else Lookup(m, k)
  {
  }

  /** Where a load's answer is stored, if it is clean and nothing is cached. */
  function Target(c: Config, fields: map<Value, Fields>, l: Load, value: Value): Key {
    if l.merging then KeyOf(c, Empty(fields), value) else l.key
  }

  /** A deleted resource comes back under its own key when it was fetched under another. */
  lemma StrayAnswerRestores(c: Config, fields: map<Value, Fields>, l: Load, value: Value)
    requires ValidOptions(CacheOptions(c)) && Strays(c, Empty(fields), l, value)
    ensures
      var key := KeyOf(c, Empty(fields), value);
      var run := [Fetch(l), Delete(key), Answer(l, value)];
      Run(c, Empty(fields), run) && Lookup(After(c, Empty(fields), run).cache, key) == Some(value)
  {
    AnswerAfter(c, fields, l, Delete(KeyOf(c, Empty(fields), value)), value);
  }

  /** `clear` is not such a write: a load in flight across it brings its resource back. */
  lemma ClearDoesNotCount(c: Config, fields: map<Value, Fields>, l: Load, value: Value)
    requires ValidOptions(CacheOptions(c))
    ensures
      var run := [Fetch(l), Clear, Answer(l, value)];
      Run(c, Empty(fields), run) && Lookup(After(c, Empty(fields), run).cache, Target(c, fields, l, value)) == Some(value)
  {
    AnswerAfter(c, fields, l, Clear, value);
  }

  /** An event that leaves nothing cached and the load clean does not keep its answer out. */
  lemma AnswerAfter(c: Config, fields: map<Value, Fields>, l: Load, between: Event, value: Value)
    requires ValidOptions(CacheOptions(c)) && (between.Delete? || between.Clear?) && between != Delete(l.key)
    ensures
      var run := [Fetch(l), between, Answer(l, value)];
      Run(c, Empty(fields), run) && Lookup(After(c, Empty(fields), run).cache, Target(c, fields, l, value)) == Some(value)
  {
    hide Put, ValidOptions;
    var start := Empty(fields);
    var a, b, d := [Fetch(l)], [Fetch(l), between], [Fetch(l), between, Answer(l, value)];
    assert a[..0] == [] && b[..1] == a && d[..2] == b;
    assert After(c, start, a[..0]) == start && Run(c, start, a[..0]);
    assert After(c, start, a) == Step(c, start, Fetch(l)) && Run(c, start, a);
    var s := After(c, start, b);
    assert s == Step(c, After(c, start, a), between) && Run(c, start, b);
    assert s.loads == {l} && s.dirty == {} && s.cache.values == map[] && s.fields == fields;
    PutStores(c, Settled(s, l), l.key, value);
    PutStores(c, Settled(s, l), KeyOf(c, s, value), value);
  }

  lemma UntimedLive(m: Model, earlier: real, later: real)
    requires earlier <= later && Live(m, earlier).timers == map[]
    ensures Live(m, later) == Live(m, earlier)
  {
    LiveLive(m, earlier, later);
    assert Lapsed(Live(m, earlier), later) == {};
    DropNothing(Live(m, earlier));
  }

  // ---------- the manager ----------

  class Manager {
    const config: Config
    const cache: Collections.Collection
    var inflight: map<Key, Load>
    /** Every load still to answer, whether or not `inflight` knows it. */
    ghost var loads: set<Load>
    /** The heap, which `Upsert` changes in place. */
    var fields: map<Value, Fields>
    ghost var clock: real

    ghost predicate Valid()
      reads this, cache, cache.Footprint(), loads
    {
      && this !in cache.Footprint() && cache.Footprint() !! loads
      && cache.Valid() && cache.Current(clock) && cache.Opts() == CacheOptions(config)
      && Coherent(Now())
    }

    ghost function Now(): State
      reads this, cache, cache.Footprint(), loads
      requires cache in cache.Footprint() && cache.Valid()
    {
      State(Live(cache.Raw(), clock), inflight, loads, (set l | l in loads && l.dirty), fields)
    }

    ghost function Footprint(): set<object>
      reads this, cache, cache.policy
    {
      {this} + cache.Footprint() + loads
    }

    constructor (config: Config, fields: map<Value, Fields>, now: real)
      requires ValidOptions(CacheOptions(config))
      ensures Valid() && this.config == config && Now() == Empty(fields) && clock == now
      ensures fresh(Footprint())
    {
      hide Policy.ListOk, Policy.HeapOk, Policy.Tracked, Policy.Filing, Policy.Windows, Policy.TimerOk;
      hide Policy.Order, Policy.Timers, Live, Coherent;
      this.config := config;
      cache := new Collections.Collection(CacheOptions(config), now);
      inflight, loads, clock := map[], {}, now;
      this.fields := fields;
      new;
      EmptyLive(now);
      EmptyCoherent(fields);
      assert Now() == Empty(fields);
    }

    /** Time passing changes nothing: no entry here has a window. */
    method Tick(now: real)
      requires Valid() && clock <= now
      modifies `clock
      ensures Valid() && clock == now && Now() == old(Now())
    {
      hide Policy.ListOk, Policy.HeapOk, Policy.Tracked, Policy.Filing, Policy.Windows, Policy.TimerOk;
      hide Policy.Order, Policy.Timers, Live;
      UntimedLive(cache.Raw(), clock, now);
      clock := now;
    }

    method MarkDirty(key: Key)
      requires Valid()
      modifies loads
      ensures Valid() && Now() == Marked(old(Now()), key)
    {
      hide Policy.ListOk, Policy.HeapOk, Policy.Tracked, Policy.Filing, Policy.Windows, Policy.TimerOk;
      hide Policy.Order, Policy.Timers, Live;
      if key in inflight { inflight[key].dirty := true; }
    }

    method Get(key: Key, now: real) returns (r: Option<Value>)
      requires Valid() && clock <= now
      modifies this, cache.Footprint()
      ensures Valid() && clock == now && fresh(Footprint() - old(Footprint()))
      ensures r == Lookup(old(Now()).cache, key) && Now() == Step(config, old(Now()), Event.Get(key))
    {
      hide Policy.ListOk, Policy.HeapOk, Policy.Tracked, Policy.Filing, Policy.Windows, Policy.TimerOk;
      hide Policy.Order, Policy.Timers, Live;
      Tick(now);
      r := cache.Get(key, now);
    }

    /** Only a bounded cache counts its entries; an unbounded one pins them. */
    method Store(key: Key, value: Value, now: real)
      requires Valid() && clock <= now
      modifies this, cache.Footprint()
      ensures Valid() && clock == now && fresh(Footprint() - old(Footprint()))
      ensures Now() == old(Now()).(cache := Cached(config, old(Now()).cache, key, value))
    {
      hide Policy.ListOk, Policy.HeapOk, Policy.Tracked, Policy.Filing, Policy.Windows, Policy.TimerOk;
      hide Policy.Order, Policy.Timers, Live;
      hide M.SetWithoutTTL, Coherent;
      Tick(now);
      ghost var was := Now();
      CoherentWith(config, was, key, value);
      if config.maxSize.Some? {
        var ok := cache.Set(key, value, None, 0.0, now);
      } else {
        cache.SetWithoutTTL(key, value, now);
      }
      assert Now() == was.(cache := Cached(config, was.cache, key, value));
    }

    method Set(key: Key, value: Value, now: real)
      requires Valid() && clock <= now
      modifies Footprint()
      ensures Valid() && clock == now && fresh(Footprint() - old(Footprint()))
      ensures Now() == Step(config, old(Now()), Event.Set(key, value))
    {
      hide Policy.ListOk, Policy.HeapOk, Policy.Tracked, Policy.Filing, Policy.Windows, Policy.TimerOk;
      hide Policy.Order, Policy.Timers, Live;
      hide Cached, Coherent;
      MarkDirty(key);
      Store(key, value, now);
    }

    method Delete(key: Key, now: real) returns (removed: bool)
      requires Valid() && clock <= now
      modifies Footprint()
      ensures Valid() && clock == now && fresh(Footprint() - old(Footprint()))
      ensures Now() == Step(config, old(Now()), Event.Delete(key))
      ensures removed <==> key in old(Now()).cache.values
    {
      hide Policy.ListOk, Policy.HeapOk, Policy.Tracked, Policy.Filing, Policy.Windows, Policy.TimerOk;
      hide Policy.Order, Policy.Timers, Live, Drop, Minus, Lapsed, Collections.Collection.Copied, Policy.MapOk;
      hide Coherent;
      ghost var was := Now();
      StepValid(config, was, Event.Delete(key));
      Tick(now);
      MarkDirty(key);
      removed := cache.Delete(key, now);
      assert Now() == Step(config, was, Event.Delete(key));
    }

    method Clear(now: real)
      requires Valid() && clock <= now
      modifies Footprint()
      ensures Valid() && clock == now && fresh(Footprint() - old(Footprint()))
      ensures Now() == Step(config, old(Now()), Event.Clear)
    {
      hide Policy.ListOk, Policy.HeapOk, Policy.Tracked, Policy.Filing, Policy.Windows, Policy.TimerOk;
      hide Policy.Order, Policy.Timers, Live;
      Tick(now);
      cache.Clear(now);
      EmptyLive(now);
    }

    function HeldBy(value: Value): Fields
      reads `fields
    {
      if value in fields then fields[value] else map[]
    }

    /** Every field `from` has, in place. */
    method Assign(into: Value, from: Value)
      requires Valid() && into in fields
      modifies `fields
      ensures Valid() && Now() == old(Now()).(fields := old(fields)[into := old(HeldBy(into)) + old(HeldBy(from))])
    {
      hide Policy.ListOk, Policy.HeapOk, Policy.Tracked, Policy.Filing, Policy.Windows, Policy.TimerOk;
      hide Policy.Order, Policy.Timers, Live;
      fields := fields[into := fields[into] + HeldBy(from)];
    }

    /** Copies a resource's fields onto the cached object, or stores the resource. */
    method Upsert(value: Value, now: real) returns (r: Value)
      requires Valid() && clock <= now
      modifies Footprint()
      ensures Valid() && clock == now && fresh(Footprint() - old(Footprint()))
      ensures Now() == Step(config, old(Now()), Event.Upsert(value))
      ensures r == Canonical(config, old(Now()), value)
    {
      hide Policy.ListOk, Policy.HeapOk, Policy.Tracked, Policy.Filing, Policy.Windows, Policy.TimerOk;
      hide Policy.Order, Policy.Timers, Live, Drop, Minus, Lapsed, Collections.Collection.Copied, Policy.MapOk;
      hide Collections.Collection.Raw, Collections.Collection.Opts, Collections.Collection.Current, Policy.Valid;
      hide Cached, Coherent;
      ghost var was := Now();
      var key := config.key(value, HeldBy(value));
      var existing := Get(key, now);
      r := value;
      if existing.Some? && existing.value in fields {
        Assign(existing.value, value);
        r := existing.value;
      }
      assert key == KeyOf(config, was, value) && r == Canonical(config, was, value);
      hide Canonical, KeyOf, Assigned, Looked, Put;
      Set(key, r, now);
    }

    /** Joins the load in flight of `key`, or starts one. */
    method Fetch(key: Key, merging: bool, now: real) returns (load: Load)
      requires Valid() && clock <= now
      modifies this
      ensures Valid() && clock == now && load.key == key
      ensures if key in old(inflight) then load == old(inflight)[key] && Now() == old(Now())
        else fresh(load) && load.merging == merging && Now() == Step(config, old(Now()), Event.Fetch(load))
    {
      hide Policy.ListOk, Policy.HeapOk, Policy.Tracked, Policy.Filing, Policy.Windows, Policy.TimerOk;
      hide Policy.Order, Policy.Timers, Live, Drop, Minus, Lapsed, Collections.Collection.Copied, Policy.MapOk;
      hide Collections.Collection.Raw, Collections.Collection.Opts, Collections.Collection.Current, Policy.Valid;
      Tick(now);
      if key in inflight { return inflight[key]; }
      load := new Load(key, merging);
      inflight := inflight[key := load];
      loads := loads + {load};
    }

    method Settle(load: Load)
      requires Valid() && load in loads
      modifies `inflight, `loads
      ensures Valid() && Now() == Settled(old(Now()), load)
    {
      hide Policy.ListOk, Policy.HeapOk, Policy.Tracked, Policy.Filing, Policy.Windows, Policy.TimerOk;
      hide Policy.Order, Policy.Timers, Live;
      inflight := inflight - {load.key};
      loads := loads - {load};
    }

    /** A load fails: its key may be fetched again, and nothing is stored. */
    method Reject(load: Load, now: real)
      requires Valid() && clock <= now && load in loads
      modifies this
      ensures Valid() && clock == now && Now() == Step(config, old(Now()), Event.Fail(load))
    {
      hide Live, Settled;
      Tick(now);
      Settle(load);
    }

    /** A load answers. Its callers get what is cached, when that is newer. */
    method Resolve(load: Load, value: Value, now: real) returns (r: Value)
      requires Valid() && clock <= now && load in loads
      modifies Footprint()
      ensures Valid() && clock == now && fresh(Footprint() - old(Footprint()))
      ensures Now() == Step(config, old(Now()), Event.Answer(load, value))
      ensures r ==
        if load in old(Now()).dirty then Lookup(old(Now()).cache, load.key).GetOr(value)
        else if load.merging then Canonical(config, old(Now()), value)
        else value
    {
      hide Policy.ListOk, Policy.HeapOk, Policy.Tracked, Policy.Filing, Policy.Windows, Policy.TimerOk;
      hide Policy.Order, Policy.Timers, Live, Drop, Minus, Lapsed, Collections.Collection.Copied, Policy.MapOk;
      hide Collections.Collection.Raw, Collections.Collection.Opts, Collections.Collection.Current, Policy.Valid;
      hide Cached, Coherent;
      var stale := load.dirty;
      Settle(load);
      r := value;
      if stale {
        var cached := Get(load.key, now);
        if cached.Some? { r := cached.value; }
      } else if load.merging {
        r := Upsert(value, now);
      } else {
        Set(load.key, value, now);
      }
    }
  }
}
