/**
 What a collection's operations are for, in terms of what they are called with:
 which window an entry gets, what a read restarts, what each operation leaves
 alone. `Collection.Replay` carries these laws over to the real collection too.
 */
module RetentionLaws {
  import opened Wrappers
  import opened RetentionModel
  import opened RetentionRuns
  import M = RetentionModel

  function Max(a: real, b: real): real { if a < b then b else a }

  /** A `set` that the source does not throw on. */
  ghost predicate Sets(o: Options, m: Model, ttl: Option<real>, roll: real) {
    ValidOptions(o) && Capped(o, m) && (ttl.Some? ==> ttl.value > 0.0) && 0.0 <= roll < 1.0
  }

  // ---------- the window of an entry ----------

  lemma {:induction false} SetStores(o: Options, m: Model, key: Key, value: M.Value, ttl: Option<real>, roll: real, at: real)
    requires Sets(o, m, ttl, roll)
    ensures var stored := Step(o, m, Set(key, value, ttl, roll), at).model;
      && key in stored.values && stored.values[key] == value
      && (key in stored.timers <==> ttl.Some? || o.ttl.Some?)
      && (key in stored.timers ==> stored.timers[key].deadline == at + stored.timers[key].window)
  {
    StepCapped(o, m, Set(key, value, ttl, roll), at);
    DropCapped(o, m, Lapsed(m, at));
    var window := Window(o, ttl, roll);
    SetEvicts(o, Live(m, at), key, value, window, at);
    MinusMembers(Live(m, at).recency, {key});
  }

  /** Without jitter the window is the `ttl` of the call, or else the default. */
  lemma {:induction false} PlainWindow(o: Options, m: Model, key: Key, value: M.Value, ttl: Option<real>, roll: real, at: real)
    requires Sets(o, m, ttl, roll) && o.jitter == 0.0
    ensures var stored := Step(o, m, Set(key, value, ttl, roll), at).model;
      && (ttl.Some? ==> key in stored.timers && stored.timers[key].window == ttl.value)
      && (ttl.None? && o.ttl.Some? ==> key in stored.timers && stored.timers[key].window == o.ttl.value)
  {
    SetStores(o, m, key, value, ttl, roll, at);
    MinusMembers(Live(m, at).recency, {key});
  }

  lemma {:induction false} TimerIsWindow(o: Options, m: Model, key: Key, value: M.Value, ttl: Option<real>, roll: real, at: real)
    requires Sets(o, m, ttl, roll) && (ttl.Some? || o.ttl.Some?)
    ensures var stored := Step(o, m, Set(key, value, ttl, roll), at).model;
      key in stored.timers && Some(stored.timers[key].window) == Window(o, ttl, roll)
  {
    SetStores(o, m, key, value, ttl, roll, at);
    MinusMembers(Live(m, at).recency, {key});
  }

  /** Jitter shaves a random part of at most `jitter` off the window, down to a millisecond. */
  lemma {:induction false} JitteredWindow(o: Options, m: Model, key: Key, value: M.Value, ttl: Option<real>, roll: real, at: real, full: real)
    requires Sets(o, m, ttl, roll) && o.jitter > 0.0
    requires if ttl.Some? then full == ttl.value else o.ttl == Some(full)
    ensures var stored := Step(o, m, Set(key, value, ttl, roll), at).model;
      && key in stored.timers
      && Max(1.0, full * (1.0 - o.jitter)) <= stored.timers[key].window <= Max(1.0, full)
      && stored.timers[key].window == Max(1.0, full - full * o.jitter * roll)
      && (roll == 0.0 ==> stored.timers[key].window == Max(1.0, full))
  {
    hide Step;
    TimerIsWindow(o, m, key, value, ttl, roll, at);
    assert Window(o, ttl, roll) == Some(Max(1.0, full * (1.0 - o.jitter * roll)));
    Shaved(full, o.jitter, roll);
  }

  lemma Shaved(full: real, jitter: real, roll: real)
    requires full > 0.0 && 0.0 <= jitter <= 1.0 && 0.0 <= roll < 1.0
    ensures Max(1.0, full * (1.0 - jitter)) <= Max(1.0, full * (1.0 - jitter * roll)) <= Max(1.0, full)
    ensures full * (1.0 - jitter * roll) == full - full * jitter * roll
    ensures roll == 0.0 ==> full * (1.0 - jitter * roll) == full
  {
    var part := jitter * roll;
    Between(jitter, roll);
    assert 0.0 <= part <= jitter;
    var left := jitter - part;
    Between(full, part);
    Between(full, left);
    assert full * left == full * jitter - full * part;
    assert full * (1.0 - jitter) == full - full * jitter && full * (1.0 - part) == full - full * part;
  }

  lemma Between(x: real, part: real)
    requires x >= 0.0 && 0.0 <= part <= 1.0
    ensures 0.0 <= x * part <= x
  {
    assert x - x * part == x * (1.0 - part);
  }

  // ---------- how long an entry is found ----------

  /** A run from `start` to `now` that neither writes `key` nor restarts its window. */
  ghost predicate LeavesAlone(o: Options, key: Key, run: seq<Event>, start: real, now: real) {
    Timely(run, start) && End(run, start) <= now && forall i :: 0 <= i < |run| ==> LeavesTimer(o, run[i].op, key)
  }

  /** After the run `key` answers `value` before `until`, unless a cap took it, and nothing from then on. */
  ghost predicate FoundUntil(o: Options, stored: Model, key: Key, value: M.Value, until: real, run: seq<Event>, now: real) {
    Step(o, After(o, stored, run), Peek(key), now).reply ==
    Reply.Value(if now < until && !Lost(o, stored, run, key) then Some(value) else None)
  }

  lemma {:induction false} FoundUntilDue(
    o: Options, stored: Model, key: Key, value: M.Value, timer: Timer, start: real, run: seq<Event>, now: real)
    requires ValidOptions(o) && Capped(o, stored) && Due(stored, key, value, timer, start) && LeavesAlone(o, key, run, start, now)
    ensures FoundUntil(o, stored, key, value, timer.deadline, run, now)
  {
    hide LeavesTimer, Capped, Lost, After;
    AfterDue(o, stored, run, start, key, value, timer);
    LiveLive(After(o, stored, run), End(run, start), now);
  }

  /** With its own `ttl` and no jitter, an entry is found until that has passed, whatever the default. */
  lemma {:induction false} OwnTTL(o: Options, m: Model, key: Key, value: M.Value, ttl: real, roll: real, at: real, run: seq<Event>, now: real)
    requires Sets(o, m, Some(ttl), roll) && o.jitter == 0.0 && LeavesAlone(o, key, run, at, now)
    ensures FoundUntil(o, Step(o, m, Set(key, value, Some(ttl), roll), at).model, key, value, at + ttl, run, now)
  {
    hide FoundUntil, Step, LeavesAlone;
    SetStores(o, m, key, value, Some(ttl), roll, at);
    PlainWindow(o, m, key, value, Some(ttl), roll, at);
    StepCapped(o, m, Set(key, value, Some(ttl), roll), at);
    FoundUntilDue(o, Step(o, m, Set(key, value, Some(ttl), roll), at).model, key, value, Timer(ttl, at + ttl), at, run, now);
  }

  /** Without one it is found until the default has passed. */
  lemma {:induction false} DefaultTTL(o: Options, m: Model, key: Key, value: M.Value, ttl: real, roll: real, at: real, run: seq<Event>, now: real)
    requires Sets(o, m, None, roll) && o.jitter == 0.0 && o.ttl == Some(ttl) && LeavesAlone(o, key, run, at, now)
    ensures FoundUntil(o, Step(o, m, Set(key, value, None, roll), at).model, key, value, at + ttl, run, now)
  {
    hide FoundUntil, Step, LeavesAlone;
    SetStores(o, m, key, value, None, roll, at);
    PlainWindow(o, m, key, value, None, roll, at);
    StepCapped(o, m, Set(key, value, None, roll), at);
    FoundUntilDue(o, Step(o, m, Set(key, value, None, roll), at).model, key, value, Timer(ttl, at + ttl), at, run, now);
  }

  // ---------- what operations leave alone ----------

  /** An operation that does not name a live key, and does not lose it to the cap, leaves its value; only its `get` its window. */
  lemma {:induction false} StepSpares(o: Options, m: Model, op: Op, now: real, key: Key)
    requires Spares(op, key) && key in Live(m, now).values && !Loses(o, m, op, now, key)
    ensures var next := Step(o, m, op, now).model;
      && key in next.values && next.values[key] == m.values[key]
      && (key in next.timers <==> key in m.timers)
      && (key in m.timers && (op != Get(key) || !o.slide) ==> next.timers[key] == m.timers[key])
  {
    hide Minus, Window;
  }

  /** A read that slides restarts the window: the entry is found until it has passed again. */
  lemma {:induction false} GetRestarts(o: Options, m: Model, key: Key, at: real, run: seq<Event>, now: real)
    requires ValidOptions(o) && Capped(o, m) && o.slide && key in Live(m, at).values && key in m.timers
    requires LeavesAlone(o, key, run, at, now)
    ensures var next := Step(o, m, Get(key), at).model;
      && key in next.timers && next.timers[key] == Timer(m.timers[key].window, at + m.timers[key].window)
      && FoundUntil(o, next, key, m.values[key], at + m.timers[key].window, run, now)
  {
    hide FoundUntil, LeavesAlone;
    var window := m.timers[key].window;
    StepCapped(o, m, Get(key), at);
    FoundUntilDue(o, Step(o, m, Get(key), at).model, key, m.values[key], Timer(window, at + window), at, run, now);
  }

  /** `get`, `peek` and `has` find the same. */
  lemma {:induction false} ReadsAgree(o: Options, m: Model, key: Key, now: real)
    ensures var found := Step(o, m, Peek(key), now).reply;
      && found.Value? && Step(o, m, Get(key), now).reply == found
      && Step(o, m, Has(key), now).reply == Flag(found.value.Some?)
      && (found.value.Some? <==> key in m.values && (key in m.timers ==> now < m.timers[key].deadline))
      && (found.value.Some? ==> found.value.value == m.values[key])
  {
  }

  /** `delete` takes its key, and no other; what it answers is whether the key was found. */
  lemma {:induction false} DeleteTakes(o: Options, m: Model, key: Key, now: real)
    ensures var next := Step(o, m, Delete(key), now);
      && key !in next.model.values && next.reply == Step(o, m, Has(key), now).reply
      && (forall k :: k != key && k in Live(m, now).values ==> k in next.model.values)
  {
  }

  /** A `set` that the source throws on changes nothing that is live, and `clear` leaves nothing. */
  lemma {:induction false} RefusedOrCleared(o: Options, m: Model, key: Key, value: M.Value, ttl: real, roll: real, now: real)
    ensures Step(o, m, Set(key, value, Some(ttl), roll), now).reply == (if ttl <= 0.0 then Refused else Done)
    ensures ttl <= 0.0 ==> Step(o, m, Set(key, value, Some(ttl), roll), now).model == Live(m, now)
    ensures Step(o, m, Op.Clear, now).model == Model(map[], map[], [])
  {
  }

  /** An entry without a window is found for as long as nobody writes or removes it, and no cap takes it. */
  lemma {:induction false} UntimedStays(o: Options, stored: Model, key: Key, value: M.Value, run: seq<Event>)
    requires key in stored.values && stored.values[key] == value && key !in stored.timers
    requires forall i :: 0 <= i < |run| ==> Spares(run[i].op, key)
    ensures var now := After(o, stored, run);
      if Lost(o, stored, run, key) then key !in now.values else key in now.values && now.values[key] == value && key !in now.timers
  {
    if run != [] {
      hide Step, Loses;
      var before, last := run[..|run| - 1], run[|run| - 1];
      UntimedStays(o, stored, key, value, before);
      var was := After(o, stored, before);
      if Lost(o, stored, before, key) {
        StaysGone(o, was, last.op, last.now, key);
      } else if Loses(o, was, last.op, last.now, key) {
        GoneOnceLost(o, was, last.op, last.now, key);
      } else {
        StepSpares(o, was, last.op, last.now, key);
      }
    }
  }

  /** With neither a `ttl` nor a default, a `set` gives no window at all. */
  lemma {:induction false} NoTTL(o: Options, m: Model, key: Key, value: M.Value, roll: real, at: real, run: seq<Event>)
    requires Sets(o, m, None, roll) && o.ttl.None? && forall i :: 0 <= i < |run| ==> Spares(run[i].op, key)
    ensures var stored := Step(o, m, Set(key, value, None, roll), at).model;
      && key !in stored.timers
      && Lookup(After(o, stored, run), key) == if Lost(o, stored, run, key) then None else Some(value)
  {
    hide Step;
    SetStores(o, m, key, value, None, roll, at);
    UntimedStays(o, Step(o, m, Set(key, value, None, roll), at).model, key, value, run);
  }
}
