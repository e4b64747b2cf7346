/**
 What the shared store's scripts are for, read off the stored keys themselves: when
 a request is let out and what it is told otherwise, how many requests a window
 lets out, what a response, a release or a recorded limit brings about.
 */
module SharedLaws {
  import opened Wrappers
  import opened BucketState
  import opened SharedStore
  import opened SharedRuns

  // ---------- one reservation ----------

  /** A recorded global limit keeps the scope closed. */
  predicate Closed(w: World, scope: Option<Name>, now: real) {
    scope.Some? && scope.value in w.globals && now < w.globals[scope.value].expires && now < w.globals[scope.value].resetAt
  }

  /** The scope has sent all it may within the window. */
  predicate Full(w: World, scope: Option<Name>, l: Limits, now: real) {
    && scope.Some? && l.globalLimit > 0 && scope.value in w.logs && now < w.logs[scope.value].expires
    && |set s | s in w.logs[scope.value].members && w.logs[scope.value].members[s] > now - l.globalWindow| >= l.globalLimit
  }

  /** The bucket is absent, past its reset, or has a unit left. */
  predicate Available(w: World, key: Name, now: real) {
    key in w.buckets && now < w.buckets[key].expires ==>
      w.buckets[key].bucket.resetAt <= now || w.buckets[key].bucket.remaining > 0
  }

  /** A bucket whose window is open. */
  predicate IsOpen(w: World, key: Name, now: real) {
    key in w.buckets && now < w.buckets[key].expires && now < w.buckets[key].bucket.resetAt
  }

  /** A bucket whose limit is remembered. */
  predicate KnowsLimit(w: World, key: Name, now: real) {
    && key in w.buckets && now < w.buckets[key].expires
    && w.buckets[key].bucket.limit.Some? && w.buckets[key].bucket.limit.value > 0
  }

  lemma HeldBack(w: World, scope: Option<Name>, l: Limits, now: real)
    requires now >= 0.0
    ensures Blocked(w, scope, l, now) <==> Closed(w, scope, now)
    ensures Saturated(w, scope, l, now) <==> Full(w, scope, l, now)
  {
    if scope.Some? && scope.value in w.logs && now < w.logs[scope.value].expires {
      var recent := Recent(w, scope.value, now, l.globalWindow);
      assert recent.Keys == set s | s in w.logs[scope.value].members && w.logs[scope.value].members[s] > now - l.globalWindow;
      assert |recent| == |recent.Keys|;
    }
  }

  /** A request is let out exactly when no global limit holds it back and its bucket has a unit for it. */
  lemma GrantedExactly(w: World, key: Name, scope: Option<Name>, l: Limits, now: real)
    requires now >= 0.0
    ensures Grants(w, key, scope, l, now) <==> !Closed(w, scope, now) && !Full(w, scope, l, now) && Available(w, key, now)
  {
    HeldBack(w, scope, l, now);
  }

  /** What the caller is told, in every case. */
  lemma ToldExactly(w: World, key: Name, scope: Option<Name>, l: Limits, now: real, oldest: real)
    requires now >= 0.0
    ensures var reply := ReserveReply(w, key, scope, l, now, oldest);
      && (Closed(w, scope, now) ==> reply == Refused(Ceil(w.globals[scope.value].resetAt - now), Global))
      && (!Closed(w, scope, now) && Full(w, scope, l, now) ==>
          reply == Refused(Max(1.0, oldest + l.globalWindow - now + 1.0), Global))
      && (!Closed(w, scope, now) && !Full(w, scope, l, now) ==>
          if IsOpen(w, key, now) then
            var b := w.buckets[key].bucket;
            var wait := b.resetAt - now;
            if b.remaining > 0 then reply == Granted(b.resetAt, true)
            else reply == Refused(Ceil(if b.provisional && l.poll < wait then l.poll else wait), if b.probe then Probe else Reason.Full)
          else reply == Granted(now + l.probe, KnowsLimit(w, key, now)))
  {
    HeldBack(w, scope, l, now);
  }

  /** Waiting as long as a full log says is enough for the oldest send to leave it. */
  lemma WaitIsEnough(w: World, scope: Name, l: Limits, now: real, oldest: real, later: real)
    requires l.globalWindow > 0.0 && IsOldest(Recent(w, scope, now, l.globalWindow), oldest)
    requires later >= now + Max(1.0, oldest + l.globalWindow - now + 1.0)
    ensures |Recent(w, scope, later, l.globalWindow)| < |Recent(w, scope, now, l.globalWindow)|
  {
    var a, b := Recent(w, scope, now, l.globalWindow), Recent(w, scope, later, l.globalWindow);
    var s :| s in a && a[s] == oldest;
    assert b.Keys <= a.Keys - {s};
    Subset(b.Keys, a.Keys - {s});
    assert |a.Keys| == |a| && |b.Keys| == |b|;
  }

  // ---------- as many as the window has units ----------

  /** How often a run asks for a unit of `key`. */
  function Asked(run: seq<Event>, key: Name): nat {
    if run == [] then 0
    else
      var last := run[|run| - 1].call;
      Asked(run[..|run| - 1], key) + if last.Reserving? && last.key == key then 1 else 0
  }

  /** Nothing but unhindered reservations touches the bucket, and all before its reset. */
  ghost predicate OnlyReserved(w: World, l: Limits, run: seq<Event>, key: Name, resetAt: real) {
    forall i :: 0 <= i < |run| ==>
      && 0.0 <= run[i].now < resetAt
      && (run[i].call.Reconciling? ==> run[i].call.key != key)
      && (run[i].call.Releasing? ==> run[i].call.key != key)
      && (run[i].call.Reserving? && run[i].call.key == key ==>
          !Closed(After(w, l, run[..i]), run[i].call.scope, run[i].now) && !Full(After(w, l, run[..i]), run[i].call.scope, l, run[i].now))
  }

  /** A window that is open, with `left` units. */
  ghost predicate HasLeft(w: World, key: Name, b: Bucket, left: int) {
    && key in w.buckets && w.buckets[key].bucket == b.(remaining := left) && b.resetAt <= w.buckets[key].expires
  }

  lemma StepLeft(w: World, l: Limits, e: Event, key: Name, b: Bucket, left: nat)
    requires ValidLimits(l) && HasLeft(w, key, b, left) && 0.0 <= e.now < b.resetAt
    requires e.call.Reconciling? || e.call.Releasing? ==> e.call.key != key
    requires e.call.Reserving? && e.call.key == key ==> !Closed(w, e.call.scope, e.now) && !Full(w, e.call.scope, l, e.now)
    ensures HasLeft(Step(w, l, e), key, b, if e.call.Reserving? && e.call.key == key && left > 0 then left - 1 else left)
    ensures e.call.Reserving? && e.call.key == key ==> (Grants(w, key, e.call.scope, l, e.now) <==> left > 0)
  {
    hide Blocked, Saturated, Closed, Full;
    if e.call.Reserving? {
      ReserveBuckets(w, e.call.key, e.call.scope, l, e.now);
      GrantedExactly(w, e.call.key, e.call.scope, l, e.now);
      hide Reserve;
    }
  }

  lemma OnlyReservedBefore(w: World, l: Limits, run: seq<Event>, key: Name, resetAt: real, i: nat)
    requires i < |run| && OnlyReserved(w, l, run, key, resetAt)
    ensures OnlyReserved(w, l, run[..i], key, resetAt) && 0.0 <= run[i].now < resetAt
    ensures var call := run[i].call;
      && (call.Reconciling? || call.Releasing? ==> call.key != key)
      && (call.Reserving? && call.key == key ==>
          !Closed(After(w, l, run[..i]), call.scope, run[i].now) && !Full(After(w, l, run[..i]), call.scope, l, run[i].now))
  {
    hide Closed, Full, After;
    var before := run[..i];
    assert forall j :: 0 <= j < |before| ==> before[j] == run[j] && before[..j] == run[..j];
  }

  /** What is left of an open window after a run. */
  function Left(units: nat, asked: nat): nat {
    if asked < units then units - asked else 0
  }

  lemma {:induction false} UnitsLeft(w: World, l: Limits, run: seq<Event>, key: Name, b: Bucket)
    requires ValidLimits(l) && b.remaining >= 0 && HasLeft(w, key, b, b.remaining) && OnlyReserved(w, l, run, key, b.resetAt)
    ensures HasLeft(After(w, l, run), key, b, Left(b.remaining, Asked(run, key)))
  {
    hide Closed, Full, Step, Grants, HasLeft, OnlyReserved;
    if run != [] {
      var i := |run| - 1;
      OnlyReservedBefore(w, l, run, key, b.resetAt, i);
      UnitsLeft(w, l, run[..i], key, b);
      StepLeft(After(w, l, run[..i]), l, run[i], key, b, Left(b.remaining, Asked(run[..i], key)));
    }
  }

  /** An open window of `n` units lets out the first `n` that ask for one, and nobody after them. */
  lemma {:induction false} FirstUnits(w: World, l: Limits, run: seq<Event>, key: Name, b: Bucket, i: nat, scope: Option<Name>)
    requires ValidLimits(l) && b.remaining >= 0 && HasLeft(w, key, b, b.remaining) && OnlyReserved(w, l, run, key, b.resetAt)
    requires i < |run| && run[i].call == Reserving(key, scope)
    ensures Grants(After(w, l, run[..i]), key, scope, l, run[i].now) <==> Asked(run[..i], key) < b.remaining
  {
    hide Closed, Full, Step, Grants, HasLeft, OnlyReserved, After, Asked;
    OnlyReservedBefore(w, l, run, key, b.resetAt, i);
    UnitsLeft(w, l, run[..i], key, b);
    StepLeft(After(w, l, run[..i]), l, run[i], key, b, Left(b.remaining, Asked(run[..i], key)));
  }

  // ---------- what opens a window ----------

  /** A bucket past its reset whose limit is remembered opens the next window, of as many units, one of them taken. */
  lemma ReservationOpens(w: World, key: Name, scope: Option<Name>, l: Limits, now: real)
    requires ValidLimits(l) && now >= 0.0 && !Closed(w, scope, now) && !Full(w, scope, l, now)
    requires KnowsLimit(w, key, now) && !IsOpen(w, key, now)
    ensures var limit := w.buckets[key].bucket.limit;
      Grants(w, key, scope, l, now) &&
      HasLeft(Reserve(w, key, scope, l, now), key, Bucket(limit.value - 1, now + l.probe, limit, None, true, false), limit.value - 1)
  {
    HeldBack(w, scope, l, now);
    ReserveBuckets(w, key, scope, l, now);
  }

  /**
   Over a run: of a bucket whose limit `n` is known, the first `n` requests after its
   reset are let out, and no more before the next.
   */
  lemma LimitExactly(w: World, l: Limits, key: Name, scope: Option<Name>, now: real, run: seq<Event>, i: nat, other: Option<Name>)
    requires ValidLimits(l) && now >= 0.0 && !Closed(w, scope, now) && !Full(w, scope, l, now)
    requires KnowsLimit(w, key, now) && !IsOpen(w, key, now)
    requires var started := Reserve(w, key, scope, l, now); OnlyReserved(started, l, run, key, now + l.probe)
    requires i < |run| && run[i].call == Reserving(key, other)
    ensures var started := Reserve(w, key, scope, l, now);
      Grants(After(started, l, run[..i]), key, other, l, run[i].now) <==> Asked(run[..i], key) + 1 < w.buckets[key].bucket.limit.value
  {
    hide Reserve, Grants, Closed, Full, HasLeft;
    var limit := w.buckets[key].bucket.limit;
    ReservationOpens(w, key, scope, l, now);
    FirstUnits(Reserve(w, key, scope, l, now), l, run, key, Bucket(limit.value - 1, now + l.probe, limit, None, true, false), i, other);
  }

  /** The first response to a probe opens the window it speaks of. */
  lemma ResponseOpens(w: World, key: Name, u: Update, l: Limits, now: real)
    requires ValidLimits(l) && u.remaining.Some? && u.resetAfter.Some? && u.retry.None?
    requires !IsOpen(w, key, now) || w.buckets[key].bucket.probe
    ensures var next := Reconcile(w, key, u, l, now);
      && key in next.buckets
      && var b := next.buckets[key].bucket;
         && b.remaining == u.remaining.value && b.resetAt == Ceil(now + u.resetAfter.value)
         && b.window == u.window && !b.probe && !b.provisional
         && b.limit == (if u.limit.Some? && u.limit.value > 0 then Some(u.limit.value)
                        else if LoadBucket(w, key, now).Some? then w.buckets[key].bucket.limit
                        else None)
         && HasLeft(next, key, b, b.remaining)
  {
  }

  /** As many requests as a first response leaves are let out before the reset it names, and no more. */
  lemma ResponseExactly(w: World, l: Limits, key: Name, u: Update, now: real, run: seq<Event>, i: nat, scope: Option<Name>)
    requires ValidLimits(l) && u.remaining.Some? && u.resetAfter.Some? && u.retry.None?
    requires !IsOpen(w, key, now) || w.buckets[key].bucket.probe
    requires OnlyReserved(Reconcile(w, key, u, l, now), l, run, key, Ceil(now + u.resetAfter.value))
    requires i < |run| && run[i].call == Reserving(key, scope)
    ensures Grants(After(Reconcile(w, key, u, l, now), l, run[..i]), key, scope, l, run[i].now) <==>
      Asked(run[..i], key) < u.remaining.value
  {
    hide Reconcile, Grants, HasLeft, IsOpen;
    ResponseOpens(w, key, u, l, now);
    var next := Reconcile(w, key, u, l, now);
    FirstUnits(next, l, run, key, next.buckets[key].bucket, i, scope);
  }

  /** How far apart the windows of a bucket and of a response are, when both name one. */
  function Distance(b: Bucket, u: Update): real {
    if b.window.Some? && u.window.Some? then u.window.value - b.window.value else 0.0
  }

  /**
   What a response makes of an open window. One of a window more than 50 ms older
   changes no count and no reset. Else units only go down; an estimated reset, or
   that of a window more than 50 ms older, gives way to the one the response names,
   and any other only moves later. A 429 leaves nothing until it lets go.
   */
  lemma ResponseCorrects(w: World, key: Name, u: Update, l: Limits, now: real)
    requires ValidLimits(l) && IsOpen(w, key, now) && !w.buckets[key].bucket.probe
    ensures var was, next := w.buckets[key].bucket, Reconcile(w, key, u, l, now);
      && key in next.buckets
      && var b := next.buckets[key].bucket;
         && (Distance(was, u) < -50.0 && u.retry.None? ==> b == was.(limit := b.limit))
         && (Distance(was, u) >= -50.0 && u.retry.None? ==>
             && b.remaining == (if u.remaining.Some? && u.remaining.value < was.remaining then u.remaining.value else was.remaining)
             && (u.resetAfter.None? ==> b.resetAt == was.resetAt && b.provisional == was.provisional)
             && (u.resetAfter.Some? ==> !b.provisional)
             && (u.resetAfter.Some? && (was.provisional || Distance(was, u) > 50.0) ==> b.resetAt == Ceil(now + u.resetAfter.value))
             && (u.resetAfter.Some? && !was.provisional && Distance(was, u) <= 50.0 ==>
                 b.resetAt == Max(was.resetAt, Ceil(now + u.resetAfter.value)))
             && (u.window.None? ==> b.window == was.window)
             && (u.window.Some? && was.window.Some? ==> b.window == Some(Max(was.window.value, u.window.value))))
         && (u.retry.Some? ==>
             b.remaining == 0 && b.resetAt >= Ceil(now + u.retry.value) && !b.provisional)
         && (u.retry.Some? && (u.resetAfter.None? || Distance(was, u) < -50.0) ==>
             b.resetAt == Max(was.resetAt, Ceil(now + u.retry.value)))
         && b.limit == (if u.limit.Some? && u.limit.value > 0 then Some(u.limit.value) else was.limit)
  {
  }

  /** A saved bucket is there until `linger` after its reset. */
  lemma Remembered(w: World, key: Name, b: Bucket, l: Limits, now: real, later: real)
    requires ValidLimits(l) && later < b.resetAt + l.linger
    ensures LoadBucket(Put(w, key, Write(b), now, l.linger), key, later) == Some(b)
  {
  }

  // ---------- giving back ----------

  /** A unit taken and given back, while nothing else happened to its window, was never taken. */
  lemma RefundUndoes(w: World, key: Name, scope: Option<Name>, l: Limits, now: real, later: real)
    requires ValidLimits(l) && 0.0 <= now <= later && IsOpen(w, key, now) && Grants(w, key, scope, l, now)
    requires later < w.buckets[key].bucket.resetAt && !w.buckets[key].bucket.probe
    requires var b := w.buckets[key].bucket; b.limit.Some? ==> b.remaining <= b.limit.value
    ensures var taken := Reserve(w, key, scope, l, now);
      && key in taken.buckets && taken.buckets[key].bucket.remaining == w.buckets[key].bucket.remaining - 1
      && var back := Release(taken, key, w.buckets[key].bucket.resetAt, true, later);
         key in back.buckets && back.buckets[key].bucket == w.buckets[key].bucket
  {
    ReserveBuckets(w, key, scope, l, now);
  }

  /** A prober that lets go leaves the bucket as if it had never been asked for; any other release leaves it alone. */
  lemma ReleaseExactly(w: World, key: Name, resetAt: real, refund: bool, now: real)
    ensures var next := Release(w, key, resetAt, refund, now);
      && (forall k :: k != key ==> (k in next.buckets <==> k in w.buckets) && (k in w.buckets ==> next.buckets[k] == w.buckets[k]))
      && next.globals == w.globals && next.logs == w.logs
      && (key !in w.buckets || w.buckets[key].expires <= now || w.buckets[key].bucket.resetAt != resetAt ==> next == w)
      && (key in w.buckets && now < w.buckets[key].expires && w.buckets[key].bucket.resetAt == resetAt ==>
          if w.buckets[key].bucket.probe then key !in next.buckets
          else if !refund then next == w
          else
            var b := w.buckets[key].bucket;
            && key in next.buckets && next.buckets[key].expires == w.buckets[key].expires
            && next.buckets[key].bucket == b.(remaining := next.buckets[key].bucket.remaining)
            && next.buckets[key].bucket.remaining ==
               if b.limit.Some? && b.remaining >= b.limit.value then b.limit.value else b.remaining + 1)
  {
  }

  // ---------- what holds requests back ----------

  /** The call records a limit of `scope` that lasts beyond `now`. */
  ghost predicate Records(e: Event, scope: Name, now: real) {
    e.call.Extending? && e.call.limited == scope && Ceil(e.now + e.call.wait) > now
  }

  ghost predicate Recorded(run: seq<Event>, scope: Name, now: real) {
    exists i :: 0 <= i < |run| && Records(run[i], scope, now)
  }

  /** Where a recorded reset comes from. */
  lemma {:induction false} MarkIsRecorded(l: Limits, run: seq<Event>, scope: Name, now: real)
    requires scope in After(EMPTY, l, run).globals && now < After(EMPTY, l, run).globals[scope].resetAt
    ensures Recorded(run, scope, now)
  {
    hide Step;
    if run != [] {
      var before, last := run[..|run| - 1], run[|run| - 1];
      var was := After(EMPTY, l, before);
      OnlyExtendingMarks(was, l, last, scope);
      if Records(last, scope, now) {
        assert run[|run| - 1] == last;
      } else {
        MarkIsRecorded(l, before, scope, now);
        RecordedMore(before, last, scope, now);
        assert run == before + [last];
      }
    }
  }

  lemma RecordedMore(run: seq<Event>, e: Event, scope: Name, now: real)
    requires Recorded(run, scope, now)
    ensures Recorded(run + [e], scope, now)
  {
    var i :| 0 <= i < |run| && Records(run[i], scope, now);
    assert (run + [e])[i] == run[i];
  }

  lemma OnlyExtendingMarks(w: World, l: Limits, e: Event, scope: Name)
    requires scope in Step(w, l, e).globals
    ensures (scope in w.globals && w.globals[scope] == Step(w, l, e).globals[scope]) ||
      (e.call.Extending? && e.call.limited == scope && Step(w, l, e).globals[scope].resetAt == Ceil(e.now + e.call.wait))
  {
  }

  /** A recorded limit is in force until its reset. */
  lemma RecordCloses(l: Limits, run: seq<Event>, i: nat, scope: Name, now: real, start: real)
    requires Timely(run, start) && 0.0 <= start <= now && End(run, start) <= now
    requires i < |run| && Records(run[i], scope, now) && run[i].call.wait >= 0.0
    ensures Closed(After(EMPTY, l, run), Some(scope), now)
  {
    hide ExtendGlobal, ClosedUntil, Closed, Step, After, Ceil;
    var before, later := run[..i], run[i + 1..];
    var w := After(EMPTY, l, before);
    var target := Ceil(run[i].now + run[i].call.wait);
    AfterMarksKept(l, before);
    ExtendCloses(w, scope, run[i].call.wait, run[i].now);
    IsExtending(w, l, run[i]);
    OneMoreStep(EMPTY, l, before, run[i]);
    AfterBoth(EMPTY, l, before + [run[i]], later);
    assert run == (before + [run[i]]) + later;
    forall j | 0 <= j < |later| ensures later[j].now < target {
      assert later[j] == run[i + 1 + j] && run[i + 1 + j].now <= End(run, start);
    }
    ClosedMeansClosed(Step(w, l, run[i]), l, later, scope, target);
    StillClosed(After(EMPTY, l, run), scope, target, now);
  }

  /**
   Over every run: a scope is closed at a time, not before the run's last, exactly
   when some call recorded a limit that lasts beyond it.
   */
  lemma ClosedExactly(l: Limits, run: seq<Event>, scope: Name, now: real, start: real)
    requires Timely(run, start) && 0.0 <= start <= now && End(run, start) <= now
    requires forall i :: 0 <= i < |run| && run[i].call.Extending? ==> run[i].call.wait >= 0.0
    ensures Closed(After(EMPTY, l, run), Some(scope), now) <==> Recorded(run, scope, now)
  {
    hide After, Timely, End;
    if Closed(After(EMPTY, l, run), Some(scope), now) { MarkIsRecorded(l, run, scope, now); }
    if Recorded(run, scope, now) {
      var i :| 0 <= i < |run| && Records(run[i], scope, now);
      RecordCloses(l, run, i, scope, now, start);
    }
  }

  lemma IsExtending(w: World, l: Limits, e: Event)
    requires e.call.Extending?
    ensures Step(w, l, e) == ExtendGlobal(w, e.call.limited, e.call.wait, e.now)
  {
  }

  lemma StillClosed(w: World, scope: Name, target: real, now: real)
    requires ClosedUntil(w, scope, target) && now < target
    ensures Closed(w, Some(scope), now)
  {
  }

  /** How many requests of `scope` a run let out after `t`. */
  function SentSince(l: Limits, run: seq<Event>, scope: Name, t: real): nat {
    if run == [] then 0
    else
      var before, last := run[..|run| - 1], run[|run| - 1];
      SentSince(l, before, scope, t) + if Sends(After(EMPTY, l, before), l, last, scope) && last.now > t then 1 else 0
  }

  lemma {:induction false} SinceAreNames(l: Limits, run: seq<Event>, scope: Name, start: real, t: real)
    requires ValidLimits(l) && l.globalLimit > 0 && Timely(run, start)
    ensures SentSince(l, run, scope, t) == |set s | s in Names(l, run, scope) && s.0 > t|
  {
    if run != [] {
      hide Step, Sends, Logged, NameOf;
      var before, last := run[..|run| - 1], run[|run| - 1];
      var w := After(EMPTY, l, before);
      SinceAreNames(l, before, scope, start, t);
      SpreadNames(l, before, scope, start);
      StepLogged(w, l, last, scope, Names(l, before, scope), End(before, start));
      if Sends(w, l, last, scope) { OneMoreSince(Names(l, before, scope), NameOf(w, l, scope, last.now), t); }
    } else {
      assert Names(l, run, scope) == {};
    }
  }

  lemma OneMoreSince(names: set<Send>, name: Send, t: real)
    requires name !in names
    ensures |set s | s in names + {name} && s.0 > t| == |set s | s in names && s.0 > t| + if name.0 > t then 1 else 0
  {
    var before := set s | s in names && s.0 > t;
    assert (set s | s in names + {name} && s.0 > t) == before + if name.0 > t then {name} else {};
  }

  /** Over every run: a scope is full exactly when it sent as many requests within the window as the limit allows. */
  lemma FullExactly(l: Limits, run: seq<Event>, scope: Name, start: real, now: real)
    requires ValidLimits(l) && l.globalLimit > 0 && Timely(run, start) && End(run, start) <= now && now >= 0.0
    ensures Full(After(EMPTY, l, run), Some(scope), l, now) <==> SentSince(l, run, scope, now - l.globalWindow) >= l.globalLimit
  {
    hide Full, Logged, Names, After;
    var w := After(EMPTY, l, run);
    HeldBack(w, Some(scope), l, now);
    SpreadNames(l, run, scope, start);
    RecentAreNames(w, l, scope, Names(l, run, scope), End(run, start), now);
    SinceAreNames(l, run, scope, start, now - l.globalWindow);
    var recent := Recent(w, scope, now, l.globalWindow);
    assert |recent.Keys| == |recent|;
  }
}
