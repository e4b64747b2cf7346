/**
 The shared rate-limit store: buckets, recorded global limits and the sliding
 log of sends, each a key with an expiry time, and the four scripts that run
 atomically on them. Times are the store's own clock, in ms.
 */
module SharedStore {
  import opened Wrappers
  import opened BucketState

  type Name = string

  datatype Stored = Stored(bucket: Bucket, expires: real)

  datatype Mark = Mark(resetAt: real, expires: real)

  /** A member of the sorted set of sends: its time and its number within it. */
  type Send = (real, int)

  datatype Log = Log(members: map<Send, real>, expires: real)

  datatype World = World(buckets: map<Name, Stored>, globals: map<Name, Mark>, logs: map<Name, Log>)

  datatype Limits = Limits(probe: real, poll: real, linger: real, globalLimit: nat, globalWindow: real)

  predicate ValidLimits(l: Limits) {
    l.probe > 0.0 && l.poll > 0.0 && l.linger >= 0.0 && l.globalWindow > 0.0
  }

  const LOG_SLACK := 1000.0

  // ---------- reading and writing keys that expire ----------

  function LoadBucket(w: World, key: Name, now: real): Option<Bucket> {
    if key in w.buckets && now < w.buckets[key].expires then Some(w.buckets[key].bucket) else None
  }

  /** A bucket is kept `linger` past its reset. */
  function Saved(b: Bucket, now: real, linger: real): Stored {
    Stored(b, now + Max(1.0, Ceil(b.resetAt - now)) + linger)
  }

  function Put(w: World, key: Name, next: Next, now: real, linger: real): World {
    match next
    case Keep => w
    case Delete => w.(buckets := w.buckets - {key})
    case Write(b) => w.(buckets := w.buckets[key := Saved(b, now, linger)])
  }

  function GlobalReset(w: World, scope: Name, now: real): real {
    if scope in w.globals && now < w.globals[scope].expires then w.globals[scope].resetAt else 0.0
  }

  /** The sends still inside the window. */
  function Recent(w: World, scope: Name, now: real, window: real): map<Send, real> {
    if scope in w.logs && now < w.logs[scope].expires then
      map s | s in w.logs[scope].members && w.logs[scope].members[s] > now - window :: w.logs[scope].members[s]
    else map[]
  }

  ghost predicate IsOldest(members: map<Send, real>, score: real) {
    score in members.Values && forall s :: s in members ==> score <= members[s]
  }

  // ---------- the scripts, as functions of the whole store ----------

  predicate Counts(scope: Option<Name>, l: Limits) {
    scope.Some? && l.globalLimit > 0
  }

  function LogExpiry(w: World, scope: Name): real {
    if scope in w.logs then w.logs[scope].expires else 0.0
  }

  function Pruned(w: World, scope: Option<Name>, l: Limits, now: real): World {
    if Counts(scope, l) then
      w.(logs := w.logs[scope.value := Log(Recent(w, scope.value, now, l.globalWindow), LogExpiry(w, scope.value))])
    else w
  }

  function Counted(w: World, scope: Option<Name>, l: Limits, now: real): World {
    if Counts(scope, l) && scope.value in w.logs then
      var members := w.logs[scope.value].members;
      w.(logs := w.logs[scope.value := Log(members[(now, |members|) := now], now + l.globalWindow + LOG_SLACK)])
    else w
  }

  /** The global limits stand in the way of a request now. */
  predicate Blocked(w: World, scope: Option<Name>, l: Limits, now: real) {
    scope.Some? && GlobalReset(w, scope.value, now) > now
  }

  predicate Saturated(w: World, scope: Option<Name>, l: Limits, now: real) {
    Counts(scope, l) && |Recent(w, scope.value, now, l.globalWindow)| >= l.globalLimit
  }

  predicate Grants(w: World, key: Name, scope: Option<Name>, l: Limits, now: real) {
    && !Blocked(w, scope, l, now)
    && !Saturated(w, scope, l, now)
    && ReserveState(LoadBucket(w, key, now), now, l.probe, l.poll).0.Granted?
  }

  /** A probe's placeholder is not kept past its deadline. */
  function Linger(r: Reservation, l: Limits): real {
    if r.Granted? && !r.known then 0.0 else l.linger
  }

  /** The store after a reservation was asked for. */
  function Reserve(w: World, key: Name, scope: Option<Name>, l: Limits, now: real): World {
    if Blocked(w, scope, l, now) then w
    else if Saturated(w, scope, l, now) then Pruned(w, scope, l, now)
    else
      var decision := ReserveState(LoadBucket(w, key, now), now, l.probe, l.poll);
      var saved := Put(Pruned(w, scope, l, now), key, decision.1, now, Linger(decision.0, l));
      if decision.0.Granted? then Counted(saved, scope, l, now) else saved
  }

  /** What the caller is told; `oldest` is the score of the oldest send in the log. */
  function ReserveReply(w: World, key: Name, scope: Option<Name>, l: Limits, now: real, oldest: real): Reservation {
    if Blocked(w, scope, l, now) then Refused(Ceil(GlobalReset(w, scope.value, now) - now), Global)
    else if Saturated(w, scope, l, now) then Refused(Max(1.0, oldest + l.globalWindow - now + 1.0), Global)
    else
      match ReserveState(LoadBucket(w, key, now), now, l.probe, l.poll).0
      case Granted(resetAt, known) => Granted(resetAt, known)
      case Refused(wait, reason) => Refused(Ceil(wait), reason)
  }

  function Reconcile(w: World, key: Name, u: Update, l: Limits, now: real): World {
    Put(w, key, ReconcileState(LoadBucket(w, key, now), u, now), now, l.linger)
  }

  function ExtendGlobal(w: World, scope: Name, wait: real, now: real): World {
    var target := Ceil(now + wait);
    if target > GlobalReset(w, scope, now)
    then w.(globals := w.globals[scope := Mark(target, now + Max(1.0, target - now))])
    else w
  }

  predicate Releases(w: World, key: Name, resetAt: real, now: real) {
    LoadBucket(w, key, now).Some? && LoadBucket(w, key, now).value.resetAt == resetAt
  }

  function Refunded(b: Bucket): Bucket {
    var more := b.remaining + 1;
    b.(remaining := if b.limit.Some? && b.limit.value < more then b.limit.value else more)
  }

  function Release(w: World, key: Name, resetAt: real, refund: bool, now: real): World {
    if !Releases(w, key, resetAt, now) then w
    else
      var stored := w.buckets[key];
      if stored.bucket.probe then w.(buckets := w.buckets - {key})
      else if refund then w.(buckets := w.buckets[key := stored.(bucket := Refunded(stored.bucket))])
      else w
  }

  // ---------- the scripts, statement by statement ----------

  class Redis {
    var buckets: map<Name, Stored>
    var globals: map<Name, Mark>
    var logs: map<Name, Log>

    ghost function State(): World
      reads this
    {
      World(buckets, globals, logs)
    }

    method Load(key: Name, now: real) returns (s: Option<Bucket>)
      ensures s == LoadBucket(State(), key, now)
    {
      s := if key in buckets && now < buckets[key].expires then Some(buckets[key].bucket) else None;
    }

    method Save(key: Name, b: Bucket, now: real, linger: real)
      modifies `buckets
      ensures buckets == old(buckets)[key := Saved(b, now, linger)]
    {
      var ttl := Max(1.0, Ceil(b.resetAt - now)) + linger;
      buckets := buckets[key := Stored(b, now + ttl)];
    }

    /** ZREMRANGEBYSCORE: drops the sends that left the window. */
    method Prune(scope: Name, window: real, now: real)
      modifies `logs
      ensures logs == old(logs)[scope := Log(Recent(old(State()), scope, now, window), LogExpiry(old(State()), scope))]
    {
      var expires := if scope in logs then logs[scope].expires else 0.0;
      var members := if scope in logs && now < expires then logs[scope].members else map[];
      logs := logs[scope := Log(map s | s in members && members[s] > now - window :: members[s], expires)];
    }

    /** ZADD and PEXPIRE: logs one send. */
    method Count(scope: Name, window: real, now: real)
      requires scope in logs
      modifies `logs
      ensures var members := old(logs)[scope].members;
              logs == old(logs)[scope := Log(members[(now, |members|) := now], now + window + LOG_SLACK)]
    {
      var members := logs[scope].members;
      logs := logs[scope := Log(members[(now, |members|) := now], now + window + LOG_SLACK)];
    }

    /** The script behind `Reserve`: recorded reset, log of sends, then the bucket. */
    method ReserveScript(key: Name, scope: Option<Name>, l: Limits, now: real)
      returns (r: Reservation, ghost oldest: real)
      modifies this
      ensures State() == Reserve(old(State()), key, scope, l, now)
      ensures r == ReserveReply(old(State()), key, scope, l, now, oldest)
      ensures Saturated(old(State()), scope, l, now) && l.globalLimit > 0 && !Blocked(old(State()), scope, l, now) ==>
                IsOldest(Recent(old(State()), scope.value, now, l.globalWindow), oldest)
    {
      oldest := 0.0;
      if scope.Some? {
        var g := if scope.value in globals && now < globals[scope.value].expires then globals[scope.value].resetAt else 0.0;
        if g > now { return Refused(Ceil(g - now), Global), oldest; }
        if l.globalLimit > 0 {
          Prune(scope.value, l.globalWindow, now);
          var members := logs[scope.value].members;
          if |members| >= l.globalLimit {
            var first := Oldest(members);
            return Refused(Max(1.0, first + l.globalWindow - now + 1.0), Global), first;
          }
        }
      }
      r := TakeUnit(key, l, now);
      if r.Granted? && scope.Some? && l.globalLimit > 0 { Count(scope.value, l.globalWindow, now); }
    }

    /** The bucket half of a reservation. */
    method TakeUnit(key: Name, l: Limits, now: real) returns (r: Reservation)
      modifies `buckets
      ensures var decision := ReserveState(LoadBucket(old(State()), key, now), now, l.probe, l.poll);
              && State() == Put(old(State()), key, decision.1, now, Linger(decision.0, l))
              && (decision.0.Granted? ==> r == decision.0)
              && (decision.0.Refused? ==> r == Refused(Ceil(decision.0.wait), decision.0.reason))
    {
      var s := Load(key, now);
      if s.Some? && s.value.resetAt > now {
        var b := s.value;
        if b.remaining > 0 {
          b := b.(remaining := b.remaining - 1);
          Save(key, b, now, l.linger);
          return Granted(b.resetAt, true);
        }
        var wait := b.resetAt - now;
        if b.provisional { wait := Min(wait, l.poll); }
        return Refused(Ceil(wait), if b.probe then Probe else Full);
      }
      var resetAt := now + l.probe;
      if s.Some? && s.value.limit.Some? && s.value.limit.value > 0 {
        var limit := s.value.limit;
        Save(key, Bucket(limit.value - 1, resetAt, limit, None, true, false), now, l.linger);
        return Granted(resetAt, true);
      }
      Save(key, Bucket(0, resetAt, None, None, true, true), now, 0.0);
      r := Granted(resetAt, false);
    }

    /** ZRANGE 0 0 WITHSCORES, written out. */
    method Oldest(members: map<Send, real>) returns (score: real)
      requires |members| > 0
      ensures IsOldest(members, score)
    {
      var rest := members.Keys;
      var s :| s in rest;
      score := members[s];
      rest := rest - {s};
      while rest != {}
        invariant rest <= members.Keys && score in members.Values
        invariant forall t :: t in members && t !in rest ==> score <= members[t]
        decreases rest
      {
        s :| s in rest;
        score := Min(score, members[s]);
        rest := rest - {s};
      }
    }

    /** The part of the merge that keeps the stored window. */
    method Merge(s: Bucket, u: Update, now: real) returns (n: Bucket)
      ensures n == Merged(s, u, now)
    {
      n := s;
      var stale := u.window.Some? && n.window.Some? && u.window.value < n.window.value - WINDOW_TOLERANCE;
      if !stale {
        if u.remaining.Some? && u.remaining.value < n.remaining { n := n.(remaining := u.remaining.value); }
        if u.resetAfter.Some? {
          var incoming := Ceil(now + u.resetAfter.value);
          var newer := u.window.Some? && n.window.Some? && u.window.value > n.window.value + WINDOW_TOLERANCE;
          n := n.(resetAt := if n.provisional || newer then incoming else Max(n.resetAt, incoming));
          n := n.(provisional := false);
        }
        if u.window.Some? {
          n := n.(window := Some(Max(if n.window.Some? then n.window.value else 0.0, u.window.value)));
        }
      }
    }

    /** The script behind `Reconcile`; `saved` when it wrote the bucket. */
    method ReconcileScript(key: Name, u: Update, l: Limits, now: real) returns (saved: bool)
      modifies `buckets
      ensures State() == Reconcile(old(State()), key, u, l, now)
      ensures saved <==> ReconcileState(LoadBucket(old(State()), key, now), u, now).Write?
    {
      hide Merged;
      var s := Load(key, now);
      var n: Bucket;
      if s.Some? && s.value.resetAt > now && !s.value.probe {
        n := Merge(s.value, u, now);
      } else {
        if u.remaining.None? && u.retry.None? {
          if s.Some? && s.value.probe { buckets := buckets - {key}; }
          return false;
        }
        n := Bucket(
          if u.remaining.Some? then u.remaining.value else 0,
          if u.resetAfter.Some? then Ceil(now + u.resetAfter.value) else now,
          if s.Some? then s.value.limit else None, u.window, false, false);
      }
      if u.limit.Some? && u.limit.value > 0 { n := n.(limit := Some(u.limit.value)); }
      if u.retry.Some? {
        n := n.(remaining := 0);
        n := n.(resetAt := Max(n.resetAt, Ceil(now + u.retry.value)), provisional := false);
      }
      Save(key, n, now, l.linger);
      saved := true;
    }

    /** The script behind `ExtendGlobal`; `left` is how long the scope now stays closed. */
    method ExtendGlobalScript(scope: Name, wait: real, now: real) returns (left: real)
      requires wait >= 0.0
      modifies `globals
      ensures State() == ExtendGlobal(old(State()), scope, wait, now)
      ensures left == Max(Ceil(now + wait), GlobalReset(old(State()), scope, now)) - now
    {
      var target := Ceil(now + wait);
      var cur := if scope in globals && now < globals[scope].expires then globals[scope].resetAt else 0.0;
      if target > cur {
        globals := globals[scope := Mark(target, now + Max(1.0, target - now))];
        return target - now;
      }
      left := Max(0.0, cur - now);
    }

    /** The script behind `Release`; `released` when a probe went or a unit came back. */
    method ReleaseScript(key: Name, resetAt: real, refund: bool, now: real) returns (released: bool)
      modifies `buckets
      ensures State() == Release(old(State()), key, resetAt, refund, now)
      ensures released <==>
        Releases(old(State()), key, resetAt, now) && (refund || old(buckets)[key].bucket.probe)
    {
      var s := Load(key, now);
      if s.None? || s.value.resetAt != resetAt { return false; }
      var b := s.value;
      if b.probe {
        buckets := buckets - {key};
        return true;
      }
      if refund {
        var cap := b.remaining + 1;
        if b.limit.Some? { cap := if b.limit.value < cap then b.limit.value else cap; }
        buckets := buckets[key := Stored(b.(remaining := cap), buckets[key].expires)];
        return true;
      }
      released := false;
    }
  }
}
