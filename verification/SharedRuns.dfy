/**
 Any number of workers sharing one store: a run is any interleaving of their
 script calls under the store's clock, and these are the results that hold of
 every run.
 */
module SharedRuns {
  import opened Wrappers
  import opened BucketState
  import opened SharedStore

  datatype Call =
    | Reserving(key: Name, scope: Option<Name>)
    | Reconciling(key: Name, update: Update)
    | Extending(limited: Name, wait: real)
    | Releasing(key: Name, resetAt: real, refund: bool)

  datatype Event = Event(call: Call, now: real)

  function Step(w: World, l: Limits, e: Event): World {
    match e.call
    case Reserving(key, scope) => Reserve(w, key, scope, l, e.now)
    case Reconciling(key, update) => Reconcile(w, key, update, l, e.now)
    case Extending(scope, wait) => ExtendGlobal(w, scope, wait, e.now)
    case Releasing(key, resetAt, refund) => Release(w, key, resetAt, refund, e.now)
  }

  const EMPTY := World(map[], map[], map[])

  function After(w: World, l: Limits, run: seq<Event>): World {
    if run == [] then w else Step(After(w, l, run[..|run| - 1]), l, run[|run| - 1])
  }

  /** The store's clock never runs backwards. */
  ghost predicate Timely(run: seq<Event>, start: real) {
    && (forall i :: 0 <= i < |run| ==> start <= run[i].now)
    && (forall i, j :: 0 <= i < j < |run| ==> run[i].now <= run[j].now)
  }

  function End(run: seq<Event>, start: real): real {
    if run == [] then start else run[|run| - 1].now
  }

  // ---------- what every stored bucket keeps ----------

  ghost predicate Sane(b: Bucket) {
    b.remaining >= 0 && (b.limit.Some? ==> b.limit.value > 0) && (b.probe ==> b.remaining == 0)
  }

  ghost predicate Kept(s: Stored) {
    Sane(s.bucket) && s.bucket.resetAt <= s.expires
  }

  ghost predicate AllKept(w: World) {
    forall k :: k in w.buckets ==> Kept(w.buckets[k])
  }

  /** What a reservation does to the buckets. */
  lemma ReserveBuckets(w: World, key: Name, scope: Option<Name>, l: Limits, now: real)
    ensures var decision := ReserveState(LoadBucket(w, key, now), now, l.probe, l.poll);
            Reserve(w, key, scope, l, now).buckets ==
            if Grants(w, key, scope, l, now) then w.buckets[key := Saved(decision.1.bucket, now, Linger(decision.0, l))]
            else w.buckets
  {
  }

  lemma SavedKept(b: Bucket, now: real, linger: real)
    requires linger >= 0.0 && Sane(b)
    ensures Kept(Saved(b, now, linger))
  {
  }

  lemma ReservedKept(s: Option<Bucket>, l: Limits, now: real)
    requires s.Some? ==> Sane(s.value)
    ensures var decision := ReserveState(s, now, l.probe, l.poll); decision.1.Write? ==> Sane(decision.1.bucket)
  {
  }

  lemma ReconciledKept(s: Option<Bucket>, u: Update, now: real)
    requires s.Some? ==> Sane(s.value)
    ensures var next := ReconcileState(s, u, now); next.Write? ==> Sane(next.bucket)
  {
  }

  lemma StepKept(w: World, l: Limits, e: Event)
    requires ValidLimits(l) && AllKept(w)
    ensures AllKept(Step(w, l, e))
  {
    hide ReserveState, ReconcileState, Saved, Sane;
    match e.call
    case Reserving(key, scope) =>
      ReserveBuckets(w, key, scope, l, e.now);
      ReservedKept(LoadBucket(w, key, e.now), l, e.now);
      if Grants(w, key, scope, l, e.now) {
        WritesIfGranted(LoadBucket(w, key, e.now), l, e.now);
        var decision := ReserveState(LoadBucket(w, key, e.now), e.now, l.probe, l.poll);
        SavedKept(decision.1.bucket, e.now, Linger(decision.0, l));
      }
    case Reconciling(key, u) =>
      var s := LoadBucket(w, key, e.now);
      ReconciledKept(s, u, e.now);
      if ReconcileState(s, u, e.now).Write? {
        SavedKept(ReconcileState(s, u, e.now).bucket, e.now, l.linger);
      }
    case Extending(_, _) =>
    case Releasing(key, resetAt, refund) =>
      if key in w.buckets && !w.buckets[key].bucket.probe {
        RefundedKept(w.buckets[key].bucket);
      }
  }

  lemma WritesIfGranted(s: Option<Bucket>, l: Limits, now: real)
    ensures var decision := ReserveState(s, now, l.probe, l.poll); decision.0.Granted? <==> decision.1.Write?
  {
  }

  lemma RefundedKept(b: Bucket)
    requires Sane(b) && !b.probe
    ensures Sane(Refunded(b)) && Refunded(b).remaining <= b.remaining + 1 && Refunded(b).resetAt == b.resetAt
  {
  }

  /** No count goes negative, and no key expires while its window is open, in any reachable state. */
  lemma {:induction false} AfterKept(l: Limits, run: seq<Event>)
    requires ValidLimits(l)
    ensures AllKept(After(EMPTY, l, run))
  {
    if run != [] {
      AfterKept(l, run[..|run| - 1]);
      StepKept(After(EMPTY, l, run[..|run| - 1]), l, run[|run| - 1]);
    }
  }

  /** An open window is found by whoever asks for it. */
  lemma NeverForgotten(l: Limits, run: seq<Event>, key: Name, now: real)
    requires ValidLimits(l) && key in After(EMPTY, l, run).buckets
    requires now < After(EMPTY, l, run).buckets[key].bucket.resetAt
    ensures LoadBucket(After(EMPTY, l, run), key, now) == Some(After(EMPTY, l, run).buckets[key].bucket)
  {
    AfterKept(l, run);
  }

  // ---------- conservation of units ----------

  /** The account of one window: what it opened with, and what was taken and given back since. */
  datatype Ledger = Ledger(units: int, granted: int, refunded: int)

  /** Whether a reservation opens a window of its own, and with how many units. */
  function OpensWith(w: World, key: Name, now: real): Option<int> {
    var s := LoadBucket(w, key, now);
    if Open(s, now) then None
    else if s.Some? && s.value.limit.Some? && s.value.limit.value > 0 then s.value.limit
    else Some(1)
  }

  function Booked(w: World, l: Limits, e: Event, key: Name, account: Ledger): Ledger {
    match e.call
    case Reserving(k, scope) =>
      if k != key || !Grants(w, key, scope, l, e.now) then account
      else
        var units := OpensWith(w, key, e.now);
        if units.Some? then Ledger(units.value, 1, 0) else account.(granted := account.granted + 1)
    case Reconciling(k, update) =>
      var s := LoadBucket(w, key, e.now);
      if k != key || Active(s, e.now) then account
      else
        (match ReconcileState(s, update, e.now)
         case Write(b) => Ledger(b.remaining, 0, 0)
         case _ => account)
    case Extending(_, _) => account
    case Releasing(k, resetAt, refund) =>
      if k == key && refund && Releases(w, key, resetAt, e.now) && !w.buckets[key].bucket.probe
      then account.(refunded := account.refunded + 1)
      else account
  }

  /** The account of the window last opened under `key`. */
  function Account(l: Limits, run: seq<Event>, key: Name): Ledger {
    if run == [] then Ledger(0, 0, 0)
    else Booked(After(EMPTY, l, run[..|run| - 1]), l, run[|run| - 1], key, Account(l, run[..|run| - 1], key))
  }

  ghost predicate Balanced(w: World, key: Name, account: Ledger) {
    key in w.buckets ==>
      0 <= w.buckets[key].bucket.remaining <= account.units - account.granted + account.refunded
  }

  lemma StepBalanced(w: World, l: Limits, e: Event, key: Name, account: Ledger)
    requires ValidLimits(l) && AllKept(w) && Balanced(w, key, account)
    ensures Balanced(Step(w, l, e), key, Booked(w, l, e, key, account))
  {
    hide Reserve, ReconcileState, Blocked, Saturated;
    match e.call
    case Reserving(k, scope) =>
      ReserveBuckets(w, k, scope, l, e.now);
      if k == key && Grants(w, k, scope, l, e.now) {
      }
    case Reconciling(k, u) =>
      if k == key {
        if Active(LoadBucket(w, key, e.now), e.now) { ReconciledUnits(LoadBucket(w, key, e.now), u, e.now); }
        ReconciledKept(LoadBucket(w, key, e.now), u, e.now);
      }
    case Extending(_, _) =>
    case Releasing(k, resetAt, refund) =>
      if k in w.buckets && !w.buckets[k].bucket.probe {
        RefundedKept(w.buckets[k].bucket);
      }
  }

  /** A response never raises the count of an open window. */
  lemma ReconciledUnits(s: Option<Bucket>, u: Update, now: real)
    requires Active(s, now) && Sane(s.value)
    ensures ReconcileState(s, u, now).Write? && 0 <= ReconcileState(s, u, now).bucket.remaining <= s.value.remaining
  {
  }

  /**
   Whatever the interleaving: the units granted from a window, less those given
   back to it, plus those left, never exceed the units it opened with.
   */
  lemma {:induction false} UnitsConserved(l: Limits, run: seq<Event>, key: Name)
    requires ValidLimits(l)
    ensures Balanced(After(EMPTY, l, run), key, Account(l, run, key))
  {
    if run != [] {
      var before, last := run[..|run| - 1], run[|run| - 1];
      UnitsConserved(l, before, key);
      AfterKept(l, before);
      StepBalanced(After(EMPTY, l, before), l, last, key, Account(l, before, key));
    }
  }

  // ---------- one worker discovers a bucket at a time ----------

  /** A probe's placeholder holds `key` until `resetAt`. */
  ghost predicate ProbeHolds(w: World, key: Name, resetAt: real) {
    key in w.buckets && var s := w.buckets[key];
    s.bucket.probe && s.bucket.remaining == 0 && s.bucket.resetAt == resetAt && resetAt <= s.expires
  }

  /** `call` may end the probe of `key` that lasts until `resetAt`: a response, or its own release. */
  predicate EndsProbe(call: Call, key: Name, resetAt: real) {
    match call
    case Reconciling(k, _) => k == key
    case Releasing(k, r, _) => k == key && r == resetAt
    case _ => false
  }

  /** An unknown bucket is granted to a prober, and its placeholder is in place. */
  lemma ProbeStarts(w: World, l: Limits, key: Name, scope: Option<Name>, now: real)
    requires ValidLimits(l) && Grants(w, key, scope, l, now)
    requires ReserveState(LoadBucket(w, key, now), now, l.probe, l.poll).0 == Granted(now + l.probe, false)
    ensures ProbeHolds(Reserve(w, key, scope, l, now), key, now + l.probe)
  {
    ReserveBuckets(w, key, scope, l, now);
  }

  lemma StepProbe(w: World, l: Limits, e: Event, key: Name, resetAt: real)
    requires ProbeHolds(w, key, resetAt) && e.now < resetAt && !EndsProbe(e.call, key, resetAt)
    ensures ProbeHolds(Step(w, l, e), key, resetAt)
    ensures e.call.Reserving? && e.call.key == key ==> !Grants(w, key, e.call.scope, l, e.now)
  {
  }

  /** Until a response, its own release or its deadline, the probe keeps everyone else off the bucket. */
  lemma {:induction false} ProbeExcludes(w: World, l: Limits, run: seq<Event>, key: Name, resetAt: real)
    requires ProbeHolds(w, key, resetAt)
    requires forall i :: 0 <= i < |run| ==> run[i].now < resetAt && !EndsProbe(run[i].call, key, resetAt)
    ensures ProbeHolds(After(w, l, run), key, resetAt)
    ensures forall i, scope :: 0 <= i < |run| && run[i].call == Reserving(key, scope) ==>
                                 !Grants(After(w, l, run[..i]), key, scope, l, run[i].now)
  {
    if run != [] {
      var before, last := run[..|run| - 1], run[|run| - 1];
      ProbeExcludes(w, l, before, key, resetAt);
      StepProbe(After(w, l, before), l, last, key, resetAt);
      forall i, scope | 0 <= i < |run| && run[i].call == Reserving(key, scope)
        ensures !Grants(After(w, l, run[..i]), key, scope, l, run[i].now)
      {
        if i < |before| {
          assert before[i] == run[i] && before[..i] == run[..i];
        }
      }
    }
  }

  /** The reservation that begins at `now`, after `before`, is granted to a prober. */
  ghost predicate Probes(l: Limits, before: seq<Event>, key: Name, scope: Option<Name>, now: real) {
    var w := After(EMPTY, l, before);
    Grants(w, key, scope, l, now) && ReserveState(LoadBucket(w, key, now), now, l.probe, l.poll).0 == Granted(now + l.probe, false)
  }

  /**
   Over every run: once an unknown bucket is granted to a prober, nobody else is
   granted it until a response, the prober's release, or the probe deadline.
   */
  lemma OneProberAtATime(
    l: Limits, before: seq<Event>, key: Name, scope: Option<Name>, now: real, later: seq<Event>, i: nat, other: Option<Name>)
    requires ValidLimits(l) && Probes(l, before, key, scope, now)
    requires i < |later| && later[i].call == Reserving(key, other)
    requires forall j :: 0 <= j <= i ==> later[j].now < now + l.probe
    requires forall j :: 0 <= j < i ==> !EndsProbe(later[j].call, key, now + l.probe)
    ensures !Grants(After(EMPTY, l, before + [Event(Reserving(key, scope), now)] + later[..i]), key, other, l, later[i].now)
  {
    hide Reserve, Grants, EndsProbe, ProbeHolds;
    var w := After(EMPTY, l, before);
    var first := Event(Reserving(key, scope), now);
    OneMoreStep(EMPTY, l, before, first);
    AfterBoth(EMPTY, l, before + [first], later[..i]);
    ProbeStarts(w, l, key, scope, now);
    var upTo := later[..i + 1];
    assert upTo[..i] == later[..i];
    NotEnding(key, other, now + l.probe);
    ProbeExcludes(Step(w, l, first), l, upTo, key, now + l.probe);
    assert upTo[i].call == Reserving(key, other);
  }

  lemma NotEnding(key: Name, scope: Option<Name>, resetAt: real)
    ensures !EndsProbe(Reserving(key, scope), key, resetAt)
  {
  }

  lemma OneMoreStep(w: World, l: Limits, run: seq<Event>, e: Event)
    ensures After(w, l, run + [e]) == Step(After(w, l, run), l, e)
  {
    assert (run + [e])[..|run|] == run;
  }

  lemma {:induction false} AfterBoth(w: World, l: Limits, a: seq<Event>, b: seq<Event>)
    ensures After(w, l, a + b) == After(After(w, l, a), l, b)
  {
    if b == [] {
      assert a + b == a;
    } else {
      assert (a + b)[..|a + b| - 1] == a + b[..|b| - 1];
      AfterBoth(w, l, a, b[..|b| - 1]);
    }
  }

  // ---------- nothing is sent before a recorded global reset ----------

  /** `scope` stays closed until `target`. */
  ghost predicate ClosedUntil(w: World, scope: Name, target: real) {
    scope in w.globals && target <= w.globals[scope].resetAt <= w.globals[scope].expires
  }

  ghost predicate MarksKept(w: World) {
    forall s :: s in w.globals ==> w.globals[s].resetAt <= w.globals[s].expires
  }

  lemma {:induction false} AfterMarksKept(l: Limits, run: seq<Event>)
    ensures MarksKept(After(EMPTY, l, run))
  {
    if run != [] {
      AfterMarksKept(l, run[..|run| - 1]);
    }
  }

  lemma ExtendCloses(w: World, scope: Name, wait: real, now: real)
    requires MarksKept(w) && wait >= 0.0
    ensures Ceil(now + wait) > 0.0 ==> ClosedUntil(ExtendGlobal(w, scope, wait, now), scope, Ceil(now + wait))
  {
  }

  /** After a global limit was recorded, no request of its scope is granted before it resets. */
  lemma {:induction false} ClosedMeansClosed(w: World, l: Limits, run: seq<Event>, scope: Name, target: real)
    requires ClosedUntil(w, scope, target) && forall i :: 0 <= i < |run| ==> run[i].now < target
    ensures ClosedUntil(After(w, l, run), scope, target)
    ensures forall i, key :: 0 <= i < |run| && run[i].call == Reserving(key, Some(scope)) ==>
                               !Grants(After(w, l, run[..i]), key, Some(scope), l, run[i].now)
  {
    if run != [] {
      var before, last := run[..|run| - 1], run[|run| - 1];
      ClosedMeansClosed(w, l, before, scope, target);
      forall i, key | 0 <= i < |run| && run[i].call == Reserving(key, Some(scope))
        ensures !Grants(After(w, l, run[..i]), key, Some(scope), l, run[i].now)
      {
        if i < |before| {
          assert before[i] == run[i] && before[..i] == run[..i];
        }
      }
    }
  }

  /**
   Over every run: once a global limit of a scope is recorded, none of its requests
   is granted before the recorded reset, whatever happened before and since.
   */
  lemma NothingBeforeReset(
    l: Limits, before: seq<Event>, scope: Name, wait: real, now: real, later: seq<Event>, i: nat, key: Name)
    requires wait >= 0.0 && i < |later| && later[i].call == Reserving(key, Some(scope)) && later[i].now >= 0.0
    requires forall j :: 0 <= j <= i ==> later[j].now < Ceil(now + wait)
    ensures
      !Grants(After(EMPTY, l, before + [Event(Extending(scope, wait), now)] + later[..i]), key, Some(scope), l, later[i].now)
  {
    hide Reserve, Grants, ClosedUntil;
    var w := After(EMPTY, l, before);
    var first := Event(Extending(scope, wait), now);
    OneMoreStep(EMPTY, l, before, first);
    AfterBoth(EMPTY, l, before + [first], later[..i]);
    AfterMarksKept(l, before);
    ExtendCloses(w, scope, wait, now);
    var upTo := later[..i + 1];
    assert upTo[..i] == later[..i];
    ClosedMeansClosed(Step(w, l, first), l, upTo, scope, Ceil(now + wait));
    assert upTo[i].call == Reserving(key, Some(scope));
  }

  // ---------- the sliding log of sends ----------

  /** `e` is a send that the log of `scope` counts. */
  predicate Sends(w: World, l: Limits, e: Event, scope: Name) {
    e.call.Reserving? && e.call.scope == Some(scope) && Grants(w, e.call.key, Some(scope), l, e.now)
  }

  /** How many requests of `scope` a run let out in the `width` from `a` on. */
  function SentIn(l: Limits, run: seq<Event>, scope: Name, a: real, width: real): nat {
    if run == [] then 0
    else
      var before, last := run[..|run| - 1], run[|run| - 1];
      SentIn(l, before, scope, a, width) +
      if Sends(After(EMPTY, l, before), l, last, scope) && a <= last.now < a + width then 1 else 0
  }

  /** The names under which those requests were logged. */
  ghost function Names(l: Limits, run: seq<Event>, scope: Name): set<Send> {
    if run == [] then {}
    else
      var before, last := run[..|run| - 1], run[|run| - 1];
      var w := After(EMPTY, l, before);
      if Sends(w, l, last, scope)
      then Names(l, before, scope) + {NameOf(w, l, scope, last.now)}
      else Names(l, before, scope)
  }

  ghost function Span(names: set<Send>, a: real, width: real): set<Send> {
    set s | s in names && a <= s.0 < a + width
  }

  ghost function Members(w: World, scope: Name): map<Send, real> {
    if scope in w.logs then w.logs[scope].members else map[]
  }

  /** A log still holds every send that a window reaching `clock` can see, under a name of its own. */
  ghost predicate Holds(members: map<Send, real>, expires: real, window: real, names: set<Send>, clock: real) {
    && (forall s :: s in members ==> s in names && members[s] == s.0 && s.0 + window <= expires)
    && (forall s :: s in names ==> s.0 <= clock && (s in members || s.0 <= clock - window))
    && (forall s, t :: s in names && s.0 == clock && t in members ==> s.1 < |members| && t.0 > clock - window)
  }

  ghost predicate Logged(w: World, l: Limits, scope: Name, names: set<Send>, clock: real) {
    Holds(Members(w, scope), LogExpiry(w, scope), l.globalWindow, names, clock)
  }

  ghost predicate Spread(l: Limits, names: set<Send>) {
    forall a: real :: |Span(names, a, l.globalWindow)| <= l.globalLimit
  }

  ghost predicate IsRecent(
    recent: map<Send, real>, members: map<Send, real>, window: real, names: set<Send>, now: real)
  {
    && recent.Keys == (set s | s in names && s.0 > now - window)
    && (forall s :: s in recent ==> s in members && recent[s] == members[s])
  }

  /** What is in the log once it is pruned: exactly the sends of the last window. */
  lemma RecentAreNames(w: World, l: Limits, scope: Name, names: set<Send>, clock: real, now: real)
    requires ValidLimits(l) && Logged(w, l, scope, names, clock) && clock <= now
    ensures IsRecent(Recent(w, scope, now, l.globalWindow), Members(w, scope), l.globalWindow, names, now)
  {
  }

  /** The sends of this instant are all still in the log, with lower numbers. */
  lemma NumbersAreBelow(
    recent: map<Send, real>, members: map<Send, real>, expires: real, window: real, names: set<Send>, clock: real, now: real)
    requires window > 0.0 && Holds(members, expires, window, names, clock) && clock <= now
    requires IsRecent(recent, members, window, names, now)
    ensures forall s :: s in names && s.0 == now ==> s.1 < |recent|
  {
    forall s | s in names && s.0 == now ensures s.1 < |recent| {
      assert s in members;
      assert members.Keys == recent.Keys;
      assert |members| == |members.Keys| == |recent.Keys| == |recent|;
    }
  }

  lemma PruneHolds(
    recent: map<Send, real>, members: map<Send, real>, expires: real, window: real, names: set<Send>, clock: real, now: real)
    requires window > 0.0 && Holds(members, expires, window, names, clock) && clock <= now
    requires IsRecent(recent, members, window, names, now)
    ensures Holds(recent, expires, window, names, now)
  {
    NumbersAreBelow(recent, members, expires, window, names, clock, now);
  }

  lemma CountHolds(recent: map<Send, real>, expires: real, window: real, names: set<Send>, now: real)
    requires window > 0.0 && Holds(recent, expires, window, names, now)
    requires forall s :: s in recent ==> s.0 > now - window
    requires (now, |recent|) !in names
    ensures Holds(recent[(now, |recent|) := now], now + window + LOG_SLACK, window, names + {(now, |recent|)}, now)
  {
    var name := (now, |recent|);
    assert |recent[name := now]| == |recent| + 1;
  }

  lemma TickHolds(members: map<Send, real>, expires: real, window: real, names: set<Send>, clock: real, now: real)
    requires window > 0.0 && Holds(members, expires, window, names, clock) && clock <= now
    ensures Holds(members, expires, window, names, now)
  {
  }

  /** One more send keeps every span within the limit. */
  lemma SpreadMore(w: World, l: Limits, e: Event, scope: Name, names: set<Send>, clock: real)
    requires ValidLimits(l) && l.globalLimit > 0 && Logged(w, l, scope, names, clock) && clock <= e.now
    requires Spread(l, names) && Sends(w, l, e, scope)
    ensures Spread(l, names + {NameOf(w, l, scope, e.now)})
  {
    hide ReserveState;
    RecentAreNames(w, l, scope, names, clock, e.now);
    var recent := Recent(w, scope, e.now, l.globalWindow);
    assert |recent.Keys| == |recent| < l.globalLimit;
    SpanMore(names, recent.Keys, NameOf(w, l, scope, e.now), l.globalWindow, l.globalLimit);
  }

  lemma SpanMore(names: set<Send>, recent: set<Send>, name: Send, window: real, limit: nat)
    requires forall a :: |Span(names, a, window)| <= limit
    requires |recent| < limit && recent == (set s | s in names && s.0 > name.0 - window)
    requires forall s :: s in names ==> s.0 <= name.0
    ensures forall a :: |Span(names + {name}, a, window)| <= limit
  {
    forall a ensures |Span(names + {name}, a, window)| <= limit {
      var span := Span(names, a, window);
      if a <= name.0 < a + window {
        assert Span(names + {name}, a, window) == span + {name};
        Subset(span, recent);
      } else {
        assert Span(names + {name}, a, window) == span;
      }
    }
  }

  lemma Subset<T>(a: set<T>, b: set<T>)
    requires a <= b
    ensures |a| <= |b|
  {
    if a != {} {
      var x :| x in a;
      Subset(a - {x}, b - {x});
    }
  }

  /** The name a send of `scope` is logged under. */
  ghost function NameOf(w: World, l: Limits, scope: Name, now: real): Send {
    (now, |Recent(w, scope, now, l.globalWindow)|)
  }

  lemma StepLogged(w: World, l: Limits, e: Event, scope: Name, names: set<Send>, clock: real)
    requires ValidLimits(l) && l.globalLimit > 0 && Logged(w, l, scope, names, clock) && clock <= e.now
    ensures !Sends(w, l, e, scope) ==> Logged(Step(w, l, e), l, scope, names, e.now)
    ensures Sends(w, l, e, scope) ==> NameOf(w, l, scope, e.now) !in names
    ensures Sends(w, l, e, scope) ==> Logged(Step(w, l, e), l, scope, names + {NameOf(w, l, scope, e.now)}, e.now)
  {
    if Sends(w, l, e, scope) {
      SendLogged(w, l, e, scope, names, clock);
    } else {
      OtherLogged(w, l, e, scope, names, clock);
    }
  }

  lemma SendLogged(w: World, l: Limits, e: Event, scope: Name, names: set<Send>, clock: real)
    requires ValidLimits(l) && l.globalLimit > 0 && Logged(w, l, scope, names, clock) && clock <= e.now
    requires Sends(w, l, e, scope)
    ensures NameOf(w, l, scope, e.now) !in names
    ensures Logged(Step(w, l, e), l, scope, names + {NameOf(w, l, scope, e.now)}, e.now)
  {
    hide Holds, Reserve, Recent, IsRecent, Grants;
    var members, expires := Members(w, scope), LogExpiry(w, scope);
    var recent := Recent(w, scope, e.now, l.globalWindow);
    RecentAreNames(w, l, scope, names, clock, e.now);
    PruneHolds(recent, members, expires, l.globalWindow, names, clock, e.now);
    NumbersAreBelow(recent, members, expires, l.globalWindow, names, clock, e.now);
    CountHolds(recent, expires, l.globalWindow, names, e.now);
    ReserveMembers(w, e.call.key, e.call.scope, l, e.now, scope);
  }

  lemma OtherLogged(w: World, l: Limits, e: Event, scope: Name, names: set<Send>, clock: real)
    requires ValidLimits(l) && l.globalLimit > 0 && Logged(w, l, scope, names, clock) && clock <= e.now
    requires !Sends(w, l, e, scope)
    ensures Logged(Step(w, l, e), l, scope, names, e.now)
  {
    hide Holds, Reserve, Reconcile, Recent, IsRecent, Sends;
    var members, expires := Members(w, scope), LogExpiry(w, scope);
    var recent := Recent(w, scope, e.now, l.globalWindow);
    RecentAreNames(w, l, scope, names, clock, e.now);
    TickHolds(members, expires, l.globalWindow, names, clock, e.now);
    PruneHolds(recent, members, expires, l.globalWindow, names, clock, e.now);
    match e.call
    case Reserving(key, s) => ReserveMembers(w, key, s, l, e.now, scope);
    case Reconciling(key, u) => ReconcileLogs(w, key, u, l, e.now);
    case _ =>
  }

  lemma ReconcileLogs(w: World, key: SharedStore.Name, u: Update, l: Limits, now: real)
    ensures Reconcile(w, key, u, l, now).logs == w.logs
  {
  }

  lemma ReserveMembers(w: World, key: SharedStore.Name, s: Option<Name>, l: Limits, now: real, scope: Name)
    requires l.globalLimit > 0
    ensures var w', recent := Reserve(w, key, s, l, now), Recent(w, scope, now, l.globalWindow);
            if Sends(w, l, Event(Reserving(key, s), now), scope)
            then Members(w', scope) == recent[(now, |recent|) := now] && LogExpiry(w', scope) == now + l.globalWindow + LOG_SLACK
            else LogExpiry(w', scope) == LogExpiry(w, scope) && (Members(w', scope) == Members(w, scope) || Members(w', scope) == recent)
  {
    hide Reserve, Recent, Blocked;
    ReserveLogs(w, key, s, l, now);
  }

  /** What a reservation does to the logs. */
  lemma ReserveLogs(w: World, key: Name, scope: Option<Name>, l: Limits, now: real)
    ensures var logs := Reserve(w, key, scope, l, now).logs;
            if !Counts(scope, l) || Blocked(w, scope, l, now) then logs == w.logs
            else
              var recent := Recent(w, scope.value, now, l.globalWindow);
              logs == w.logs[scope.value :=
                if Grants(w, key, scope, l, now) then Log(recent[(now, |recent|) := now], now + l.globalWindow + LOG_SLACK)
                else Log(recent, LogExpiry(w, scope.value))]
  {
    hide ReserveState, Recent, Put;
    var decision := ReserveState(LoadBucket(w, key, now), now, l.probe, l.poll);
    PutLogs(Pruned(w, scope, l, now), key, decision.1, now, Linger(decision.0, l));
  }

  lemma PutLogs(w: World, key: SharedStore.Name, next: Next, now: real, linger: real)
    ensures Put(w, key, next, now, linger).logs == w.logs
  {
  }

  /**
   With a fixed global limit and one shared log, no span as long as the window
   sees more sends than the limit, whatever the interleaving of the workers.
   */
  lemma {:induction false} SendsAreSpread(l: Limits, run: seq<Event>, scope: Name, start: real)
    requires ValidLimits(l) && l.globalLimit > 0 && Timely(run, start)
    ensures Logged(After(EMPTY, l, run), l, scope, Names(l, run, scope), End(run, start))
    ensures Spread(l, Names(l, run, scope))
    ensures forall a :: SentIn(l, run, scope, a, l.globalWindow) <= l.globalLimit
  {
    SpreadNames(l, run, scope, start);
    forall a ensures SentIn(l, run, scope, a, l.globalWindow) <= l.globalLimit {
      SentAreNames(l, run, scope, start, a, l.globalWindow);
    }
  }

  lemma {:induction false} SpreadNames(l: Limits, run: seq<Event>, scope: Name, start: real)
    requires ValidLimits(l) && l.globalLimit > 0 && Timely(run, start)
    ensures Logged(After(EMPTY, l, run), l, scope, Names(l, run, scope), End(run, start))
    ensures Spread(l, Names(l, run, scope))
  {
    hide Step, Sends, Spread, NameOf;
    if run == [] {
      NothingSpread(l);
    } else {
      hide Logged;
      var before, last := run[..|run| - 1], run[|run| - 1];
      var w, names, clock := After(EMPTY, l, before), Names(l, before, scope), End(before, start);
      SpreadNames(l, before, scope, start);
      StepLogged(w, l, last, scope, names, clock);
      if Sends(w, l, last, scope) {
        SpreadMore(w, l, last, scope, names, clock);
      }
    }
  }

  lemma NothingSpread(l: Limits)
    ensures Spread(l, {})
  {
  }

  /** Every send has a name of its own, so counting names counts sends. */
  lemma {:induction false} SentAreNames(l: Limits, run: seq<Event>, scope: Name, start: real, a: real, width: real)
    requires ValidLimits(l) && l.globalLimit > 0 && Timely(run, start)
    ensures SentIn(l, run, scope, a, width) == |Span(Names(l, run, scope), a, width)|
  {
    hide Step, Sends, Spread, Logged, Recent;
    if run == [] {
      assert Span({}, a, width) == {};
    } else {
      var before, last := run[..|run| - 1], run[|run| - 1];
      var w, names := After(EMPTY, l, before), Names(l, before, scope);
      SentAreNames(l, before, scope, start, a, width);
      SpreadNames(l, before, scope, start);
      if Sends(w, l, last, scope) {
        StepLogged(w, l, last, scope, names, End(before, start));
        var name := NameOf(w, l, scope, last.now);
        assert Span(names + {name}, a, width) ==
               if a <= last.now < a + width then Span(names, a, width) + {name} else Span(names, a, width);
      }
    }
  }
}