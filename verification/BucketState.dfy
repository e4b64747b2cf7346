/**
 A rate-limit bucket and the two decisions every store makes about one: whether
 a request may take a unit of it, and what a response changes in it.
 */
module BucketState {
  import opened Wrappers

  datatype Bucket = Bucket(
    remaining: int,
    resetAt: real,
    limit: Option<int>,
    window: Option<real>,
    provisional: bool,
    probe: bool)

  /** What a response said; counts and times come from validated headers. */
  datatype Update = Update(
    remaining: Option<nat>,
    resetAfter: Option<real>,
    limit: Option<nat>,
    window: Option<real>,
    retry: Option<real>)

  datatype Reason = Full | Global | Probe

  datatype Reservation = Granted(resetAt: real, known: bool) | Refused(wait: real, reason: Reason)

  /** What to do with the stored bucket. */
  datatype Next = Keep | Delete | Write(bucket: Bucket)

  /** How far apart, in ms, the windows of two responses may be and still count as one (`Newer`, `Stale`). */
  const WINDOW_TOLERANCE := 50.0

  function Ceil(x: real): (c: real)
    ensures x <= c < x + 1.0 && c.Floor as real == c
  {
    if x.Floor as real == x then x else (x.Floor + 1) as real
  }

  function Min(a: real, b: real): real { if a < b then a else b }

  function Max(a: real, b: real): real { if a < b then b else a }

  predicate Open(s: Option<Bucket>, now: real) {
    s.Some? && s.value.resetAt > now
  }

  /** `reserveState`: may a request take a unit now, and what is stored then. */
  function ReserveState(s: Option<Bucket>, now: real, probe: real, poll: real): (Reservation, Next) {
    if Open(s, now) then
      var b := s.value;
      if b.remaining > 0 then
        (Granted(b.resetAt, true), Write(b.(remaining := b.remaining - 1)))
      else
        var wait := b.resetAt - now;
        (Refused(if b.provisional then Min(wait, poll) else wait, if b.probe then Probe else Full), Keep)
    else if s.Some? && s.value.limit.Some? && s.value.limit.value > 0 then
      var limit := s.value.limit;
      (Granted(now + probe, true), Write(Bucket(limit.value - 1, now + probe, limit, None, true, false)))
    else
      (Granted(now + probe, false), Write(Bucket(0, now + probe, None, None, true, true)))
  }

  /** A response counts for the stored window, rather than opening one. */
  predicate Active(s: Option<Bucket>, now: real) {
    Open(s, now) && !s.value.probe
  }

  predicate Stale(b: Bucket, u: Update) {
    u.window.Some? && b.window.Some? && u.window.value < b.window.value - WINDOW_TOLERANCE
  }

  predicate Newer(b: Bucket, u: Update) {
    u.window.Some? && b.window.Some? && u.window.value > b.window.value + WINDOW_TOLERANCE
  }

  /** A response of the stored window, or of one that cannot be told from it. */
  function Merged(b: Bucket, u: Update, now: real): Bucket {
    if Stale(b, u) then b
    else
      var lowered := if u.remaining.Some? && u.remaining.value < b.remaining then b.(remaining := u.remaining.value) else b;
      var timed :=
        if u.resetAfter.None? then lowered
        else
          var incoming := Ceil(now + u.resetAfter.value);
          lowered.(
            resetAt := if b.provisional || Newer(b, u) then incoming else Max(b.resetAt, incoming),
            provisional := false);
      if u.window.None? then timed
      else timed.(window := Some(Max(if b.window.Some? then b.window.value else 0.0, u.window.value)))
  }

  /** A response that opens a window of its own. */
  function Opened(s: Option<Bucket>, u: Update, now: real): Bucket {
    Bucket(
      if u.remaining.Some? then u.remaining.value else 0,
      if u.resetAfter.Some? then Ceil(now + u.resetAfter.value) else now,
      if s.Some? then s.value.limit else None,
      u.window,
      false,
      false)
  }

  function WithLimit(b: Bucket, u: Update): Bucket {
    if u.limit.Some? && u.limit.value > 0 then b.(limit := Some(u.limit.value)) else b
  }

  function WithRetry(b: Bucket, u: Update, now: real): Bucket {
    if u.retry.None? then b
    else b.(remaining := 0, resetAt := Max(b.resetAt, Ceil(now + u.retry.value)), provisional := false)
  }

  /** `reconcileState`: what a response makes of the stored bucket. */
  function ReconcileState(s: Option<Bucket>, u: Update, now: real): Next {
    if Active(s, now) then Write(WithRetry(WithLimit(Merged(s.value, u, now), u), u, now))
    else if u.remaining.None? && u.retry.None? then (if s.Some? && s.value.probe then Delete else Keep)
    else Write(WithRetry(WithLimit(Opened(s, u, now), u), u, now))
  }

  // ---------- responses in any order ----------

  /** A response, and when it is reconciled. */
  datatype Arrival = Arrival(u: Update, at: real)

  ghost predicate Near(a: Option<real>, b: Option<real>) {
    a.Some? && b.Some? ==> -WINDOW_TOLERANCE <= a.value - b.value <= WINDOW_TOLERANCE
  }

  ghost predicate SameLimit(a: Update, b: Update) {
    a.limit.Some? && a.limit.value > 0 && b.limit.Some? && b.limit.value > 0 ==> a.limit == b.limit
  }

  /** A window the server has confirmed, and that is still open whenever one of `ds` arrives. */
  ghost predicate Settled(b: Bucket, ds: seq<Arrival>) {
    !b.provisional && !b.probe && b.remaining >= 0 && forall d :: d in ds ==> d.at < b.resetAt
  }

  /** Responses to requests of one window: they agree on it and on its limit. */
  ghost predicate OneWindow(b: Bucket, ds: seq<Arrival>) {
    && (forall d :: d in ds ==> Near(b.window, d.u.window) && (d.u.window.Some? ==> d.u.window.value >= 0.0))
    && (forall d, e :: d in ds && e in ds ==> Near(d.u.window, e.u.window) && SameLimit(d.u, e.u))
  }

  /** A response reconciled into an active bucket. */
  function Reconciled(b: Bucket, d: Arrival): Bucket {
    WithRetry(WithLimit(Merged(b, d.u, d.at), d.u), d.u, d.at)
  }

  function ReconciledAll(b: Bucket, ds: seq<Arrival>): Bucket {
    if ds == [] then b else Reconciled(ReconciledAll(b, ds[..|ds| - 1]), ds[|ds| - 1])
  }

  lemma IsReconciled(b: Bucket, ds: seq<Arrival>, d: Arrival)
    requires Settled(b, ds) && d in ds
    ensures ReconcileState(Some(b), d.u, d.at) == Write(Reconciled(b, d))
  {
  }

  /** A response of the window only ever tightens it: fewer units, a later reset. */
  lemma Tightens(b: Bucket, ds: seq<Arrival>, d: Arrival)
    requires Settled(b, ds) && d in ds && !Newer(b, d.u)
    ensures Settled(Reconciled(b, d), ds)
    ensures 0 <= Reconciled(b, d).remaining <= b.remaining && Reconciled(b, d).resetAt >= b.resetAt
  {
  }

  lemma KeepsOneWindow(b: Bucket, ds: seq<Arrival>, d: Arrival)
    requires Settled(b, ds) && OneWindow(b, ds) && d in ds
    ensures Settled(Reconciled(b, d), ds) && OneWindow(Reconciled(b, d), ds)
  {
  }

  // What a response of the stored window does, field by field: each one is a bound that only tightens.

  function UnitsBound(remaining: int, u: Update): int {
    var bound := if u.remaining.Some? && u.remaining.value < remaining then u.remaining.value else remaining;
    if u.retry.Some? then 0 else bound
  }

  function ResetBound(resetAt: real, u: Update, now: real): real {
    var bound := if u.resetAfter.Some? then Max(resetAt, Ceil(now + u.resetAfter.value)) else resetAt;
    if u.retry.Some? then Max(bound, Ceil(now + u.retry.value)) else bound
  }

  function WindowBound(window: Option<real>, u: Update): Option<real> {
    if u.window.None? then window else Some(Max(if window.Some? then window.value else 0.0, u.window.value))
  }

  function Limited(limit: Option<int>, u: Update): Option<int> {
    if u.limit.Some? && u.limit.value > 0 then Some(u.limit.value) else limit
  }

  lemma ByField(b: Bucket, ds: seq<Arrival>, d: Arrival)
    requires Settled(b, ds) && OneWindow(b, ds) && d in ds
    ensures Reconciled(b, d) ==
            Bucket(UnitsBound(b.remaining, d.u), ResetBound(b.resetAt, d.u, d.at), Limited(b.limit, d.u),
                   WindowBound(b.window, d.u), false, false)
  {
  }

  /** Two responses of one window can be reconciled in either order. */
  lemma Commute(b: Bucket, ds: seq<Arrival>, d: Arrival, e: Arrival)
    requires Settled(b, ds) && OneWindow(b, ds) && d in ds && e in ds
    ensures Reconciled(Reconciled(b, d), e) == Reconciled(Reconciled(b, e), d)
  {
    hide Reconciled, OneWindow, Settled;
    ByField(b, ds, d);
    ByField(b, ds, e);
    KeepsOneWindow(b, ds, d);
    KeepsOneWindow(b, ds, e);
    ByField(Reconciled(b, d), ds, e);
    ByField(Reconciled(b, e), ds, d);
    SameLimits(b, ds, d, e);
  }

  lemma SameLimits(b: Bucket, ds: seq<Arrival>, d: Arrival, e: Arrival)
    requires OneWindow(b, ds) && d in ds && e in ds
    ensures Limited(Limited(b.limit, d.u), e.u) == Limited(Limited(b.limit, e.u), d.u)
    ensures d.u.window.Some? ==> d.u.window.value >= 0.0
    ensures e.u.window.Some? ==> e.u.window.value >= 0.0
  {
  }

  /** A duplicate changes nothing. */
  lemma Absorb(b: Bucket, ds: seq<Arrival>, d: Arrival)
    requires Settled(b, ds) && OneWindow(b, ds) && d in ds
    ensures Reconciled(Reconciled(b, d), d) == Reconciled(b, d)
  {
    ByField(b, ds, d);
    KeepsOneWindow(b, ds, d);
    ByField(Reconciled(b, d), ds, d);
  }

  lemma {:induction false} AllKeepOneWindow(b: Bucket, ds: seq<Arrival>, all: seq<Arrival>)
    requires Settled(b, all) && OneWindow(b, all) && forall d :: d in ds ==> d in all
    ensures Settled(ReconciledAll(b, ds), all) && OneWindow(ReconciledAll(b, ds), all)
    ensures 0 <= ReconciledAll(b, ds).remaining <= b.remaining
    ensures ReconciledAll(b, ds).resetAt >= b.resetAt
  {
    if ds != [] {
      var front, last := ds[..|ds| - 1], ds[|ds| - 1];
      AllKeepOneWindow(b, front, all);
      KeepsOneWindow(ReconciledAll(b, front), all, last);
      Tightens(ReconciledAll(b, front), all, last);
    }
  }

  lemma {:induction false} ReconciledConcat(b: Bucket, ds: seq<Arrival>, es: seq<Arrival>)
    ensures ReconciledAll(b, ds + es) == ReconciledAll(ReconciledAll(b, ds), es)
  {
    if es == [] {
      assert ds + es == ds;
    } else {
      assert (ds + es)[..|ds + es| - 1] == ds + es[..|es| - 1];
      ReconciledConcat(b, ds, es[..|es| - 1]);
    }
  }

  /** A response may be moved to the end of any run of responses of its window. */
  lemma {:induction false} MoveLast(b: Bucket, d: Arrival, ds: seq<Arrival>, all: seq<Arrival>)
    requires Settled(b, all) && OneWindow(b, all) && d in all && forall e :: e in ds ==> e in all
    ensures ReconciledAll(Reconciled(b, d), ds) == Reconciled(ReconciledAll(b, ds), d)
  {
    if ds != [] {
      var front, last := ds[..|ds| - 1], ds[|ds| - 1];
      MoveLast(b, d, front, all);
      AllKeepOneWindow(b, front, all);
      Commute(ReconciledAll(b, front), all, d, last);
    }
  }

  /** Where the last of `us` stands in a reordering of it. */
  lemma FindLast<T>(us: seq<T>, vs: seq<T>) returns (i: nat)
    requires us != [] && multiset(us) == multiset(vs)
    ensures i < |vs| && vs[i] == us[|us| - 1]
    ensures multiset(us[..|us| - 1]) == multiset(vs[..i] + vs[i + 1..])
  {
    var front, last := us[..|us| - 1], us[|us| - 1];
    assert us == front + [last];
    assert last in multiset(vs);
    i :| 0 <= i < |vs| && vs[i] == last;
    assert vs == vs[..i] + [last] + vs[i + 1..];
    var rest := vs[..i] + vs[i + 1..];
    assert multiset(vs) == multiset(rest) + multiset{last};
    assert multiset(us) == multiset(front) + multiset{last};
    assert multiset(us) - multiset{last} == multiset(vs) - multiset{last};
    assert multiset(front) == multiset(us) - multiset{last};
    assert multiset(rest) == multiset(vs) - multiset{last};
  }

  /** The same responses, at the same times, leave the same bucket in whatever order they are reconciled. */
  lemma {:induction false} AnyOrder(b: Bucket, ds: seq<Arrival>, es: seq<Arrival>)
    requires Settled(b, ds) && OneWindow(b, ds) && multiset(ds) == multiset(es)
    ensures ReconciledAll(b, ds) == ReconciledAll(b, es)
    decreases |ds|
  {
    assert |ds| == |multiset(ds)| == |multiset(es)| == |es|;
    if ds != [] {
      var front, last := ds[..|ds| - 1], ds[|ds| - 1];
      var i := FindLast(ds, es);
      var before, after := es[..i], es[i + 1..];
      AnyOrder(b, front, before + after);
      forall e | e in es ensures e in ds {
        assert e in multiset(ds);
      }
      TakenLast(b, before, last, after, ds);
      assert es == before + [last] + after;
    }
  }

  lemma TakenLast(b: Bucket, before: seq<Arrival>, d: Arrival, after: seq<Arrival>, all: seq<Arrival>)
    requires Settled(b, all) && OneWindow(b, all) && d in all && forall e :: e in before || e in after ==> e in all
    ensures ReconciledAll(b, before + [d] + after) == Reconciled(ReconciledAll(b, before + after), d)
  {
    hide Reconciled;
    AllKeepOneWindow(b, before, all);
    MoveLast(ReconciledAll(b, before), d, after, all);
    ReconciledConcat(b, before + [d], after);
    ReconciledConcat(b, before, after);
    assert (before + [d])[..|before|] == before;
  }

  lemma {:induction false} AbsorbOne(b: Bucket, ds: seq<Arrival>, d: Arrival)
    requires Settled(b, ds) && OneWindow(b, ds) && d in ds
    ensures Reconciled(ReconciledAll(b, ds), d) == ReconciledAll(b, ds)
  {
    hide Reconciled, ReconciledAll;
    var i :| 0 <= i < |ds| && ds[i] == d;
    var rest := ds[..i] + ds[i + 1..];
    assert ds == ds[..i] + [d] + ds[i + 1..];
    TakenLast(b, ds[..i], d, ds[i + 1..], ds);
    AllKeepOneWindow(b, rest, ds);
    Absorb(ReconciledAll(b, rest), ds, d);
  }

  lemma {:induction false} AbsorbAll(b: Bucket, ds: seq<Arrival>, es: seq<Arrival>)
    requires Settled(b, ds) && OneWindow(b, ds) && forall e :: e in es ==> e in ds
    ensures ReconciledAll(b, ds + es) == ReconciledAll(b, ds)
  {
    hide Reconciled;
    if es == [] {
      assert ds + es == ds;
    } else {
      var front, e := es[..|es| - 1], es[|es| - 1];
      AbsorbAll(b, ds, front);
      assert (ds + es)[..|ds + es| - 1] == ds + front;
      AbsorbOne(b, ds, e);
    }
  }

  /** Reconciled at least once each, in whatever order, the same responses leave the same bucket. */
  lemma {:induction false} AnyDelivery(b: Bucket, ds: seq<Arrival>, es: seq<Arrival>)
    requires Settled(b, ds) && OneWindow(b, ds) && forall d :: d in ds <==> d in es
    ensures ReconciledAll(b, ds) == ReconciledAll(b, es)
  {
    AbsorbAll(b, ds, es);
    AbsorbAll(b, es, ds);
    assert multiset(ds + es) == multiset(es + ds);
    AnyOrder(b, ds + es, es + ds);
  }

  // ---------- responses at any time ----------

  /** The same responses, all reconciled at one moment. */
  function AllAt(ds: seq<Arrival>, at: real): seq<Arrival> {
    seq(|ds|, i requires 0 <= i < |ds| => Arrival(ds[i].u, at))
  }

  predicate Said(u: Update, ds: seq<Arrival>) {
    exists d :: d in ds && d.u == u
  }

  lemma SettledFront(b: Bucket, ds: seq<Arrival>)
    requires Settled(b, ds) && OneWindow(b, ds) && ds != []
    ensures Settled(b, ds[..|ds| - 1]) && OneWindow(b, ds[..|ds| - 1])
  {
  }

  /** When a response is reconciled shows in the reset alone. */
  lemma {:induction false} TimeShowsInReset(b: Bucket, ds: seq<Arrival>, at: real)
    requires Settled(b, ds) && OneWindow(b, ds) && at < b.resetAt
    ensures var c, c' := ReconciledAll(b, ds), ReconciledAll(b, AllAt(ds, at));
      c.remaining == c'.remaining && c.limit == c'.limit && c.window == c'.window
  {
    if ds != [] {
      hide Reconciled, UnitsBound, Limited, WindowBound, ResetBound;
      var front, last := ds[..|ds| - 1], ds[|ds| - 1];
      var now := AllAt(ds, at);
      assert now[..|ds| - 1] == AllAt(front, at) && now[|ds| - 1] == Arrival(last.u, at);
      SettledFront(b, ds);
      hide OneWindow, Settled, AllAt;
      TimeShowsInReset(b, front, at);
      AllKeepOneWindow(b, front, ds);
      ByField(ReconciledAll(b, front), ds, last);
      AllKeepOneWindow(b, AllAt(front, at), now);
      ByField(ReconciledAll(b, AllAt(front, at)), now, Arrival(last.u, at));
    }
  }

  /**
   Late, early or duplicated: however often and whenever the responses of a window
   arrive before it resets, units, limit and window come out the same.
   */
  lemma AnyTimes(b: Bucket, ds: seq<Arrival>, es: seq<Arrival>)
    requires Settled(b, ds) && OneWindow(b, ds) && Settled(b, es) && OneWindow(b, es)
    requires forall u :: Said(u, ds) <==> Said(u, es)
    ensures var c, c' := ReconciledAll(b, ds), ReconciledAll(b, es);
      c.remaining == c'.remaining && c.limit == c'.limit && c.window == c'.window
  {
    hide ReconciledAll;
    var at := b.resetAt - 1.0;
    TimeShowsInReset(b, ds, at);
    TimeShowsInReset(b, es, at);
    SameAt(ds, es, at);
    SameAt(es, ds, at);
    AnyDelivery(b, AllAt(ds, at), AllAt(es, at));
  }

  lemma SameAt(ds: seq<Arrival>, es: seq<Arrival>, at: real)
    requires forall u :: Said(u, ds) <==> Said(u, es)
    ensures forall d :: d in AllAt(ds, at) ==> d in AllAt(es, at)
  {
    forall d | d in AllAt(ds, at) ensures d in AllAt(es, at) {
      var i :| 0 <= i < |ds| && AllAt(ds, at)[i] == d;
      assert ds[i] in ds && Said(d.u, ds);
      var e :| e in es && e.u == d.u;
      var j :| 0 <= j < |es| && es[j] == e;
      assert AllAt(es, at)[j] == d;
    }
  }

  /** The reset is the latest any of the responses asks for. */
  lemma {:induction false} LatestReset(b: Bucket, ds: seq<Arrival>)
    requires Settled(b, ds) && OneWindow(b, ds)
    ensures forall d :: d in ds ==> ReconciledAll(b, ds).resetAt >= ResetBound(b.resetAt, d.u, d.at)
    ensures ReconciledAll(b, ds).resetAt == b.resetAt
      || exists d :: d in ds && ReconciledAll(b, ds).resetAt == ResetBound(b.resetAt, d.u, d.at)
  {
    if ds != [] {
      hide Reconciled;
      var front, last := ds[..|ds| - 1], ds[|ds| - 1];
      LatestReset(b, front);
      AllKeepOneWindow(b, front, ds);
      ByField(ReconciledAll(b, front), ds, last);
      assert ds == front + [last];
    }
  }
}
