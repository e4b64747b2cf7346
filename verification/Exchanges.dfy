/** What a kept protocol looks like from the store: one exchange after another. */
module Exchanges {
  import opened Acquiring
  import opened Requests

  /** What one unit goes through, from its grant on. */
  datatype Exchange =
    | GivenBack(key: Key)
    | Kept(key: Key, sent: bool)
    | Dropped(key: Key, sent: bool)
    | Filed(key: Key)
    /** The response belongs to another key: the placeholder is cleared, or left behind. */
    | FiledAt(key: Key, at: Key, cleared: bool)

  function Acts(x: Exchange): seq<Act> {
    match x
    case GivenBack(key) => [Took(key), Refunded(key)]
    case Kept(key, sent) => Opening(key, sent) + [Spent(key)]
    case Dropped(key, sent) => Opening(key, sent) + [Abandoned(key)]
    case Filed(key) => [Took(key), Sent, Recorded(key)]
    case FiledAt(key, at, cleared) => [Took(key), Sent, Recorded(at), if cleared then Spent(key) else Abandoned(key)]
  }

  function Opening(key: Key, sent: bool): seq<Act> {
    if sent then [Took(key), Sent] else [Took(key)]
  }

  predicate Proper(x: Exchange) {
    x.FiledAt? ==> x.at != x.key
  }

  function All(xs: seq<Exchange>): seq<Act> {
    if xs == [] then [] else All(xs[..|xs| - 1]) + Acts(xs[|xs| - 1])
  }

  /** What a request has done with the unit it holds. */
  predicate Underway(h: Hand, open: seq<Act>) {
    match h
    case Free => open == []
    case Holding(key, sent) => open == Opening(key, sent)
    case Moved(key) => |open| == 3 && open[..2] == Opening(key, true) && open[2].Recorded? && open[2].key != key
    case Violated => false
  }

  lemma {:induction false} PlayOn(trace: seq<Act>, more: seq<Act>)
    requires PlayAll(trace) == Free
    ensures PlayAll(trace + more) == PlayAll(more)
  {
    if more == [] {
      assert trace + more == trace;
    } else {
      assert (trace + more)[..|trace + more| - 1] == trace + more[..|more| - 1];
      PlayOn(trace, more[..|more| - 1]);
    }
  }

  lemma ExchangeKeeps(x: Exchange)
    requires Proper(x)
    ensures PlayAll(Acts(x)) == Free
  {
    var a := Acts(x);
    UpTo(a, 0);
    UpTo(a, 1);
    if |a| > 2 { UpTo(a, 2); }
    if |a| > 3 { UpTo(a, 3); }
    assert a[..|a|] == a;
  }

  lemma UpTo(a: seq<Act>, k: nat)
    requires k < |a|
    ensures PlayAll(a[..k + 1]) == Play(PlayAll(a[..k]), a[k])
  {
    assert a[..k + 1][..k] == a[..k];
  }

  lemma {:induction false} ExchangesKeep(xs: seq<Exchange>)
    requires forall x :: x in xs ==> Proper(x)
    ensures PlayAll(All(xs)) == Free
  {
    if xs != [] {
      var x := xs[|xs| - 1];
      ExchangesKeep(xs[..|xs| - 1]);
      ExchangeKeeps(x);
      PlayOn(All(xs[..|xs| - 1]), Acts(x));
    }
  }

  lemma Closes(h: Hand, open: seq<Act>, a: Act) returns (x: Exchange)
    requires Underway(h, open) && h != Free && Play(h, a) == Free
    ensures Proper(x) && Acts(x) == open + [a]
  {
    match h
    case Holding(key, sent) =>
      x := match a
        case Refunded(_) => GivenBack(key)
        case Spent(_) => Kept(key, sent)
        case Abandoned(_) => Dropped(key, sent)
        case _ => Filed(key);
    case Moved(key) =>
      x := FiledAt(key, open[2].key, a.Spent?);
      assert open == open[..2] + [open[2]];
  }

  lemma GoesOnOpen(h: Hand, open: seq<Act>, a: Act)
    requires Underway(h, open) && Play(h, a) != Free && Play(h, a) != Violated
    ensures Underway(Play(h, a), open + [a])
  {
  }

  /** One act more ends the exchange under way, or goes on with it. */
  lemma ReadMore(done: seq<Exchange>, h: Hand, open: seq<Act>, a: Act) returns (xs: seq<Exchange>, more: seq<Act>)
    requires (forall x :: x in done ==> Proper(x)) && Underway(h, open) && Play(h, a) != Violated
    ensures (forall x :: x in xs ==> Proper(x)) && All(done) + open + [a] == All(xs) + more && Underway(Play(h, a), more)
  {
    hide Play, Underway, Acts, Proper;
    if Play(h, a) == Free {
      NeverIdle(h, a);
      var x := Closes(h, open, a);
      assert All(done) + open + [a] == All(done) + (open + [a]);
      xs, more := done + [x], [];
      FreeIsIdle();
    } else {
      GoesOnOpen(h, open, a);
      xs, more := done, open + [a];
    }
  }

  lemma {:induction false} Read(trace: seq<Act>) returns (xs: seq<Exchange>, open: seq<Act>)
    requires PlayAll(trace) != Violated
    ensures (forall x :: x in xs ==> Proper(x)) && trace == All(xs) + open && Underway(PlayAll(trace), open)
    decreases |trace|
  {
    hide Play, Underway, Acts, Proper;
    if trace == [] {
      FreeIsIdle();
      return [], [];
    }
    var front, a := trace[..|trace| - 1], trace[|trace| - 1];
    ViolatedStays(a);
    xs, open := Read(front);
    assert trace == front + [a];
    xs, open := ReadMore(xs, PlayAll(front), open, a);
  }

  lemma ViolatedStays(a: Act)
    ensures Play(Violated, a) == Violated
  {
  }

  lemma FreeIsIdle()
    ensures Underway(Free, [])
  {
  }

  lemma NeverIdle(h: Hand, a: Act)
    ensures Play(h, a) == Free ==> h != Free
  {
  }

  /** A request keeps the protocol and ends empty-handed exactly when it made such exchanges, one after another. */
  lemma KeptExactly(trace: seq<Act>)
    ensures PlayAll(trace) == Free <==> exists xs: seq<Exchange> :: (forall x :: x in xs ==> Proper(x)) && All(xs) == trace
  {
    if PlayAll(trace) == Free {
      var xs, open := Read(trace);
      assert All(xs) + [] == All(xs);
    }
    if xs: seq<Exchange> :| (forall x :: x in xs ==> Proper(x)) && All(xs) == trace {
      ExchangesKeep(xs);
    }
  }
}
