/**
 One request of the REST client: the loop around acquiring a unit that sends,
 retries and settles every grant. What the store and the network answer is
 given, whatever it is.
 */
module Requests {
  import opened Wrappers
  import opened Acquiring

  /** What became of one attempt, once a unit was granted. */
  datatype Sending =
    /**
     `at` is the bucket the response belongs to. `recorded`, `cleared` and `noted`
     say whether the store took the response, the end of a placeholder left under
     another key, and a global reset.
     */
    | Response(ok: bool, at: Key, recorded: bool, cleared: bool, noted: bool, tooLong: bool)
    /** Aborted before it left. */
    | NotSent
    /** Its headers or body could not be encoded. */
    | NotEncoded
    /** Aborted on its way, or failed in a way that is not retried. */
    | Failed
    | NetworkError(timedOut: bool)

  /**
   `cancelled`: while waiting for its unit. `released`: whether the store takes a
   unit back when asked to. `retry`: what the policy says. `paused`: the pause ran
   its course.
   */
  datatype Attempt =
    Attempt(rounds: nat -> Round, cancelled: bool, sending: Sending, released: bool, retry: bool, paused: bool)

  datatype Outcome = Answered(ok: bool) | Aborted | NotAcquired | NoResponse | StoreError | Exhausted

  // ---------- the protocol of a grant ----------

  /** What one request does to the store, and when it leaves. */
  datatype Act =
    | Took(key: Key)
    | Sent
    | Refunded(key: Key)
    /** The unit stays spent; a probe's placeholder is cleared. */
    | Spent(key: Key)
    | Recorded(key: Key)
    /** The request is done with the unit, but the store was not told. */
    | Abandoned(key: Key)

  /** What a request holds: nothing, a unit of `key`, or the placeholder it left there. */
  datatype Hand = Free | Holding(key: Key, sent: bool) | Moved(key: Key) | Violated

  /** A refund comes only unsent, a record only once sent, and nothing is taken before that. */
  function Play(h: Hand, a: Act): Hand {
    match (h, a)
    case (Free, Took(k)) => Holding(k, false)
    case (Holding(k, false), Sent) => Holding(k, true)
    case (Holding(k, false), Refunded(j)) => if j == k then Free else Violated
    case (Holding(k, _), Spent(j)) => if j == k then Free else Violated
    case (Holding(k, _), Abandoned(j)) => if j == k then Free else Violated
    case (Holding(k, true), Recorded(j)) => if j == k then Free else Moved(k)
    case (Moved(k), Spent(j)) => if j == k then Free else Violated
    case (Moved(k), Abandoned(j)) => if j == k then Free else Violated
    case _ => Violated
  }

  function PlayAll(trace: seq<Act>): Hand {
    if trace == [] then Free else Play(PlayAll(trace[..|trace| - 1]), trace[|trace| - 1])
  }

  function Units(trace: seq<Act>): int {
    if trace == [] then 0 else Units(trace[..|trace| - 1]) + if trace[|trace| - 1].Took? then 1 else 0
  }

  function Sends(trace: seq<Act>): int {
    if trace == [] then 0 else Sends(trace[..|trace| - 1]) + if trace[|trace| - 1].Sent? then 1 else 0
  }

  /** Refunds, spent units, and responses recorded where the unit was taken. */
  function Settlements(trace: seq<Act>): int {
    if trace == [] then 0
    else
      var a, h := trace[|trace| - 1], PlayAll(trace[..|trace| - 1]);
      Settlements(trace[..|trace| - 1]) + if a.Refunded? || a.Spent? || (a.Recorded? && Play(h, a) == Free) then 1 else 0
  }

  function Refunds(trace: seq<Act>): int {
    if trace == [] then 0 else Refunds(trace[..|trace| - 1]) + if trace[|trace| - 1].Refunded? then 1 else 0
  }

  function Losses(trace: seq<Act>): int {
    if trace == [] then 0 else Losses(trace[..|trace| - 1]) + if trace[|trace| - 1].Abandoned? then 1 else 0
  }

  /** A protocol kept means every unit taken is settled once or abandoned, and none that was sent is refunded. */
  lemma {:induction false} SettledOnce(trace: seq<Act>)
    requires PlayAll(trace) != Violated
    ensures Units(trace) == Settlements(trace) + Losses(trace) + if PlayAll(trace) == Free then 0 else 1
    ensures Sends(trace) + Refunds(trace) <= Units(trace)
    ensures PlayAll(trace).Holding? && !PlayAll(trace).sent ==> Sends(trace) + Refunds(trace) < Units(trace)
  {
    if trace != [] { SettledOnce(trace[..|trace| - 1]); }
  }

  lemma Append(trace: seq<Act>, a: Act)
    ensures PlayAll(trace + [a]) == Play(PlayAll(trace), a)
    ensures Counts(trace + [a]) == Plus(Counts(trace), a)
  {
    assert (trace + [a])[..|trace|] == trace;
  }

  /** How often a request left, had a unit back, and lost one. */
  datatype Tally = Tally(units: int, sends: int, refunds: int, losses: int)

  function Counts(trace: seq<Act>): Tally {
    Tally(Units(trace), Sends(trace), Refunds(trace), Losses(trace))
  }

  function Plus(t: Tally, a: Act): Tally {
    match a
    case Took(_) => t.(units := t.units + 1)
    case Sent => t.(sends := t.sends + 1)
    case Refunded(_) => t.(refunds := t.refunds + 1)
    case Abandoned(_) => t.(losses := t.losses + 1)
    case _ => t
  }

  // ---------- what an attempt comes to ----------

  /** The request went out. */
  predicate Leaves(e: Attempt) {
    !e.cancelled && !e.sending.NotSent? && !e.sending.NotEncoded?
  }

  /** Cancelled before it was sent, while it held a unit. */
  predicate CutShort(e: Attempt) {
    e.cancelled || e.sending.NotSent?
  }

  /** An attempt that holds a unit of `key` cannot tell the store what became of it. */
  predicate Strands(e: Attempt, key: Key) {
    if !e.cancelled && e.sending.Response? then !e.sending.recorded || (e.sending.at != key && !e.sending.cleared)
    else !e.released
  }

  /** The store fails it after its unit is settled, or instead of that. */
  predicate StoreFails(e: Attempt, key: Key) {
    !e.cancelled && e.sending.Response? && (Strands(e, key) || !e.sending.noted)
  }

  /** How an attempt that may be made again went: it was answered, or the network failed in time. */
  predicate Retried(e: Attempt) {
    && !e.cancelled
    && match e.sending
       case Response(ok, _, _, _, _, tooLong) => !ok && !tooLong
       case NetworkError(timedOut) => !timedOut
       case NotEncoded => true
       case _ => false
  }

  /** Another attempt is due after one that held a unit of `key`, if the pause is not cut short. */
  predicate GoesOn(e: Attempt, key: Key, mayRetry: bool) {
    mayRetry && e.retry && Retried(e) && !StoreFails(e, key)
  }

  /** What an attempt asking for `key` is granted. */
  ghost function Grant(e: Attempt, key: Key, maxBackoff: nat): Acquired
    requires TimePasses(e.rounds)
  {
    Result(e.rounds, key, maxBackoff)
  }

  /** A unit that an attempt asking for `key` takes is never settled. */
  ghost predicate Leaks(e: Attempt, key: Key, maxBackoff: nat)
    requires TimePasses(e.rounds)
  {
    var g := Grant(e, key, maxBackoff);
    g.Lost? || (g.Got? && Strands(e, g.key))
  }

  /** The key the next attempt asks for. */
  ghost function KeyAfter(e: Attempt, key: Key, maxBackoff: nat): Key
    requires TimePasses(e.rounds)
  {
    var g := Grant(e, key, maxBackoff);
    if !g.Got? then key
    else if !e.cancelled && e.sending.Response? && !StoreFails(e, g.key) then e.sending.at
    else g.key
  }

  ghost predicate Plausible(env: nat -> Attempt) {
    forall i :: TimePasses(env(i).rounds)
  }

  /** The key attempt `n` asks for. */
  ghost function Asks(env: nat -> Attempt, key: Key, n: nat, maxBackoff: nat): Key
    requires Plausible(env)
  {
    if n == 0 then key else KeyAfter(env(n - 1), Asks(env, key, n - 1, maxBackoff), maxBackoff)
  }

  ghost predicate LeaksAt(env: nat -> Attempt, key: Key, n: nat, maxBackoff: nat)
    requires Plausible(env)
  {
    Leaks(env(n), Asks(env, key, n, maxBackoff), maxBackoff)
  }

  /** How many of the first `n` attempts lose a unit. */
  ghost function Leaked(env: nat -> Attempt, key: Key, n: nat, maxBackoff: nat): nat
    requires Plausible(env)
  {
    if n == 0 then 0 else Leaked(env, key, n - 1, maxBackoff) + if LeaksAt(env, key, n - 1, maxBackoff) then 1 else 0
  }

  /** How many of the first `n` attempts take a unit. */
  ghost function Taken(env: nat -> Attempt, key: Key, n: nat, maxBackoff: nat): nat
    requires Plausible(env)
  {
    if n == 0 then 0
    else
      var g := Grant(env(n - 1), Asks(env, key, n - 1, maxBackoff), maxBackoff);
      Taken(env, key, n - 1, maxBackoff) + if g.Got? || g.Lost? then 1 else 0
  }

  /** How many of them go out: granted, not cancelled, and answered or failed on the way. */
  ghost function Departed(env: nat -> Attempt, key: Key, n: nat, maxBackoff: nat): nat
    requires Plausible(env)
  {
    if n == 0 then 0
    else
      var e := env(n - 1);
      var g := Grant(e, Asks(env, key, n - 1, maxBackoff), maxBackoff);
      Departed(env, key, n - 1, maxBackoff) +
      if g.Got? && !e.cancelled && (e.sending.Response? || e.sending.NetworkError? || e.sending.Failed?) then 1 else 0
  }

  lemma {:induction false} FewDepart(env: nat -> Attempt, key: Key, n: nat, maxBackoff: nat)
    requires Plausible(env)
    ensures Departed(env, key, n, maxBackoff) <= Taken(env, key, n, maxBackoff) <= n
  {
    if n > 0 { FewDepart(env, key, n - 1, maxBackoff); }
  }

  /** What a request has come to when its first `n` attempts went on to another: none is refunded. */
  ghost function Tallies(env: nat -> Attempt, key: Key, n: nat, maxBackoff: nat): Tally
    requires Plausible(env)
  {
    Tally(Taken(env, key, n, maxBackoff), Departed(env, key, n, maxBackoff), 0, Leaked(env, key, n, maxBackoff))
  }

  lemma TalliesFirst(env: nat -> Attempt, key: Key, maxBackoff: nat)
    requires Plausible(env)
    ensures Tallies(env, key, 0, maxBackoff) == Tally(0, 0, 0, 0)
  {
  }

  lemma TalliesNext(env: nat -> Attempt, key: Key, n: nat, maxBackoff: nat)
    requires Plausible(env)
    ensures var e, g := env(n), Grant(env(n), Asks(env, key, n, maxBackoff), maxBackoff);
      && Tallies(env, key, n + 1, maxBackoff).units ==
         Tallies(env, key, n, maxBackoff).units + (if g.Got? || g.Lost? then 1 else 0)
      && Tallies(env, key, n + 1, maxBackoff).sends == Tallies(env, key, n, maxBackoff).sends + (if g.Got? && Leaves(e) then 1 else 0)
      && Tallies(env, key, n + 1, maxBackoff).losses ==
         Tallies(env, key, n, maxBackoff).losses + (if Leaks(e, Asks(env, key, n, maxBackoff), maxBackoff) then 1 else 0)
      && Tallies(env, key, n + 1, maxBackoff).refunds == 0
  {
    hide Grant, Asks, Leaks;
  }

  lemma {:induction false} NoneLeaked(env: nat -> Attempt, key: Key, n: nat, maxBackoff: nat)
    requires Plausible(env)
    ensures Leaked(env, key, n, maxBackoff) == 0 <==> forall i :: 0 <= i < n ==> !LeaksAt(env, key, i, maxBackoff)
  {
    hide Leaks, LeaksAt, Asks, TimePasses;
    if n > 0 { NoneLeaked(env, key, n - 1, maxBackoff); }
  }

  // ---------- the request ----------

  class Request {
    var trace: seq<Act>
    var bucketKey: Key

    ghost function Hands(): Hand
      reads `trace
    {
      PlayAll(trace)
    }

    ghost function Tallied(): Tally
      reads `trace
    {
      Counts(trace)
    }

    constructor (key: Key)
      ensures trace == [] && bucketKey == key
    {
      trace, bucketKey := [], key;
    }

    method Do(a: Act)
      modifies `trace
      ensures trace == old(trace) + [a] && Hands() == Play(old(Hands()), a)
      ensures Tallied() == Plus(old(Tallied()), a)
    {
      Append(trace, a);
      trace := trace + [a];
    }

    /** Records a response under the key it belongs to, and clears the placeholder left under another. */
    method ApplyResponse(at: Key, recorded: bool, cleared: bool, noted: bool) returns (done: bool)
      requires Hands() == Holding(bucketKey, true)
      modifies this
      ensures Hands() == Free && old(trace) <= trace
      ensures var strands := !recorded || (at != old(bucketKey) && !cleared);
        && Tallied() == old(Tallied()).(losses := old(Tallied()).losses + if strands then 1 else 0)
        && (done <==> !strands && noted)
      ensures bucketKey == if done then at else old(bucketKey)
    {
      hide Hands, Tallied;
      if !recorded {
        Do(Abandoned(bucketKey));
        return false;
      }
      Do(Recorded(at));
      if at != bucketKey {
        if !cleared {
          Do(Abandoned(bucketKey));
          return false;
        }
        Do(Spent(bucketKey));
      }
      if !noted { return false; }
      bucketKey := at;
      done := true;
    }

    /** Gives a grant back, or only its placeholder. The store may fail; the request goes on. */
    method ReleaseGrant(notSent: bool, released: bool)
      requires Hands().Holding? && Hands().key == bucketKey && (notSent ==> !Hands().sent)
      modifies `trace
      ensures Hands() == Free && old(trace) <= trace
      ensures Tallied() == old(Tallied()).(
        refunds := old(Tallied()).refunds + (if notSent && released then 1 else 0),
        losses := old(Tallied()).losses + if released then 0 else 1)
    {
      hide Hands, Tallied;
      Do(if !released then Abandoned(bucketKey) else if notSent then Refunded(bucketKey) else Spent(bucketKey));
    }

    /** What becomes of a unit taken. */
    method Attend(e: Attempt, mayRetry: bool) returns (outcome: Option<Outcome>)
      requires Hands() == Holding(bucketKey, false)
      modifies this
      ensures Hands() == Free && old(trace) <= trace
      ensures Tallied() == old(Tallied()).(
        sends := old(Tallied()).sends + (if Leaves(e) then 1 else 0),
        refunds := old(Tallied()).refunds + (if CutShort(e) && e.released then 1 else 0),
        losses := old(Tallied()).losses + if Strands(e, old(bucketKey)) then 1 else 0)
      ensures bucketKey ==
        if !e.cancelled && e.sending.Response? && !StoreFails(e, old(bucketKey)) then e.sending.at else old(bucketKey)
      ensures outcome.None? <==> GoesOn(e, old(bucketKey), mayRetry) && e.paused
      ensures outcome == Some(Aborted) <==> CutShort(e) || (GoesOn(e, old(bucketKey), mayRetry) && !e.paused)
      ensures outcome == Some(StoreError) <==> StoreFails(e, old(bucketKey))
      ensures forall ok :: outcome == Some(Answered(ok)) <==>
        !e.cancelled && e.sending.Response? && !StoreFails(e, old(bucketKey)) && e.sending.ok == ok
        && !GoesOn(e, old(bucketKey), mayRetry)
      ensures outcome != Some(Exhausted) && outcome != Some(NotAcquired)
    {
      hide Hands, Tallied;
      if e.cancelled || e.sending.NotSent? {
        ReleaseGrant(true, e.released);
        return Some(Aborted);
      }
      if e.sending.Response? {
        Do(Sent);
        var done := ApplyResponse(e.sending.at, e.sending.recorded, e.sending.cleared, e.sending.noted);
        if !done { return Some(StoreError); }
        if e.sending.ok { return Some(Answered(true)); }
        if !mayRetry || !e.retry || e.sending.tooLong { return Some(Answered(false)); }
      } else {
        if !e.sending.NotEncoded? { Do(Sent); }
        ReleaseGrant(false, e.released);
        if !Retried(e) || !mayRetry || !e.retry { return Some(NoResponse); }
      }
      outcome := if e.paused then None else Some(Aborted);
    }

    /** One attempt; no outcome means another is due. */
    method Try(e: Attempt, mayRetry: bool, maxBackoff: nat) returns (outcome: Option<Outcome>)
      requires Hands() == Free && TimePasses(e.rounds)
      modifies this
      ensures Hands() == Free && old(trace) <= trace && bucketKey == KeyAfter(e, old(bucketKey), maxBackoff)
      ensures var g := Grant(e, old(bucketKey), maxBackoff);
        && Tallied() == Tally(
          old(Tallied()).units + (if g.Got? || g.Lost? then 1 else 0),
          old(Tallied()).sends + (if g.Got? && Leaves(e) then 1 else 0),
          old(Tallied()).refunds + (if g.Got? && CutShort(e) && e.released then 1 else 0),
          old(Tallied()).losses + (if Leaks(e, old(bucketKey), maxBackoff) then 1 else 0))
        && (outcome.None? <==> g.Got? && GoesOn(e, g.key, mayRetry) && e.paused)
        && (outcome == Some(Aborted) <==> g.Got? && (CutShort(e) || (GoesOn(e, g.key, mayRetry) && !e.paused)))
        && (outcome == Some(StoreError) <==> g.Lost? || (g.Got? && StoreFails(e, g.key)))
        && (outcome == Some(NotAcquired) <==> !g.Got? && !g.Lost?)
        && forall ok :: outcome == Some(Answered(ok)) <==>
             g.Got? && !e.cancelled && e.sending.Response? && !StoreFails(e, g.key) && e.sending.ok == ok
             && !GoesOn(e, g.key, mayRetry)
      ensures outcome != Some(Exhausted)
    {
      hide Hands, Tallied, Ending, WaitedOut, TimePasses, LastRound, Strands, StoreFails, GoesOn, Leaves, CutShort;
      hide Slept, InARow, Elapsed, KeyAt;
      var a, last := Acquire(e.rounds, bucketKey, maxBackoff);
      if a.Got? {
        bucketKey := a.key;
        Do(Took(bucketKey));
        outcome := Attend(e, mayRetry);
      } else if a.Lost? {
        Do(Took(a.key));
        Do(Abandoned(a.key));
        outcome := Some(StoreError);
      } else {
        outcome := Some(NotAcquired);
      }
    }

    /**
     The retry loop. Every unit a request takes is settled once, if and only if
     none of its attempts leaks: however its attempts go, nothing is held when the
     next is made or when the request is over.
     */
    method Attempts(env: nat -> Attempt, maxRetries: int, maxBackoff: nat) returns (outcome: Outcome, last: nat)
      requires trace == [] && Plausible(env)
      modifies this
      ensures Hands() == Free && (last <= maxRetries || maxRetries < 0 == last)
      ensures forall i :: 0 <= i < last ==> WentOn(env, old(bucketKey), i, maxBackoff)
      ensures outcome == Exhausted <==> maxRetries < 0
      ensures maxRetries >= 0 ==>
        var e, g := env(last), Grant(env(last), Asks(env, old(bucketKey), last, maxBackoff), maxBackoff);
        && (outcome == StoreError <==> g.Lost? || (g.Got? && StoreFails(e, g.key)))
        && (outcome == NotAcquired <==> !g.Got? && !g.Lost?)
        && (outcome == Aborted ==> g.Got? && (CutShort(e) || !e.paused))
        && (outcome.Answered? ==> g.Got? && e.sending.Response? && !StoreFails(e, g.key) && outcome.ok == e.sending.ok)
      ensures var n := if maxRetries < 0 then 0 else last + 1;
        && Units(trace) == Taken(env, old(bucketKey), n, maxBackoff)
        && Sends(trace) == Departed(env, old(bucketKey), n, maxBackoff) <= n && Losses(trace) == Leaked(env, old(bucketKey), n, maxBackoff)
        && (Units(trace) == Settlements(trace) <==> forall i :: 0 <= i < n ==> !LeaksAt(env, old(bucketKey), i, maxBackoff))
      ensures Units(trace) == Settlements(trace) + Losses(trace)
      // Only the last attempt is ever refunded, and only when it was cut short unsent.
      ensures Refunds(trace) ==
        if outcome == Aborted && (env(last).cancelled || env(last).sending.NotSent?) && env(last).released then 1 else 0
      ensures maxRetries >= 0 ==>
        EndsAs(env(last), Grant(env(last), Asks(env, old(bucketKey), last, maxBackoff), maxBackoff), last < maxRetries, outcome)
      // Whatever is tried again failed in passing, and what did is tried again while there are attempts left.
      ensures forall i :: 0 <= i < last ==>
        FailedInPassing(env(i), Grant(env(i), Asks(env, old(bucketKey), i, maxBackoff), maxBackoff))
      ensures last < maxRetries ==>
        !FailedInPassing(env(last), Grant(env(last), Asks(env, old(bucketKey), last, maxBackoff), maxBackoff))
    {
      hide Hands, Units, Sends, Refunds, Losses, Settlements, Leaks, KeyAfter, GoesOn, StoreFails, CutShort, Leaves, Grant, FailedInPassing, WentOn, EndsAs;
      hide Play, PlayAll, TimePasses, Asks, Taken, Departed, Leaked;
      ghost var key := bucketKey;
      last := 0;
      NothingYet();
      AsksFirst(env, key, maxBackoff);
      TalliesFirst(env, key, maxBackoff);
      while last <= maxRetries
        invariant last > 0 ==> last <= maxRetries
        invariant Hands() == Free && bucketKey == Asks(env, key, last, maxBackoff)
        invariant Tallied() == Tallies(env, key, last, maxBackoff)
        invariant forall i :: 0 <= i < last ==> WentOn(env, key, i, maxBackoff)
      {
        NotCutShort(env, key, last, last < maxRetries, maxBackoff);
        AsksNext(env, key, last, maxBackoff);
        TalliesNext(env, key, last, maxBackoff);
        var ended := Try(env(last), last < maxRetries, maxBackoff);
        if ended.Some? {
          NoneLeaked(env, key, last + 1, maxBackoff);
          FewDepart(env, key, last + 1, maxBackoff);
          Settled();
          SpelledOut(env, key, last, maxBackoff);
          EndSpelledOut(env(last), Grant(env(last), Asks(env, key, last, maxBackoff), maxBackoff), last < maxRetries, ended.value);
          return ended.value, last;
        }
        last := last + 1;
      }
      Settled();
      outcome := Exhausted;
    }

    lemma NothingYet()
      requires trace == []
      ensures Hands() == Free && Tallied() == Tally(0, 0, 0, 0)
    {
    }

    lemma Settled()
      requires Hands() == Free
      ensures Units(trace) == Settlements(trace) + Losses(trace)
    {
      SettledOnce(trace);
    }
  }

  /** Attempt `i` was granted a unit, and another attempt came after it. */
  ghost predicate WentOn(env: nat -> Attempt, key: Key, i: nat, maxBackoff: nat)
    requires Plausible(env)
  {
    var g := Grant(env(i), Asks(env, key, i, maxBackoff), maxBackoff);
    g.Got? && GoesOn(env(i), g.key, true) && env(i).paused
  }

  /**
   An attempt that was granted a unit, not cancelled, and failed in a way that may
   pass: a response that is not ok, asks for no long wait and is wholly recorded, a
   network error in time, or a body that could not be encoded.
   */
  predicate FailedInPassing(e: Attempt, g: Acquired) {
    && g.Got? && !e.cancelled && e.retry && e.paused
    && match e.sending
       case Response(ok, at, recorded, cleared, noted, tooLong) =>
         !ok && !tooLong && recorded && noted && (at == g.key || cleared)
       case NetworkError(timedOut) => !timedOut
       case NotEncoded => true
       case NotSent => false
       case Failed => false
  }

  /** How a request ends with its last attempt, case by case; `left` says whether there were more. */
  predicate EndsAs(e: Attempt, g: Acquired, left: bool, outcome: Outcome) {
    match g
    case Lost(_) => outcome == StoreError
    case Got(key, _, _) =>
      if e.cancelled || e.sending.NotSent? then outcome == Aborted
      else
        var again := if left && e.retry && !e.paused then Aborted else NoResponse;
        (match e.sending
         case Response(ok, at, recorded, cleared, noted, tooLong) =>
           outcome == (
             if !recorded || !noted || (at != key && !cleared) then StoreError
             else if ok then Answered(true)
             else if tooLong || again == NoResponse then Answered(false)
             else Aborted)
         case NetworkError(timedOut) => outcome == if timedOut then NoResponse else again
         case NotEncoded => outcome == again
         case _ => outcome == NoResponse)
    case _ => outcome == NotAcquired
  }

  lemma EndSpelledOut(e: Attempt, g: Acquired, left: bool, outcome: Outcome)
    requires outcome != Exhausted && !(g.Got? && GoesOn(e, g.key, left) && e.paused)
    requires outcome == Aborted <==> g.Got? && (CutShort(e) || (GoesOn(e, g.key, left) && !e.paused))
    requires outcome == StoreError <==> g.Lost? || (g.Got? && StoreFails(e, g.key))
    requires outcome == NotAcquired <==> !g.Got? && !g.Lost?
    requires forall ok :: outcome == Answered(ok) <==>
      g.Got? && !e.cancelled && e.sending.Response? && !StoreFails(e, g.key) && e.sending.ok == ok && !GoesOn(e, g.key, left)
    ensures EndsAs(e, g, left, outcome)
  {
    var answered := Answered(e.sending.Response? && e.sending.ok);
    assert outcome == answered ==> g.Got?;
  }

  /** When a unit that was taken is never settled: the store does not say, record, clear or take back what it is asked to. */
  lemma LeaksMeans(e: Attempt, key: Key, maxBackoff: nat)
    requires TimePasses(e.rounds)
    ensures var g := Grant(e, key, maxBackoff);
      Leaks(e, key, maxBackoff) <==>
      g.Lost? || (g.Got? &&
        match e.sending
        case Response(ok, at, recorded, cleared, noted, tooLong) =>
          if e.cancelled then !e.released else !recorded || (at != g.key && !cleared)
        case _ => !e.released)
  {
    hide Grant;
  }

  /** Another attempt asks for the key its predecessor's response belongs to, or else for the same key again. */
  lemma NextKeyMeans(env: nat -> Attempt, key: Key, n: nat, maxBackoff: nat)
    requires Plausible(env)
    ensures var e, g := env(n), Grant(env(n), Asks(env, key, n, maxBackoff), maxBackoff);
      FailedInPassing(e, g) ==>
        Asks(env, key, n + 1, maxBackoff) == if e.sending.Response? then e.sending.at else g.key
  {
    hide Grant;
  }

  lemma AsksFirst(env: nat -> Attempt, key: Key, maxBackoff: nat)
    requires Plausible(env)
    ensures Asks(env, key, 0, maxBackoff) == key
  {
  }

  lemma AsksNext(env: nat -> Attempt, key: Key, n: nat, maxBackoff: nat)
    requires Plausible(env)
    ensures Asks(env, key, n + 1, maxBackoff) == KeyAfter(env(n), Asks(env, key, n, maxBackoff), maxBackoff)
  {
  }

  lemma SpelledOut(env: nat -> Attempt, key: Key, last: nat, maxBackoff: nat)
    requires Plausible(env)
    ensures forall i :: 0 <= i <= last ==>
      (WentOn(env, key, i, maxBackoff) <==> FailedInPassing(env(i), Grant(env(i), Asks(env, key, i, maxBackoff), maxBackoff)))
  {
    hide Grant, Asks;
  }

  lemma NotCutShort(env: nat -> Attempt, key: Key, i: nat, mayRetry: bool, maxBackoff: nat)
    requires Plausible(env)
    ensures var e, g := env(i), Grant(env(i), Asks(env, key, i, maxBackoff), maxBackoff);
      && (CutShort(e) <==> e.cancelled || e.sending.NotSent?)
      && (g.Got? && GoesOn(e, g.key, mayRetry) ==> mayRetry && !CutShort(e))
      && (g.Got? && GoesOn(e, g.key, mayRetry) && e.paused ==> WentOn(env, key, i, maxBackoff))
      && (mayRetry && WentOn(env, key, i, maxBackoff) ==> g.Got? && GoesOn(e, g.key, mayRetry) && e.paused)
  {
    hide Grant, Asks;
  }

  // ---------- a store that fails ----------

  /** A store that grants at once. */
  function AtOnce(): nat -> Round {
    (n: nat) => Round(Granted(Some(true), None, 0.0), 0.0, false, None)
  }

  /** One grant whose bucket cannot be looked up. */
  function Unknown(): nat -> Round {
    (n: nat) => Round(Granted(None, None, 0.0), 0.0, false, None)
  }

  lemma GrantedAtOnce(rounds: nat -> Round, key: Key, maxBackoff: nat)
    requires TimePasses(rounds) && rounds(0).reply.Granted?
    ensures LastRound(rounds, maxBackoff) == 0 && Result(rounds, key, maxBackoff) == Ending(rounds, key, 0, maxBackoff)
  {
    OneEnding(rounds, 0, maxBackoff);
  }

  /**
   A unit is left unsettled when the store fails after the grant: it does not say
   whether the bucket is known, does not take the response, does not clear the
   placeholder that a response under another key leaves behind, or does not take
   the unit of a cancelled request back.
   */
  lemma StoreFailuresLeak(key: Key, other: Key, maxBackoff: nat)
    ensures Leaks(Attempt(Unknown(), false, NotSent, true, false, true), key, maxBackoff)
    ensures Leaks(Attempt(AtOnce(), false, Response(true, key, false, true, true, false), true, false, true), key, maxBackoff)
    ensures Leaks(Attempt(AtOnce(), false, Response(true, other, true, false, true, false), true, false, true), key, maxBackoff)
      <==> other != key
    ensures Leaks(Attempt(AtOnce(), true, NotSent, false, false, true), key, maxBackoff)
  {
    hide LastRound;
    GrantedAtOnce(Unknown(), key, maxBackoff);
    GrantedAtOnce(AtOnce(), key, maxBackoff);
  }
}
