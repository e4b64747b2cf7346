/**
 The loop of the REST client that asks a store for a unit until it is granted
 one. What the store and the clock answer is given, whatever it is.
 */
module Acquiring {
  import opened Wrappers

  type Key = string

  const MAX_IDLE_REFUSALS := 16

  datatype Reply =
    /** `lookup` is what asking for the bucket says when the store does not say whether it is known. */
    | Granted(known: Option<bool>, lookup: Option<bool>, resetAt: real)
    /** `wait` is 0 when the store gives none, or none that is a positive number. */
    | Refused(wait: nat, probe: bool)
    /** The store failed or answered nonsense. */
    | Broken

  /** `latency` is the time since the last sleep should have ended; `resolved` the key after it, if resolving works. */
  datatype Round = Round(reply: Reply, latency: real, interrupted: bool, resolved: Option<Key>)

  datatype Acquired =
    | Got(key: Key, known: bool, resetAt: real)
    /** Granted, but the lookup after it failed. */
    | Lost(key: Key)
    | StoreFailed
    | KeepsRefusing
    | TooLong
    | Interrupted

  function Pow2(n: nat): nat {
    if n == 0 then 1 else 2 * Pow2(n - 1)
  }

  predicate Waitless(r: Round) {
    r.reply.Refused? && r.reply.wait == 0
  }

  /** How many of the last rounds before `n` were refused without a wait, without a break. */
  function InARow(rounds: nat -> Round, n: nat): nat {
    if n > 0 && Waitless(rounds(n - 1)) then InARow(rounds, n - 1) + 1 else 0
  }

  /** How long round `n` asks to wait, if it is a refusal. */
  function Wait(rounds: nat -> Round, n: nat): nat {
    if rounds(n).reply.Refused? && rounds(n).reply.wait > 0 then rounds(n).reply.wait
    else if Pow2(InARow(rounds, n + 1)) < 100 then Pow2(InARow(rounds, n + 1)) else 100
  }

  /** One sleep, however long the wait. */
  function Nap(wait: nat, maxBackoff: nat): nat {
    if wait < maxBackoff then wait else maxBackoff
  }

  /** Time spent asleep before round `n`. */
  function Slept(rounds: nat -> Round, n: nat, maxBackoff: nat): nat {
    if n == 0 then 0 else Slept(rounds, n - 1, maxBackoff) + Nap(Wait(rounds, n - 1), maxBackoff)
  }

  /** Time passed when round `n` is answered. */
  function Elapsed(rounds: nat -> Round, n: nat, maxBackoff: nat): real {
    rounds(n).latency +
    if n == 0 then 0.0
    else Elapsed(rounds, n - 1, maxBackoff) + Nap(Wait(rounds, n - 1), maxBackoff) as real
  }

  /** The key round `n` asks for: after a wait for another worker's probe it is resolved again. */
  function KeyAt(rounds: nat -> Round, key: Key, n: nat): Key {
    if n == 0 then key
    else if rounds(n - 1).reply.Refused? && rounds(n - 1).reply.probe && rounds(n - 1).resolved.Some? then
      rounds(n - 1).resolved.value
    else KeyAt(rounds, key, n - 1)
  }

  /** Round `n` is refused, and waited out. */
  ghost predicate WaitedOut(rounds: nat -> Round, n: nat, maxBackoff: nat) {
    var r := rounds(n);
    && r.reply.Refused? && !r.interrupted && InARow(rounds, n + 1) <= MAX_IDLE_REFUSALS
    && Elapsed(rounds, n, maxBackoff) + Wait(rounds, n) as real <= (2 * maxBackoff) as real
    && (r.reply.probe ==> r.resolved.Some?)
  }

  /** What the wait comes to in a round that is not waited out. */
  ghost function Ending(rounds: nat -> Round, key: Key, n: nat, maxBackoff: nat): Acquired
    requires !WaitedOut(rounds, n, maxBackoff)
  {
    match rounds(n).reply
    case Granted(known, lookup, resetAt) =>
      if known.None? && lookup.None? then Lost(KeyAt(rounds, key, n))
      else Got(KeyAt(rounds, key, n), known.GetOr(lookup.GetOr(false)), resetAt)
    case Broken => StoreFailed
    case Refused(_, probe) =>
      if InARow(rounds, n + 1) > MAX_IDLE_REFUSALS then KeepsRefusing
      else if Elapsed(rounds, n, maxBackoff) + Wait(rounds, n) as real > (2 * maxBackoff) as real then TooLong
      else if rounds(n).interrupted then Interrupted
      else StoreFailed
  }

  ghost predicate TimePasses(rounds: nat -> Round) {
    forall n :: rounds(n).latency >= 0.0
  }

  lemma WaitPositive(rounds: nat -> Round, n: nat)
    ensures Wait(rounds, n) > 0
  {
    Pow2Positive(InARow(rounds, n + 1));
  }

  lemma {:induction false} Pow2Positive(n: nat)
    ensures Pow2(n) > 0
  {
    if n > 0 { Pow2Positive(n - 1); }
  }

  /** Rounds are waited out only so often: each takes a millisecond, and all of them no more than twice `maxBackoff`. */
  lemma {:induction false} FewRounds(rounds: nat -> Round, n: nat, maxBackoff: nat)
    requires TimePasses(rounds) && forall i :: 0 <= i < n ==> WaitedOut(rounds, i, maxBackoff)
    ensures n <= Slept(rounds, n, maxBackoff) <= 2 * maxBackoff
    ensures Slept(rounds, n, maxBackoff) as real <= Elapsed(rounds, n, maxBackoff)
  {
    if n > 0 {
      FewRounds(rounds, n - 1, maxBackoff);
      WaitPositive(rounds, n - 1);
      assert WaitedOut(rounds, n - 1, maxBackoff);
    }
  }

  /** The first round from `n` on that is not waited out. */
  ghost function EndFrom(rounds: nat -> Round, n: nat, maxBackoff: nat): (last: nat)
    requires TimePasses(rounds) && forall i :: 0 <= i < n ==> WaitedOut(rounds, i, maxBackoff)
    ensures !WaitedOut(rounds, last, maxBackoff) && forall i :: 0 <= i < last ==> WaitedOut(rounds, i, maxBackoff)
    decreases 2 * maxBackoff - n
  {
    FewRounds(rounds, n, maxBackoff);
    if !WaitedOut(rounds, n, maxBackoff) then n
    else
      FewRounds(rounds, n + 1, maxBackoff);
      EndFrom(rounds, n + 1, maxBackoff)
  }

  ghost function LastRound(rounds: nat -> Round, maxBackoff: nat): (last: nat)
    requires TimePasses(rounds)
    ensures !WaitedOut(rounds, last, maxBackoff) && forall i :: 0 <= i < last ==> WaitedOut(rounds, i, maxBackoff)
  {
    EndFrom(rounds, 0, maxBackoff)
  }

  /** The wait ends in one round and no other. */
  lemma OneEnding(rounds: nat -> Round, n: nat, maxBackoff: nat)
    requires TimePasses(rounds) && !WaitedOut(rounds, n, maxBackoff)
    requires forall i :: 0 <= i < n ==> WaitedOut(rounds, i, maxBackoff)
    ensures n == LastRound(rounds, maxBackoff) <= 2 * maxBackoff
  {
    hide WaitedOut, LastRound;
    FewRounds(rounds, n, maxBackoff);
    var last := LastRound(rounds, maxBackoff);
    assert !(last < n) && !(n < last);
  }

  /** What asking for `key` comes to. */
  ghost function Result(rounds: nat -> Round, key: Key, maxBackoff: nat): Acquired
    requires TimePasses(rounds)
  {
    Ending(rounds, key, LastRound(rounds, maxBackoff), maxBackoff)
  }

  // ---------- what the waits are ----------

  /** A request sleeps as long as the store says, up to `maxBackoff`. */
  lemma HonoursWait(rounds: nat -> Round, n: nat, maxBackoff: nat)
    requires rounds(n).reply.Refused? && rounds(n).reply.wait > 0
    ensures Slept(rounds, n + 1, maxBackoff) - Slept(rounds, n, maxBackoff) ==
      if rounds(n).reply.wait <= maxBackoff then rounds(n).reply.wait else maxBackoff
    ensures Wait(rounds, n) == rounds(n).reply.wait
  {
  }

  /** Refusals without a wait are waited out for 2 ms, then twice as long each time, up to 100 ms. */
  lemma BacksOff(rounds: nat -> Round, n: nat)
    requires Waitless(rounds(n))
    ensures var first := n == 0 || !Waitless(rounds(n - 1));
      Wait(rounds, n) == if first then 2 else if 2 * Wait(rounds, n - 1) < 100 then 2 * Wait(rounds, n - 1) else 100
  {
    Pow2Positive(InARow(rounds, n));
    if n > 0 && Waitless(rounds(n - 1)) {
      assert Pow2(InARow(rounds, n + 1)) == 2 * Pow2(InARow(rounds, n));
    }
  }

  /** `InARow` counts back to the last round that was not refused without a wait. */
  lemma {:induction false} InARowMeans(rounds: nat -> Round, n: nat)
    ensures InARow(rounds, n) <= n && forall i :: n - InARow(rounds, n) <= i < n ==> Waitless(rounds(i))
    ensures InARow(rounds, n) < n ==> !Waitless(rounds(n - InARow(rounds, n) - 1))
  {
    if n > 0 && Waitless(rounds(n - 1)) { InARowMeans(rounds, n - 1); }
  }

  /** The clock runs on by what is slept, and by what everything else takes. */
  lemma ElapsedMeans(rounds: nat -> Round, n: nat, maxBackoff: nat)
    ensures Elapsed(rounds, 0, maxBackoff) == rounds(0).latency
    ensures Elapsed(rounds, n + 1, maxBackoff) ==
      Elapsed(rounds, n, maxBackoff) + (Slept(rounds, n + 1, maxBackoff) - Slept(rounds, n, maxBackoff)) as real + rounds(n + 1).latency
  {
  }

  /** A round asks for the key that was resolved after the last wait for a probe, or for the first one. */
  lemma {:induction false} KeyMeans(rounds: nat -> Round, key: Key, n: nat)
    ensures KeyAt(rounds, key, n) == key ||
      exists i :: 0 <= i < n && rounds(i).reply.Refused? && rounds(i).reply.probe && rounds(i).resolved == Some(KeyAt(rounds, key, n))
    ensures n > 0 && rounds(n - 1).reply.Refused? && rounds(n - 1).reply.probe && rounds(n - 1).resolved.Some? ==>
      rounds(n - 1).resolved == Some(KeyAt(rounds, key, n))
    ensures (forall i :: 0 <= i < n ==> !(rounds(i).reply.Refused? && rounds(i).reply.probe)) ==> KeyAt(rounds, key, n) == key
  {
    if n > 0 { KeyMeans(rounds, key, n - 1); }
  }

  /** How the wait ends, case by case. */
  lemma EndingMeans(rounds: nat -> Round, key: Key, n: nat, maxBackoff: nat)
    requires !WaitedOut(rounds, n, maxBackoff)
    ensures var a, r := Ending(rounds, key, n, maxBackoff), rounds(n);
      && (a.Got? <==> r.reply.Granted? && (r.reply.known.Some? || r.reply.lookup.Some?))
      && (a.Got? ==> a.key == KeyAt(rounds, key, n) && a.resetAt == r.reply.resetAt && Some(a.known) == (if r.reply.known.Some? then r.reply.known else r.reply.lookup))
      && (a.Lost? <==> r.reply.Granted? && r.reply.known.None? && r.reply.lookup.None?)
      && (a.KeepsRefusing? <==> n >= 16 && forall i :: n - 16 <= i <= n ==> Waitless(rounds(i)))
      && (a.TooLong? ==> r.reply.Refused? && Elapsed(rounds, n, maxBackoff) + Wait(rounds, n) as real > (2 * maxBackoff) as real)
      && (a.Interrupted? ==> r.reply.Refused? && r.interrupted)
      && (a.StoreFailed? <==> r.reply.Broken? || (r.reply.Refused? && !a.KeepsRefusing? && !a.TooLong? && !a.Interrupted?))
      && (a.StoreFailed? && r.reply.Refused? ==> r.reply.probe && r.resolved.None?)
  {
    hide Elapsed, KeyAt, Wait, InARow;
    SeventeenInARow(rounds, n);
  }

  /** A round is waited out exactly when it is refused, and neither refused too often, nor too late, nor cut short. */
  lemma WaitedOutMeans(rounds: nat -> Round, n: nat, maxBackoff: nat)
    ensures var r := rounds(n);
      WaitedOut(rounds, n, maxBackoff) <==>
      && r.reply.Refused? && !r.interrupted && (r.reply.probe ==> r.resolved.Some?)
      && !(n >= 16 && forall i :: n - 16 <= i <= n ==> Waitless(rounds(i)))
      && Elapsed(rounds, n, maxBackoff) + Wait(rounds, n) as real <= 2.0 * maxBackoff as real
  {
    hide Elapsed, Wait, InARow;
    SeventeenInARow(rounds, n);
  }

  lemma SeventeenInARow(rounds: nat -> Round, n: nat)
    ensures InARow(rounds, n + 1) > 16 <==> n >= 16 && forall i :: n - 16 <= i <= n ==> Waitless(rounds(i))
  {
    InARowMeans(rounds, n + 1);
  }

  /** However the store answers, a request waits no longer than twice `maxBackoff`, in as many rounds. */
  method Acquire(rounds: nat -> Round, key: Key, maxBackoff: nat) returns (a: Acquired, last: nat)
    requires TimePasses(rounds)
    ensures last <= 2 * maxBackoff && Slept(rounds, last, maxBackoff) <= 2 * maxBackoff
    ensures forall n :: 0 <= n < last ==> WaitedOut(rounds, n, maxBackoff)
    ensures last == LastRound(rounds, maxBackoff) && a == Result(rounds, key, maxBackoff)
    ensures a.Got? ==> rounds(last).reply.Granted? && a.key == KeyAt(rounds, key, last)
  {
    hide LastRound;
    var idle, bucket, elapsed := 0, key, 0.0;
    ghost var slept := 0;
    last := 0;
    while true
      invariant idle == InARow(rounds, last) && bucket == KeyAt(rounds, key, last)
      invariant slept == Slept(rounds, last, maxBackoff) && slept as real <= elapsed
      invariant last <= slept <= 2 * maxBackoff
      invariant elapsed + rounds(last).latency == Elapsed(rounds, last, maxBackoff)
      invariant forall n :: 0 <= n < last ==> WaitedOut(rounds, n, maxBackoff)
      decreases 2 * maxBackoff - slept
    {
      var r := rounds(last);
      elapsed := elapsed + r.latency;
      if r.reply.Granted? {
        if r.reply.known.None? && r.reply.lookup.None? { a := Lost(bucket); break; }
        a := Got(bucket, r.reply.known.GetOr(r.reply.lookup.GetOr(false)), r.reply.resetAt); break;
      }
      if r.reply.Broken? { a := StoreFailed; break; }
      var wait := r.reply.wait;
      if wait == 0 {
        idle := idle + 1;
        if idle > MAX_IDLE_REFUSALS { a := KeepsRefusing; break; }
        wait := Pow2(idle);
        if wait > 100 { wait := 100; }
      } else {
        idle := 0;
      }
      Pow2Positive(idle);
      assert wait == Wait(rounds, last) && wait > 0;
      if elapsed + wait as real > (2 * maxBackoff) as real { a := TooLong; break; }
      if r.interrupted { a := Interrupted; break; }
      if r.reply.probe {
        if r.resolved.None? { a := StoreFailed; break; }
        bucket := r.resolved.value;
      }
      elapsed := elapsed + Nap(wait, maxBackoff) as real;
      slept := slept + Nap(wait, maxBackoff);
      last := last + 1;
    }
    OneEnding(rounds, last, maxBackoff);
  }
}
