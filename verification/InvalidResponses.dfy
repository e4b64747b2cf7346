/**
 Counting invalid responses over ten minutes in a ring of ten counters, proved
 against a log that keeps everything. A minute has the slot of its number modulo
 ten, which it takes over from the minute ten before it: when the clock moves on,
 the slots of the minutes gone by are cleared, at most all of them, and what they
 held is then too old to count.
 */
module InvalidResponses {
  const SLOTS := 10

  datatype Entry = Entry(minute: nat, amount: int)

  /** What the log holds for one minute. */
  function During(log: seq<Entry>, minute: int): int {
    if log == [] then 0
    else During(log[..|log| - 1], minute) + if log[|log| - 1].minute == minute then log[|log| - 1].amount else 0
  }

  /** What the log holds for the minutes after `minute`. */
  function Since(log: seq<Entry>, minute: int): int {
    if log == [] then 0
    else Since(log[..|log| - 1], minute) + if log[|log| - 1].minute > minute then log[|log| - 1].amount else 0
  }

  /** The log, minute by minute: the `n` minutes up to `last`. */
  function Lately(log: seq<Entry>, last: int, n: nat): int {
    if n == 0 then 0 else Lately(log, last, n - 1) + During(log, last - n + 1)
  }

  lemma {:induction false} NothingLater(log: seq<Entry>, minute: int)
    requires forall e :: e in log ==> e.minute < minute
    ensures During(log, minute) == 0
  {
    if log != [] { NothingLater(log[..|log| - 1], minute); }
  }

  lemma {:induction false} OneMinuteMore(log: seq<Entry>, minute: int)
    ensures Since(log, minute - 1) == Since(log, minute) + During(log, minute)
  {
    if log != [] { OneMinuteMore(log[..|log| - 1], minute); }
  }

  lemma {:induction false} NothingSince(log: seq<Entry>, last: int)
    requires forall e :: e in log ==> e.minute <= last
    ensures Since(log, last) == 0
  {
    if log != [] { NothingSince(log[..|log| - 1], last); }
  }

  lemma {:induction false} LatelyIsSince(log: seq<Entry>, last: int, n: nat)
    requires forall e :: e in log ==> e.minute <= last
    ensures Lately(log, last, n) == Since(log, last - n)
  {
    if n == 0 {
      NothingSince(log, last);
    } else {
      LatelyIsSince(log, last, n - 1);
      OneMinuteMore(log, last - n + 1);
    }
  }

  class Counter {
    const invalid: array<int>
    var minute: nat
    /** Every amount ever added. */
    ghost var log: seq<Entry>

    ghost predicate Valid()
      reads this, invalid
    {
      && invalid.Length == SLOTS
      && (forall e :: e in log ==> e.minute <= minute)
      && Kept(minute)
    }

    /** The ring holds the ten minutes up to `last`, each in its slot. */
    ghost predicate Kept(last: nat)
      reads `log, invalid
      requires invalid.Length == SLOTS
    {
      forall m :: last - SLOTS < m <= last ==> invalid[m % SLOTS] == During(log, m)
    }

    constructor ()
      ensures Valid() && log == [] && minute == 0 && fresh(invalid)
    {
      invalid := new int[SLOTS](_ => 0);
      minute, log := 0, [];
    }

    /** Clears the slots of the minutes gone by. */
    method Advance(now: nat)
      requires Valid() && now >= minute
      modifies `minute, invalid
      ensures Valid() && minute == now
    {
      var elapsed := if now - minute < 10 then now - minute else 10;
      for i := 1 to elapsed + 1
        invariant minute == old(minute)
        invariant forall m :: now - SLOTS < m <= minute ==> invalid[m % SLOTS] == During(log, m)
        invariant forall j :: minute < j < minute + i ==> invalid[j % SLOTS] == 0
      {
        forall m | now - SLOTS < m <= minute
          ensures m % SLOTS != (minute + i) % SLOTS
        {
          Apart(m, minute + i);
        }
        invalid[(minute + i) % SLOTS] := 0;
      }
      forall m | now - SLOTS < m <= now && m > minute
        ensures invalid[m % SLOTS] == During(log, m)
      {
        NothingLater(log, m);
        if m > minute + elapsed { Again(minute, m); }
      }
      minute := now;
    }

    /** Adds to this minute, and returns what the last ten minutes hold. */
    method InvalidCount(add: int, now: nat) returns (count: int)
      requires Valid() && now / 60_000 >= minute
      modifies this, invalid
      ensures Valid() && minute == now / 60_000 && log == old(log) + [Entry(minute, add)]
      ensures count == Since(log, minute - 10)
    {
      Advance(now / 60_000);
      Add(add);
      count := 0;
      for i := 0 to SLOTS
        invariant count == RingSum(invalid[..], i)
      {
        count := count + invalid[i];
      }
      Ring();
      LatelyIsSince(log, minute, SLOTS);
    }

    method Add(add: int)
      requires Valid()
      modifies `log, invalid
      ensures Valid() && log == old(log) + [Entry(minute, add)]
    {
      ghost var more := log + [Entry(minute, add)];
      assert more[..|log|] == log;
      forall m | minute - SLOTS < m < minute ensures m % SLOTS != minute % SLOTS {
        Apart(m, minute);
      }
      invalid[minute % SLOTS] := invalid[minute % SLOTS] + add;
      log := more;
    }

    /** The slots, in whatever order they lie, hold the last ten minutes. */
    lemma Ring()
      requires Valid()
      ensures RingSum(invalid[..], SLOTS) == Lately(log, minute, SLOTS)
    {
      WholeRing(invalid[..], minute);
      Backwards(SLOTS);
    }

    /** Slot by slot, backwards from this minute. */
    lemma {:induction false} Backwards(n: nat)
      requires Valid() && n <= SLOTS
      ensures RingBack(invalid[..], minute, n) == Lately(log, minute, n)
    {
      if n > 0 {
        Backwards(n - 1);
        assert invalid[(minute - n + 1) % SLOTS] == During(log, minute - n + 1);
      }
    }
  }

  function RingSum(ring: seq<int>, n: nat): int
    requires n <= |ring|
  {
    if n == 0 then 0 else RingSum(ring, n - 1) + ring[n - 1]
  }

  /** The `n` slots up to that of minute `last`, around the ring. */
  function RingBack(ring: seq<int>, last: int, n: nat): int
    requires |ring| == SLOTS
  {
    if n == 0 then 0 else RingBack(ring, last, n - 1) + ring[(last - n + 1) % SLOTS]
  }

  /** Once around is every slot, wherever it starts. */
  lemma {:induction false} WholeRing(r: seq<int>, last: int)
    requires |r| == SLOTS
    ensures RingBack(r, last, SLOTS) == RingSum(r, SLOTS)
    decreases if last < SLOTS then SLOTS - last else last
  {
    if last == SLOTS - 1 {
      FromTheEnd(r, SLOTS);
    } else if last < SLOTS {
      WholeRing(r, last + 1);
      Shifted(r, last, SLOTS - 1);
    } else {
      WholeRing(r, last - 1);
      Shifted(r, last - 1, SLOTS - 1);
    }
  }

  lemma {:induction false} FromTheEnd(r: seq<int>, n: nat)
    requires |r| == SLOTS && n <= SLOTS
    ensures RingBack(r, SLOTS - 1, n) + RingSum(r, SLOTS - n) == RingSum(r, SLOTS)
  {
    if n > 0 { FromTheEnd(r, n - 1); }
  }

  lemma {:induction false} Shifted(r: seq<int>, last: int, n: nat)
    requires |r| == SLOTS
    ensures RingBack(r, last + 1, n + 1) == RingBack(r, last, n) + r[(last + 1) % SLOTS]
  {
    if n > 0 { Shifted(r, last, n - 1); }
  }

  /** Two minutes less than ten apart have different slots. */
  lemma Apart(a: int, b: int)
    requires a < b < a + SLOTS
    ensures a % SLOTS != b % SLOTS
  {
  }

  /** Any minute shares its slot with one of the ten after `minute`. */
  lemma Again(minute: nat, m: nat)
    ensures exists j :: minute < j <= minute + SLOTS && j % SLOTS == m % SLOTS
  {
    var j := minute + 1 + (m - minute - 1) % SLOTS;
    assert j % SLOTS == m % SLOTS;
  }
}
