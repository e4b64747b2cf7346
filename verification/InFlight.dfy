/**
 The promise of the scheduler, that no two requests of a bucket are in flight, and
 exactly when it can be broken: by a tail that gives up while somebody ahead of
 it is still in the way, and by nothing else.
 */
module InFlight {
  import opened Wrappers
  import opened Scheduler

  /** Two requests of `bucket` have the slot at once. */
  ghost predicate TwoHold(s: State, bucket: Bucket) {
    exists a: nat, b: nat :: a != b && Holds(s, a) && Holds(s, b) && s.requests[a].bucket == s.requests[b].bucket == bucket
  }

  /** The step is taken, and it is the one that `TailGivesUp` speaks of. */
  ghost predicate GivesUp(s: State, step: Step, bucket: Bucket) {
    LinksOk(s) && Enabled(s, step) && TailGivesUp(s, step, bucket)
  }

  /** No step of the run is a tail of `bucket` giving up. */
  ghost predicate Spared(s: State, l: Limits, run: seq<Step>, bucket: Bucket) {
    run != [] ==>
      Spared(s, l, run[..|run| - 1], bucket) && !GivesUp(After(s, l, run[..|run| - 1]), run[|run| - 1], bucket)
  }

  // ---------- without such a step ----------

  lemma {:induction false} StaysValid(s: State, l: Limits, run: seq<Step>)
    requires Valid(s)
    ensures Valid(After(s, l, run))
  {
    hide Valid;
    if run != [] {
      var before := After(s, l, run[..|run| - 1]);
      StaysValid(s, l, run[..|run| - 1]);
      if Enabled(before, run[|run| - 1]) { StepValid(before, l, run[|run| - 1]); }
    }
  }

  lemma {:induction false} StaysSerial(s: State, l: Limits, run: seq<Step>, bucket: Bucket)
    requires Valid(s) && Serial(s, bucket) && Spared(s, l, run, bucket)
    ensures Valid(After(s, l, run)) && Serial(After(s, l, run), bucket)
  {
    hide Serial, TailGivesUp;
    if run != [] {
      var before, last := After(s, l, run[..|run| - 1]), run[|run| - 1];
      StaysSerial(s, l, run[..|run| - 1], bucket);
      if Enabled(before, last) { SerialUnlessTailGivesUp(before, l, last, bucket); }
    }
  }

  lemma SerialMeansNotTwo(s: State, bucket: Bucket)
    requires Valid(s) && Serial(s, bucket)
    ensures !TwoHold(s, bucket)
  {
    hide Serial;
    forall a: nat, b: nat | Holds(s, a) && Holds(s, b) && s.requests[a].bucket == s.requests[b].bucket == bucket ensures a == b {
      SerialMeansOne(s, bucket, a, b);
    }
  }

  /** Over every run in which no tail of `bucket` gives up in the way of others, at most one of its requests is in flight. */
  lemma OneInFlight(l: Limits, run: seq<Step>, bucket: Bucket)
    requires Spared(EMPTY, l, run, bucket)
    ensures !TwoHold(After(EMPTY, l, run), bucket)
  {
    EmptyValid();
    StaysSerial(EMPTY, l, run, bucket);
    SerialMeansNotTwo(After(EMPTY, l, run), bucket);
  }

  // ---------- runs put together ----------

  lemma {:induction false} Together(s: State, l: Limits, a: seq<Step>, b: seq<Step>)
    ensures After(s, l, a + b) == After(After(s, l, a), l, b)
    ensures Possible(s, l, a + b) <==> Possible(s, l, a) && Possible(After(s, l, a), l, b)
  {
    if b == [] {
      assert a + b == a;
    } else {
      assert (a + b)[..|a + b| - 1] == a + b[..|b| - 1];
      Together(s, l, a, b[..|b| - 1]);
    }
  }

  // ---------- every request is over in the end ----------

  /** A run of steps that only finish what is there. */
  predicate Finishing(run: seq<Step>) {
    forall step :: step in run ==> GoesOn(step)
  }

  /** Such runs are bounded, whichever way they go. */
  lemma {:induction false} FinishingEnds(s: State, l: Limits, run: seq<Step>)
    requires Valid(s) && Possible(s, l, run) && Finishing(run)
    ensures |run| + Work(After(s, l, run).requests) <= Work(s.requests)
  {
    if run != [] {
      hide Work, Next;
      var before := run[..|run| - 1];
      FinishingEnds(s, l, before);
      StaysValid(s, l, before);
      StepLessWork(After(s, l, before), l, run[|run| - 1]);
    }
  }

  /** From any state one of them opens every gate: no slot is lost for good. */
  lemma {:induction false} EveryGateOpens(s: State, l: Limits) returns (run: seq<Step>)
    requires Valid(s)
    ensures Possible(s, l, run) && Finishing(run)
    ensures forall i :: 0 <= i < |After(s, l, run).requests| ==> After(s, l, run).requests[i].open
    decreases Work(s.requests)
  {
    hide Valid, Possible, After, Work, Next;
    Nothing(s, l);
    var step := NeverStuck(s);
    if step.None? { return []; }
    StepLessWork(s, l, step.value);
    StepValid(s, l, step.value);
    OneStep(s, l, step.value);
    var more := EveryGateOpens(Next(s, l, step.value), l);
    Together(s, l, [step.value], more);
    run := [step.value] + more;
  }

  /** Nobody gives up in the run at all. */
  predicate Patient(run: seq<Step>) {
    forall step :: step in run ==> !step.Abort?
  }

  lemma {:induction false} PatientIsSpared(s: State, l: Limits, run: seq<Step>, bucket: Bucket)
    requires Patient(run)
    ensures Spared(s, l, run, bucket)
  {
    if run != [] { PatientIsSpared(s, l, run[..|run| - 1], bucket); }
  }

  // ---------- a request nobody is in the way of gets the slot ----------

  /** `s'` is `s`, but for gates that have opened and for what became of `id`, if any. */
  ghost predicate Keeps(s: State, s': State, id: Option<nat>) {
    && |s'.requests| == |s.requests| && s'.queues == s.queues
    && forall i :: 0 <= i < |s.requests| ==>
         var r, r' := s.requests[i], s'.requests[i];
         && r'.bucket == r.bucket && r'.previous == r.previous && r'.released == r.released
         && (r.open ==> r'.open) && (Some(i) != id ==> r'.phase == r.phase)
  }

  lemma OneStep(s: State, l: Limits, step: Step)
    requires Enabled(s, step)
    ensures Possible(s, l, [step]) && After(s, l, [step]) == Next(s, l, step)
  {
    assert [step][..0] == [];
    assert After(s, l, []) == s && Possible(s, l, []);
    assert [step][..|[step]| - 1] == [];
  }

  /** The cancelled ones ahead follow, the foremost first, until the gate of `id` is open. */
  lemma {:induction false} OpenGate(s: State, l: Limits, id: nat) returns (run: seq<Step>)
    requires Valid(s) && LetsThrough(s, id)
    ensures Possible(s, l, run) && Patient(run)
    ensures Keeps(s, After(s, l, run), None) && After(s, l, run).requests[id].open
    decreases id
  {
    hide Valid, Possible, After;
    run := [];
    Nothing(s, l);
    if !s.requests[id].open {
      var p := s.requests[id].previous.value;
      PreviousBefore(s, id);
      run := OpenGate(s, l, p);
      var t := After(s, l, run);
      if !t.requests[id].open {
        OneStep(t, l, Follow(id));
        Together(s, l, run, [Follow(id)]);
        run := run + [Follow(id)];
      }
    }
  }

  lemma Nothing(s: State, l: Limits)
    ensures Possible(s, l, []) && After(s, l, []) == s
  {
  }

  lemma PreviousBefore(s: State, id: nat)
    requires Valid(s) && id < |s.requests| && s.requests[id].previous.Some?
    ensures s.requests[id].previous.value < id
  {
  }

  /** Nobody ahead of `id` has or wants the slot. */
  ghost predicate Foremost(s: State, id: nat)
    requires LinksOk(s)
  {
    id < |s.requests| && Busy(s, id) &&
    (s.requests[id].previous.Some? ==> LetsThrough(s, s.requests[id].previous.value))
  }

  lemma TakeSlot(s: State, l: Limits, id: nat) returns (run: seq<Step>)
    requires Valid(s) && Foremost(s, id)
    ensures Possible(s, l, run) && Patient(run)
    ensures Valid(After(s, l, run)) && Keeps(s, After(s, l, run), Some(id)) && Holds(After(s, l, run), id)
  {
    hide Valid, Possible, After, LetsThrough;
    run := [];
    Nothing(s, l);
    if s.requests[id].phase == Waiting {
      if s.requests[id].previous.Some? {
        PreviousBefore(s, id);
        run := OpenGate(s, l, s.requests[id].previous.value);
      }
      var t := After(s, l, run);
      WaitingHolds(s, id);
      OneStep(t, l, Start(id));
      Together(s, l, run, [Start(id)]);
      run := run + [Start(id)];
    }
    StaysValid(s, l, run);
  }

  lemma WaitingHolds(s: State, id: nat)
    requires Valid(s) && id < |s.requests| && s.requests[id].phase == Waiting
    ensures !s.requests[id].released
  {
    assert RequestOk(s.requests[id], GateAheadOpen(s, id));
  }

  /** Of the busy ones at or ahead of `id`, the one nobody is in the way of. */
  lemma {:induction false} FindForemost(s: State, id: nat) returns (first: nat)
    requires Valid(s) && Busy(s, id)
    ensures Foremost(s, first) && (first == id || Ahead(s, first, id))
    ensures s.requests[first].bucket == s.requests[id].bucket
    decreases id
  {
    hide GatesOk, CountsOk, Busy, LetsThrough;
    BusyIsThere(s, id);
    first := id;
    if s.requests[id].previous.Some? {
      var p := s.requests[id].previous.value;
      PreviousBefore(s, id);
      if !LetsThrough(s, p) {
        LetsThroughUnlessBusy(s, p);
        var a: nat :| (a == p || Ahead(s, a, p)) && Busy(s, a);
        if a != p { AheadIsBefore(s, a, p); }
        first := FindForemost(s, a);
        AheadOfAhead(s, first, a, id);
        SameBucket(s, first, id);
      }
    }
  }

  /** Whoever is at or ahead of someone ahead of `id` is ahead of it. */
  lemma {:induction false} AheadOfAhead(s: State, a: nat, b: nat, id: nat)
    requires LinksOk(s) && Ahead(s, b, id) && (a == b || Ahead(s, a, b))
    ensures Ahead(s, a, id)
    decreases id
  {
    var p := s.requests[id].previous.value;
    if b != p { AheadOfAhead(s, a, b, p); }
  }

  /** A tail has nobody behind it. */
  lemma {:induction false} NobodyBehindTail(s: State, tail: nat, id: nat)
    requires LinksOk(s) && id < |s.requests| && Ahead(s, tail, id)
    requires tail < |s.requests| && s.requests[tail].bucket in s.queues && s.queues[s.requests[tail].bucket] == tail
    ensures false
    decreases id
  {
    var p := s.requests[id].previous.value;
    if tail != p { NobodyBehindTail(s, tail, p); }
  }

  /** Chains do not fork: two requests behind the same one are in one chain. */
  lemma {:induction false} ChainsDoNotFork(s: State, a: nat, x: nat, y: nat)
    requires LinksOk(s) && (a == x || Ahead(s, a, x)) && (a == y || Ahead(s, a, y))
    ensures InChain(s, x, y)
    decreases x
  {
    if a != x && a != y {
      var p := s.requests[x].previous.value;
      ChainsDoNotFork(s, a, p, y);
      if Ahead(s, p, y) { NextInLine(s, p, x, y); }
    }
  }

  /** The one behind `p` is the first of those that `p` is ahead of. */
  lemma {:induction false} NextInLine(s: State, p: nat, x: nat, y: nat)
    requires LinksOk(s) && x < |s.requests| && s.requests[x].previous == Some(p) && Ahead(s, p, y)
    ensures x == y || Ahead(s, x, y)
    decreases y
  {
    if s.requests[y].previous == Some(p) {
      AheadIsBefore(s, p, y);
    } else {
      NextInLine(s, p, x, s.requests[y].previous.value);
    }
  }

  // ---------- with such a step ----------

  /** The tail of a bucket has the slot or wants it. */
  lemma TailIsBusy(s: State, bucket: Bucket)
    requires Valid(s) && bucket in s.queues
    ensures Busy(s, s.queues[bucket]) && s.requests[s.queues[bucket]].bucket == bucket
  {
    var tail := s.queues[bucket];
    assert RequestOk(s.requests[tail], GateAheadOpen(s, tail));
  }

  /** Nobody can be in the chain of the tail and in one that is not. */
  lemma OtherChain(s: State, a: nat, b: nat, tail: nat)
    requires Valid(s) && a < |s.requests| && s.requests[a].bucket in s.queues && s.queues[s.requests[a].bucket] == tail
    requires a != tail && !Ahead(s, a, tail) && (b == a || Ahead(s, b, a))
    ensures b != tail && !Ahead(s, b, tail)
  {
    hide GatesOk, CountsOk;
    if b == tail || Ahead(s, b, tail) {
      ChainsDoNotFork(s, b, a, tail);
      NobodyBehindTail(s, tail, a);
    }
  }

  /** A bucket that is not serial can have two requests in flight without anybody else giving up. */
  lemma Collide(s: State, l: Limits, bucket: Bucket) returns (run: seq<Step>)
    requires Valid(s) && !Serial(s, bucket)
    ensures Possible(s, l, run) && Patient(run) && TwoHold(After(s, l, run), bucket)
  {
    hide GatesOk, CountsOk, LetsThrough, Possible, After, Holds;
    var a: nat :| Busy(s, a) && s.requests[a].bucket == bucket &&
      !(bucket in s.queues && (a == s.queues[bucket] || Ahead(s, a, s.queues[bucket])));
    BusyIsThere(s, a);
    var b := FindForemost(s, a);
    run := TakeSlot(s, l, b);
    var t := After(s, l, run);
    var more;
    if bucket in s.queues {
      TailIsBusy(t, bucket);
      var c := FindForemost(t, t.queues[bucket]);
      OtherChain(s, a, b, s.queues[bucket]);
      SameAhead(s, t, b, s.queues[bucket]);
      more := TakeSlot(t, l, c);
      StillHolds(t, After(t, l, more), c, b);
      AreTwo(After(t, l, more), bucket, b, c);
    } else {
      more := NewHolder(t, l, bucket, b);
    }
    Together(s, l, run, more);
    run := run + more;
  }

  lemma StillHolds(s: State, s': State, id: nat, b: nat)
    requires Keeps(s, s', Some(id)) && Holds(s, b) && b != id
    ensures Holds(s', b) && s'.requests[b].bucket == s.requests[b].bucket
  {
  }

  lemma AreTwo(s: State, bucket: Bucket, a: nat, b: nat)
    requires a != b && Holds(s, a) && Holds(s, b) && s.requests[a].bucket == s.requests[b].bucket == bucket
    ensures TwoHold(s, bucket)
  {
  }

  /** A bucket without a queue lets the next request start at once. */
  lemma NewHolder(s: State, l: Limits, bucket: Bucket, b: nat) returns (run: seq<Step>)
    requires bucket !in s.queues && Holds(s, b) && s.requests[b].bucket == bucket
    ensures Possible(s, l, run) && Patient(run) && TwoHold(After(s, l, run), bucket)
  {
    hide Possible, After;
    var n := |s.requests|;
    var t := Next(s, l, Arrive(bucket));
    OneStep(s, l, Arrive(bucket));
    OneStep(t, l, Start(n));
    Together(s, l, [Arrive(bucket)], [Start(n)]);
    run := [Arrive(bucket)] + [Start(n)];
    AreTwo(Next(t, l, Start(n)), bucket, b, n);
  }

  // ---------- exactly when ----------

  /** A run that keeps the rule from `s` on, and ends with two requests of `bucket` in flight. */
  ghost predicate Breaks(s: State, l: Limits, run: seq<Step>, bucket: Bucket) {
    Possible(s, l, run) && Spared(s, l, run, bucket) && TwoHold(After(s, l, run), bucket)
  }

  /** A bucket is serial exactly when two of its requests can only get in flight by a tail giving up. */
  lemma SerialExactly(s: State, l: Limits, bucket: Bucket)
    requires Valid(s)
    ensures Serial(s, bucket) <==> !exists run :: Breaks(s, l, run, bucket)
  {
    hide GatesOk, CountsOk, Serial;
    if Serial(s, bucket) {
      forall run | Possible(s, l, run) && Spared(s, l, run, bucket) ensures !TwoHold(After(s, l, run), bucket) {
        StaysSerial(s, l, run, bucket);
        SerialMeansNotTwo(After(s, l, run), bucket);
      }
    } else {
      var run := Collide(s, l, bucket);
      PatientIsSpared(s, l, run, bucket);
      assert Breaks(s, l, run, bucket);
    }
  }

  /**
   The exact condition of the promise. From a state that keeps it, a step makes
   it possible for two requests of a bucket to be in flight, with nobody else
   giving up, if and only if it is the abort of the bucket's tail while somebody
   ahead of it has the slot or wants it.
   */
  lemma BrokenByTailOnly(s: State, l: Limits, step: Step, bucket: Bucket)
    requires Valid(s) && Serial(s, bucket) && Enabled(s, step)
    ensures TailGivesUp(s, step, bucket) <==> exists run :: Breaks(Next(s, l, step), l, run, bucket)
  {
    hide GatesOk, CountsOk, Serial, TailGivesUp, Breaks;
    SerialUnlessTailGivesUp(s, l, step, bucket);
    SerialExactly(Next(s, l, step), l, bucket);
  }

  /** In any state whatever, such an abort can be followed by two requests in flight. */
  lemma TailBreaks(s: State, l: Limits, id: nat, bucket: Bucket) returns (run: seq<Step>)
    requires Valid(s) && Enabled(s, Abort(id)) && TailGivesUp(s, Abort(id), bucket)
    ensures Possible(s, l, [Abort(id)] + run) && Patient(run) && TwoHold(After(s, l, [Abort(id)] + run), bucket)
  {
    hide Possible, After, Patient, TwoHold;
    StepValid(s, l, Abort(id));
    NotSerialAfter(s, l, id, bucket);
    run := Collide(Next(s, l, Abort(id)), l, bucket);
    OneStep(s, l, Abort(id));
    Together(s, l, [Abort(id)], run);
  }

  lemma NotSerialAfter(s: State, l: Limits, id: nat, bucket: Bucket)
    requires Valid(s) && Enabled(s, Abort(id)) && TailGivesUp(s, Abort(id), bucket) && Valid(Next(s, l, Abort(id)))
    ensures !Serial(Next(s, l, Abort(id)), bucket)
  {
    hide GatesOk, CountsOk, LetsThrough;
    var p := s.requests[id].previous.value;
    LetsThroughUnlessBusy(s, p);
    var a: nat :| (a == p || Ahead(s, a, p)) && Busy(s, a);
    SameBucket(s, a, id);
    AheadIsBefore(s, a, id);
    var s' := Next(s, l, Abort(id));
    assert s'.requests[a] == s.requests[a] && Busy(s', a);
    WaitingHolds(s, id);
    assert bucket !in s'.queues;
  }

  /** Some step of the run is a tail of `bucket` giving up. */
  ghost predicate GaveUp(s: State, l: Limits, run: seq<Step>, bucket: Bucket) {
    exists i :: 0 <= i < |run| && GivesUp(After(s, l, run[..i]), run[i], bucket)
  }

  lemma {:induction false} FirstGivesUp(s: State, l: Limits, run: seq<Step>, bucket: Bucket) returns (i: nat)
    requires !Spared(s, l, run, bucket)
    ensures i < |run| && Spared(s, l, run[..i], bucket) && GivesUp(After(s, l, run[..i]), run[i], bucket)
  {
    hide GivesUp;
    var before := run[..|run| - 1];
    if Spared(s, l, before, bucket) {
      i := |run| - 1;
    } else {
      i := FirstGivesUp(s, l, before, bucket);
      assert run[..i] == before[..i];
    }
  }

  lemma {:induction false} SparedPrefix(s: State, l: Limits, run: seq<Step>, i: nat, bucket: Bucket)
    requires Spared(s, l, run, bucket) && i <= |run|
    ensures Spared(s, l, run[..i], bucket)
    ensures i < |run| ==> !GivesUp(After(s, l, run[..i]), run[i], bucket)
    decreases |run|
  {
    hide GivesUp;
    if i == |run| {
      assert run[..i] == run;
    } else {
      var before := run[..|run| - 1];
      SparedPrefix(s, l, before, i, bucket);
      assert before[..i] == run[..i];
    }
  }

  /** After step `i`, the first that may have been a tail giving up, `more` ends with two requests in flight. */
  ghost predicate BreaksAfter(l: Limits, run: seq<Step>, i: nat, more: seq<Step>, bucket: Bucket) {
    i < |run| && Spared(EMPTY, l, run[..i], bucket) && Breaks(After(EMPTY, l, run[..i + 1]), l, more, bucket)
  }

  /**
   The same over every run from the start: a tail gave up in the way of others if
   and only if the run could have gone on, after some step of it that was the
   first of its kind, to two requests of the bucket in flight with nobody else
   giving up.
   */
  lemma PromiseExactly(l: Limits, run: seq<Step>, bucket: Bucket)
    ensures GaveUp(EMPTY, l, run, bucket) <==>
      exists i: nat, more :: BreaksAfter(l, run, i, more, bucket)
  {
    hide GatesOk, CountsOk, Serial, TailGivesUp, Breaks;
    if Spared(EMPTY, l, run, bucket) {
      forall i: nat, more | BreaksAfter(l, run, i, more, bucket) ensures false {
        SparedPrefix(EMPTY, l, run, i + 1, bucket);
        SerialAfter(l, run[..i + 1], bucket);
        SerialExactly(After(EMPTY, l, run[..i + 1]), l, bucket);
      }
      forall i | 0 <= i < |run| ensures !GivesUp(After(EMPTY, l, run[..i]), run[i], bucket) {
        SparedPrefix(EMPTY, l, run, i, bucket);
      }
    } else {
      var i := FirstGivesUp(EMPTY, l, run, bucket);
      var s := After(EMPTY, l, run[..i]);
      SerialAfter(l, run[..i], bucket);
      BrokenByTailOnly(s, l, run[i], bucket);
      assert run[..i + 1][..i] == run[..i];
      assert After(EMPTY, l, run[..i + 1]) == Next(s, l, run[i]);
      var more :| Breaks(Next(s, l, run[i]), l, more, bucket);
      assert BreaksAfter(l, run, i, more, bucket);
    }
  }

  lemma SerialAfter(l: Limits, run: seq<Step>, bucket: Bucket)
    requires Spared(EMPTY, l, run, bucket)
    ensures Valid(After(EMPTY, l, run)) && Serial(After(EMPTY, l, run), bucket)
  {
    EmptyValid();
    StaysSerial(EMPTY, l, run, bucket);
  }

  /**
   The promise of one request in flight per bucket fails: the second of two
   requests gives up while the first runs, and the third starts beside it.
   */
  lemma TwoInFlight(bucket: Bucket)
    ensures var s := After(EMPTY, UNLIMITED, GiveUp(bucket));
            && Possible(EMPTY, UNLIMITED, GiveUp(bucket))
            && Holds(s, 0) && Holds(s, 2) && s.requests[0].bucket == s.requests[2].bucket == bucket
  {
    hide Possible, After, Next;
    var run := GiveUp(bucket);
    FirstSteps(bucket);
    LastSteps(bucket);
    assert run[..6] == run;
  }

  const UNLIMITED := Limits(None, None)

  function GiveUp(bucket: Bucket): seq<Step> {
    [Arrive(bucket), Start(0), Arrive(bucket), Abort(1), Arrive(bucket), Start(2)]
  }

  function Runner(bucket: Bucket): Request {
    Request(bucket, None, Running, false, false)
  }

  function Queued(bucket: Bucket): State {
    State([Runner(bucket), Request(bucket, Some(0), Waiting, false, false)], map[bucket := 1], map[bucket := 1], 1)
  }

  lemma FirstSteps(bucket: Bucket)
    ensures Possible(EMPTY, UNLIMITED, GiveUp(bucket)[..3])
    ensures After(EMPTY, UNLIMITED, GiveUp(bucket)[..3]) == Queued(bucket)
  {
    hide Possible, After;
    var first := Runner(bucket).(phase := Waiting);
    assert Possible(EMPTY, UNLIMITED, GiveUp(bucket)[..0]) && After(EMPTY, UNLIMITED, GiveUp(bucket)[..0]) == EMPTY by {
      NoSteps(GiveUp(bucket));
    }
    Took(UNLIMITED, GiveUp(bucket), 0, EMPTY, State([first], map[bucket := 0], map[], 0));
    Took(UNLIMITED, GiveUp(bucket), 1, State([first], map[bucket := 0], map[], 0),
         State([Runner(bucket)], map[bucket := 0], map[], 0));
    Took(UNLIMITED, GiveUp(bucket), 2, State([Runner(bucket)], map[bucket := 0], map[], 0), Queued(bucket));
  }

  lemma LastSteps(bucket: Bucket)
    requires Possible(EMPTY, UNLIMITED, GiveUp(bucket)[..3])
    requires After(EMPTY, UNLIMITED, GiveUp(bucket)[..3]) == Queued(bucket)
    ensures Possible(EMPTY, UNLIMITED, GiveUp(bucket)[..6])
    ensures var gone := Request(bucket, Some(0), Cancelled, true, false);
            After(EMPTY, UNLIMITED, GiveUp(bucket)[..6]) ==
            State([Runner(bucket), gone, Runner(bucket)], map[bucket := 2], map[], 0)
  {
    hide Possible, After;
    var gone := Request(bucket, Some(0), Cancelled, true, false);
    var third := Runner(bucket).(phase := Waiting);
    Took(UNLIMITED, GiveUp(bucket), 3, Queued(bucket), State([Runner(bucket), gone], map[], map[], 0));
    Took(UNLIMITED, GiveUp(bucket), 4, State([Runner(bucket), gone], map[], map[], 0),
         State([Runner(bucket), gone, third], map[bucket := 2], map[], 0));
    Took(UNLIMITED, GiveUp(bucket), 5, State([Runner(bucket), gone, third], map[bucket := 2], map[], 0),
         State([Runner(bucket), gone, Runner(bucket)], map[bucket := 2], map[], 0));
  }

  lemma NoSteps(run: seq<Step>)
    ensures Possible(EMPTY, UNLIMITED, run[..0]) && After(EMPTY, UNLIMITED, run[..0]) == EMPTY
  {
  }

  /** One step of a concrete run. */
  lemma Took(l: Limits, run: seq<Step>, i: nat, s: State, s': State)
    requires i < |run| && Possible(EMPTY, l, run[..i]) && After(EMPTY, l, run[..i]) == s
    requires Enabled(s, run[i]) && Next(s, l, run[i]) == s'
    ensures Possible(EMPTY, l, run[..i + 1]) && After(EMPTY, l, run[..i + 1]) == s'
  {
    assert run[..i + 1][..i] == run[..i];
  }
}
