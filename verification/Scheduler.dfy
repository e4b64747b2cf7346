/**
 One queue per rate-limit bucket, built as a chain of gates: every request waits
 for the gate of the one it arrived behind and opens its own when it lets go.
 Each `await` of the source splits a request into steps, and any request may
 take the next step.
 */
module Scheduler {
  import opened Wrappers

  type Bucket = string

  /** How far a request has got: `started` in the source is everything past `Waiting`, unless it was cancelled. */
  datatype Phase = Waiting | Running | Finished | Cancelled

  /** `previous` is the request whose gate this one waits for; `open` is its own gate. */
  datatype Request = Request(bucket: Bucket, previous: Option<nat>, phase: Phase, released: bool, open: bool)

  datatype State = State(requests: seq<Request>, queues: map<Bucket, nat>, waiting: map<Bucket, nat>, queued: nat)

  datatype Limits = Limits(maxQueued: Option<nat>, maxQueuedPerBucket: Option<nat>)

  datatype Step =
    | Arrive(bucket: Bucket)
    | Start(id: nat)
    | Abort(id: nat)
    | ReleaseEarly(id: nat)
    | Settle(id: nat)
    /** A cancelled request's gate opens after the gate ahead of it. */
    | Follow(id: nat)

  const EMPTY := State([], map[], map[], 0)

  // ---------- the steps, as functions of the whole state ----------

  function WaitingOn(s: State, bucket: Bucket): nat {
    if bucket in s.waiting then s.waiting[bucket] else 0
  }

  /** The queue is full for a request that would have to wait. */
  predicate Overloaded(s: State, l: Limits, bucket: Bucket) {
    bucket in s.queues &&
    ((l.maxQueued.Some? && s.queued >= l.maxQueued.value)
     || (l.maxQueuedPerBucket.Some? && WaitingOn(s, bucket) >= l.maxQueuedPerBucket.value))
  }

  predicate GateAheadOpen(s: State, id: nat) {
    id < |s.requests| &&
    (s.requests[id].previous.Some? ==>
       s.requests[id].previous.value < |s.requests| && s.requests[s.requests[id].previous.value].open)
  }

  predicate Enabled(s: State, step: Step) {
    match step
    case Arrive(_) => true
    case Start(id) => id < |s.requests| && s.requests[id].phase == Waiting && GateAheadOpen(s, id)
    case Abort(id) => id < |s.requests| && s.requests[id].phase == Waiting
    case ReleaseEarly(id) => id < |s.requests| && s.requests[id].phase == Running
    case Settle(id) => id < |s.requests| && s.requests[id].phase == Running
    case Follow(id) =>
      id < |s.requests| && s.requests[id].phase == Cancelled && !s.requests[id].open && GateAheadOpen(s, id)
  }

  /** A request that waited for another's gate no longer counts as waiting. */
  function Dequeued(s: State, id: nat): State
    requires id < |s.requests|
  {
    var r := s.requests[id];
    if r.previous.None? then s
    else
      var left := WaitingOn(s, r.bucket) - 1;
      s.(queued := if s.queued > 0 then s.queued - 1 else 0,
         waiting := if left > 0 then s.waiting[r.bucket := left] else s.waiting - {r.bucket})
  }

  /** `release`: the gate opens, or is left to follow the one ahead, and the queue forgets its tail. */
  function Released(s: State, id: nat, started: bool): State
    requires id < |s.requests|
  {
    var r := s.requests[id];
    if r.released then s
    else
      s.(requests := s.requests[id := r.(released := true, open := started || r.previous.None?)],
         queues := if r.bucket in s.queues && s.queues[r.bucket] == id then s.queues - {r.bucket} else s.queues)
  }

  function InPhase(s: State, id: nat, phase: Phase): State
    requires id < |s.requests|
  {
    s.(requests := s.requests[id := s.requests[id].(phase := phase)])
  }

  function Next(s: State, l: Limits, step: Step): State
    requires Enabled(s, step)
  {
    match step
    case Arrive(bucket) =>
      if Overloaded(s, l, bucket) then s
      else
        var previous := if bucket in s.queues then Some(s.queues[bucket]) else None;
        State(
          s.requests + [Request(bucket, previous, Waiting, false, false)],
          s.queues[bucket := |s.requests|],
          if previous.Some? then s.waiting[bucket := WaitingOn(s, bucket) + 1] else s.waiting,
          if previous.Some? then s.queued + 1 else s.queued)
    case Start(id) => InPhase(Dequeued(s, id), id, Running)
    case Abort(id) => Released(InPhase(Dequeued(s, id), id, Cancelled), id, false)
    case ReleaseEarly(id) => Released(s, id, true)
    case Settle(id) => Released(InPhase(s, id, Finished), id, true)
    case Follow(id) => s.(requests := s.requests[id := s.requests[id].(open := true)])
  }

  // ---------- the invariant of every reachable state ----------

  ghost predicate LinksOk(s: State) {
    && (forall i :: 0 <= i < |s.requests| && s.requests[i].previous.Some? ==>
        s.requests[i].previous.value < i && s.requests[s.requests[i].previous.value].bucket == s.requests[i].bucket)
    && (forall i, j :: 0 <= i < j < |s.requests| && s.requests[i].previous.Some? ==>
        s.requests[i].previous != s.requests[j].previous)
    && (forall b :: b in s.queues ==> s.queues[b] < |s.requests| && s.requests[s.queues[b]].bucket == b)
    && (forall b, i :: b in s.queues && 0 <= i < |s.requests| ==> s.requests[i].previous != Some(s.queues[b]))
  }

  /** What holds of one request, given whether the gate ahead of it is open. */
  ghost predicate RequestOk(r: Request, ahead: bool) {
    && (r.open || r.phase == Running || r.phase == Finished ==> ahead)
    && (r.open ==> r.released)
    && (r.phase == Waiting ==> !r.released)
    && (r.phase == Finished || r.phase == Cancelled ==> r.released)
    && (r.released && (r.phase != Cancelled || r.previous.None?) ==> r.open)
  }

  /** A gate opens only once the gate ahead is open, and a task starts only then. */
  ghost predicate GatesOk(s: State) {
    && (forall i :: 0 <= i < |s.requests| ==> RequestOk(s.requests[i], GateAheadOpen(s, i)))
    && (forall b :: b in s.queues ==> s.queues[b] < |s.requests| && !s.requests[s.queues[b]].released)
  }

  /** The requests of a bucket that wait for somebody else's gate. */
  ghost function Waiters(s: State, bucket: Bucket): set<nat> {
    set i: nat | i < |s.requests| && s.requests[i].bucket == bucket
                 && s.requests[i].phase == Waiting && s.requests[i].previous.Some?
  }

  ghost function AllWaiters(s: State): set<nat> {
    set i: nat | i < |s.requests| && s.requests[i].phase == Waiting && s.requests[i].previous.Some?
  }

  /** The counters count, and no bucket without waiters keeps an entry. */
  ghost predicate CountsOk(s: State) {
    && s.queued == |AllWaiters(s)|
    && (forall b :: WaitingOn(s, b) == |Waiters(s, b)|)
    && (forall b :: b in s.waiting ==> s.waiting[b] > 0)
  }

  ghost predicate Valid(s: State) {
    LinksOk(s) && GatesOk(s) && CountsOk(s)
  }

  /** The next state of a request, when its step only opens gates and only forgets a tail. */
  ghost predicate Advances(s: State, s': State, id: nat) {
    && id < |s.requests| == |s'.requests|
    && s'.requests == s.requests[id := s'.requests[id]]
    && s'.requests[id].bucket == s.requests[id].bucket && s'.requests[id].previous == s.requests[id].previous
    && (s.requests[id].open ==> s'.requests[id].open)
    && RequestOk(s'.requests[id], GateAheadOpen(s, id))
    && (forall b :: b in s'.queues ==> b in s.queues && s'.queues[b] == s.queues[b])
    && (forall b :: b in s'.queues && s'.queues[b] == id ==> !s'.requests[id].released)
  }

  lemma AdvanceOk(s: State, s': State, id: nat)
    requires LinksOk(s) && GatesOk(s) && Advances(s, s', id)
    ensures LinksOk(s') && GatesOk(s')
  {
    AdvanceGates(s, s', id);
  }

  /** Opening gates shuts none, so whoever could go on still can. */
  lemma AdvanceGates(s: State, s': State, id: nat)
    requires LinksOk(s) && GatesOk(s) && Advances(s, s', id)
    ensures GatesOk(s')
  {
    hide LinksOk;
    forall i | 0 <= i < |s.requests| ensures RequestOk(s'.requests[i], GateAheadOpen(s', i)) {
      assert RequestOk(s.requests[i], GateAheadOpen(s, i));
      assert GateAheadOpen(s, i) ==> GateAheadOpen(s', i);
    }
  }

  lemma StepAdvances(s: State, l: Limits, step: Step)
    requires LinksOk(s) && GatesOk(s) && Enabled(s, step) && !step.Arrive?
    ensures Advances(s, Next(s, l, step), step.id)
  {
    hide LinksOk, GatesOk, Next, RequestOk, GateAheadOpen;
    OnlyItself(s, l, step);
    StaysOk(s, l, step);
    OnlyItsTail(s, l, step);
  }

  /** A step changes one request, and shuts no gate. */
  lemma OnlyItself(s: State, l: Limits, step: Step)
    requires Enabled(s, step) && !step.Arrive?
    ensures var s', id := Next(s, l, step), step.id;
      && id < |s.requests| == |s'.requests| && s'.requests == s.requests[id := s'.requests[id]]
      && s'.requests[id].bucket == s.requests[id].bucket && s'.requests[id].previous == s.requests[id].previous
      && (s.requests[id].open ==> s'.requests[id].open || !s.requests[id].released)
  {
    hide GateAheadOpen, WaitingOn;
  }

  lemma StaysOk(s: State, l: Limits, step: Step)
    requires GatesOk(s) && Enabled(s, step) && !step.Arrive?
    ensures RequestOk(Next(s, l, step).requests[step.id], GateAheadOpen(s, step.id))
    ensures s.requests[step.id].open ==> s.requests[step.id].released
  {
    hide WaitingOn;
    assert RequestOk(s.requests[step.id], GateAheadOpen(s, step.id));
  }

  lemma OnlyItsTail(s: State, l: Limits, step: Step)
    requires LinksOk(s) && GatesOk(s) && Enabled(s, step) && !step.Arrive?
    ensures var s' := Next(s, l, step);
      && (forall b :: b in s'.queues ==> b in s.queues && s'.queues[b] == s.queues[b])
      && (forall b :: b in s'.queues && s'.queues[b] == step.id ==> !s'.requests[step.id].released)
  {
    OwnTail(s, step.id);
    hide LinksOk, GateAheadOpen, RequestOk, Next;
    forall b | b in Next(s, l, step).queues
      ensures b in s.queues && Next(s, l, step).queues[b] == s.queues[b]
      ensures s.queues[b] == step.id ==> !Next(s, l, step).requests[step.id].released
    {
      QueuesShrink(s, l, step, b);
    }
  }

  /** Only its own bucket can have a request as its tail. */
  lemma OwnTail(s: State, id: nat)
    requires LinksOk(s) && id < |s.requests|
    ensures forall b :: b in s.queues && s.queues[b] == id ==> b == s.requests[id].bucket
  {
  }

  /** `s'` has one more request, at the end of its bucket's queue. */
  ghost predicate Queues(s: State, s': State, bucket: Bucket) {
    && |s'.requests| == |s.requests| + 1 && (forall i :: 0 <= i < |s.requests| ==> s'.requests[i] == s.requests[i])
    && s'.requests[|s.requests|].bucket == bucket && s'.queues == s.queues[bucket := |s.requests|]
    && s'.requests[|s.requests|].previous == if bucket in s.queues then Some(s.queues[bucket]) else None
  }

  lemma ArriveLinks(s: State, l: Limits, bucket: Bucket)
    requires LinksOk(s)
    ensures LinksOk(Next(s, l, Arrive(bucket)))
  {
    hide Overloaded, WaitingOn;
    if !Overloaded(s, l, bucket) {
      var s' := Next(s, l, Arrive(bucket));
      assert Queues(s, s', bucket) by { hide LinksOk; }
      hide Queues, Next;
    }
  }

  lemma ArriveGates(s: State, l: Limits, bucket: Bucket)
    requires LinksOk(s) && GatesOk(s)
    ensures GatesOk(Next(s, l, Arrive(bucket)))
  {
  }

  lemma StepGates(s: State, l: Limits, step: Step)
    requires LinksOk(s) && GatesOk(s) && Enabled(s, step)
    ensures LinksOk(Next(s, l, step)) && GatesOk(Next(s, l, step))
  {
    if step.Arrive? {
      ArriveLinks(s, l, step.bucket);
      ArriveGates(s, l, step.bucket);
    } else {
      StepAdvances(s, l, step);
      AdvanceOk(s, Next(s, l, step), step.id);
    }
  }

  /** One request left the waiting ones. */
  lemma LeftWaiting(s: State, s': State, id: nat)
    requires CountsOk(s) && id < |s.requests| && s.requests[id].phase == Waiting && s.requests[id].previous.Some?
    requires |s'.requests| == |s.requests| && s'.requests == s.requests[id := s'.requests[id]]
    requires s'.requests[id].phase != Waiting && s'.requests[id].bucket == s.requests[id].bucket
    requires s'.waiting == Dequeued(s, id).waiting && s'.queued == Dequeued(s, id).queued
    ensures CountsOk(s')
  {
    var bucket := s.requests[id].bucket;
    assert id in AllWaiters(s) && id in Waiters(s, bucket);
    assert AllWaiters(s') == AllWaiters(s) - {id};
    assert Waiters(s', bucket) == Waiters(s, bucket) - {id};
    forall b ensures WaitingOn(s', b) == |Waiters(s', b)| {
      if b != bucket {
        assert Waiters(s', b) == Waiters(s, b);
      }
    }
  }

  /** A step that moves nobody into or out of waiting. */
  lemma SameWaiting(s: State, s': State, id: nat)
    requires CountsOk(s) && id < |s.requests| && s'.waiting == s.waiting && s'.queued == s.queued
    requires |s'.requests| == |s.requests| && s'.requests == s.requests[id := s'.requests[id]]
    requires s'.requests[id].bucket == s.requests[id].bucket && s'.requests[id].previous == s.requests[id].previous
    requires s.requests[id].previous.Some? ==> (s'.requests[id].phase == Waiting <==> s.requests[id].phase == Waiting)
    ensures CountsOk(s')
  {
    assert AllWaiters(s') == AllWaiters(s);
    forall b ensures WaitingOn(s', b) == |Waiters(s', b)| {
      assert Waiters(s', b) == Waiters(s, b);
    }
  }

  lemma ArriveCounts(s: State, l: Limits, bucket: Bucket)
    requires CountsOk(s)
    ensures CountsOk(Next(s, l, Arrive(bucket)))
  {
    hide Overloaded, CountsOk;
    if !Overloaded(s, l, bucket) {
      ArrivedCounts(s, Next(s, l, Arrive(bucket)), bucket);
    }
  }

  /** `r` arrived last. */
  ghost predicate Arrived(s: State, s': State, r: Request) {
    s'.requests == s.requests + [r] && r.phase == Waiting
  }

  lemma ArrivedWaiters(s: State, s': State, r: Request, b: Bucket)
    requires Arrived(s, s', r)
    ensures AllWaiters(s') == AllWaiters(s) + if r.previous.Some? then {|s.requests|} else {}
    ensures Waiters(s', b) == Waiters(s, b) + if r.previous.Some? && r.bucket == b then {|s.requests|} else {}
    ensures |s.requests| !in AllWaiters(s) && |s.requests| !in Waiters(s, b)
  {
  }

  lemma ArrivedCounts(s: State, s': State, bucket: Bucket)
    requires CountsOk(s) && |s'.requests| == |s.requests| + 1 && Arrived(s, s', s'.requests[|s.requests|])
    requires s'.requests[|s.requests|].bucket == bucket
    requires if s'.requests[|s.requests|].previous.Some?
             then s'.queued == s.queued + 1 && s'.waiting == s.waiting[bucket := WaitingOn(s, bucket) + 1]
             else s'.queued == s.queued && s'.waiting == s.waiting
    ensures CountsOk(s')
  {
    hide AllWaiters, Waiters, Arrived, Overloaded;
    var r := s'.requests[|s.requests|];
    ArrivedWaiters(s, s', r, bucket);
    forall b ensures WaitingOn(s', b) == |Waiters(s', b)| {
      OneMoreWaits(s, s', r, bucket, b);
    }
  }

  lemma OneMoreWaits(s: State, s': State, r: Request, bucket: Bucket, b: Bucket)
    requires Arrived(s, s', r) && r.bucket == bucket && WaitingOn(s, b) == |Waiters(s, b)|
    requires s'.waiting == if r.previous.Some? then s.waiting[bucket := WaitingOn(s, bucket) + 1] else s.waiting
    ensures WaitingOn(s', b) == |Waiters(s', b)|
  {
    ArrivedWaiters(s, s', r, b);
    hide Waiters, Arrived;
  }

  lemma StepValid(s: State, l: Limits, step: Step)
    requires Valid(s) && Enabled(s, step)
    ensures Valid(Next(s, l, step))
  {
    hide CountsOk, GatesOk;
    StepGates(s, l, step);
    if step.Arrive? { ArriveCounts(s, l, step.bucket); } else { AdvanceCounts(s, l, step); }
  }

  lemma AdvanceCounts(s: State, l: Limits, step: Step)
    requires CountsOk(s) && LinksOk(s) && Enabled(s, step) && !step.Arrive?
    ensures CountsOk(Next(s, l, step))
  {
    hide CountsOk, LinksOk, GateAheadOpen;
    if (step.Start? || step.Abort?) && s.requests[step.id].previous.Some? {
      LeftWaiting(s, Next(s, l, step), step.id);
    } else {
      SameWaiting(s, Next(s, l, step), step.id);
    }
  }

  // ---------- chains ----------

  /** `ahead` is in the chain of gates that `id` waits for. */
  ghost predicate Ahead(s: State, ahead: nat, id: nat)
    requires LinksOk(s)
    decreases id
  {
    id < |s.requests| && s.requests[id].previous.Some? &&
    var p := s.requests[id].previous.value;
    ahead == p || Ahead(s, ahead, p)
  }

  ghost predicate InChain(s: State, a: nat, b: nat)
    requires LinksOk(s)
  {
    a == b || Ahead(s, a, b) || Ahead(s, b, a)
  }

  /** An open gate has only open gates ahead of it. */
  lemma {:induction false} OpenBehindOpen(s: State, ahead: nat, id: nat)
    requires Valid(s) && Ahead(s, ahead, id) && GateAheadOpen(s, id)
    ensures ahead < id && s.requests[ahead].open && s.requests[ahead].bucket == s.requests[id].bucket
    decreases id
  {
    var p := s.requests[id].previous.value;
    if ahead != p {
      assert RequestOk(s.requests[p], GateAheadOpen(s, p));
      OpenBehindOpen(s, ahead, p);
    }
  }

  /**
   A task that may start, or has, finds every request ahead of it in its chain
   out of the way: it let its slot go, or was cancelled before it started.
   */
  lemma {:induction false} StartsInTurn(s: State, ahead: nat, id: nat)
    requires Valid(s) && id < |s.requests| && Ahead(s, ahead, id)
    requires Enabled(s, Start(id)) || s.requests[id].phase == Running || s.requests[id].phase == Finished
    ensures ahead < id && var r := s.requests[ahead]; r.open && r.released && r.phase != Waiting
  {
    assert RequestOk(s.requests[id], GateAheadOpen(s, id));
    OpenBehindOpen(s, ahead, id);
    assert RequestOk(s.requests[ahead], GateAheadOpen(s, ahead));
  }

  /** `id` runs and still holds its slot. */
  predicate Holds(s: State, id: nat) {
    id < |s.requests| && s.requests[id].phase == Running && !s.requests[id].released
  }

  /** No two requests of one chain hold a slot at once. */
  lemma OneHolderPerChain(s: State, a: nat, b: nat)
    requires Valid(s) && Holds(s, a) && Holds(s, b) && InChain(s, a, b)
    ensures a == b
  {
    if Ahead(s, a, b) {
      StartsInTurn(s, a, b);
    } else if Ahead(s, b, a) {
      StartsInTurn(s, b, a);
    }
  }

  // ---------- nothing gets stuck ----------

  /** The first gate that is not open; all those before it are. */
  ghost predicate FirstClosed(s: State, id: nat) {
    id < |s.requests| && !s.requests[id].open && forall i :: 0 <= i < id ==> s.requests[i].open
  }

  lemma {:induction false} FindFirstClosed(s: State, n: nat) returns (id: Option<nat>)
    requires n <= |s.requests| && forall i :: 0 <= i < n ==> s.requests[i].open
    ensures id.Some? ==> FirstClosed(s, id.value)
    ensures id.None? ==> forall i :: 0 <= i < |s.requests| ==> s.requests[i].open
    decreases |s.requests| - n
  {
    if n == |s.requests| {
      id := None;
    } else if s.requests[n].open {
      id := FindFirstClosed(s, n + 1);
    } else {
      id := Some(n);
    }
  }

  /** A step of a request already there, on its way to being over. */
  predicate GoesOn(step: Step) {
    step.Start? || step.Follow? || step.Settle?
  }

  /** How many such steps a request has before it. */
  function StepsLeft(r: Request): nat {
    (if r.phase == Waiting then 2 else if r.phase == Running then 1 else 0) + if r.open then 0 else 1
  }

  /**
   In every reachable state either every gate is open, or a task is running, or
   some request can go on: no slot is ever lost.
   */
  lemma NeverStuck(s: State) returns (step: Option<Step>)
    requires Valid(s)
    ensures step.None? ==> forall i :: 0 <= i < |s.requests| ==> s.requests[i].open
    ensures step.Some? ==> GoesOn(step.value) && Enabled(s, step.value)
  {
    var id := FindFirstClosed(s, 0);
    if id.None? { return None; }
    var i := id.value;
    assert RequestOk(s.requests[i], GateAheadOpen(s, i));
    assert GateAheadOpen(s, i);
    step := Some(
      match s.requests[i].phase
      case Waiting => Start(i)
      case Running => Settle(i)
      case _ => Follow(i));
  }

  /** Once every task has settled and nothing is left to follow or start, every gate is open. */
  lemma AllOpenInTheEnd(s: State)
    requires Valid(s)
    requires forall step: Step :: GoesOn(step) ==> !Enabled(s, step)
    ensures forall i :: 0 <= i < |s.requests| ==> s.requests[i].open
  {
    var step := NeverStuck(s);
  }

  function Work(requests: seq<Request>): nat {
    if requests == [] then 0 else Work(requests[..|requests| - 1]) + StepsLeft(requests[|requests| - 1])
  }

  lemma {:induction false} LessWork(a: seq<Request>, id: nat, r: Request)
    requires id < |a| && StepsLeft(r) < StepsLeft(a[id])
    ensures Work(a[id := r]) < Work(a)
  {
    var b := a[id := r];
    if id == |a| - 1 {
      assert b[..|a| - 1] == a[..|a| - 1];
    } else {
      assert b[..|a| - 1] == a[..|a| - 1][id := r];
      LessWork(a[..|a| - 1], id, r);
    }
  }

  lemma StepLessWork(s: State, l: Limits, step: Step)
    requires Valid(s) && Enabled(s, step) && GoesOn(step)
    ensures Work(Next(s, l, step).requests) < Work(s.requests)
  {
    hide LinksOk, CountsOk, Work;
    var id := step.id;
    assert RequestOk(s.requests[id], GateAheadOpen(s, id));
    var r := Next(s, l, step).requests[id];
    assert Next(s, l, step).requests == s.requests[id := r];
    LessWork(s.requests, id, r);
  }

  // ---------- one request per bucket ----------

  /** `id` has the slot or still wants it. */
  predicate Busy(s: State, id: nat) {
    id < |s.requests| && (s.requests[id].phase == Waiting || Holds(s, id))
  }

  /** Everybody who has or wants the slot of `bucket` is in the chain of its tail, where the next one will queue. */
  ghost predicate Serial(s: State, bucket: Bucket)
    requires LinksOk(s)
  {
    forall id: nat :: Busy(s, id) && s.requests[id].bucket == bucket ==>
      bucket in s.queues && (id == s.queues[bucket] || Ahead(s, id, s.queues[bucket]))
  }

  /** Two requests ahead of the same one are in one chain. */
  lemma {:induction false} ChainIsLinear(s: State, a: nat, b: nat, id: nat)
    requires LinksOk(s) && (a == id || Ahead(s, a, id)) && (b == id || Ahead(s, b, id))
    ensures InChain(s, a, b)
    decreases id
  {
    if a != id && b != id {
      ChainIsLinear(s, a, b, s.requests[id].previous.value);
    }
  }

  /** A serial bucket has at most one request in flight. */
  lemma SerialMeansOne(s: State, bucket: Bucket, a: nat, b: nat)
    requires Valid(s) && Serial(s, bucket) && Holds(s, a) && Holds(s, b)
    requires s.requests[a].bucket == s.requests[b].bucket == bucket
    ensures a == b
  {
    ChainIsLinear(s, a, b, s.queues[bucket]);
    OneHolderPerChain(s, a, b);
  }

  /** The gate of `id` is open, or will be as soon as the cancelled ones ahead have followed. */
  ghost predicate LetsThrough(s: State, id: nat)
    requires LinksOk(s)
    decreases id
  {
    id < |s.requests| &&
    (s.requests[id].open
     || (s.requests[id].phase == Cancelled && s.requests[id].previous.Some? && LetsThrough(s, s.requests[id].previous.value)))
  }

  /** A gate lets through exactly when nobody at it or ahead of it is busy. */
  lemma {:induction false} LetsThroughUnlessBusy(s: State, id: nat)
    requires Valid(s) && id < |s.requests|
    ensures LetsThrough(s, id) <==> forall a: nat :: a == id || Ahead(s, a, id) ==> !Busy(s, a)
    decreases id
  {
    var r := s.requests[id];
    assert RequestOk(r, GateAheadOpen(s, id));
    if r.previous.Some? {
      LetsThroughUnlessBusy(s, r.previous.value);
    }
    if r.open {
      forall a: nat | Ahead(s, a, id) ensures !Busy(s, a) {
        OpenBehindOpen(s, a, id);
        assert RequestOk(s.requests[a], GateAheadOpen(s, a));
      }
    } else if r.phase != Cancelled {
      assert Busy(s, id);
    } else {
      var p := r.previous.value;
      assert p < id && forall a: nat :: Ahead(s, a, id) <==> a == p || Ahead(s, a, p);
      if !LetsThrough(s, p) {
        var a: nat :| (a == p || Ahead(s, a, p)) && Busy(s, a);
        assert Ahead(s, a, id);
      }
    }
  }

  lemma {:induction false} AheadIsBefore(s: State, a: nat, b: nat)
    requires LinksOk(s) && Ahead(s, a, b)
    ensures a < b < |s.requests|
    decreases b
  {
    if a != s.requests[b].previous.value {
      AheadIsBefore(s, a, s.requests[b].previous.value);
    }
  }

  /** Steps never change who is ahead of whom. */
  lemma {:induction false} SameAhead(s: State, s': State, a: nat, b: nat)
    requires LinksOk(s) && LinksOk(s') && b < |s.requests| <= |s'.requests|
    requires forall i :: 0 <= i < |s.requests| ==> s'.requests[i].previous == s.requests[i].previous
    ensures Ahead(s', a, b) <==> Ahead(s, a, b)
    decreases b
  {
    if s.requests[b].previous.Some? {
      SameAhead(s, s', a, s.requests[b].previous.value);
    }
  }

  lemma StepKeepsPrevious(s: State, l: Limits, step: Step)
    requires LinksOk(s) && Enabled(s, step)
    ensures |s.requests| <= |Next(s, l, step).requests|
    ensures forall i :: 0 <= i < |s.requests| ==> Next(s, l, step).requests[i].previous == s.requests[i].previous
    ensures forall i :: 0 <= i < |s.requests| ==> Next(s, l, step).requests[i].bucket == s.requests[i].bucket
  {
    hide LinksOk, Overloaded, WaitingOn, GateAheadOpen;
  }

  /** The tail of a bucket gives up while somebody ahead of it is still in the way. */
  ghost predicate TailGivesUp(s: State, step: Step, bucket: Bucket)
    requires LinksOk(s)
  {
    step.Abort? && bucket in s.queues && s.queues[bucket] == step.id &&
    s.requests[step.id].previous.Some? && !LetsThrough(s, s.requests[step.id].previous.value)
  }

  lemma ArriveSerial(s: State, l: Limits, arriving: Bucket, bucket: Bucket)
    requires Valid(s) && Serial(s, bucket) && Valid(Next(s, l, Arrive(arriving)))
    ensures Serial(Next(s, l, Arrive(arriving)), bucket)
  {
    hide Overloaded, GatesOk, CountsOk;
    var s' := Next(s, l, Arrive(arriving));
    StepKeepsPrevious(s, l, Arrive(arriving));
    forall id: nat | Busy(s', id) && s'.requests[id].bucket == bucket
      ensures bucket in s'.queues && (id == s'.queues[bucket] || Ahead(s', id, s'.queues[bucket]))
    {
      if id < |s.requests| {
        assert s'.requests[id] == s.requests[id] && Busy(s, id);
        SameAhead(s, s', id, s.queues[bucket]);
      }
    }
  }

  lemma BusyBefore(s: State, l: Limits, step: Step, id: nat)
    requires Enabled(s, step) && !step.Arrive? && Busy(Next(s, l, step), id)
    ensures Busy(s, id) && Next(s, l, step).queues.Keys <= s.queues.Keys
  {
  }

  lemma QueuesShrink(s: State, l: Limits, step: Step, bucket: Bucket)
    requires Enabled(s, step) && !step.Arrive?
    ensures bucket in Next(s, l, step).queues ==> bucket in s.queues && Next(s, l, step).queues[bucket] == s.queues[bucket]
    ensures bucket !in Next(s, l, step).queues && bucket in s.queues ==>
              s.queues[bucket] == step.id && (step.Abort? || step.ReleaseEarly? || step.Settle?)
  {
  }

  /** Steps of a request already there, while the bucket keeps its tail. */
  lemma AdvanceSerial(s: State, l: Limits, step: Step, bucket: Bucket)
    requires Valid(s) && Serial(s, bucket) && Enabled(s, step) && !step.Arrive? && Valid(Next(s, l, step))
    requires bucket in Next(s, l, step).queues
    ensures Serial(Next(s, l, step), bucket)
  {
    hide CountsOk, GatesOk, LinksOk, Next, Busy;
    var s' := Next(s, l, step);
    StepKeepsPrevious(s, l, step);
    QueuesShrink(s, l, step, bucket);
    forall id: nat | Busy(s', id) ensures id < |s'.requests| {
      BusyIsThere(s', id);
    }
    forall id: nat | id < |s'.requests| && Busy(s', id) && s'.requests[id].bucket == bucket
      ensures id == s'.queues[bucket] || Ahead(s', id, s'.queues[bucket])
    {
      BusyBefore(s, l, step, id);
      BusyIsThere(s, id);
      SameAhead(s, s', id, s.queues[bucket]);
    }
  }

  lemma BusyIsThere(s: State, id: nat)
    requires Busy(s, id)
    ensures id < |s.requests|
  {
  }

  /** A bucket whose tail is forgotten stays serial exactly when nobody is busy on it any more. */
  lemma ForgottenSerial(s: State, l: Limits, step: Step, bucket: Bucket)
    requires Valid(s) && Serial(s, bucket) && Enabled(s, step) && Valid(Next(s, l, step))
    requires !step.Arrive? && bucket in s.queues && bucket !in Next(s, l, step).queues
    ensures Serial(Next(s, l, step), bucket) <==> forall a: nat :: Ahead(s, a, step.id) ==> !Busy(s, a)
  {
    hide GatesOk, CountsOk, GateAheadOpen, Next;
    var s' := Next(s, l, step);
    QueuesShrink(s, l, step, bucket);
    StepKeepsPrevious(s, l, step);
    forall a: nat | Ahead(s, a, step.id) && Busy(s, a) ensures Busy(s', a) && s'.requests[a].bucket == bucket {
      AheadIsBefore(s, a, step.id);
      SameBucket(s, a, step.id);
      OthersStay(s, l, step, a);
    }
    forall a: nat | Busy(s', a) && s'.requests[a].bucket == bucket ensures Ahead(s, a, step.id) && Busy(s, a) {
      BusyBefore(s, l, step, a);
      NotBusyAndForgotten(s, l, step, bucket);
    }
  }

  lemma OthersStay(s: State, l: Limits, step: Step, a: nat)
    requires Enabled(s, step) && !step.Arrive? && a < |s.requests| && a != step.id
    ensures a < |Next(s, l, step).requests| && Next(s, l, step).requests[a] == s.requests[a]
  {
  }

  /** A tail that is forgotten is not in the way itself. */
  lemma NotBusyAndForgotten(s: State, l: Limits, step: Step, bucket: Bucket)
    requires Enabled(s, step) && !step.Arrive? && bucket in s.queues && bucket !in Next(s, l, step).queues
    ensures !Busy(Next(s, l, step), step.id)
  {
  }

  lemma {:induction false} SameBucket(s: State, a: nat, b: nat)
    requires LinksOk(s) && Ahead(s, a, b)
    ensures a < |s.requests| && s.requests[a].bucket == s.requests[b].bucket
    decreases b
  {
    if a != s.requests[b].previous.value {
      SameBucket(s, a, s.requests[b].previous.value);
    }
  }

  /** A bucket without a tail has nobody busy, and no step but an arrival changes that. */
  lemma IdleSerial(s: State, l: Limits, step: Step, bucket: Bucket)
    requires Valid(s) && Serial(s, bucket) && Enabled(s, step) && Valid(Next(s, l, step))
    requires !step.Arrive? && bucket !in s.queues
    ensures Serial(Next(s, l, step), bucket)
  {
    forall a: nat | Busy(Next(s, l, step), a) && Next(s, l, step).requests[a].bucket == bucket ensures false {
      BusyBefore(s, l, step, a);
      StepKeepsPrevious(s, l, step);
    }
  }

  /**
   A step keeps a bucket serial unless it is the abort of its tail while somebody
   ahead of it is still in the way. Then the queue forgets the bucket, and the
   next request to arrive starts alongside.
   */
  lemma {:induction false} SerialUnlessTailGivesUp(s: State, l: Limits, step: Step, bucket: Bucket)
    requires Valid(s) && Serial(s, bucket) && Enabled(s, step)
    ensures Valid(Next(s, l, step))
    ensures Serial(Next(s, l, step), bucket) <==> !TailGivesUp(s, step, bucket)
  {
    hide GatesOk, CountsOk, Next, LetsThrough;
    StepValid(s, l, step);
    var s' := Next(s, l, step);
    if step.Arrive? {
      ArriveSerial(s, l, step.bucket, bucket);
    } else if bucket !in s.queues {
      IdleSerial(s, l, step, bucket);
    } else if bucket in s'.queues {
      AdvanceSerial(s, l, step, bucket);
      KeptTail(s, l, step, bucket);
    } else {
      QueuesShrink(s, l, step, bucket);
      ForgottenSerial(s, l, step, bucket);
      ForgottenTail(s, l, step, bucket);
    }
  }

  lemma KeptTail(s: State, l: Limits, step: Step, bucket: Bucket)
    requires Valid(s) && Enabled(s, step) && bucket in s.queues && bucket in Next(s, l, step).queues
    ensures !TailGivesUp(s, step, bucket)
  {
  }

  lemma ForgottenTail(s: State, l: Limits, step: Step, bucket: Bucket)
    requires Valid(s) && Enabled(s, step) && !step.Arrive?
    requires bucket in s.queues && bucket !in Next(s, l, step).queues && s.queues[bucket] == step.id
    ensures (forall a: nat :: Ahead(s, a, step.id) ==> !Busy(s, a)) <==> !TailGivesUp(s, step, bucket)
  {
    var r := s.requests[step.id];
    QueuesShrink(s, l, step, bucket);
    if r.previous.Some? {
      var p := r.previous.value;
      LetsThroughUnlessBusy(s, p);
      assert forall a: nat :: Ahead(s, a, step.id) <==> a == p || Ahead(s, a, p);
      if step.Abort? {
        if !LetsThrough(s, p) {
          var a: nat :| (a == p || Ahead(s, a, p)) && Busy(s, a);
          assert Ahead(s, a, step.id);
        }
      } else {
        forall a: nat | Ahead(s, a, step.id) ensures !Busy(s, a) {
          StartsInTurn(s, a, step.id);
        }
      }
    }
  }

  // ---------- whole runs ----------

  /** Every step of the run could be taken when it was. */
  ghost predicate Possible(s: State, l: Limits, run: seq<Step>)
    decreases |run|
  {
    run == [] ||
    (Possible(s, l, run[..|run| - 1]) && Enabled(After(s, l, run[..|run| - 1]), run[|run| - 1]))
  }

  /** Where a run leads; steps that are not enabled are not taken. */
  ghost function After(s: State, l: Limits, run: seq<Step>): State
    decreases |run|
  {
    if run == [] then s
    else
      var before, last := After(s, l, run[..|run| - 1]), run[|run| - 1];
      if Enabled(before, last) then Next(before, l, last) else before
  }

  lemma EmptyValid()
    ensures Valid(EMPTY)
  {
  }

  /** Neither limit is ever exceeded. */
  ghost predicate Bounded(s: State, l: Limits) {
    && (l.maxQueued.Some? ==> s.queued <= l.maxQueued.value)
    && (l.maxQueuedPerBucket.Some? ==> forall b :: WaitingOn(s, b) <= l.maxQueuedPerBucket.value)
  }

  /** In every reachable state gates open in order, counters count, and the queue is as short as it may be. */
  lemma {:induction false} AlwaysValid(l: Limits, run: seq<Step>)
    ensures Valid(After(EMPTY, l, run))
    ensures Bounded(After(EMPTY, l, run), l)
  {
    hide Valid;
    if run == [] {
      EmptyValid();
    } else {
      var before, last := run[..|run| - 1], run[|run| - 1];
      AlwaysValid(l, before);
      if Enabled(After(EMPTY, l, before), last) {
        StepValid(After(EMPTY, l, before), l, last);
        StepBounded(After(EMPTY, l, before), l, last);
      }
    }
  }

  lemma StepBounded(s: State, l: Limits, step: Step)
    requires Enabled(s, step) && Bounded(s, l)
    ensures Bounded(Next(s, l, step), l)
  {
    forall b ensures l.maxQueuedPerBucket.Some? ==> WaitingOn(Next(s, l, step), b) <= l.maxQueuedPerBucket.value {
      assert l.maxQueuedPerBucket.Some? ==> WaitingOn(s, b) <= l.maxQueuedPerBucket.value;
    }
  }

  /** A request is turned away exactly when it would have to wait and as many already do as may. */
  lemma OverloadedMeans(s: State, l: Limits, bucket: Bucket)
    requires Valid(s)
    ensures
      var waiting := set i: nat | i < |s.requests| && s.requests[i].phase == Waiting && s.requests[i].previous.Some?;
      var here := set i | i in waiting && s.requests[i].bucket == bucket;
      Overloaded(s, l, bucket) <==>
      bucket in s.queues &&
      ((l.maxQueued.Some? && |waiting| >= l.maxQueued.value) || (l.maxQueuedPerBucket.Some? && |here| >= l.maxQueuedPerBucket.value))
  {
    hide LinksOk, GatesOk, WaitingOn;
    var waiting := set i: nat | i < |s.requests| && s.requests[i].phase == Waiting && s.requests[i].previous.Some?;
    assert waiting == AllWaiters(s);
    assert (set i | i in waiting && s.requests[i].bucket == bucket) == Waiters(s, bucket);
  }

  // ---------- the scheduler itself ----------

  class RequestScheduler {
    var requests: seq<Request>
    var queues: map<Bucket, nat>
    var waiting: map<Bucket, nat>
    var queued: nat
    const limits: Limits

    constructor (limits: Limits)
      ensures Snapshot() == EMPTY && this.limits == limits
    {
      requests, queues, waiting, queued := [], map[], map[], 0;
      this.limits := limits;
    }

    ghost function Snapshot(): State
      reads this
    {
      State(requests, queues, waiting, queued)
    }

    /** The synchronous part of `run`: takes a place in the queue, or throws. */
    method Enqueue(bucket: Bucket) returns (id: Option<nat>)
      modifies this
      ensures Snapshot() == Next(old(Snapshot()), limits, Arrive(bucket))
      ensures id == if Overloaded(old(Snapshot()), limits, bucket) then None else Some(|old(requests)|)
    {
      var previous := if bucket in queues then Some(queues[bucket]) else None;
      var ahead := if bucket in waiting then waiting[bucket] else 0;
      if previous.Some? &&
         ((limits.maxQueued.Some? && queued >= limits.maxQueued.value)
          || (limits.maxQueuedPerBucket.Some? && ahead >= limits.maxQueuedPerBucket.value))
      {
        return None;
      }
      id := Some(|requests|);
      requests := requests + [Request(bucket, previous, Waiting, false, false)];
      queues := queues[bucket := id.value];
      if previous.Some? {
        queued := queued + 1;
        waiting := waiting[bucket := ahead + 1];
      }
    }

    /** The wait for the gate ahead is over, one way or the other. */
    method Dequeue(id: nat)
      requires id < |requests| && Valid(Snapshot()) && requests[id].phase == Waiting
      modifies `queued, `waiting
      ensures Snapshot() == Dequeued(old(Snapshot()), id)
    {
      var r := requests[id];
      if r.previous.Some? {
        Counted(Snapshot(), id);
        queued := queued - 1;
        var left := (if r.bucket in waiting then waiting[r.bucket] else 1) - 1;
        if left > 0 {
          waiting := waiting[r.bucket := left];
        } else {
          waiting := waiting - {r.bucket};
        }
      }
    }

    /** Frees a request's slot: its gate opens now, or after the one ahead. */
    method Release(id: nat, started: bool)
      requires id < |requests|
      modifies `requests, `queues
      ensures Snapshot() == Released(old(Snapshot()), id, started)
    {
      var r := requests[id];
      if r.released { return; }
      r := r.(released := true);
      r := r.(open := started || r.previous.None?);
      requests := requests[id := r];
      if r.bucket in queues && queues[r.bucket] == id { queues := queues - {r.bucket}; }
    }

    /** Any step a request takes once it is in the queue. */
    method Take(step: Step)
      requires Valid(Snapshot()) && Enabled(Snapshot(), step) && !step.Arrive?
      modifies this
      ensures Snapshot() == Next(old(Snapshot()), limits, step) && Valid(Snapshot())
    {
      StepValid(Snapshot(), limits, step);
      hide Valid;
      match step
      case Start(id) =>
        Dequeue(id);
        requests := requests[id := requests[id].(phase := Running)];
      case Abort(id) =>
        Dequeue(id);
        requests := requests[id := requests[id].(phase := Cancelled)];
        Release(id, false);
      case ReleaseEarly(id) =>
        Release(id, true);
      case Settle(id) =>
        requests := requests[id := requests[id].(phase := Finished)];
        Release(id, true);
      case Follow(id) =>
        requests := requests[id := requests[id].(open := true)];
    }
  }

  /** A waiting request is in the counts. */
  lemma Counted(s: State, id: nat)
    requires Valid(s) && id < |s.requests| && s.requests[id].phase == Waiting && s.requests[id].previous.Some?
    ensures s.queued > 0 && WaitingOn(s, s.requests[id].bucket) > 0
  {
    assert id in AllWaiters(s) && id in Waiters(s, s.requests[id].bucket);
  }
}
