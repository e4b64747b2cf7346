/**
 The retention policy behind a `Collection`: one record per tracked key, shared
 by the policy map, an intrusive recency list and a min-heap of deadlines with
 lazy deletion and lazy re-filing. A record dropped from the map stays in the
 heap, stale, until it surfaces; one whose deadline moved later stays filed where
 it was.
 */
module RetentionPolicy {
  import opened Wrappers
  import opened Sequences
  import opened HeapOrder
  import opened RetentionModel

  /** A record: list node, heap element and copy of the value in one. */
  class Entry {
    const key: Key
    var value: Value
    var older: Entry?
    var newer: Entry?
    var inLru: bool
    /** In ms; `Timed` says it is not 0, and only timed records are filed. */
    var window: real
    var deadline: real
    /** This record's key in `HeapOrder`; behind `deadline` while the record has moved. */
    var filed: real

    constructor (key: Key, value: Value, window: real, deadline: real)
      ensures this.key == key && this.value == value && older == newer == null && !inLru
      ensures this.window == window && this.deadline == filed == deadline
    {
      this.key, this.value, older, newer, inLru := key, value, null, null, false;
      this.window, this.deadline, filed := window, deadline, deadline;
    }

    /** A copy of `from` with another window and deadline. */
    constructor Copy(from: Entry, window: real, deadline: real)
      ensures key == from.key && value == from.value && older == from.older && newer == from.newer && inLru == from.inLru
      ensures this.window == window && this.deadline == filed == deadline
    {
      this.key, value, older, newer, inLru := from.key, from.value, from.older, from.newer, from.inLru;
      this.window, this.deadline, filed := window, deadline, deadline;
    }
  }

  /** The keys the heap is ordered by. */
  ghost function Filed(h: seq<Entry>): (f: seq<real>)
    reads h`filed
    ensures |f| == |h| && forall i :: 0 <= i < |h| ==> f[i] == h[i].filed
  {
    if h == [] then [] else Filed(h[..|h| - 1]) + [h[|h| - 1].filed]
  }

  lemma FiledUpdate(h: seq<Entry>, i: nat, e: Entry)
    requires i < |h|
    ensures Filed(h[i := e]) == Filed(h)[i := e.filed]
  {
  }

  ghost predicate Once<T>(s: seq<T>) {
    forall e :: e in s ==> multiset(s)[e] == 1
  }

  lemma TakenOff<T>(all: seq<T>, rest: seq<T>, x: T)
    requires Once(all) && multiset(rest) + multiset{x} == multiset(all)
    ensures Once(rest) && |rest| == |all| - 1
    ensures x in all && forall e :: e in rest <==> e in all && e != x
  {
    assert |multiset(rest) + multiset{x}| == |multiset(all)|;
    assert x in multiset(all) && multiset(all)[x] == 1 && multiset(rest)[x] == 0;
    forall e ensures e in rest <==> e in all && e != x {
      assert e in rest <==> multiset(rest)[e] > 0;
      assert e in all <==> multiset(all)[e] > 0;
    }
    forall e | e in rest ensures multiset(rest)[e] == 1 {
      assert multiset(all)[e] == 1;
    }
  }

  lemma OnceSplit<T>(s: seq<T>, i: nat)
    requires Once(s) && i < |s|
    ensures s[i] !in s[..i] && s[..i + 1] == s[..i] + [s[i]]
  {
    var before, after := s[..i], s[i + 1..];
    assert s == before + [s[i]] + after;
    assert multiset(s)[s[i]] == multiset(before)[s[i]] + 1 + multiset(after)[s[i]];
  }

  lemma PutOn<T>(rest: seq<T>, all: seq<T>, x: T)
    requires Once(rest) && x !in rest && multiset(all) == multiset(rest) + multiset{x}
    ensures Once(all) && |all| == |rest| + 1
    ensures forall e :: e in all <==> e in rest || e == x
  {
    assert |multiset(rest) + multiset{x}| == |multiset(all)|;
    forall e ensures e in all <==> e in rest || e == x {
      assert e in rest <==> multiset(rest)[e] > 0;
      assert e in all <==> multiset(all)[e] > 0;
    }
    forall e | e in all ensures multiset(all)[e] == 1 {
      assert e in rest ==> multiset(rest)[e] == 1;
    }
  }

  /** `h` with `entry` pushed on it. */
  method HeapPush(h: seq<Entry>, entry: Entry) returns (heap: seq<Entry>)
    requires Ordered(Filed(h)) && Once(h) && entry !in h
    ensures Ordered(Filed(heap)) && Once(heap) && |heap| == |h| + 1
    ensures forall e :: e in heap <==> e in h || e == entry
  {
    heap := SiftUp(h, entry);
    PutOn(h, heap, entry);
  }

  method SiftUp(h: seq<Entry>, entry: Entry) returns (heap: seq<Entry>)
    requires Ordered(Filed(h))
    ensures Ordered(Filed(heap)) && multiset(heap) == multiset(h) + multiset{entry}
  {
    var i := |h|;
    heap := h + [entry];
    assert Filed(heap)[..i] == Filed(h);
    OpenedAtEnd(Filed(heap), entry.filed);
    while i > 0
      invariant 0 <= i < |heap| == |h| + 1
      invariant multiset(heap[i := entry]) == multiset(h) + multiset{entry}
      invariant OrderedAbove(Filed(heap), i, entry.filed)
    {
      var parent := (i - 1) / 2;
      var above := heap[parent];
      if above.filed <= entry.filed { break; }
      HoleMoved(heap, i, parent, entry);
      SiftUpStep(Filed(heap), i, entry.filed);
      FiledUpdate(heap, i, above);
      heap := heap[i := above];
      i := parent;
    }
    ClosedAbove(Filed(heap), i, entry.filed);
    FiledUpdate(heap, i, entry);
    heap := heap[i := entry];
  }

  function SmallerChild(h: seq<Entry>, i: nat): (child: nat)
    requires 2 * i + 1 < |h|
    reads h
    ensures LeastChild(Filed(h), i, child)
  {
    var left := 2 * i + 1;
    if left + 1 < |h| && h[left + 1].filed < h[left].filed then left + 1 else left
  }

  /** `h` with its top taken off. */
  method HeapPop(h: seq<Entry>) returns (heap: seq<Entry>)
    requires h != [] && Ordered(Filed(h)) && Once(h)
    ensures Ordered(Filed(heap)) && Once(heap) && |heap| == |h| - 1
    ensures forall e :: e in heap <==> e in h && e != h[0]
  {
    heap := SiftDown(h);
    TakenOff(h, heap, h[0]);
  }

  method SiftDown(h: seq<Entry>) returns (heap: seq<Entry>)
    requires h != [] && Ordered(Filed(h))
    ensures Ordered(Filed(heap)) && multiset(heap) + multiset{h[0]} == multiset(h)
  {
    var last := h[|h| - 1];
    heap := h[..|h| - 1];
    assert h == heap + [last];
    OrderedPrefix(Filed(h), |h| - 1);
    assert Filed(heap) == Filed(h)[..|h| - 1];
    if heap == [] { return; }
    var i := 0;
    OpenedAtTop(Filed(heap), last.filed);
    while true
      invariant 0 <= i < |heap| == |h| - 1
      invariant multiset(heap[i := last]) + multiset{h[0]} == multiset(h)
      invariant OrderedBelow(Filed(heap), i, last.filed)
      decreases |heap| - i
    {
      if 2 * i + 1 >= |heap| { break; }
      var child := SmallerChild(heap, i);
      if heap[child].filed >= last.filed { break; }
      HoleMoved(heap, i, child, last);
      SiftDownStep(Filed(heap), i, child, last.filed);
      FiledUpdate(heap, i, heap[child]);
      heap := heap[i := heap[child]];
      i := child;
    }
    ClosedBelow(Filed(heap), i, last.filed);
    FiledUpdate(heap, i, last);
    heap := heap[i := last];
  }

  // ---------- the recency list ----------

  function Before(s: seq<Entry>, i: int): Entry?
    requires 0 <= i < |s|
  {
    if i == 0 then null else s[i - 1]
  }

  function After(s: seq<Entry>, i: int): Entry?
    requires 0 <= i < |s|
  {
    if i == |s| - 1 then null else s[i + 1]
  }

  /** `older` and `newer` walk `s` in both directions, and no record is on it twice. */
  ghost predicate Chain(s: seq<Entry>)
    reads s`inLru, s`older, s`newer
  {
    && Distinct(s)
    && (forall i {:trigger s[i].inLru} :: 0 <= i < |s| ==> s[i].inLru)
    && (forall i {:trigger s[i].older} :: 0 <= i < |s| ==> s[i].older == Before(s, i))
    && (forall i {:trigger s[i].newer} :: 0 <= i < |s| ==> s[i].newer == After(s, i))
  }

  /** What is left of a chain once the neighbours of `s[at]` point past it. */
  lemma ChainWithout(s: seq<Entry>, at: nat)
    requires at < |s| && Distinct(s)
    requires forall i {:trigger s[i].inLru} :: 0 <= i < |s| && i != at ==> s[i].inLru
    requires forall i {:trigger s[i].older} :: 0 <= i < |s| && i != at && i != at + 1 ==> s[i].older == Before(s, i)
    requires forall i {:trigger s[i].newer} :: 0 <= i < |s| && i != at && i != at - 1 ==> s[i].newer == After(s, i)
    requires at > 0 ==> s[at - 1].newer == After(s, at)
    requires at + 1 < |s| ==> s[at + 1].older == Before(s, at)
    ensures Chain(s[..at] + s[at + 1..])
    ensures forall e :: e in s[..at] + s[at + 1..] <==> e in s && e != s[at]
  {
  }

  /** A chain in which `e` took over the place and the links of `s[at]`. */
  lemma ChainSwapped(s: seq<Entry>, at: nat, e: Entry)
    requires at < |s| && Distinct(s) && e !in s
    requires forall i {:trigger s[i].inLru} :: 0 <= i < |s| && i != at ==> s[i].inLru
    requires forall i {:trigger s[i].older} :: 0 <= i < |s| && i != at && i != at + 1 ==> s[i].older == Before(s, i)
    requires forall i {:trigger s[i].newer} :: 0 <= i < |s| && i != at && i != at - 1 ==> s[i].newer == After(s, i)
    requires at > 0 ==> s[at - 1].newer == e
    requires at + 1 < |s| ==> s[at + 1].older == e
    requires e.inLru && e.older == Before(s, at) && e.newer == After(s, at)
    ensures Chain(s[at := e])
    ensures forall x :: x in s[at := e] <==> x == e || (x in s && x != s[at])
  {
    forall x | x == e || (x in s && x != s[at]) ensures x in s[at := e] {
      if x == e {
        assert s[at := e][at] == x;
      } else {
        var i :| 0 <= i < |s| && s[i] == x;
        assert s[at := e][i] == x;
      }
    }
  }

  /** A chain with `e` linked behind its newest. */
  lemma ChainWith(s: seq<Entry>, e: Entry)
    requires Distinct(s) && e !in s
    requires forall i {:trigger s[i].inLru} :: 0 <= i < |s| ==> s[i].inLru
    requires forall i {:trigger s[i].older} :: 0 <= i < |s| ==> s[i].older == Before(s, i)
    requires forall i {:trigger s[i].newer} :: 0 <= i < |s| - 1 ==> s[i].newer == After(s, i)
    requires s != [] ==> s[|s| - 1].newer == e
    requires e.inLru && e.newer == null && e.older == if s == [] then null else s[|s| - 1]
    ensures Chain(s + [e])
  {
  }

  function Keys(s: seq<Entry>): (keys: seq<Key>)
    ensures |keys| == |s| && forall i :: 0 <= i < |s| ==> keys[i] == s[i].key
  {
    seq(|s|, i requires 0 <= i < |s| => s[i].key)
  }

  lemma KeysWithout(s: seq<Entry>, at: nat)
    requires at < |s| && Distinct(Keys(s))
    ensures Keys(s[..at] + s[at + 1..]) == Minus(Keys(s), {s[at].key})
  {
    MinusAt(Keys(s), at);
  }

  lemma KeysMinus(s: seq<Entry>, e: Entry)
    requires Distinct(Keys(s)) && (e in s || e.key !in Keys(s))
    ensures Keys(Minus(s, {e})) == Minus(Keys(s), {e.key})
    ensures Keys(Minus(s, {e}) + [e]) == Touch(Keys(s), e.key)
  {
    hide Minus;
    if e in s {
      var at: nat :| at < |s| && s[at] == e;
      assert Distinct(s) by {
        forall i, j | 0 <= i < j < |s| ensures s[i] != s[j] { assert Keys(s)[i] != Keys(s)[j]; }
      }
      MinusAt(s, at);
      KeysWithout(s, at);
    } else {
      MinusNothing(s, {e});
      MinusNothing(Keys(s), {e.key});
    }
  }

  // ---------- deadlines ----------

  ghost predicate Timed(e: Entry)
    reads e`window
  {
    e.window != 0.0
  }

  ghost function TimersOf(entries: map<Key, Entry>): map<Key, Timer>
    reads entries.Values`window, entries.Values`deadline
  {
    map k | k in entries && Timed(entries[k]) :: Timer(entries[k].window, entries[k].deadline)
  }

  /** The timers with a record for `key` mapped; a window of 0 shows none. */
  ghost function TimersWith(timers: map<Key, Timer>, key: Key, window: real, deadline: real): map<Key, Timer> {
    if window == 0.0 then timers - {key} else timers[key := Timer(window, deadline)]
  }

  lemma TimersMapped(entries: map<Key, Entry>, e: Entry)
    ensures TimersOf(entries[e.key := e]) == TimersWith(TimersOf(entries), e.key, e.window, e.deadline)
  {
  }

  lemma TimersUnmapped(entries: map<Key, Entry>, key: Key)
    ensures TimersOf(entries - {key}) == TimersOf(entries) - {key}
  {
  }

  class Policy {
    const options: Options
    var entries: map<Key, Entry>
    var oldest: Entry?
    var newest: Entry?
    var lruSize: int
    var heap: seq<Entry>
    var timer: bool
    /** The deadline the timer is armed for; `None` is the source's `Infinity`. */
    var armedFor: Option<real>
    var expired: nat
    var evicted: nat
    /** Every record this policy ever made. */
    ghost var records: set<Entry>
    /** The recency list, oldest first. */
    ghost var recency: seq<Entry>
    /** The latest time any operation has seen. */
    ghost var clock: real

    ghost predicate Chained()
      reads `recency, `records, `oldest, `newest, records`inLru, records`older, records`newer
    {
      && (forall e :: e in recency ==> e in records)
      && Chain(recency)
      && oldest == (if recency == [] then null else recency[0])
      && newest == (if recency == [] then null else recency[|recency| - 1])
    }

    ghost predicate ListOk()
      reads `recency, `records, `oldest, `newest, `lruSize, records`inLru, records`older, records`newer
    {
      Chained() && lruSize == |recency|
    }

    method Unlink(entry: Entry, keepCount: bool, ghost at: nat)
      requires ListOk() && at < |recency| && recency[at] == entry
      modifies `oldest, `newest, `lruSize, `recency, records`older, records`newer, records`inLru
      ensures Chained() && entry.older == entry.newer == null
      ensures recency == old(recency)[..at] + old(recency)[at + 1..]
      ensures lruSize == old(lruSize) - if keepCount then 0 else 1
      ensures entry.inLru == keepCount
      ensures forall e :: e in records && e != entry ==> e.inLru == old(e.inLru)
    {
      ghost var s := recency;
      Bypass(entry, at);
      entry.older, entry.newer := null, null;
      if !keepCount {
        entry.inLru := false;
        lruSize := lruSize - 1;
      }
      hide Chain;
      recency := recency[..at] + recency[at + 1..];
      ChainWithout(s, at);
    }

    /** Points both neighbours of a record, or the ends of the list, past it. */
    method Bypass(entry: Entry, ghost at: nat)
      requires Chained() && at < |recency| && recency[at] == entry
      modifies `oldest, `newest, records`older, records`newer
      ensures oldest == (if at == 0 then After(recency, 0) else recency[0])
      ensures newest == (if at == |recency| - 1 then Before(recency, at) else recency[|recency| - 1])
      ensures forall i {:trigger recency[i].older} :: 0 <= i < |recency| && i != at + 1 ==> recency[i].older == Before(recency, i)
      ensures forall i {:trigger recency[i].newer} :: 0 <= i < |recency| && i != at - 1 ==> recency[i].newer == After(recency, i)
      ensures at > 0 ==> recency[at - 1].newer == After(recency, at)
      ensures at + 1 < |recency| ==> recency[at + 1].older == Before(recency, at)
    {
      assert entry.older == Before(recency, at) && entry.newer == After(recency, at);
      if entry.older != null { entry.older.newer := entry.newer; } else { oldest := entry.newer; }
      if entry.newer != null { entry.newer.older := entry.older; } else { newest := entry.older; }
    }

    method LinkNewest(entry: Entry)
      requires Chained() && entry in records && entry !in recency && entry.inLru
      modifies `oldest, `newest, `recency, records`older, records`newer
      ensures Chained() && recency == old(recency) + [entry]
    {
      entry.older := newest;
      entry.newer := null;
      if newest != null { newest.newer := entry; } else { oldest := entry; }
      newest := entry;
      ChainWith(recency, entry);
      recency := recency + [entry];
    }

    method Promote(entry: Entry)
      requires ListOk() && entry in records && (entry.inLru <==> entry in recency)
      modifies `oldest, `newest, `lruSize, `recency, records`older, records`newer, records`inLru
      ensures ListOk() && entry.inLru
      ensures recency == Minus(old(recency), {entry}) + [entry]
      ensures lruSize == old(lruSize) + if old(entry.inLru) then 0 else 1
      ensures forall e :: e in records && e != entry ==> e.inLru == old(e.inLru)
    {
      hide Minus;
      if entry == newest {
        MinusAt(recency, |recency| - 1);
        return;
      }
      if entry.inLru {
        ghost var at: nat :| at < |recency| && recency[at] == entry;
        MinusAt(recency, at);
        Unlink(entry, true, at);
      } else {
        MinusNothing(recency, {entry});
        Join(entry);
      }
      LinkNewest(entry);
    }

    /** A record that is about to be linked counts as listed. */
    method Join(entry: Entry)
      requires ListOk() && entry in records && entry !in recency
      modifies `lruSize, entry`inLru
      ensures Chained() && entry.inLru && lruSize == old(lruSize) + 1
    {
      entry.inLru := true;
      lruSize := lruSize + 1;
    }

    // ---------- the policy map ----------

    ghost predicate MapOk()
      reads `entries, `records
    {
      forall k :: k in entries ==> entries[k] in records && entries[k].key == k
    }

    /**
     The map and the recency list agree on which records are in use. `but` is a
     key whose record is still being set up; it need not be on the list yet.
     */
    ghost predicate Tracked(but: set<Key>)
      requires MapOk()
      reads `entries, `records, `recency, records`inLru
    {
      && (forall k :: k in entries ==> (entries[k].inLru <==> entries[k] in recency))
      && (options.maxSize.Some? ==> forall k :: k in entries && k !in but ==> entries[k] in recency)
      && (options.maxSize.None? ==> recency == [])
      && (forall e :: e in recency ==> e.key in entries && entries[e.key] == e)
    }

    ghost predicate HeapOk()
      reads `heap, `records, records`filed
    {
      && (forall e :: e in heap ==> e in records)
      && Once(heap)
      && Ordered(Filed(heap))
    }

    /** The live timed records are exactly the live records in the heap, filed early enough. */
    ghost predicate Filing(but: set<Key>)
      requires MapOk()
      reads `entries, `records, `heap, records`window, records`deadline, records`filed
    {
      && (forall k :: k in entries && k !in but ==> (Timed(entries[k]) <==> entries[k] in heap))
      && (forall k :: k in entries && Timed(entries[k]) ==> entries[k].filed <= entries[k].deadline)
    }

    ghost predicate Windows()
      requires MapOk()
      reads `entries, `records, `clock, records`window, records`deadline
    {
      && (forall k :: k in entries ==> entries[k].window >= 0.0)
      && (forall k :: k in entries && Timed(entries[k]) ==> entries[k].deadline <= clock + entries[k].window)
      && (options.maxSize.None? ==> forall k :: k in entries ==> Timed(entries[k]))
    }

    /** A timer is armed no later than any live record was filed. */
    ghost predicate TimerOk(but: set<Key>)
      requires MapOk()
      reads `entries, `records, `timer, `armedFor, records`window, records`filed
    {
      && (timer <==> armedFor.Some?)
      && (forall k :: k in entries && k !in but && Timed(entries[k]) ==> timer && armedFor.value <= entries[k].filed)
    }

    /** All is well, but for the list place of `unlisted`, the heap place of `unfiled` and a timer for `unarmed`. */
    ghost predicate SoundBut(unlisted: set<Key>, unfiled: set<Key>, unarmed: set<Key>)
      reads this, records
    {
      && MapOk() && ListOk() && HeapOk() && Windows() && ValidOptions(options)
      && Tracked(unlisted) && Filing(unfiled) && TimerOk(unarmed)
    }

    lemma TimerOkBut(unarmed: set<Key>)
      requires MapOk() && TimerOk({})
      ensures TimerOk(unarmed)
    {
    }

    ghost predicate Sound()
      reads this, records
    {
      SoundBut({}, {}, {})
    }

    /** The invariant of every reachable state between public operations. */
    ghost predicate Valid()
      reads this, records
    {
      Sound() && (options.maxSize.Some? ==> lruSize <= options.maxSize.value)
    }

    // ---------- what the model sees ----------

    ghost function Timers(): map<Key, Timer>
      requires MapOk()
      reads `entries, `records, records`window, records`deadline
    {
      TimersOf(entries)
    }

    ghost function Order(): seq<Key>
      reads `recency
    {
      Keys(recency)
    }

    lemma DistinctKeys()
      requires MapOk() && ListOk() && Tracked({})
      ensures Distinct(Order())
      ensures forall k :: k in Order() <==> k in entries && options.maxSize.Some?
    {
      DistinctKeysBut({});
    }

    lemma DistinctKeysBut(unlisted: set<Key>)
      requires MapOk() && ListOk() && Tracked(unlisted)
      ensures Distinct(Order())
      ensures forall k :: k in Order() <==> k in entries && entries[k] in recency
    {
    }

    // ---------- the heap ----------

    /** Pops stale records and re-files moved ones until the top is the next to lapse. */
    method NextDeadline() returns (next: Option<real>)
      requires MapOk() && HeapOk() && Filing({})
      modifies `heap, records`filed
      ensures HeapOk() && Filing({})
      ensures forall k :: k in entries ==> old(entries[k].filed) <= entries[k].filed
      ensures next.None? ==> heap == []
      ensures next.Some? ==> heap != [] && heap[0].key in entries && entries[heap[0].key] == heap[0]
      ensures next.Some? ==> heap[0].filed == heap[0].deadline == next.value
      ensures next.Some? ==> forall e :: e in heap ==> next.value <= e.filed
    {
      while heap != []
        invariant HeapOk() && Filing({})
        invariant forall k :: k in entries ==> old(entries[k].filed) <= entries[k].filed
        decreases |heap|, Moved()
      {
        var top := heap[0];
        if !(top.key in entries && entries[top.key] == top) {
          DropStale();
          continue;
        }
        if top.deadline == top.filed {
          forall e | e in heap ensures top.filed <= e.filed {
            var i: nat :| i < |heap| && heap[i] == e;
            TopIsLeast(Filed(heap), i);
          }
          return Some(top.filed);
        }
        Refile(top);
      }
      next := None;
    }

    /** The records whose deadline moved since they were filed. */
    ghost function Moved(): set<Entry>
      reads this, heap
    {
      set e | e in heap && e.filed != e.deadline
    }

    method DropStale()
      requires MapOk() && HeapOk() && Filing({}) && heap != []
      requires !(heap[0].key in entries && entries[heap[0].key] == heap[0])
      modifies `heap
      ensures HeapOk() && Filing({}) && |heap| < |old(heap)|
      ensures forall k :: k in entries ==> (entries[k] in heap <==> entries[k] in old(heap))
    {
      heap := HeapPop(heap);
    }

    method Refile(top: Entry)
      requires MapOk() && HeapOk() && Filing({}) && heap != [] && heap[0] == top && top.key in entries && entries[top.key] == top
      requires top.filed != top.deadline
      modifies `heap, top`filed
      ensures HeapOk() && Filing({}) && |heap| == |old(heap)| && Moved() < old(Moved())
      ensures old(top.filed) <= top.filed
    {
      hide Ordered, Moved, Filed, Once;
      RefileTop(top);
    }

    method RefileTop(top: Entry)
      requires heap != [] && heap[0] == top && Ordered(Filed(heap)) && Once(heap)
      requires top.filed != top.deadline
      modifies `heap, top`filed
      ensures Ordered(Filed(heap)) && Once(heap) && |heap| == |old(heap)|
      ensures forall e :: e in heap <==> e in old(heap)
      ensures top.filed == top.deadline && Moved() < old(Moved())
    {
      hide Ordered, Filed, Once;
      ghost var moved := Moved();
      assert top in moved;
      var rest := HeapPop(heap);
      assert forall i :: 0 <= i < |rest| ==> rest[i] in rest;
      ghost var filed := Filed(rest);
      top.filed := top.deadline;
      assert Filed(rest) == filed;
      heap := HeapPush(rest, top);
    }

    /** Drops every stale record from the heap. */
    method Compact()
      requires MapOk() && HeapOk() && Filing({})
      modifies `heap
      ensures HeapOk() && Filing({})
      ensures forall e :: e in heap <==> e in old(heap) && e.key in entries && entries[e.key] == e
    {
      var all := heap;
      var rebuilt: seq<Entry> := [];
      for i := 0 to |all|
        invariant Ordered(Filed(rebuilt)) && Once(rebuilt)
        invariant forall e :: e in rebuilt <==> e in all[..i] && e.key in entries && entries[e.key] == e
      {
        var e := all[i];
        OnceSplit(all, i);
        if e.key in entries && entries[e.key] == e {
          rebuilt := HeapPush(rebuilt, e);
        }
      }
      assert all[..|all|] == all;
      heap := rebuilt;
    }

    method Rearm()
      requires MapOk() && HeapOk() && Filing({}) && (timer <==> armedFor.Some?)
      modifies `heap, `timer, `armedFor, records`filed
      ensures HeapOk() && Filing({}) && TimerOk({})
    {
      hide HeapOk;
      var deadline := NextDeadline();
      if timer && (deadline.None? || deadline.value >= armedFor.value) { return; }
      timer := deadline.Some?;
      armedFor := deadline;
    }

    /** Drops a key's record; the heap keeps it, stale. */
    method Forget(key: Key, ghost unfiled: set<Key>, ghost unarmed: set<Key>)
      requires SoundBut({}, unfiled, unarmed + {key}) && unfiled <= {key}
      modifies `entries, `oldest, `newest, `lruSize, `recency, records`older, records`newer, records`inLru
      ensures SoundBut({}, {}, unarmed) && entries == old(entries) - {key} && lruSize <= old(lruSize)
      ensures Timers() == old(Timers()) - {key}
      ensures Order() == Minus(old(Order()), {key})
    {
      hide HeapOk, ListOk, Distinct, Minus, Order;
      if key !in entries {
        DistinctKeys();
        MinusNothing(Order(), {key});
      } else {
        ForgetEntry(entries[key], unfiled, unarmed);
      }
    }

    method ForgetEntry(entry: Entry, ghost unfiled: set<Key>, ghost unarmed: set<Key>)
      requires SoundBut({}, unfiled, unarmed + {entry.key}) && unfiled <= {entry.key}
      requires entry.key in entries && entries[entry.key] == entry
      modifies `entries, `oldest, `newest, `lruSize, `recency, records`older, records`newer, records`inLru
      ensures SoundBut({}, {}, unarmed) && entries == old(entries) - {entry.key} && lruSize <= old(lruSize)
      ensures Timers() == old(Timers()) - {entry.key}
      ensures Order() == Minus(old(Order()), {entry.key})
    {
      hide HeapOk, ListOk, Distinct, Minus, Order, ValidOptions, Filing, Windows, TimerOk, Timers;
      DistinctKeys();
      if entry.inLru {
        Unlist(entry);
      } else {
        MinusNothing(Order(), {entry.key});
      }
      Unmap(entry.key, unfiled, unarmed);
    }

    method Unmap(key: Key, ghost unfiled: set<Key>, ghost unarmed: set<Key>)
      requires MapOk() && Filing(unfiled) && Windows() && TimerOk(unarmed + {key}) && unfiled <= {key}
      modifies `entries
      ensures MapOk() && Filing({}) && Windows() && TimerOk(unarmed)
      ensures entries == old(entries) - {key} && Timers() == old(Timers()) - {key}
    {
      hide TimersOf;
      TimersUnmapped(entries, key);
      entries := entries - {key};
    }

    method Unlist(entry: Entry)
      requires ListOk() && entry in recency && Distinct(Order())
      modifies `oldest, `newest, `lruSize, `recency, records`older, records`newer, records`inLru
      ensures ListOk() && !entry.inLru && lruSize == old(lruSize) - 1
      ensures forall e :: e in recency <==> e in old(recency) && e != entry
      ensures Order() == Minus(old(Order()), {entry.key})
      ensures forall e :: e in records && e != entry ==> e.inLru == old(e.inLru)
    {
      ghost var at: nat :| at < |recency| && recency[at] == entry;
      KeysWithout(recency, at);
      Unlink(entry, false, at);
    }

    // ---------- tracking a set() ----------

    /** Only a record with a window has to be filed in the heap. */
    ghost function Unfiled(key: Key, window: real): set<Key> {
      if window == 0.0 then {} else {key}
    }

    /** Makes a new record part of the policy, not yet in use. */
    method Admit(entry: Entry)
      requires Sound() && entry !in records
      modifies `records
      ensures Sound() && records == old(records) + {entry} && entry !in heap && entry !in recency
      ensures Timers() == old(Timers())
    {
      hide Chain, Once, Ordered, Filed, TimersOf, ValidOptions, Keys;
      records := records + {entry};
      assert MapOk() && ListOk() && HeapOk();
      assert Tracked({}) && Windows() by { hide ListOk, HeapOk; }
      assert Filing({}) && TimerOk({}) by { hide ListOk, HeapOk, Tracked, Windows; }
    }

    /** Points the map at a record that was never filed. */
    method Map(entry: Entry)
      requires MapOk() && Filing({}) && Windows() && TimerOk({}) && entry in records && entry !in heap
      requires 0.0 <= entry.window && (options.maxSize.None? ==> Timed(entry))
      requires entry.filed == entry.deadline && (Timed(entry) ==> entry.deadline <= clock + entry.window)
      modifies `entries
      ensures MapOk() && Windows()
      ensures Filing(Unfiled(entry.key, entry.window)) && TimerOk(Unfiled(entry.key, entry.window))
      ensures entries == old(entries)[entry.key := entry]
      ensures Timers() == TimersWith(old(Timers()), entry.key, entry.window, entry.deadline)
    {
      hide TimersOf;
      TimersMapped(entries, entry);
      entries := entries[entry.key := entry];
    }

    /** A new record for `key`, on neither the list nor the heap yet. */
    method Create(key: Key, value: Value, window: real, deadline: real) returns (entry: Entry)
      requires Sound() && key !in entries
      requires 0.0 <= window && (window == 0.0 || deadline <= clock + window) && (options.maxSize.None? ==> window != 0.0)
      modifies `entries, `records
      ensures SoundBut({key}, Unfiled(key, window), Unfiled(key, window)) && entries == old(entries)[key := entry]
      ensures fresh(entry) && records == old(records) + {entry} && entry !in heap && entry.key == key
      ensures entry.value == value && entry.window == window && entry.deadline == entry.filed == deadline
      ensures Timers() == TimersWith(old(Timers()), key, window, deadline)
    {
      hide ListOk, HeapOk, Filing, Windows, TimerOk, Timers, TimersWith, Unfiled;
      entry := new Entry(key, value, window, deadline);
      Admit(entry);
      Map(entry);
    }

    /** `from` becomes stale; a copy with another window stands where it stood in list and map. */
    method Replace(from: Entry, window: real, deadline: real) returns (entry: Entry)
      requires Sound() && from.key in entries && entries[from.key] == from
      requires 0.0 <= window && (window == 0.0 || deadline <= clock + window) && (options.maxSize.None? ==> window != 0.0)
      modifies `entries, `records, `recency, `oldest, `newest, records`older, records`newer
      ensures SoundBut({}, Unfiled(from.key, window), Unfiled(from.key, window)) && entries == old(entries)[from.key := entry]
      ensures fresh(entry) && records == old(records) + {entry} && entry !in heap && entry.key == from.key
      ensures entry.value == from.value && entry.window == window && entry.deadline == entry.filed == deadline
      ensures Order() == old(Order()) && (options.maxSize.Some? ==> entry in recency)
      ensures Timers() == TimersWith(old(Timers()), from.key, window, deadline)
    {
      hide ListOk, HeapOk, Order, Filing, Windows, TimerOk, Timers, TimersWith, Unfiled, Tracked, MapOk;
      entry := new Entry.Copy(from, window, deadline);
      Admit(entry);
      Substitute(from, entry);
    }

    method Substitute(from: Entry, entry: Entry)
      requires Sound() && from.key in entries && entries[from.key] == from
      requires entry in records && entry !in heap && entry !in recency && entry.key == from.key
      requires entry.inLru == from.inLru && entry.older == from.older && entry.newer == from.newer
      requires 0.0 <= entry.window && (options.maxSize.None? ==> Timed(entry))
      requires entry.filed == entry.deadline && (Timed(entry) ==> entry.deadline <= clock + entry.window)
      modifies `entries, `recency, `oldest, `newest, records`older, records`newer
      ensures SoundBut({}, Unfiled(entry.key, entry.window), Unfiled(entry.key, entry.window))
      ensures entries == old(entries)[entry.key := entry]
      ensures Order() == old(Order()) && (options.maxSize.Some? ==> entry in recency)
      ensures Timers() == TimersWith(old(Timers()), entry.key, entry.window, entry.deadline)
    {
      hide ListOk, HeapOk, Order, Filing, Windows, TimerOk, Timers, TimersWith, Unfiled;
      if from.inLru {
        SwapLinks(from, entry);
      }
      Map(entry);
    }

    method SwapLinks(from: Entry, entry: Entry)
      requires ListOk() && from in recency && entry in records && entry !in recency
      requires entry.key == from.key && entry.inLru && entry.older == from.older && entry.newer == from.newer
      modifies `recency, `oldest, `newest, records`older, records`newer
      ensures ListOk() && Order() == old(Order())
      ensures forall e :: e in recency <==> e == entry || (e in old(recency) && e != from)
    {
      ghost var at: nat :| at < |recency| && recency[at] == from;
      Relink(from, entry, at);
      hide Chain;
      ChainSwapped(recency, at, entry);
      recency := recency[at := entry];
    }

    /** Points both neighbours of `from`, or the ends of the list, at `entry`. */
    method Relink(from: Entry, entry: Entry, ghost at: nat)
      requires Chained() && at < |recency| && recency[at] == from && entry in records && entry !in recency
      modifies `oldest, `newest, records`older, records`newer
      ensures entry.older == old(entry.older) && entry.newer == old(entry.newer)
      ensures oldest == (if at == 0 then entry else recency[0])
      ensures newest == (if at == |recency| - 1 then entry else recency[|recency| - 1])
      ensures forall i {:trigger recency[i].older} :: 0 <= i < |recency| && i != at && i != at + 1 ==> recency[i].older == Before(recency, i)
      ensures forall i {:trigger recency[i].newer} :: 0 <= i < |recency| && i != at && i != at - 1 ==> recency[i].newer == After(recency, i)
      ensures at > 0 ==> recency[at - 1].newer == entry
      ensures at + 1 < |recency| ==> recency[at + 1].older == entry
    {
      assert from.older == Before(recency, at) && from.newer == After(recency, at);
      if from.older != null { from.older.newer := entry; } else { oldest := entry; }
      if from.newer != null { from.newer.older := entry; } else { newest := entry; }
    }

    /** `Promote` for a record in use. */
    method Enlist(entry: Entry, ghost unfiled: set<Key>)
      requires SoundBut({entry.key}, unfiled, unfiled) && entry.key in entries && entries[entry.key] == entry
      requires options.maxSize.Some?
      modifies `oldest, `newest, `lruSize, `recency, records`older, records`newer, records`inLru
      ensures SoundBut({}, unfiled, unfiled) && Order() == Touch(old(Order()), entry.key)
      ensures lruSize == old(lruSize) + if old(entry.inLru) then 0 else 1
    {
      hide HeapOk, Filing, Windows, TimerOk, Distinct, Minus, Keys;
      DistinctKeysBut({entry.key});
      KeysMinus(recency, entry);
      MinusMembers(recency, {entry});
      Promote(entry);
    }

    /** Files a record in use in the heap, and wakes the timer for it. */
    method File(entry: Entry)
      requires SoundBut({}, {entry.key}, {entry.key}) && entry.key in entries && entries[entry.key] == entry
      requires Timed(entry) && entry !in heap
      modifies `heap, `timer, `armedFor, records`filed
      ensures Sound()
    {
      hide ListOk, Tracked, Windows, HeapOk, Filing;
      Push(entry);
      if |heap| > 2 * |entries| + 8 { Compact(); }
      if !timer || entry.filed < armedFor.value { Rearm(); }
    }

    method Push(entry: Entry)
      requires MapOk() && HeapOk() && Filing({entry.key}) && entry.key in entries && entries[entry.key] == entry
      requires Timed(entry) && entry !in heap
      modifies `heap
      ensures HeapOk() && Filing({})
    {
      hide Ordered, Filed, Once;
      heap := HeapPush(heap, entry);
    }

    /** Gives a record that never expired a deadline. */
    method StartTimer(entry: Entry, window: real, deadline: real)
      requires Sound() && entry.key in entries && entries[entry.key] == entry && !Timed(entry)
      requires 0.0 < window && deadline <= clock + window
      modifies entry`window, entry`deadline, entry`filed
      ensures SoundBut({}, {entry.key}, {entry.key}) && Timed(entry) && entry !in heap
      ensures Timers() == old(Timers())[entry.key := Timer(window, deadline)]
    {
      hide Chain, Ordered, Once, ValidOptions, Keys;
      ghost var filed := Filed(heap);
      entry.window, entry.deadline, entry.filed := window, deadline, deadline;
      assert Filed(heap) == filed;
    }

    /** Moves the deadline of a timed record to a time not before it was filed. */
    method Extend(entry: Entry, window: real, deadline: real)
      requires Sound() && entry.key in entries && entries[entry.key] == entry && Timed(entry)
      requires 0.0 < window && entry.filed <= deadline <= clock + window
      modifies entry`window, entry`deadline
      ensures Sound() && Timed(entry)
      ensures Timers() == old(Timers())[entry.key := Timer(window, deadline)]
    {
      hide ListOk, HeapOk;
      entry.window, entry.deadline := window, deadline;
    }

    /** While the filed deadline is no later than the new one, neither heap nor timer need to know. */
    method Refresh(entry: Entry, window: real, deadline: real)
      requires Sound() && entry.key in entries && entries[entry.key] == entry && Timed(entry)
      requires 0.0 < window && entry.filed <= deadline <= clock + window
      modifies `oldest, `newest, `lruSize, `recency, records`older, records`newer, records`inLru
      modifies entry`window, entry`deadline
      ensures Sound() && lruSize == old(lruSize)
      ensures Order() == if options.maxSize.Some? then Touch(old(Order()), entry.key) else old(Order())
      ensures Timers() == old(Timers())[entry.key := Timer(window, deadline)]
    {
      hide ListOk, HeapOk, Order, Filing, TimerOk, Touch, Windows, TimersOf;
      Extend(entry, window, deadline);
      if entry.inLru { Enlist(entry, {}); }
    }

    lemma UntimedHidden(key: Key)
      requires MapOk() && (key in entries ==> !Timed(entries[key]))
      ensures Timers() - {key} == Timers()
    {
    }

    /** The record after a `set` without a window: untimed under a cap, forgotten otherwise. */
    method TrackUntimed(key: Key, value: Value, existing: Entry?)
      requires Sound() && existing == (if key in entries then entries[key] else null)
      requires existing != null ==> existing.value == value
      modifies `entries, `records, `oldest, `newest, `lruSize, `recency, records`older, records`newer, records`inLru
      ensures Sound() && fresh(records - old(records)) && old(records) <= records
      ensures Order() == if options.maxSize.Some? then Touch(old(Order()), key) else old(Order())
      ensures entries.Keys <= old(entries).Keys + {key} && (key in entries ==> entries[key].value == value)
      ensures lruSize <= old(lruSize) + 1
      ensures forall k :: k in entries && k != key ==> k in old(entries) && entries[k] == old(entries)[k]
      ensures Timers() == old(Timers()) - {key}
    {
      hide ListOk, HeapOk, Order, Filing, TimerOk, Touch, TimersOf, ValidOptions;
      var lru := options.maxSize.Some?;
      var entry := existing;
      if entry == null || entry.window == 0.0 { UntimedHidden(key); }
      if entry != null && entry.window != 0.0 {
        if lru {
          entry := Replace(entry, 0.0, 0.0);
        } else {
          TimerOkBut({} + {key});
          Forget(key, {}, {});
          return;
        }
      }
      if entry == null && lru {
        entry := Create(key, value, 0.0, 0.0);
      }
      if entry != null { Enlist(entry, {}); }
    }

    /** The record after a `set` with a window: extended, filed for the first time, or replaced. */
    method TrackTimed(key: Key, value: Value, window: real, now: real, existing: Entry?)
      requires Sound() && existing == (if key in entries then entries[key] else null)
      requires existing != null ==> existing.value == value
      requires now == clock && window > 0.0
      modifies `entries, `records, `oldest, `newest, `lruSize, `recency, records`older, records`newer, records`inLru
      modifies `heap, `timer, `armedFor, records`window, records`deadline, records`filed
      ensures Sound() && fresh(records - old(records)) && old(records) <= records
      ensures Order() == if options.maxSize.Some? then Touch(old(Order()), key) else old(Order())
      ensures entries.Keys <= old(entries).Keys + {key} && (key in entries ==> entries[key].value == value)
      ensures lruSize <= old(lruSize) + 1
      ensures forall k :: k in entries && k != key ==> k in old(entries) && entries[k] == old(entries)[k]
      ensures Timers() == old(Timers())[key := Timer(window, now + window)]
    {
      hide ListOk, HeapOk, Order, Filing, TimerOk, Touch, TimersOf, Tracked, ValidOptions, Windows;
      var deadline := now + window;
      var entry := existing;
      if entry != null && entry.window != 0.0 {
        if deadline < entry.filed {
          entry := Replace(entry, window, deadline);
        } else {
          Refresh(entry, window, deadline);
          return;
        }
      } else if entry != null {
        StartTimer(entry, window, deadline);
      } else {
        entry := Create(key, value, window, deadline);
      }
      Settle(entry, if existing == null then {key} else {});
    }

    /** The last steps of a `set` that needs a heap record. */
    method Settle(entry: Entry, ghost unlisted: set<Key>)
      requires SoundBut(unlisted, {entry.key}, {entry.key}) && unlisted <= {entry.key}
      requires entry.key in entries && entries[entry.key] == entry
      requires Timed(entry) && entry !in heap
      modifies `oldest, `newest, `lruSize, `recency, records`older, records`newer, records`inLru
      modifies `heap, `timer, `armedFor, records`filed
      ensures Sound() && lruSize <= old(lruSize) + 1
      ensures Order() == if options.maxSize.Some? then Touch(old(Order()), entry.key) else old(Order())
    {
      hide ListOk, HeapOk, Order, Filing, TimerOk, Touch, Windows;
      if options.maxSize.Some? { Enlist(entry, {entry.key}); }
      File(entry);
    }

    // ---------- expiry and eviction ----------

    /** Takes the live record that lapses next off the heap. */
    method PopDue(due: Entry, ghost unarmed: set<Key>)
      requires SoundBut({}, {}, unarmed) && heap != [] && heap[0] == due && due.key in entries && entries[due.key] == due
      modifies `heap
      ensures SoundBut({}, {due.key}, unarmed) && due !in heap
    {
      hide ListOk, Tracked, Windows, Ordered, Filed, Once;
      heap := HeapPop(heap);
    }

    /** Takes the least recently used record out, in place. */
    method DropOldest() returns (victim: Entry)
      requires Sound() && recency != []
      modifies `entries, `oldest, `newest, `lruSize, `recency, records`older, records`newer, records`inLru
      ensures Sound() && victim == old(recency)[0] && victim.key in old(entries)
      ensures entries == old(entries) - {victim.key} && lruSize == old(lruSize) - 1
      ensures Timers() == old(Timers()) - {victim.key}
      ensures old(Order()) != [] && victim.key == old(Order())[0]
      ensures Order() == Minus(old(Order()), {victim.key})
    {
      hide HeapOk, Distinct, Minus, Filing, Windows, TimerOk, Timers, Chain, ValidOptions, Keys;
      DistinctKeys();
      victim := UnlinkOldest();
      TimerOkBut({} + {victim.key});
      Unmap(victim.key, {}, {});
    }

    method UnlinkOldest() returns (victim: Entry)
      requires ListOk() && recency != [] && Distinct(Order())
      modifies `oldest, `newest, `lruSize, `recency, records`older, records`newer, records`inLru
      ensures ListOk() && victim == old(recency)[0] && !victim.inLru && lruSize == old(lruSize) - 1
      ensures forall e :: e in recency <==> e in old(recency) && e != victim
      ensures Order() == Minus(old(Order()), {victim.key})
      ensures forall e :: e in records && e != victim ==> e.inLru == old(e.inLru)
    {
      hide Minus;
      victim := oldest;
      KeysWithout(recency, 0);
      var next := victim.newer;
      oldest := next;
      if next != null { next.older := null; } else { newest := null; }
      victim.newer := null;
      victim.inLru := false;
      lruSize := lruSize - 1;
      ChainWithout(recency, 0);
      recency := recency[..0] + recency[1..];
    }

    // ---------- whole-policy operations ----------

    constructor (options: Options, ghost now: real)
      requires ValidOptions(options)
      ensures Valid() && fresh(records) && entries == map[] && this.options == options && clock == now
      ensures expired == evicted == 0
    {
      this.options := options;
      entries, oldest, newest, lruSize, heap := map[], null, null, 0, [];
      timer, armedFor, expired, evicted := false, None, 0, 0;
      records, recency, clock := {}, [], now;
    }

    /** Time has passed. */
    ghost method Tick(now: real)
      requires Sound() && clock <= now
      modifies `clock
      ensures Sound() && clock == now
    {
      hide ListOk, HeapOk, Filing, TimerOk;
      clock := now;
    }

    method Clear()
      requires Sound()
      modifies `entries, `oldest, `newest, `lruSize, `heap, `timer, `armedFor, `recency
      ensures Valid() && entries == map[] && heap == [] && !timer
      ensures Timers() == map[] && Order() == []
    {
      hide ListOk, HeapOk, Tracked, Filing, Windows, TimerOk, MapOk, Timers, Order;
      entries, oldest, newest, lruSize, heap := map[], null, null, 0, [];
      timer, armedFor := false, None;
      recency := [];
      EmptyList();
      EmptyMap();
    }

    lemma EmptyList()
      requires oldest == null && newest == null && lruSize == 0 && recency == [] && heap == []
      ensures ListOk() && HeapOk() && Order() == []
    {
    }

    lemma EmptyMap()
      requires entries == map[] && heap == [] && recency == [] && !timer && armedFor == None
      ensures MapOk() && Windows() && Tracked({}) && Filing({}) && TimerOk({}) && Timers() == map[]
    {
    }

    /** Marks a record in use as just read. */
    method Use(entry: Entry, now: real)
      requires Sound() && entry.key in entries && entries[entry.key] == entry && clock == now
      modifies `oldest, `newest, `lruSize, `recency, records`older, records`newer, records`inLru, entry`deadline
      ensures Sound() && lruSize == old(lruSize)
      ensures Order() == if options.maxSize.Some? then Touch(old(Order()), entry.key) else old(Order())
      ensures Timers() == if Timed(entry) && options.slide
                          then old(Timers())[entry.key := Timer(entry.window, now + entry.window)]
                          else old(Timers())
    {
      hide ListOk, HeapOk, Order, TimerOk, Touch, TimersOf;
      if entry.window != 0.0 && options.slide { Slide(entry, now); }
      if entry.inLru { Enlist(entry, {}); }
    }

    /** Restarts a timed record's window. */
    method Slide(entry: Entry, now: real)
      requires Sound() && entry.key in entries && entries[entry.key] == entry && Timed(entry) && clock == now
      modifies entry`deadline
      ensures Sound() && entry.deadline == now + entry.window
      ensures Timers() == old(Timers())[entry.key := Timer(entry.window, now + entry.window)]
    {
      hide ListOk, HeapOk;
      entry.deadline := now + entry.window;
    }

    lemma PositiveWindow(key: Key)
      requires Sound() && key in entries
      ensures entries[key].window >= 0.0
    {
    }

    // ---------- the purge loop ----------

    /** The next deadline, as `NextDeadline` leaves it: what every live timed record waits for. */
    ghost predicate Surfaced(next: Option<real>)
      requires MapOk()
      reads `entries, `records, `heap, records`filed, records`deadline
    {
      && (next.None? ==> heap == [])
      && (next.Some? ==> heap != [] && heap[0].key in entries && entries[heap[0].key] == heap[0])
      && (next.Some? ==> heap[0] in records && heap[0].deadline == next.value)
      && (forall k :: k in entries && entries[k] in heap ==> next.Some? && next.value <= entries[k].filed)
    }

    method Surface(ghost unarmed: set<Key>) returns (next: Option<real>)
      requires SoundBut({}, {}, unarmed)
      modifies `heap, records`filed
      ensures SoundBut({}, {}, unarmed) && Surfaced(next)
    {
      hide ListOk, Tracked, Windows, Filing;
      next := NextDeadline();
    }

    /** Until the next deadline, nothing lapses. */
    lemma SurfacedIsLeast(next: Option<real>, unarmed: set<Key>)
      requires SoundBut({}, {}, unarmed) && Surfaced(next)
      ensures forall k :: k in Timers() ==> next.Some? && next.value <= Timers()[k].deadline
      ensures next.Some? ==> heap != [] && heap[0].key in Timers() && Timers()[heap[0].key].deadline == next.value
    {
    }

    /** The timer fired: it is gone, whoever was waiting for it. */
    method Disarm()
      requires Sound()
      modifies `timer, `armedFor
      ensures SoundBut({}, {}, entries.Keys) && (heap == [] ==> Sound())
    {
      hide ListOk, HeapOk, Tracked, Windows;
      timer, armedFor := false, None;
    }

    lemma Unarmed(key: Key, unarmed: set<Key>)
      requires SoundBut({}, {key}, unarmed)
      ensures SoundBut({}, {key}, unarmed + {key})
    {
    }

    method RearmAll(ghost unarmed: set<Key>)
      requires SoundBut({}, {}, unarmed)
      modifies `heap, `timer, `armedFor, records`filed
      ensures Sound()
    {
      hide ListOk, Tracked, Windows, Filing;
      Rearm();
    }

    /** While anything has a window, a timer is armed that fires before it can lapse unseen. */
    lemma TimerCovers(key: Key)
      requires Valid() && key in Timers()
      ensures timer && armedFor.Some? && armedFor.value <= entries[key].filed <= Timers()[key].deadline
    {
    }

    /** When the top of the heap is not due, nothing is. */
    lemma TopNotDue(now: real)
      requires Sound() && (heap == [] || heap[0].filed > now)
      ensures forall k :: k in Timers() ==> Timers()[k].deadline > now
    {
      forall k | k in Timers() ensures Timers()[k].deadline > now {
        var i: nat :| i < |heap| && heap[i] == entries[k];
        TopIsLeast(Filed(heap), i);
      }
    }
  }
}
