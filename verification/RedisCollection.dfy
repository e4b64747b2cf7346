/**
 The shared collection: entries that Redis itself lets go in the end, their
 deadlines, and the ticks of their last use. Scripts are atomic, so whatever the
 processes do is a sequence of calls of these methods.
 */
module RedisCollections {
  import opened Wrappers

  type Key = string

  /** `<ttl>:<payload>`, and when Redis itself lets the entry go. */
  datatype Entry = Entry(ttl: real, payload: string, expires: Option<real>)

  datatype Reason = Expired | Evicted

  /** What a script tells its caller it removed. */
  datatype Removal = Removal(key: Key, entry: Option<Entry>, reason: Reason)

  type Scores = map<Key, real>

  const GRACE := 1000.0
  const PRUNE_LIMIT := 1000

  /** A script some process sends, and the time Redis runs it at. */
  datatype Command =
    | Set(m: Key, payload: string, ttl: real, nx: bool, now: real)
    | Get(m: Key, slide: bool, mark: bool, now: real)
    | Delete(m: Key, now: real)
    | Clear(now: real)
    | List(keys: bool, now: real)

  ghost predicate IsLeast(scores: Scores, k: Key) {
    k in scores && forall o :: o in scores ==> scores[k] <= scores[o]
  }

  /** The member with the lowest score, as ZPOPMIN and ZRANGEBYSCORE find it. */
  method Least(scores: Scores) returns (least: Key)
    requires |scores| > 0
    ensures IsLeast(scores, least)
  {
    var rest := scores.Keys;
    least :| least in rest;
    rest := rest - {least};
    while rest != {}
      invariant rest <= scores.Keys && least in scores
      invariant forall k :: k in scores && k !in rest ==> scores[least] <= scores[k]
      decreases rest
    {
      var k :| k in rest;
      if scores[k] < scores[least] { least := k; }
      rest := rest - {k};
    }
  }

  /** Access ticks are distinct and none is ahead of the clock. */
  ghost predicate Ticks(lru: Scores, clock: nat) {
    && (forall k :: k in lru ==> lru[k] <= clock as real)
    && (forall j, k :: j in lru && k in lru && j != k ==> lru[j] != lru[k])
  }

  /** Exactly the entries with a window have a deadline, a grace second before Redis forgets them. */
  ghost predicate Timed(entries: map<Key, Entry>, exp: Scores) {
    forall k :: k in entries ==>
      if entries[k].ttl > 0.0 then k in exp && entries[k].expires == Some(exp[k] + GRACE)
      else k !in exp && entries[k].expires == None
  }

  lemma TicksDrop(lru: Scores, clock: nat, m: Key)
    requires Ticks(lru, clock)
    ensures Ticks(lru - {m}, clock)
  {
  }

  lemma TicksTouch(lru: Scores, clock: nat, m: Key)
    requires Ticks(lru, clock)
    ensures Ticks(lru[m := (clock + 1) as real], clock + 1)
    ensures forall k :: k in lru && k != m ==> lru[k] < (clock + 1) as real
  {
  }

  lemma TimedDrop(entries: map<Key, Entry>, exp: Scores, m: Key)
    requires Timed(entries, exp)
    ensures Timed(entries - {m}, exp - {m})
  {
  }

  lemma TimedWrite(entries: map<Key, Entry>, exp: Scores, m: Key, payload: string, ttl: real, now: real)
    requires Timed(entries, exp) && ttl >= 0.0
    ensures Timed(entries[m := Fresh(payload, ttl, now)], if ttl > 0.0 then exp[m := now + ttl] else exp - {m})
  {
  }

  lemma TimedRestart(entries: map<Key, Entry>, exp: Scores, m: Key, now: real)
    requires Timed(entries, exp) && m in entries && entries[m].ttl > 0.0
    ensures Timed(entries[m := Restarted(entries[m], now)], exp[m := now + entries[m].ttl])
    ensures Restarted(entries[m], now).ttl == entries[m].ttl && Restarted(entries[m], now).payload == entries[m].payload
  {
  }

  ghost predicate Ascending(scores: Scores, keys: seq<Key>) {
    forall i, j :: 0 <= i < j < |keys| ==> keys[i] in scores && keys[j] in scores && scores[keys[i]] < scores[keys[j]]
  }

  /** `keys` are the members of `scores` that are not in `rest`, all with lower scores than those. */
  ghost predicate Taken(scores: Scores, keys: seq<Key>, rest: Scores) {
    && (forall k :: k in scores <==> k in keys || k in rest)
    && (forall k :: k in rest ==> k in scores && rest[k] == scores[k])
    && (forall i, k :: 0 <= i < |keys| && k in rest ==> scores[keys[i]] < scores[k])
  }

  lemma TakenMore(scores: Scores, keys: seq<Key>, rest: Scores, k: Key)
    requires forall i, j :: i in scores && j in scores && i != j ==> scores[i] != scores[j]
    requires Taken(scores, keys, rest) && Ascending(scores, keys) && IsLeast(rest, k)
    ensures Taken(scores, keys + [k], rest - {k}) && Ascending(scores, keys + [k])
  {
    var more := keys + [k];
    forall i, j | 0 <= i < |more| && j in rest - {k} ensures scores[more[i]] < scores[j] {
      assert rest[j] == scores[j] && rest[k] == scores[k];
    }
  }

  /** ZRANGE: every member, by score. */
  method ByScore(scores: Scores) returns (keys: seq<Key>)
    requires forall j, k :: j in scores && k in scores && j != k ==> scores[j] != scores[k]
    ensures (forall k :: k in keys <==> k in scores) && Ascending(scores, keys)
  {
    hide Ascending, IsLeast;
    keys := [];
    var rest := scores;
    NoneTaken(scores);
    while |rest| > 0
      invariant Taken(scores, keys, rest) && Ascending(scores, keys)
      decreases |rest|
    {
      hide Taken;
      var k := Least(rest);
      Fewer(rest, k);
      TakenMore(scores, keys, rest, k);
      keys := keys + [k];
      rest := rest - {k};
    }
  }

  lemma NoneTaken(scores: Scores)
    ensures Taken(scores, [], scores) && Ascending(scores, [])
  {
  }

  /** `gone` are the keys used longest ago. */
  ghost predicate LongestUnused(lru: Scores, gone: set<Key>) {
    gone <= lru.Keys && forall v, k :: v in gone && k in lru && k !in gone ==> lru[v] < lru[k]
  }

  lemma NoneUnused(lru: Scores)
    ensures LongestUnused(lru, {})
  {
  }

  /** The key just written is not among those used longest ago. */
  lemma UnusedBefore(lru: Scores, m: Key, tick: real, gone: set<Key>, left: Scores)
    requires LongestUnused(lru[m := tick], gone) && m !in gone && left == lru[m := tick] - gone
    ensures gone <= lru.Keys && forall v, k :: v in gone && k in left ==> lru[v] < left[k]
  {
  }

  lemma ReportsBefore(entries: map<Key, Entry>, m: Key, e: Entry, r: Removal, now: real)
    requires Reports(entries[m := e], r, now) && r.key != m
    ensures Reports(entries, r, now)
  {
  }

  lemma OneUnused(lru: Scores, gone: set<Key>, before: Scores, victim: Key, after: Scores)
    requires LongestUnused(lru, gone) && before == lru - gone && victim in before && after == before - {victim}
    requires forall k :: k in after ==> before[victim] < after[k]
    ensures LongestUnused(lru, gone + {victim})
  {
    forall v, k | v in gone + {victim} && k in lru && k !in gone + {victim} ensures lru[v] < lru[k] {
      assert k in before && k in after;
    }
  }

  /** A removal hands out the entry that was there, exactly if Redis still had it. */
  predicate Reports(entries: map<Key, Entry>, r: Removal, now: real) {
    && (r.entry.Some? <==>
        r.key in entries && (entries[r.key].expires.Some? ==> now < entries[r.key].expires.value))
    && (r.entry.Some? ==> r.entry.value == entries[r.key])
  }

  /** Less than a second after its deadline, an entry is handed out. */
  predicate InGrace(entries: map<Key, Entry>, exp: Scores, r: Removal, now: real) {
    r.key in entries && r.key in exp && now < exp[r.key] + 1000.0 ==> r.entry == Some(entries[r.key])
  }

  class SharedCollection {
    var entries: map<Key, Entry>
    /** Logical deadlines of the entries with a window. */
    var exp: Scores
    /** Access order: every key's last tick of `clock`. */
    var lru: Scores
    var clock: nat

    /** Whether Redis still answers for an entry. */
    predicate Exists(m: Key, now: real)
      reads `entries
    {
      m in entries && (entries[m].expires.Some? ==> now < entries[m].expires.value)
    }

    /** What every script keeps, whoever runs it. */
    ghost predicate Valid()
      reads this
    {
      entries.Keys <= lru.Keys && exp.Keys <= lru.Keys && Ticks(lru, clock) && Timed(entries, exp)
    }

    ghost function Due(now: real): set<Key>
      reads `exp
    {
      set k | k in exp && exp[k] <= now
    }

    method Drop(m: Key)
      requires Valid()
      modifies `entries, `exp, `lru
      ensures Valid() && entries == old(entries) - {m} && exp == old(exp) - {m} && lru == old(lru) - {m}
    {
      hide Ticks, Timed;
      TicksDrop(lru, clock, m);
      TimedDrop(entries, exp, m);
      entries := entries - {m};
      exp := exp - {m};
      lru := lru - {m};
    }

    method Touch(m: Key)
      requires Valid()
      modifies `lru, `clock
      ensures Valid() && clock == old(clock) + 1 && lru == old(lru)[m := clock as real]
      ensures forall k :: k in lru && k != m ==> lru[k] < lru[m]
    {
      hide Ticks, Timed;
      TicksTouch(lru, clock, m);
      clock := clock + 1;
      lru := lru[m := clock as real];
    }

    /** The prelude of every script: drops what lapsed, the earliest first, at most a thousand at a time. */
    method Prune(now: real) returns (out: seq<Removal>, ghost gone: set<Key>)
      requires Valid()
      modifies `entries, `exp, `lru
      ensures Valid() && gone <= old(Due(now)) && |gone| == |out| <= PRUNE_LIMIT
      ensures |out| <= 1000 && (|out| < 1000 ==> gone == old(Due(now)))
      ensures entries == old(entries) - gone && exp == old(exp) - gone && lru == old(lru) - gone
      ensures forall k, j :: k in gone && j in exp ==> old(exp)[k] <= exp[j]
      ensures gone == (set r | r in out :: r.key)
      ensures forall r :: r in out ==> r.reason == Expired && Reports(old(entries), r, now)
      // The grace second is long enough to hand the entry out.
      ensures forall r :: r in out ==> InGrace(old(entries), old(exp), r, now)
    {
      hide Valid, Reports, InGrace;
      out, gone := [], {};
      while |out| < PRUNE_LIMIT
        invariant Valid() && gone <= old(Due(now)) && |gone| == |out| <= PRUNE_LIMIT
        invariant entries == old(entries) - gone && exp == old(exp) - gone && lru == old(lru) - gone
        invariant forall k, j :: k in gone && j in exp ==> old(exp)[k] <= exp[j]
        invariant gone == (set r | r in out :: r.key)
        invariant forall r :: r in out ==> r.reason == Expired && Reports(old(entries), r, now)
        invariant forall r :: r in out ==> InGrace(old(entries), old(exp), r, now)
        decreases PRUNE_LIMIT - |out|
      {
        var r := PruneOne(now);
        if r.None? { break; }
        Reported(old(entries), old(exp), gone, r.value, now);
        WithoutMore(old(entries), gone, r.value.key);
        WithoutMore(old(exp), gone, r.value.key);
        WithoutMore(old(lru), gone, r.value.key);
        out := out + [r.value];
        gone := gone + {r.value.key};
      }
    }

    method PruneOne(now: real) returns (r: Option<Removal>)
      requires Valid()
      modifies `entries, `exp, `lru
      ensures Valid()
      ensures r.None? ==> Due(now) == {} && entries == old(entries) && exp == old(exp) && lru == old(lru)
      ensures r.Some? ==> var m := r.value.key;
        && m in old(Due(now)) && IsLeast(old(exp), m) && r.value.reason == Expired
        && Reports(old(entries), r.value, now) && InGrace(old(entries), old(exp), r.value, now)
        && entries == old(entries) - {m} && exp == old(exp) - {m} && lru == old(lru) - {m}
    {
      if |exp| == 0 { return None; }
      var m := Least(exp);
      if exp[m] > now { return None; }
      r := Some(Removal(m, if Exists(m, now) then Some(entries[m]) else None, Expired));
      Drop(m);
    }

    /** One round of the eviction loop: pops the least recently used key and, unless it is `m`, drops it. */
    method EvictOne(m: Key, now: real) returns (victim: Key, r: Removal)
      requires Valid() && m in lru && |lru| >= 2 && forall k :: k in lru && k != m ==> lru[k] < lru[m]
      modifies `entries, `exp, `lru
      ensures Valid() && victim in old(lru) && victim != m && r.key == victim && r.reason == Evicted && Reports(old(entries), r, now)
      ensures forall k :: k in lru ==> old(lru)[victim] < lru[k]
      ensures entries == old(entries) - {victim} && exp == old(exp) - {victim} && lru == old(lru) - {victim}
    {
      victim := Least(lru);
      Other(lru, m);
      r := Removal(victim, if Exists(victim, now) then Some(entries[victim]) else None, Evicted);
      Drop(victim);
    }

    lemma Other(scores: Scores, m: Key)
      requires m in scores && |scores| >= 2
      ensures exists k :: k in scores && k != m
    {
      assert |scores.Keys| == |scores|;
      var rest := scores.Keys - {m};
      assert |rest| >= 1;
      var k :| k in rest;
    }

    /** What is left once the keys of `gone` are dropped. */
    ghost predicate Without(entries0: map<Key, Entry>, exp0: Scores, lru0: Scores, gone: set<Key>)
      reads `entries, `exp, `lru
    {
      entries == entries0 - gone && exp == exp0 - gone && lru == lru0 - gone
    }

    /** One more victim, after those of `victims`. */
    method EvictNext(m: Key, now: real, ghost entries0: map<Key, Entry>, ghost exp0: Scores, ghost lru0: Scores, ghost victims: set<Key>)
      returns (r: Removal)
      requires Valid() && m in lru && |lru| >= 2 && forall k :: k in lru && k != m ==> lru[k] < lru[m]
      requires Without(entries0, exp0, lru0, victims) && LongestUnused(lru0, victims)
      modifies `entries, `exp, `lru
      ensures Valid() && m in lru && |lru| == old(|lru|) - 1 && forall k :: k in lru && k != m ==> lru[k] < lru[m]
      ensures r.key !in victims && r.key != m && r.reason == Evicted && Reports(entries0, r, now)
      ensures Without(entries0, exp0, lru0, victims + {r.key}) && LongestUnused(lru0, victims + {r.key})
    {
      hide Valid, LongestUnused;
      ghost var before := lru;
      var victim;
      victim, r := EvictOne(m, now);
      Fewer(before, victim);
      WithoutMore(entries0, victims, victim);
      WithoutMore(exp0, victims, victim);
      WithoutMore(lru0, victims, victim);
      OneUnused(lru0, victims, before, victim, lru);
    }

    /** Evicts the least recently used keys past `max`; `m` was used last. */
    method Cap(m: Key, max: nat, now: real) returns (out: seq<Removal>, ghost victims: set<Key>)
      requires Valid() && max > 0 && m in lru && forall k :: k in lru && k != m ==> lru[k] < lru[m]
      modifies `entries, `exp, `lru
      ensures Valid() && |lru| <= max && m !in victims
      ensures |victims| == |out| == if |old(lru)| > max then |old(lru)| - max else 0
      ensures Without(old(entries), old(exp), old(lru), victims) && LongestUnused(old(lru), victims)
      ensures victims == (set r | r in out :: r.key)
      ensures forall r :: r in out ==> r.reason == Evicted && Reports(old(entries), r, now)
    {
      hide Valid, Reports, LongestUnused, Without;
      out, victims := [], {};
      var n := |lru|;
      Untouched(entries, exp, lru);
      while n > max
        invariant Valid() && n == |lru| && m in lru && forall k :: k in lru && k != m ==> lru[k] < lru[m]
        invariant n >= max || n == |old(lru)|
        invariant m !in victims && |victims| == |out| == |old(lru)| - n
        invariant Without(old(entries), old(exp), old(lru), victims) && LongestUnused(old(lru), victims)
        invariant victims == (set r | r in out :: r.key)
        invariant forall r :: r in out ==> r.reason == Evicted && Reports(old(entries), r, now)
      {
        var r := EvictNext(m, now, old(entries), old(exp), old(lru), victims);
        out := out + [r];
        victims := victims + {r.key};
        n := n - 1;
      }
    }

    lemma Untouched(entries0: map<Key, Entry>, exp0: Scores, lru0: Scores)
      requires entries0 == entries && exp0 == exp && lru0 == lru
      ensures Without(entries0, exp0, lru0, {}) && LongestUnused(lru0, {})
    {
    }

    // ---------- the scripts ----------

    /** Writes an entry and its deadline, and marks it used last. */
    method Write(m: Key, payload: string, ttl: real, now: real)
      requires Valid() && ttl >= 0.0
      modifies this
      ensures Valid() && entries == old(entries)[m := Fresh(payload, ttl, now)]
      ensures exp == if ttl > 0.0 then old(exp)[m := now + ttl] else old(exp) - {m}
      ensures clock == old(clock) + 1 && lru == old(lru)[m := clock as real]
      ensures forall k :: k in lru && k != m ==> lru[k] < lru[m]
    {
      hide Ticks, Timed, Fresh;
      TicksTouch(lru, clock, m);
      TimedWrite(entries, exp, m, payload, ttl, now);
      entries := entries[m := Fresh(payload, ttl, now)];
      exp := if ttl > 0.0 then exp[m := now + ttl] else exp - {m};
      clock := clock + 1;
      lru := lru[m := clock as real];
    }

    /** Writes `m`, then evicts down to the cap, if there is one. */
    method Place(m: Key, payload: string, ttl: real, max: nat, now: real)
      returns (out: seq<Removal>, ghost victims: set<Key>)
      requires Valid() && ttl >= 0.0
      modifies this
      ensures Valid() && m !in victims && victims <= old(lru).Keys && m in lru
      ensures entries == old(entries)[m := Fresh(payload, ttl, now)] - victims
      ensures exp == (if ttl > 0.0 then old(exp)[m := now + ttl] else old(exp) - {m}) - victims
      ensures lru == old(lru)[m := clock as real] - victims && clock == old(clock) + 1
      ensures if max == 0 then victims == {} else |lru| <= max
      ensures |old(lru)[m := clock as real]| <= max + 1 ==> |victims| <= 1
      ensures forall v, k :: v in victims && k in lru ==> old(lru)[v] < lru[k]
      ensures victims == (set r | r in out :: r.key)
      ensures forall r :: r in out ==> r.reason == Evicted && Reports(old(entries), r, now)
    {
      hide Valid, Fresh, LongestUnused, Reports;
      ghost var lru0, entries0 := lru, entries;
      Write(m, payload, ttl, now);
      NothingLess(entries);
      NothingLess(lru);
      NothingLess(exp);
      NoneUnused(lru);
      out, victims := [], {};
      if max > 0 { out, victims := Cap(m, max, now); }
      UnusedBefore(lru0, m, clock as real, victims, lru);
      forall r | r in out ensures Reports(entries0, r, now) { ReportsBefore(entries0, m, Fresh(payload, ttl, now), r, now); }
    }

    /** Marks an entry used that `nx` found present. */
    method Keep(m: Key)
      requires Valid() && m in entries
      modifies `lru, `clock
      ensures Valid() && lru == old(lru)[m := clock as real] && clock == old(clock) + 1 && |lru| == old(|lru|)
    {
      InOrder(m);
      Touch(m);
    }

    /** `SET`, or `nx`: only when the key is absent. With a cap, evicts down to it. */
    method SetScript(m: Key, payload: string, ttl: real, max: nat, nx: bool, now: real)
      returns (existing: Option<Entry>, out: seq<Removal>, ghost gone: set<Key>, ghost victims: set<Key>)
      requires Valid() && ttl >= 0.0
      modifies this
      ensures Valid() && gone <= old(Due(now)) && (|gone| < 1000 ==> gone == old(Due(now))) && m !in victims && victims <= old(lru).Keys - gone
      ensures existing.Some? <==> nx && m !in gone && old(Exists(m, now))
      ensures existing.Some? ==> victims == {} && entries == old(entries) - gone && entries[m] == existing.value
      ensures existing.None? ==> entries == (old(entries) - gone)[m := Fresh(payload, ttl, now)] - victims
      ensures existing.None? ==> m in entries && entries[m].payload == payload && entries[m].ttl == ttl
      ensures existing.None? && ttl > 0.0 ==> m in exp && exp[m] == now + ttl && entries[m].expires == Some(now + ttl + 1000.0)
      ensures existing.None? && ttl == 0.0 ==> m !in exp && entries[m].expires == None
      ensures lru == (old(lru) - gone)[m := clock as real] - victims && clock == old(clock) + 1
      ensures existing.None? && max > 0 ==> |lru| <= max
      ensures max == 0 ==> victims == {}
      // A collection within its cap stays there, and loses one entry at most.
      ensures max > 0 && old(|lru|) <= max ==> |lru| <= max && |victims| <= 1
      ensures forall v, k :: v in victims && k in lru ==> old(lru)[v] < lru[k]
      ensures gone + victims == (set r | r in out :: r.key)
      ensures forall r :: r in out ==> r.key in (if r.reason == Evicted then victims else gone) && Reports(old(entries), r, now)
    {
      hide Valid, Due, Fresh, Reports;
      out, gone := Prune(now);
      victims := {};
      FewerWithout(old(lru), gone);
      if nx && Exists(m, now) {
        existing := Some(entries[m]);
        InOrder(m);
        Keep(m);
        NothingLess(lru);
        return;
      }
      existing := None;
      var more;
      OneMore(lru, m, (clock + 1) as real);
      more, victims := Place(m, payload, ttl, max, now);
      FreshKeeps(payload, ttl, now);
      Gathered(old(entries), gone, victims, out, more, now);
      out := out + more;
    }

    lemma InOrder(m: Key)
      requires Valid() && m in entries
      ensures m in lru
    {
    }

    /** Reads an entry; may mark it used last and restart its window. */
    method GetScript(m: Key, slide: bool, mark: bool, now: real)
      returns (env: Option<Entry>, out: seq<Removal>, ghost gone: set<Key>)
      requires Valid()
      modifies this
      ensures Valid() && gone <= old(Due(now)) && (|out| < PRUNE_LIMIT ==> gone == old(Due(now)))
      ensures gone == (set r | r in out :: r.key) && forall r :: r in out ==> r.reason == Expired && Reports(old(entries), r, now)
      ensures env.Some? <==> m !in gone && old(Exists(m, now))
      // What has not lapsed is always served; what has, only behind a thousand others due.
      ensures m in old(entries) && (m in old(exp) ==> now < old(exp)[m]) ==> env.Some?
      ensures env.Some? && |out| < 1000 && m in old(exp) ==> now < old(exp)[m]
      ensures |lru| <= old(|lru|)
      ensures env.Some? ==> env.value == old(entries)[m] && m in entries
      ensures env.Some? ==> entries[m].payload == env.value.payload && entries[m].ttl == env.value.ttl
      ensures env.Some? && !slide ==> entries[m] == env.value
      ensures env.Some? ==> entries - {m} == old(entries) - gone - {m}
      ensures env.Some? ==> lru == if mark then (old(lru) - gone)[m := clock as real] else old(lru) - gone
      ensures env.Some? ==>
        exp == if slide && env.value.ttl > 0.0 then (old(exp) - gone)[m := now + env.value.ttl] else old(exp) - gone
      ensures env.None? ==> entries == old(entries) - gone - {m} && lru == old(lru) - gone - {m} && exp == old(exp) - gone - {m}
    {
      hide Valid, Due, Reports;
      DueMeans(m, now);
      if m in entries { ServedIsLive(m, now); }
      out, gone := Prune(now);
      FewerWithout(old(lru), gone);
      FewerWithout(lru, {m});
      if !Exists(m, now) {
        Drop(m);
        return None, out, gone;
      }
      env := Some(entries[m]);
      InOrder(m);
      Serve(m, slide, mark, now);
    }

    /** What a read does to an entry it found. */
    method Serve(m: Key, slide: bool, mark: bool, now: real)
      requires Valid() && m in entries
      modifies this
      ensures Valid() && m in entries && entries - {m} == old(entries) - {m}
      ensures entries[m].payload == old(entries)[m].payload && entries[m].ttl == old(entries)[m].ttl
      ensures !slide ==> entries == old(entries)
      ensures lru == if mark then old(lru)[m := clock as real] else old(lru)
      ensures exp == if slide && old(entries)[m].ttl > 0.0 then old(exp)[m := now + old(entries)[m].ttl] else old(exp)
    {
      hide Valid;
      if mark { Touch(m); }
      if slide && entries[m].ttl > 0.0 { Restart(m, now); }
    }

    /** An entry the prune has passed over and Redis still holds has not lapsed. */
    lemma ServedIsLive(m: Key, now: real)
      requires Valid() && m in entries
      ensures m !in Due(now) ==> Exists(m, now)
      ensures entries[m].ttl <= 0.0 ==> Exists(m, now) && m !in Due(now)
    {
    }

    /** Restarts a timed entry's window, in both places. */
    method Restart(m: Key, now: real)
      requires Valid() && m in entries && entries[m].ttl > 0.0
      modifies `entries, `exp
      ensures Valid() && exp == old(exp)[m := now + old(entries)[m].ttl]
      ensures entries == old(entries)[m := Restarted(old(entries)[m], now)]
    {
      hide Ticks, Timed, Restarted;
      TimedRestart(entries, exp, m, now);
      exp := exp[m := now + entries[m].ttl];
      entries := entries[m := Restarted(entries[m], now)];
    }

    lemma DueMeans(m: Key, now: real)
      ensures m in Due(now) <==> m in exp && exp[m] <= now
    {
    }

    method DeleteScript(m: Key, now: real) returns (existed: bool, out: seq<Removal>, ghost gone: set<Key>)
      requires Valid()
      modifies this
      ensures Valid() && gone <= old(Due(now)) && (|gone| < 1000 ==> gone == old(Due(now))) && m !in entries && m !in exp && m !in lru
      ensures gone == (set r | r in out :: r.key) && forall r :: r in out ==> r.reason == Expired && Reports(old(entries), r, now)
      ensures entries == old(entries) - gone - {m} && lru == old(lru) - gone - {m}
      ensures existed <==> m !in gone && old(Exists(m, now))
      ensures |lru| <= old(|lru|)
    {
      out, gone := Prune(now);
      FewerWithout(old(lru), gone);
      FewerWithout(lru, {m});
      existed := Exists(m, now);
      Drop(m);
    }

    /** `clear`: nothing is left, not even entries no script has seen lapse. */
    method ClearScript(now: real) returns (n: nat, ghost gone: set<Key>)
      requires Valid()
      modifies this
      ensures Valid() && entries == map[] && exp == map[] && lru == map[] && clock == 0
      ensures gone <= old(Due(now)) && n == |old(lru).Keys - gone|
    {
      var out;
      out, gone := Prune(now);
      n := |lru|;
      assert lru.Keys == old(lru).Keys - gone && |lru.Keys| == |lru|;
      while |lru| > 0
        invariant Valid()
        decreases |lru|
      {
        var m := Least(lru);
        Fewer(lru, m);
        Drop(m);
      }
      exp, lru, clock := map[], map[], 0;
    }

    /** `size` or `keys`: counts what the prune leaves, or lists it in access order. */
    method ListScript(keys: bool, now: real) returns (n: nat, listed: seq<Key>, out: seq<Removal>, ghost gone: set<Key>)
      requires Valid()
      modifies `entries, `exp, `lru
      ensures Valid() && gone <= old(Due(now)) && (|gone| < 1000 ==> gone == old(Due(now)))
      ensures gone == (set r | r in out :: r.key) && |lru| <= old(|lru|)
      ensures forall r :: r in out ==> r.reason == Expired && Reports(old(entries), r, now)
      ensures entries == old(entries) - gone && exp == old(exp) - gone && lru == old(lru) - gone
      ensures !keys ==> n == |lru| && listed == []
      ensures keys ==> n == 0 && forall k :: k in listed <==> k in lru
      ensures Ascending(lru, listed)
    {
      hide Valid, Due;
      out, gone := Prune(now);
      FewerWithout(old(lru), gone);
      n, listed := 0, [];
      if keys {
        TicksDiffer();
        listed := ByScore(lru);
      } else {
        n := |lru|;
      }
    }

    lemma TicksDiffer()
      requires Valid()
      ensures forall j, k :: j in lru && k in lru && j != k ==> lru[j] != lru[k]
    {
    }

    /** Any interleaving of the scripts, from any number of processes that share one cap. */
    method Run(commands: seq<Command>, max: nat)
      requires Valid() && |lru| <= max && max > 0
      requires forall c :: c in commands ==> c.Set? ==> c.ttl >= 0.0
      modifies this
      ensures Valid() && |lru| <= max
    {
      hide Valid;
      for i := 0 to |commands|
        invariant Valid() && |lru| <= max
      {
        match commands[i]
        case Set(m, payload, ttl, nx, now) =>
          var existing, out, gone, victims := SetScript(m, payload, ttl, max, nx, now);
        case Get(m, slide, mark, now) =>
          var env, out, gone := GetScript(m, slide, mark, now);
        case Delete(m, now) =>
          var existed, out, gone := DeleteScript(m, now);
        case Clear(now) =>
          var n, gone := ClearScript(now);
        case List(keys, now) =>
          var n, listed, out, gone := ListScript(keys, now);
      }
    }
  }

  /** The entry a `SET` writes. */
  function Fresh(payload: string, ttl: real, now: real): Entry {
    Entry(ttl, payload, if ttl > 0.0 then Some(now + ttl + GRACE) else None)
  }

  /** An entry holds what it was written with, and is let go a second after its deadline. */
  lemma FreshKeeps(payload: string, ttl: real, now: real)
    ensures Fresh(payload, ttl, now).payload == payload && Fresh(payload, ttl, now).ttl == ttl
    ensures Fresh(payload, ttl, now).expires == if ttl > 0.0 then Some(now + ttl + 1000.0) else None
  {
  }

  function Restarted(e: Entry, now: real): Entry {
    e.(expires := Some(now + e.ttl + GRACE))
  }

  lemma Reported(entries: map<Key, Entry>, exp: Scores, gone: set<Key>, r: Removal, now: real)
    requires r.key !in gone && Reports(entries - gone, r, now)
    ensures Reports(entries, r, now)
    ensures InGrace(entries - gone, exp - gone, r, now) ==> InGrace(entries, exp, r, now)
  {
  }

  /** What the prune let go and what the cap did, told together. */
  lemma Gathered(entries: map<Key, Entry>, gone: set<Key>, victims: set<Key>, out: seq<Removal>, more: seq<Removal>, now: real)
    requires gone == (set r | r in out :: r.key) && victims == (set r | r in more :: r.key) && gone !! victims
    requires forall r :: r in out ==> r.reason == Expired && Reports(entries, r, now)
    requires forall r :: r in more ==> r.reason == Evicted && Reports(entries - gone, r, now)
    ensures gone + victims == (set r | r in out + more :: r.key)
    ensures forall r :: r in out + more ==> r.key in (if r.reason == Evicted then victims else gone) && Reports(entries, r, now)
  {
    hide Reports;
    forall r | r in more ensures r.key in victims && Reports(entries, r, now) {
      Reported(entries, map[], gone, r, now);
    }
    forall r | r in out ensures r.key in gone {
    }
  }

  lemma FewerWithout(scores: Scores, gone: set<Key>)
    ensures |scores - gone| <= |scores|
  {
  }

  lemma OneMore(scores: Scores, k: Key, x: real)
    ensures |scores[k := x]| <= |scores| + 1
  {
    assert scores[k := x].Keys == scores.Keys + {k};
    assert |scores[k := x].Keys| == |scores[k := x]| && |scores.Keys| == |scores|;
  }

  lemma NothingLess<V>(m: map<Key, V>)
    ensures m - {} == m
  {
  }

  lemma WithoutMore<V>(m: map<Key, V>, gone: set<Key>, k: Key)
    ensures (m - gone) - {k} == m - (gone + {k})
  {
  }

  lemma Fewer(scores: Scores, k: Key)
    requires k in scores
    ensures |scores - {k}| == |scores| - 1
  {
    assert (scores - {k}).Keys == scores.Keys - {k};
    assert |scores.Keys| == |scores| && |(scores - {k}).Keys| == |scores - {k}|;
  }
}
