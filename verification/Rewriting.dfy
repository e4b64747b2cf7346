/** Reading a call's arguments in masked code, and applying edits to a source. */
module Rewriting {
  import opened Wrappers

  // ---------- the arguments of a call ----------

  predicate Opens(c: char) {
    c == '(' || c == '[' || c == '{'
  }

  predicate Closes(c: char) {
    c == ')' || c == ']' || c == '}'
  }

  /** How many brackets are open before `i`, counting from `open`. */
  function Depth(code: string, open: nat, i: nat): int
    requires open <= i <= |code|
  {
    if i == open then 0
    else Depth(code, open, i - 1) + if Opens(code[i - 1]) then 1 else if Closes(code[i - 1]) then -1 else 0
  }

  /** `close` holds the first bracket that leaves none open. */
  ghost predicate Closed(code: string, open: nat, close: nat) {
    && open < close < |code| && Depth(code, open, close + 1) == 0
    && forall i :: open < i <= close ==> Depth(code, open, i) > 0
  }

  /** A comma between two arguments of the call. */
  predicate Separates(code: string, open: nat, i: nat) {
    open < i < |code| && code[i] == ',' && Depth(code, open, i) == 1
  }

  datatype Span = Span(from: nat, to: nat)

  /** The spans between `open`, each comma in turn, and `to`. */
  ghost predicate Between(code: string, open: nat, to: nat, spans: seq<Span>) {
    && (spans != [] ==> spans[0].from == open + 1 && spans[|spans| - 1].to == to)
    && (forall k :: 0 <= k < |spans| ==> open < spans[k].from <= spans[k].to)
    && (forall k :: 0 <= k < |spans| - 1 ==> spans[k + 1].from == spans[k].to + 1 && Separates(code, open, spans[k].to))
    && (forall k, i :: 0 <= k < |spans| && spans[k].from <= i < spans[k].to ==> !Separates(code, open, i))
  }

  /** One more character belongs to the last span. */
  lemma Extends(code: string, open: nat, i: nat, found: seq<Span>, start: nat)
    requires open < i < |code| && start <= i && Between(code, open, i, found + [Span(start, i)])
    requires !Separates(code, open, i)
    ensures Between(code, open, i + 1, found + [Span(start, i + 1)])
  {
    hide Separates;
    var was, now := found + [Span(start, i)], found + [Span(start, i + 1)];
    assert forall k :: 0 <= k < |found| ==> was[k] == found[k] == now[k];
    assert was[|found|] == Span(start, i);
  }

  lemma ReadsOn(code: string, open: nat, i: nat, found: seq<Span>, start: nat)
    requires open < i < |code| && start <= i && Between(code, open, i, found + [Span(start, i)])
    ensures !Separates(code, open, i) ==> Between(code, open, i + 1, found + [Span(start, i + 1)])
    ensures Separates(code, open, i) ==> Between(code, open, i + 1, found + [Span(start, i)] + [Span(i + 1, i + 1)])
  {
    if Separates(code, open, i) {
    } else {
      Extends(code, open, i, found, start);
    }
  }

  lemma NothingRead(code: string, open: nat)
    requires open < |code|
    ensures Between(code, open, open + 1, [] + [Span(open + 1, open + 1)])
  {
  }

  predicate Blank(text: string, white: set<char>) {
    forall c :: c in text ==> c in white
  }

  /** Splits a call at the commas that `Separates` names; nothing when no bracket closes it. */
  method CallArgs(code: string, open: nat, white: set<char>) returns (args: Option<seq<Span>>, last: Span)
    requires open < |code| && code[open] == '('
    ensures args.Some? <==> exists close :: Closed(code, open, close)
    ensures args.Some? ==> Closed(code, open, last.to)
    ensures args.Some? ==> last.from <= last.to && exists spans ::
      Between(code, open, last.to, spans + [last])
      && args.value == if Blank(code[last.from..last.to], white) then spans else spans + [last]
  {
    hide Between;
    NothingRead(code, open);
    var found := [];
    var depth := 0;
    var start: nat := open + 1;
    last := Span(start, start);
    for i := open to |code|
      invariant depth == Depth(code, open, i) && (i > open ==> start <= i)
      invariant i > open ==> Between(code, open, i, found + [Span(start, i)])
      invariant i == open ==> start == open + 1 && found == []
      invariant forall j :: open < j <= i ==> Depth(code, open, j) > 0
    {
      var c := code[i];
      if i > open { ReadsOn(code, open, i, found, start); }
      if Opens(c) {
        depth := depth + 1;
      } else if Closes(c) {
        depth := depth - 1;
        if depth == 0 {
          last := Span(start, i);
          assert Closed(code, open, i);
          args := Some(if Blank(code[start..i], white) then found else found + [last]);
          return;
        }
      } else if c == ',' && depth == 1 {
        found := found + [Span(start, i)];
        start := i + 1;
      }
    }
    args := None;
  }

  // ---------- applying edits ----------

  datatype Edit = Edit(at: nat, remove: nat, insert: string)

  /** Each edit lies in the source and no two touch the same text. */
  ghost predicate Disjoint(source: string, edits: seq<Edit>) {
    && (forall i :: 0 <= i < |edits| ==> edits[i].at + edits[i].remove <= |source|)
    && (forall i, j :: 0 <= i < |edits| && 0 <= j < |edits| && i != j ==> Apart(edits[i], edits[j]))
  }

  predicate Apart(a: Edit, b: Edit) {
    (a.at < b.at && a.at + a.remove <= b.at) || (b.at < a.at && b.at + b.remove <= a.at)
  }

  /** What is put in before character `k`. */
  function Inserted(edits: seq<Edit>, k: nat): string {
    if edits == [] then ""
    else if edits[|edits| - 1].at == k then edits[|edits| - 1].insert
    else Inserted(edits[..|edits| - 1], k)
  }

  predicate Removed(edits: seq<Edit>, k: nat) {
    exists e :: e in edits && e.at <= k < e.at + e.remove
  }

  /** Every edit at once, from character `from` on: each place is looked up on its own. */
  function Substituted(source: string, edits: seq<Edit>, from: nat): string
    requires from <= |source|
    decreases |source| - from
  {
    Inserted(edits, from) +
    if from == |source| then ""
    else (if Removed(edits, from) then "" else [source[from]]) + Substituted(source, edits, from + 1)
  }

  predicate HighestFirst(edits: seq<Edit>) {
    forall i, j :: 0 <= i < j < |edits| ==> edits[i].at >= edits[j].at
  }

  lemma {:induction false} InsertedAway(edits: seq<Edit>, k: nat)
    requires forall e :: e in edits ==> e.at != k
    ensures Inserted(edits, k) == ""
  {
    if edits != [] { InsertedAway(edits[..|edits| - 1], k); }
  }

  /** An edit does not reach past its own text. */
  lemma {:induction false} BeyondEdit(source: string, edits: seq<Edit>, e: Edit, k: nat)
    requires e.at < k && e.at + e.remove <= k <= |source|
    ensures Substituted(source, edits + [e], k) == Substituted(source, edits, k)
    decreases |source| - k
  {
    assert (edits + [e])[..|edits + [e]| - 1] == edits;
    if k < |source| { BeyondEdit(source, edits, e, k + 1); }
  }

  lemma RemovedInside(edits: seq<Edit>, e: Edit, k: nat)
    requires e.at <= k && forall f :: f in edits ==> f.at > k
    ensures Removed(edits + [e], k) <==> k < e.at + e.remove
  {
    assert e in edits + [e];
  }

  lemma StepInside(source: string, edits: seq<Edit>, e: Edit, k: nat, next: nat)
    requires e.at <= k < next <= |source| && e.at + e.remove <= next
    ensures
      var from := if k < e.at + e.remove then e.at + e.remove else k;
      var on := if k + 1 < e.at + e.remove then e.at + e.remove else k + 1;
      source[from..next] == (if k < e.at + e.remove then "" else [source[k]]) + source[on..next]
  {
  }

  /** Between its start and the next edit, text is removed or kept as it stands. */
  lemma {:induction false} InsideEdit(source: string, edits: seq<Edit>, e: Edit, k: nat, next: nat)
    requires e.at < k <= next <= |source| && e.at + e.remove <= next && forall f :: f in edits ==> f.at >= next
    ensures Substituted(source, edits + [e], k) ==
      source[(if k < e.at + e.remove then e.at + e.remove else k)..next] + Substituted(source, edits, next)
    decreases next - k
  {
    if k == next {
      BeyondEdit(source, edits, e, k);
    } else {
      hide Removed, Inserted;
      InsertedAway(edits + [e], k);
      RemovedInside(edits, e, k);
      InsideEdit(source, edits, e, k + 1, next);
      StepInside(source, edits, e, k, next);
    }
  }

  /** Text before the first edit stands. */
  lemma {:induction false} BeforeAll(source: string, edits: seq<Edit>, k: nat, first: nat)
    requires k <= first <= |source| && forall f :: f in edits ==> f.at >= first
    ensures Substituted(source, edits, k) == source[k..first] + Substituted(source, edits, first)
    decreases first - k
  {
    if k < first {
      InsertedAway(edits, k);
      BeforeAll(source, edits, k + 1, first);
    }
  }

  /** One more edit, before all the others. */
  lemma OneMore(source: string, edits: seq<Edit>, e: Edit, next: nat)
    requires next <= |source| && e.at + e.remove <= next && (e.at == next ==> next == |source| && edits == [])
    requires forall f :: f in edits ==> f.at >= next
    ensures Substituted(source, edits + [e], e.at) ==
      e.insert + source[e.at + e.remove..next] + Substituted(source, edits, next)
  {
    hide Removed, Inserted;
    InsertedLast(edits, e);
    if e.at < next {
      RemovedInside(edits, e, e.at);
      InsideEdit(source, edits, e, e.at + 1, next);
      StepInside(source, edits, e, e.at, next);
    } else {
      InsertedAway(edits, next);
    }
  }

  lemma InsertedLast(edits: seq<Edit>, e: Edit)
    ensures Inserted(edits + [e], e.at) == e.insert
  {
  }

  /** The order of edits that do not touch does not matter. */
  lemma {:induction false} AnyOrder(source: string, a: seq<Edit>, b: seq<Edit>, k: nat)
    requires Disjoint(source, a) && Disjoint(source, b) && multiset(a) == multiset(b) && k <= |source|
    ensures Substituted(source, a, k) == Substituted(source, b, k)
    decreases |source| - k
  {
    hide Disjoint;
    SameEdits(a, b);
    SameInserted(source, a, b, k);
    if k < |source| { AnyOrder(source, a, b, k + 1); }
  }

  lemma SameEdits(a: seq<Edit>, b: seq<Edit>)
    requires multiset(a) == multiset(b)
    ensures forall e :: e in a <==> e in b
  {
    forall e ensures e in a <==> e in b {
      assert e in a <==> e in multiset(a);
      assert e in b <==> e in multiset(b);
    }
  }

  lemma SameInserted(source: string, a: seq<Edit>, b: seq<Edit>, k: nat)
    requires Disjoint(source, a) && Disjoint(source, b) && forall e :: e in a <==> e in b
    ensures Inserted(a, k) == Inserted(b, k)
  {
    if e :| e in a && e.at == k {
      InsertedThere(source, a, e);
      InsertedThere(source, b, e);
    } else {
      InsertedAway(a, k);
      InsertedAway(b, k);
    }
  }

  lemma {:induction false} InsertedThere(source: string, edits: seq<Edit>, e: Edit)
    requires Disjoint(source, edits) && e in edits
    ensures Inserted(edits, e.at) == e.insert
  {
    var n := |edits| - 1;
    if edits[n] != e {
      var i :| 0 <= i < |edits| && edits[i] == e;
      assert Apart(edits[i], edits[n]);
      InsertedThere(source, edits[..n], e);
    }
  }

  /** A substring as JavaScript takes it: bounds past the end stop there. */
  function Slice(s: string, from: nat, to: nat): string {
    var end := if to < |s| then to else |s|;
    if from < end then s[from..end] else ""
  }

  lemma InsertDisjoint(source: string, s: seq<Edit>, k: nat, e: Edit)
    requires k <= |s| && Disjoint(source, s) && e.at + e.remove <= |source| && forall f :: f in s ==> Apart(f, e)
    ensures Disjoint(source, s[..k] + [e] + s[k..])
  {
    var t := s[..k] + [e] + s[k..];
    forall i, j | 0 <= i < j < |t| ensures Apart(t[i], t[j]) && Apart(t[j], t[i]) {
      assert t[i] == if i < k then s[i] else if i == k then e else s[i - 1];
      assert t[j] == if j < k then s[j] else if j == k then e else s[j - 1];
      if i == k { assert s[j - 1] in s; } else if j == k { assert s[i] in s; }
    }
  }

  lemma NoEdits()
    ensures HighestFirst([])
  {
  }

  lemma InsertOrder(s: seq<Edit>, k: nat, e: Edit)
    requires HighestFirst(s) && k <= |s| && (k > 0 ==> s[k - 1].at >= e.at)
    requires forall j :: k <= j < |s| ==> s[j].at < e.at
    ensures HighestFirst(s[..k] + [e] + s[k..])
  {
  }

  /** Puts an edit behind those that start no earlier. */
  method Insert(ghost source: string, sorted: seq<Edit>, e: Edit) returns (more: seq<Edit>)
    requires HighestFirst(sorted)
    ensures HighestFirst(more) && multiset(more) == multiset(sorted) + multiset{e}
    ensures Disjoint(source, sorted) && e.at + e.remove <= |source| && (forall f :: f in sorted ==> Apart(f, e)) ==>
      Disjoint(source, more)
  {
    hide Disjoint, Apart, HighestFirst;
    var k := |sorted|;
    while k > 0 && sorted[k - 1].at < e.at
      invariant 0 <= k <= |sorted| && forall j :: k <= j < |sorted| ==> sorted[j].at < e.at
    {
      k := k - 1;
    }
    assert sorted == sorted[..k] + sorted[k..];
    more := sorted[..k] + [e] + sorted[k..];
    InsertOrder(sorted, k, e);
    if Disjoint(source, sorted) && e.at + e.remove <= |source| && forall f :: f in sorted ==> Apart(f, e) {
      InsertDisjoint(source, sorted, k, e);
    }
  }

  method SortHighestFirst(ghost source: string, edits: seq<Edit>) returns (sorted: seq<Edit>)
    ensures HighestFirst(sorted) && multiset(sorted) == multiset(edits)
    ensures Disjoint(source, edits) ==> Disjoint(source, sorted)
  {
    hide HighestFirst;
    sorted := [];
    NoEdits();
    for i := 0 to |edits|
      invariant HighestFirst(sorted) && multiset(sorted) == multiset(edits[..i])
      invariant Disjoint(source, edits) ==> Disjoint(source, sorted)
    {
      SameEdits(sorted, edits[..i]);
      assert edits[..i + 1] == edits[..i] + [edits[i]];
      sorted := Insert(source, sorted, edits[i]);
    }
    assert edits[..|edits|] == edits;
  }

  /** Where the text the first `j` edits leave alone ends. */
  function Front(source: string, sorted: seq<Edit>, j: nat): nat
    requires j <= |sorted|
  {
    if j == 0 then |source| else sorted[j - 1].at
  }

  /** Edits applied one by one, the highest first, do what they would all at once. */
  method ApplyEdits(source: string, edits: seq<Edit>) returns (result: string)
    ensures Disjoint(source, edits) ==> result == Substituted(source, edits, 0)
  {
    var sorted := SortHighestFirst(source, edits);
    result := source;
    for j := 0 to |sorted|
      invariant Disjoint(source, edits) ==> Applied(source, sorted, j, result)
    {
      var e := sorted[j];
      var next := Slice(result, 0, e.at) + e.insert + Slice(result, e.at + e.remove, |result|);
      if Disjoint(source, edits) { ApplyOne(source, sorted, j, result, next); }
      result := next;
    }
    if Disjoint(source, edits) {
      assert sorted[..|sorted|] == sorted;
      BeforeAll(source, sorted, 0, Front(source, sorted, |sorted|));
      AnyOrder(source, sorted, edits, 0);
    }
  }

  ghost predicate Applied(source: string, sorted: seq<Edit>, j: nat, result: string) {
    && j <= |sorted| && Front(source, sorted, j) <= |source|
    && result == source[..Front(source, sorted, j)] + Substituted(source, sorted[..j], Front(source, sorted, j))
  }

  lemma BeforeFront(source: string, sorted: seq<Edit>, j: nat)
    requires Disjoint(source, sorted) && HighestFirst(sorted) && j < |sorted|
    ensures sorted[j].at + sorted[j].remove <= Front(source, sorted, j) <= |source|
    ensures j > 0 ==> sorted[j].at < Front(source, sorted, j)
    ensures forall f :: f in sorted[..j] ==> f.at >= Front(source, sorted, j)
  {
    assert j > 0 ==> Apart(sorted[j - 1], sorted[j]);
  }

  lemma ApplyOne(source: string, sorted: seq<Edit>, j: nat, result: string, next: string)
    requires Disjoint(source, sorted) && HighestFirst(sorted) && j < |sorted| && Applied(source, sorted, j, result)
    requires next ==
      Slice(result, 0, sorted[j].at) + sorted[j].insert + Slice(result, sorted[j].at + sorted[j].remove, |result|)
    ensures Applied(source, sorted, j + 1, next)
  {
    hide Disjoint, HighestFirst, Substituted, Slice, Apart;
    var e, front := sorted[j], Front(source, sorted, j);
    assert sorted[..j + 1] == sorted[..j] + [e];
    BeforeFront(source, sorted, j);
    OneMore(source, sorted[..j], e, front);
    var rest := Substituted(source, sorted[..j], front);
    Slices(source, rest, front, e.at, e.at + e.remove);
    Regroup(source[..e.at], e.insert, source[e.at + e.remove..front], rest);
  }

  lemma Regroup(a: string, b: string, c: string, d: string)
    ensures a + b + (c + d) == a + (b + c + d)
  {
  }

  lemma Slices(source: string, rest: string, front: nat, at: nat, end: nat)
    requires at <= end <= front <= |source|
    ensures var s := source[..front] + rest;
      Slice(s, 0, at) == source[..at] && Slice(s, end, |s|) == source[end..front] + rest
  {
  }
}
