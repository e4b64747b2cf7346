/**
 The order of a binary min-heap kept in a sequence, on the keys alone, and what
 one step of sifting a value up or down keeps of it. `hole` is the place the
 sifted value is being moved through: its own key is not looked at. A step moves
 the key above or below into the hole; what lies above the hole is then in order
 with what lies below it, so that the value can be put down as soon as it fits.
 */
module HeapOrder {
  function Up(i: int): int
    requires i > 0
  {
    (i - 1) / 2
  }

  /** The key at `i` and the key of its parent are in order. */
  ghost predicate Below(f: seq<real>, i: int)
    requires 0 < i < |f|
  {
    f[Up(i)] <= f[i]
  }

  ghost predicate Ordered(f: seq<real>) {
    forall i :: 0 < i < |f| ==> Below(f, i)
  }

  /** In order with `x` put in the hole. */
  ghost predicate OrderedAbove(f: seq<real>, hole: nat, x: real)
    requires hole < |f|
  {
    && (forall i :: 0 < i < |f| && i != hole && Up(i) != hole ==> Below(f, i))
    && (forall i :: 0 < i < |f| && Up(i) == hole ==> x <= f[i])
    && (forall i :: 0 < i < |f| && Up(i) == hole && hole > 0 ==> f[Up(hole)] <= f[i])
  }

  /** As above, but it is the parent that `x` is known to fit under, not the children it fits over. */
  ghost predicate OrderedBelow(f: seq<real>, hole: nat, x: real)
    requires hole < |f|
  {
    && (forall i :: 0 < i < |f| && i != hole && Up(i) != hole ==> Below(f, i))
    && (forall i :: 0 < i < |f| && Up(i) == hole && hole > 0 ==> f[Up(hole)] <= f[i])
    && (hole > 0 ==> f[Up(hole)] <= x)
  }

  lemma {:induction false} TopIsLeast(f: seq<real>, i: nat)
    requires Ordered(f) && i < |f|
    ensures f[0] <= f[i]
  {
    if i > 0 {
      assert Below(f, i);
      TopIsLeast(f, Up(i));
    }
  }

  lemma OrderedPrefix(f: seq<real>, n: nat)
    requires Ordered(f) && n <= |f|
    ensures Ordered(f[..n])
  {
    forall i | 0 < i < n ensures Below(f[..n], i) {
      assert Below(f, i);
    }
  }

  ghost predicate LeastChild(f: seq<real>, hole: nat, child: nat) {
    && (child == 2 * hole + 1 || child == 2 * hole + 2)
    && child < |f|
    && f[child] <= f[2 * hole + 1]
    && (2 * hole + 2 < |f| ==> f[child] <= f[2 * hole + 2])
  }

  lemma OpenedAtEnd(f: seq<real>, x: real)
    requires |f| > 0 && Ordered(f[..|f| - 1])
    ensures OrderedAbove(f, |f| - 1, x)
  {
    forall i | 0 < i < |f| - 1 ensures Below(f, i) {
      assert Below(f[..|f| - 1], i);
    }
  }

  lemma OpenedAtTop(f: seq<real>, x: real)
    requires |f| > 0 && Ordered(f)
    ensures OrderedBelow(f, 0, x)
  {
  }

  lemma SiftUpStep(f: seq<real>, hole: nat, x: real)
    requires 0 < hole < |f| && OrderedAbove(f, hole, x) && x < f[Up(hole)]
    ensures OrderedAbove(f[hole := f[Up(hole)]], Up(hole), x)
  {
  }

  lemma SiftDownStep(f: seq<real>, hole: nat, child: nat, x: real)
    requires hole < |f| && OrderedBelow(f, hole, x)
    requires LeastChild(f, hole, child) && f[child] < x
    ensures OrderedBelow(f[hole := f[child]], child, x)
  {
  }

  lemma ClosedAbove(f: seq<real>, hole: nat, x: real)
    requires hole < |f| && OrderedAbove(f, hole, x) && (hole > 0 ==> f[Up(hole)] <= x)
    ensures Ordered(f[hole := x])
  {
  }

  lemma ClosedBelow(f: seq<real>, hole: nat, x: real)
    requires hole < |f| && OrderedBelow(f, hole, x)
    requires 2 * hole + 1 < |f| ==> exists child: nat :: LeastChild(f, hole, child) && x <= f[child]
    ensures Ordered(f[hole := x])
  {
  }

  /** Moving the element at `j` into the hole at `i` moves the hole, and nothing else. */
  lemma HoleMoved<T>(h: seq<T>, i: nat, j: nat, x: T)
    requires i < |h| && j < |h| && i != j
    ensures multiset(h[i := h[j]][j := x]) == multiset(h[i := x])
  {
    assert h[i := h[j]][j := x] == h[i := x][i := h[j]][j := x];
  }
}
