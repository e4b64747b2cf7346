/** What counting brackets amounts to: nested text is kept whole, and a call is cut where its arguments part. */
module CallTexts {
  import opened Rewriting

  /** Code as brackets nest it. */
  datatype Text =
    | Nothing
    | Char(c: char, rest: Text)
    | Group(left: char, inside: Text, right: char, rest: Text)

  function Shown(t: Text): string {
    match t
    case Nothing => ""
    case Char(c, rest) => [c] + Shown(rest)
    case Group(left, inside, right, rest) => [left] + Shown(inside) + [right] + Shown(rest)
  }

  /** Brackets stand only around groups; which kind closes which is not looked at. */
  predicate Nested(t: Text) {
    match t
    case Nothing => true
    case Char(c, rest) => c !in "()[]{}" && Nested(rest)
    case Group(left, inside, right, rest) => left in "([{" && right in ")]}" && Nested(inside) && Nested(rest)
  }

  /** No comma outside the groups. */
  predicate OneArgument(t: Text) {
    match t
    case Nothing => true
    case Char(c, rest) => c != ',' && OneArgument(rest)
    case Group(_, _, _, rest) => OneArgument(rest)
  }

  function Joined(args: seq<Text>): string {
    if args == [] then ""
    else if |args| == 1 then Shown(args[0])
    else Shown(args[0]) + "," + Joined(args[1..])
  }

  /** `code` holds `text` from `i` on. */
  predicate At(code: string, i: nat, text: string) {
    i + |text| <= |code| && code[i..i + |text|] == text
  }

  lemma AtParts(code: string, i: nat, a: string, b: string)
    requires At(code, i, a + b)
    ensures At(code, i, a) && At(code, i + |a|, b)
  {
    assert code[i..i + |a + b|] == a + b;
    assert code[i..i + |a|] == (a + b)[..|a|];
    assert code[i + |a|..i + |a| + |b|] == (a + b)[|a|..];
  }

  lemma DepthNext(code: string, open: nat, i: nat)
    requires open <= i < |code| && code[i] == ','
    ensures Depth(code, open, i + 1) == Depth(code, open, i)
  {
  }

  /** From `i` to `end`, as many brackets are open as at first, and never fewer. */
  ghost predicate Level(code: string, open: nat, i: nat, end: nat) {
    && open <= i <= end <= |code| && Depth(code, open, end) == Depth(code, open, i)
    && forall j :: i <= j <= end ==> Depth(code, open, j) >= Depth(code, open, i)
  }

  /** Commas there stand inside brackets. */
  ghost predicate Unparted(code: string, open: nat, i: nat, end: nat) {
    && open <= i <= end <= |code|
    && forall j :: i <= j < end && code[j] == ',' ==> Depth(code, open, j) > Depth(code, open, i)
  }

  lemma LevelChar(code: string, open: nat, i: nat, end: nat)
    requires open <= i < end && Level(code, open, i + 1, end) && code[i] !in "()[]{}"
    ensures Level(code, open, i, end)
    ensures Unparted(code, open, i + 1, end) && code[i] != ',' ==> Unparted(code, open, i, end)
  {
  }

  lemma LevelOn(code: string, open: nat, i: nat, end: nat, close: nat)
    requires end < close <= |code| && Level(code, open, i, end) && code[end] == ',' && Level(code, open, end + 1, close)
    ensures Level(code, open, i, close)
  {
  }

  lemma LevelGroup(code: string, open: nat, i: nat, k: nat, end: nat)
    requires open <= i < k < end && Level(code, open, i + 1, k) && Level(code, open, k + 1, end)
    requires code[i] in "([{" && code[k] in ")]}"
    ensures Level(code, open, i, end)
    ensures Unparted(code, open, k + 1, end) ==> Unparted(code, open, i, end)
  {
    assert Depth(code, open, i + 1) == Depth(code, open, i) + 1;
    assert Depth(code, open, k + 1) == Depth(code, open, i);
    hide Depth;
  }

  lemma AtChar(code: string, i: nat, c: char)
    requires At(code, i, [c])
    ensures i < |code| && code[i] == c
  {
    assert code[i..i + 1] == [c];
  }

  lemma GroupParts(code: string, i: nat, left: char, inside: string, right: char, rest: string)
    requires At(code, i, [left] + inside + [right] + rest)
    ensures var k := i + 1 + |inside|;
      && At(code, i + 1, inside) && At(code, k + 1, rest) && k < |code| && code[i] == left && code[k] == right
  {
    AtParts(code, i, [left] + inside + [right], rest);
    AtParts(code, i, [left] + inside, [right]);
    AtParts(code, i, [left], inside);
    AtChar(code, i, left);
    AtChar(code, i + 1 + |inside|, right);
  }

  lemma AtBound(code: string, i: nat, text: string)
    requires At(code, i, text)
    ensures i <= |code|
  {
  }

  lemma LevelAtOnce(code: string, open: nat, i: nat)
    requires open <= i <= |code|
    ensures Level(code, open, i, i) && Unparted(code, open, i, i)
  {
  }

  /** Nested text is level. */
  lemma {:induction false} Over(code: string, open: nat, i: nat, t: Text)
    requires open <= i && At(code, i, Shown(t)) && Nested(t)
    ensures Level(code, open, i, i + |Shown(t)|)
    ensures OneArgument(t) ==> Unparted(code, open, i, i + |Shown(t)|)
    decreases t
  {
    hide Level, Unparted, At;
    assert i <= |code| by { AtBound(code, i, Shown(t)); }
    match t
    case Nothing =>
      LevelAtOnce(code, open, i);
    case Char(c, rest) =>
      AtParts(code, i, [c], Shown(rest));
      AtChar(code, i, c);
      Over(code, open, i + 1, rest);
      LevelChar(code, open, i, i + |Shown(t)|);
    case Group(left, inside, right, rest) =>
      GroupParts(code, i, left, Shown(inside), right, Shown(rest));
      var k := i + 1 + |Shown(inside)|;
      Over(code, open, i + 1, inside);
      Over(code, open, k + 1, rest);
      LevelGroup(code, open, i, k, i + |Shown(t)|);
  }

  /** Where a bracket is closed again, inside level text. */
  lemma Partner(code: string, open: nat, i: nat, end: nat) returns (k: nat)
    requires i < end && Level(code, open, i, end) && code[i] in "([{"
    ensures i < k < end && code[k] in ")]}" && Level(code, open, i + 1, k) && Level(code, open, k + 1, end)
  {
    var depth := Depth(code, open, i);
    k := i + 1;
    while Depth(code, open, k + 1) > depth
      invariant i < k < end && forall j :: i < j <= k ==> Depth(code, open, j) > depth
      decreases end - k
    {
      k := k + 1;
    }
    assert Depth(code, open, k) > depth && Closes(code[k]);
    assert Depth(code, open, k + 1) == depth;
  }

  lemma LevelRest(code: string, open: nat, i: nat, end: nat)
    requires i < end && Level(code, open, i, end) && code[i] !in "([{"
    ensures code[i] !in ")]}" && Level(code, open, i + 1, end)
  {
    assert Depth(code, open, i + 1) >= Depth(code, open, i);
  }

  /** Level text is nested. */
  lemma {:induction false} Read(code: string, open: nat, i: nat, end: nat) returns (t: Text)
    requires open <= i <= end <= |code| && Level(code, open, i, end)
    ensures Nested(t) && Shown(t) == code[i..end]
    decreases end - i
  {
    hide Level;
    if i == end {
      t := Nothing;
    } else if code[i] !in "([{" {
      LevelRest(code, open, i, end);
      var rest := Read(code, open, i + 1, end);
      t := Char(code[i], rest);
    } else {
      var k := Partner(code, open, i, end);
      var inside := Read(code, open, i + 1, k);
      var rest := Read(code, open, k + 1, end);
      t := Group(code[i], inside, code[k], rest);
      assert code[i..end] == [code[i]] + code[i + 1..k] + [code[k]] + code[k + 1..end];
    }
  }

  /** A bracket stands open over level text, and the next one closes it. */
  lemma LevelCloses(code: string, open: nat, close: nat)
    requires open < close < |code| && code[open] == '('
    ensures Depth(code, open, open + 1) == 1
    ensures Closed(code, open, close) <==> code[close] in ")]}" && Level(code, open, open + 1, close)
  {
    assert Depth(code, open, open + 1) == 1;
    assert Depth(code, open, close + 1) == Depth(code, open, close)
      + if Opens(code[close]) then 1 else if Closes(code[close]) then -1 else 0;
    if code[close] in ")]}" && Level(code, open, open + 1, close) {
      assert forall i :: open < i <= close ==> Depth(code, open, i) > 0;
    }
  }

  /** A bracket is closed exactly where nested text after it meets a closing bracket. */
  lemma ClosedExactly(code: string, open: nat, close: nat)
    requires open < close < |code| && code[open] == '('
    ensures Closed(code, open, close) <==>
      code[close] in ")]}" && exists t :: Nested(t) && Shown(t) == code[open + 1..close]
  {
    hide Closed, Level;
    LevelCloses(code, open, close);
    if Closed(code, open, close) {
      var t := Read(code, open, open + 1, close);
    }
    if t :| code[close] in ")]}" && Nested(t) && Shown(t) == code[open + 1..close] {
      assert code[open + 1..open + 1 + |Shown(t)|] == Shown(t);
      Over(code, open, open + 1, t);
    }
  }

  /** Spans from `from` to `to`, parted by the commas of the call. */
  ghost predicate Chain(code: string, open: nat, from: nat, to: nat, spans: seq<Span>) {
    && spans != [] && spans[0].from == from && spans[|spans| - 1].to == to
    && (forall k :: 0 <= k < |spans| ==> open < spans[k].from <= spans[k].to)
    && (forall k :: 0 <= k < |spans| - 1 ==> spans[k + 1].from == spans[k].to + 1 && Separates(code, open, spans[k].to))
    && (forall k, i :: 0 <= k < |spans| && spans[k].from <= i < spans[k].to ==> !Separates(code, open, i))
  }

  lemma {:induction false} Ends(code: string, open: nat, from: nat, to: nat, spans: seq<Span>)
    requires Chain(code, open, from, to, spans)
    ensures spans[0].to <= to && (|spans| > 1 ==> spans[0].to < to && Chain(code, open, spans[0].to + 1, to, spans[1..]))
    decreases |spans|
  {
    if |spans| > 1 { Ends(code, open, spans[0].to + 1, to, spans[1..]); }
  }

  /** The first span holds the first argument. */
  lemma FirstSpan(code: string, open: nat, i: nat, close: nat, arg: Text, more: string, spans: seq<Span>)
    requires open < i <= close <= |code| && Depth(code, open, i) == 1 && Nested(arg) && OneArgument(arg)
    requires code[i..close] == Shown(arg) + more && (more == "" || more[0] == ',')
    requires Chain(code, open, i, close, spans)
    ensures var end := i + |Shown(arg)|;
      && end <= close && spans[0] == Span(i, end) && code[i..end] == Shown(arg) && Level(code, open, i, end)
      && Depth(code, open, end) == 1
      && (|spans| > 1 <==> more != "") && (more != "" ==> code[end] == ',')
  {
    hide Depth, Nested, OneArgument, Shown;
    var end := i + |Shown(arg)|;
    assert At(code, i, Shown(arg) + more);
    AtParts(code, i, Shown(arg), more);
    Over(code, open, i, arg);
    Ends(code, open, i, close, spans);
    assert forall j :: i <= j < end ==> !Separates(code, open, j);
    if more != "" {
      assert code[end] == more[0] by { assert code[end..end + |more|] == more; }
      assert Separates(code, open, end);
    }
  }

  lemma ChainStarts(code: string, open: nat, from: nat, to: nat, spans: seq<Span>)
    requires Chain(code, open, from, to, spans)
    ensures spans != [] && spans[0].from == from
  {
  }

  /** The spans from `i` on hold the arguments from there on, one each. */
  lemma {:induction false} CutThere(code: string, open: nat, i: nat, close: nat, args: seq<Text>, spans: seq<Span>)
    requires open < i <= close <= |code| && args != [] && Depth(code, open, i) == 1
    requires forall a :: a in args ==> Nested(a) && OneArgument(a)
    requires code[i..close] == Joined(args) && Chain(code, open, i, close, spans)
    ensures Level(code, open, i, close)
    ensures |spans| == |args|
    ensures forall k :: 0 <= k < |args| ==> spans[k].to <= |code| && code[spans[k].from..spans[k].to] == Shown(args[k])
    decreases |args|
  {
    hide Nested, OneArgument, Shown, Separates, Level, Chain;
    assert spans[0].from == i by { ChainStarts(code, open, i, close, spans); }
    var more := if |args| == 1 then "" else "," + Joined(args[1..]);
    FirstSpan(code, open, i, close, args[0], more, spans);
    var end := spans[0].to;
    Ends(code, open, i, close, spans);
    if |args| > 1 {
      assert code[i..close] == code[i..end] + code[end..close];
      assert code[end..close] == more;
      assert code[end + 1..close] == more[1..] == Joined(args[1..]);
      DepthNext(code, open, end);
      CutThere(code, open, end + 1, close, args[1..], spans[1..]);
      LevelOn(code, open, i, end, close);
    }
  }

  lemma ChainOf(code: string, open: nat, close: nat, spans: seq<Span>)
    requires spans != [] && Between(code, open, close, spans)
    ensures Chain(code, open, open + 1, close, spans)
  {
  }

  /** A call is cut into its arguments as they are written, whatever brackets and commas they hold inside. */
  lemma ArgumentsAsWritten(code: string, open: nat, close: nat, args: seq<Text>, spans: seq<Span>)
    requires open < close < |code| && code[open] == '(' && code[close] in ")]}" && args != []
    requires forall a :: a in args ==> Nested(a) && OneArgument(a)
    requires code[open + 1..close] == Joined(args)
    requires spans != [] && Between(code, open, close, spans)
    ensures Closed(code, open, close) && |spans| == |args|
    ensures forall k :: 0 <= k < |args| ==> spans[k].to <= |code| && code[spans[k].from..spans[k].to] == Shown(args[k])
  {
    hide Closed, Level, Chain, Between, Nested, OneArgument, Shown, Joined, Depth;
    LevelCloses(code, open, close);
    ChainOf(code, open, close, spans);
    CutThere(code, open, open + 1, close, args, spans);
  }
}
