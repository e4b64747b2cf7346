/** The edit distance behind "did you mean", computed row by row. */
module EditDistance {
  function Min3(a: nat, b: nat, c: nat): nat {
    var m := if b < a then b else a;
    if c < m then c else m
  }

  /** The distance between two texts, by their last characters. */
  function Distance(a: string, b: string): nat
    decreases |a| + |b|
  {
    if a == "" then |b|
    else if b == "" then |a|
    else
      var a', b' := a[..|a| - 1], b[..|b| - 1];
      Min3(Distance(a', b) + 1, Distance(a, b') + 1,
           Distance(a', b') + if a[|a| - 1] == b[|b| - 1] then 0 else 1)
  }

  /** The distances from `a` to every prefix of `b` up to length `n`. */
  ghost predicate IsRow(row: seq<nat>, a: string, b: string, n: nat)
    requires n <= |b|
  {
    |row| == n + 1 && forall j :: 0 <= j <= n ==> row[j] == Distance(a, b[..j])
  }

  lemma Prefixes(a: string, i: nat)
    requires 0 < i <= |a|
    ensures a[..i][..i - 1] == a[..i - 1] && a[..i][i - 1] == a[i - 1]
  {
  }

  /** One entry of the table, from its three neighbours. */
  lemma Entry(a: string, b: string, i: nat, j: nat)
    requires 0 < i <= |a| && 0 < j <= |b|
    ensures Distance(a[..i], b[..j]) ==
            Min3(Distance(a[..i - 1], b[..j]) + 1, Distance(a[..i], b[..j - 1]) + 1,
                 Distance(a[..i - 1], b[..j - 1]) + if a[i - 1] == b[j - 1] then 0 else 1)
  {
    Prefixes(a, i);
    Prefixes(b, j);
  }

  /** Two rows of the table at a time. */
  method ComputeDistance(a: string, b: string) returns (distance: nat)
    ensures distance == Distance(a, b)
  {
    var previous: seq<nat> := seq(|b| + 1, i requires 0 <= i => i);
    assert IsRow(previous, a[..0], b, |b|);
    for i := 1 to |a| + 1
      invariant IsRow(previous, a[..i - 1], b, |b|)
    {
      previous := NextRow(previous, a, b, i);
    }
    assert a[..|a|] == a && b[..|b|] == b;
    distance := previous[|b|];
  }

  method NextRow(previous: seq<nat>, a: string, b: string, i: nat) returns (current: seq<nat>)
    requires 0 < i <= |a| && IsRow(previous, a[..i - 1], b, |b|)
    ensures IsRow(current, a[..i], b, |b|)
  {
    current := [i];
    assert Distance(a[..i], b[..0]) == i;
    hide Distance;
    for j := 1 to |b| + 1
      invariant IsRow(current, a[..i], b, j - 1)
    {
      Entry(a, b, i, j);
      current := current + [
        Min3(previous[j] + 1, current[j - 1] + 1, previous[j - 1] + if a[i - 1] == b[j - 1] then 0 else 1)];
    }
  }

  // ---------- scripts of edits ----------

  datatype Edit = Keep(c: char) | Insert(c: char) | Delete(c: char) | Replace(c: char, into: char)

  /** What an edit takes from the source. */
  function Taken(e: Edit): string {
    if e.Insert? then "" else [e.c]
  }

  /** What it gives to the target. */
  function Given(e: Edit): string {
    match e
    case Delete(_) => ""
    case Replace(_, into) => [into]
    case _ => [e.c]
  }

  function Price(e: Edit): nat {
    if e.Keep? then 0 else 1
  }

  function Source(script: seq<Edit>): string {
    if script == [] then "" else Source(script[..|script| - 1]) + Taken(script[|script| - 1])
  }

  function Target(script: seq<Edit>): string {
    if script == [] then "" else Target(script[..|script| - 1]) + Given(script[|script| - 1])
  }

  function Cost(script: seq<Edit>): nat {
    if script == [] then 0 else Cost(script[..|script| - 1]) + Price(script[|script| - 1])
  }

  ghost predicate Rewrites(script: seq<Edit>, a: string, b: string) {
    Source(script) == a && Target(script) == b
  }

  lemma Append(script: seq<Edit>, e: Edit)
    ensures Cost(script + [e]) == Cost(script) + Price(e)
    ensures Source(script + [e]) == Source(script) + Taken(e) && Target(script + [e]) == Target(script) + Given(e)
  {
    assert (script + [e])[..|script|] == script;
  }

  /** The last edit of a cheapest script. */
  function LastEdit(a: string, b: string): (e: Edit)
    requires a != "" || b != ""
    ensures |Taken(e)| <= |a| && |Given(e)| <= |b|
    ensures var a', b' := a[..|a| - |Taken(e)|], b[..|b| - |Given(e)|];
            && a' + Taken(e) == a && b' + Given(e) == b && |a'| + |b'| < |a| + |b|
            && Distance(a, b) == Distance(a', b') + Price(e)
  {
    assert a[..|a|] == a && b[..|b|] == b;
    assert (a != "" ==> a[..|a| - 1] + [a[|a| - 1]] == a) && (b != "" ==> b[..|b| - 1] + [b[|b| - 1]] == b);
    if a != "" && (b == "" || Distance(a, b) == Distance(a[..|a| - 1], b) + 1) then Delete(a[|a| - 1])
    else if a == "" || Distance(a, b) == Distance(a, b[..|b| - 1]) + 1 then Insert(b[|b| - 1])
    else if a[|a| - 1] == b[|b| - 1] then Keep(a[|a| - 1])
    else Replace(a[|a| - 1], b[|b| - 1])
  }

  /** A script as cheap as the distance. */
  lemma {:induction false} CheapScript(a: string, b: string) returns (script: seq<Edit>)
    ensures Rewrites(script, a, b) && Cost(script) == Distance(a, b)
    decreases |a| + |b|
  {
    if a == "" && b == "" {
      script := [];
    } else {
      hide Distance, LastEdit, Taken, Given, Price;
      var e := LastEdit(a, b);
      script := CheapScript(a[..|a| - |Taken(e)|], b[..|b| - |Given(e)|]);
      Append(script, e);
      script := script + [e];
    }
  }

  /** What one more character costs. */
  lemma OneMore(a: string, b: string, c: char, d: char)
    ensures Distance(a + [c], b) <= Distance(a, b) + 1
    ensures Distance(a, b + [c]) <= Distance(a, b) + 1
    ensures Distance(a + [c], b + [d]) <= Distance(a, b) + if c == d then 0 else 1
  {
    assert (a + [c])[..|a|] == a && (b + [c])[..|b|] == b && (b + [d])[..|b|] == b;
  }

  lemma OneMoreEdit(a: string, b: string, e: Edit)
    ensures Distance(a + Taken(e), b + Given(e)) <= Distance(a, b) + Price(e)
  {
    hide Distance;
    OneMore(a, b, e.c, if e.Replace? then e.into else e.c);
    assert a + "" == a && b + "" == b;
  }

  /** No script is cheaper than the distance. */
  lemma {:induction false} NoCheaperScript(script: seq<Edit>)
    ensures Cost(script) >= Distance(Source(script), Target(script))
  {
    if script != [] {
      hide Distance, Taken, Given, Price;
      NoCheaperScript(script[..|script| - 1]);
      OneMoreEdit(Source(script[..|script| - 1]), Target(script[..|script| - 1]), script[|script| - 1]);
    }
  }

  /** The distance is the cost of the cheapest script that turns one text into the other. */
  lemma DistanceIsCheapest(a: string, b: string)
    ensures exists script :: Rewrites(script, a, b) && Cost(script) == Distance(a, b)
    ensures forall script :: Rewrites(script, a, b) ==> Cost(script) >= Distance(a, b)
  {
    var script := CheapScript(a, b);
    forall other | Rewrites(other, a, b) ensures Cost(other) >= Distance(a, b) {
      NoCheaperScript(other);
    }
  }

  // ---------- it is a metric ----------

  lemma {:induction false} FreeScript(script: seq<Edit>)
    requires Cost(script) == 0
    ensures Source(script) == Target(script)
  {
    if script != [] {
      FreeScript(script[..|script| - 1]);
    }
  }

  lemma {:induction false} ZeroOnlyForEqual(a: string, b: string)
    ensures Distance(a, b) == 0 <==> a == b
  {
    var script := CheapScript(a, b);
    if Distance(a, b) == 0 {
      FreeScript(script);
    }
    if a == b {
      var same := Kept(a);
      NoCheaperScript(same);
    }
  }

  lemma {:induction false} Kept(a: string) returns (script: seq<Edit>)
    ensures Rewrites(script, a, a) && Cost(script) == 0
  {
    if a == "" {
      script := [];
    } else {
      script := Kept(a[..|a| - 1]);
      Append(script, Keep(a[|a| - 1]));
      script := script + [Keep(a[|a| - 1])];
    }
  }

  /** Undoing every edit. */
  lemma {:induction false} Inverse(script: seq<Edit>) returns (back: seq<Edit>)
    ensures Rewrites(back, Target(script), Source(script)) && Cost(back) == Cost(script)
  {
    if script == [] {
      back := [];
    } else {
      var last := script[|script| - 1];
      back := Inverse(script[..|script| - 1]);
      var e :=
        match last
        case Keep(c) => Keep(c)
        case Insert(c) => Delete(c)
        case Delete(c) => Insert(c)
        case Replace(c, into) => Replace(into, c);
      Append(back, e);
      back := back + [e];
    }
  }

  lemma {:induction false} NoFarther(a: string, b: string)
    ensures Distance(b, a) <= Distance(a, b)
  {
    var there := CheapScript(a, b);
    var back := Inverse(there);
    NoCheaperScript(back);
  }

  lemma {:induction false} Symmetric(a: string, b: string)
    ensures Distance(a, b) == Distance(b, a)
  {
    NoFarther(a, b);
    NoFarther(b, a);
  }

  /** One edit after another on the same character of the text in between. */
  function Both(p: Edit, q: Edit): seq<Edit> {
    match (p, q)
    case (Insert(_), Delete(_)) => []
    case (Insert(_), Replace(_, z)) => [Insert(z)]
    case (Insert(_), _) => [p]
    case (Replace(y, _), Delete(_)) => [Delete(y)]
    case (Replace(y, _), Replace(_, z)) => [Replace(y, z)]
    case (Replace(_, _), _) => [p]
    case (_, _) => [q]
  }

  lemma BothRewrite(p: Edit, q: Edit)
    requires !p.Delete? && !q.Insert? && Given(p) == Taken(q)
    ensures var both := Both(p, q);
            if both == [] then Taken(p) == "" && Given(q) == ""
            else |both| == 1 && Taken(both[0]) == Taken(p) && Given(both[0]) == Given(q)
                 && Price(both[0]) <= Price(p) + Price(q)
  {
  }

  /** Two scripts that both touch the last character in between. */
  lemma SplitLast(p: seq<Edit>, q: seq<Edit>)
    requires q == [] || !q[|q| - 1].Insert?
    requires p != [] && !p[|p| - 1].Delete? && Target(p) == Source(q)
    ensures q != [] && Target(p[..|p| - 1]) == Source(q[..|q| - 1]) && Given(p[|p| - 1]) == Taken(q[|q| - 1])
  {
    assert |Given(p[|p| - 1])| == 1;
    if q != [] {
      assert Target(p)[..|Target(p)| - 1] == Target(p[..|p| - 1]);
      assert Source(q)[..|Source(q)| - 1] == Source(q[..|q| - 1]);
    }
  }

  /** One script that does what two do in turn, at no higher cost. */
  lemma {:induction false} Compose(p: seq<Edit>, q: seq<Edit>) returns (r: seq<Edit>)
    requires Target(p) == Source(q)
    ensures Rewrites(r, Source(p), Target(q)) && Cost(r) <= Cost(p) + Cost(q)
    decreases |p| + |q|
  {
    if q != [] && q[|q| - 1].Insert? {
      r := Compose(p, q[..|q| - 1]);
      Append(r, q[|q| - 1]);
      r := r + [q[|q| - 1]];
    } else if p != [] && p[|p| - 1].Delete? {
      r := Compose(p[..|p| - 1], q);
      Append(r, p[|p| - 1]);
      r := r + [p[|p| - 1]];
    } else if p == [] {
      assert Source(q) == "";
      r := [];
    } else {
      SplitLast(p, q);
      hide Taken, Given, Price, Both;
      var e, f := p[|p| - 1], q[|q| - 1];
      r := Compose(p[..|p| - 1], q[..|q| - 1]);
      BothRewrite(e, f);
      if Both(e, f) != [] {
        Append(r, Both(e, f)[0]);
        r := r + [Both(e, f)[0]];
      }
    }
  }

  lemma {:induction false} Triangle(a: string, b: string, c: string)
    ensures Distance(a, c) <= Distance(a, b) + Distance(b, c)
  {
    var p := CheapScript(a, b);
    var q := CheapScript(b, c);
    var r := Compose(p, q);
    NoCheaperScript(r);
  }

  // ---------- single changes, without scripts ----------

  predicate Drops(x: string, y: string, k: nat) {
    k < |x| && y == x[..k] + x[k + 1..]
  }

  predicate Alters(x: string, y: string, k: nat) {
    k < |x| && |y| == |x| && y == x[..k] + [y[k]] + x[k + 1..]
  }

  /** One character left out, put in or altered. */
  ghost predicate OneApart(x: string, y: string) {
    exists k: nat :: Drops(x, y, k) || Drops(y, x, k) || Alters(x, y, k)
  }

  /** A way from one text to another, one character at a time. */
  ghost predicate Way(texts: seq<string>, a: string, b: string) {
    && texts != [] && texts[0] == a && texts[|texts| - 1] == b
    && forall i :: 0 <= i < |texts| - 1 ==> OneApart(texts[i], texts[i + 1])
  }

  lemma {:induction false} SameEnd(a: string, b: string, end: string)
    ensures Distance(a + end, b + end) <= Distance(a, b)
  {
    hide Distance;
    if end == "" {
      assert a + end == a && b + end == b;
    } else {
      var n := |end| - 1;
      SameEnd(a, b, end[..n]);
      OneMore(a + end[..n], b + end[..n], end[n], end[n]);
      assert end == end[..n] + [end[n]];
      Regroup(a, end[..n], [end[n]]);
      Regroup(b, end[..n], [end[n]]);
    }
  }

  lemma Regroup(a: string, b: string, c: string)
    ensures a + b + c == a + (b + c)
  {
  }

  lemma DropCosts(x: string, y: string, k: nat)
    requires Drops(x, y, k)
    ensures Distance(x, y) <= 1 && Distance(y, x) <= 1
  {
    hide Distance;
    var start := x[..k];
    ZeroOnlyForEqual(start, start);
    OneMore(start, start, x[k], x[k]);
    assert x == start + [x[k]] + x[k + 1..];
    SameEnd(start + [x[k]], start, x[k + 1..]);
    SameEnd(start, start + [x[k]], x[k + 1..]);
  }

  lemma AlterCosts(x: string, y: string, k: nat)
    requires Alters(x, y, k)
    ensures Distance(x, y) <= 1
  {
    hide Distance;
    var start := x[..k];
    ZeroOnlyForEqual(start, start);
    OneMore(start, start, x[k], y[k]);
    assert x == start + [x[k]] + x[k + 1..];
    SameEnd(start + [x[k]], start + [y[k]], x[k + 1..]);
  }

  lemma StepCosts(x: string, y: string)
    requires OneApart(x, y)
    ensures Distance(x, y) <= 1
  {
    hide Distance, Drops, Alters;
    var k: nat :| Drops(x, y, k) || Drops(y, x, k) || Alters(x, y, k);
    if Drops(x, y, k) {
      DropCosts(x, y, k);
    } else if Drops(y, x, k) {
      DropCosts(y, x, k);
    } else {
      AlterCosts(x, y, k);
    }
  }

  /** No way is shorter than the distance. */
  lemma {:induction false} NoShorterWay(texts: seq<string>, a: string, b: string)
    requires Way(texts, a, b)
    ensures |texts| - 1 >= Distance(a, b)
    decreases |texts|
  {
    hide OneApart, Distance;
    if |texts| == 1 {
      ZeroOnlyForEqual(a, b);
    } else {
      StepCosts(a, texts[1]);
      NoShorterWay(texts[1..], texts[1], b);
      Triangle(a, texts[1], b);
    }
  }

  lemma DropsEnded(x: string, y: string, k: nat, c: char)
    ensures Drops(x, y, k) ==> Drops(x + [c], y + [c], k)
  {
    if Drops(x, y, k) { Regroup(x[..k], x[k + 1..], [c]); }
  }

  lemma AltersEnded(x: string, y: string, k: nat, c: char)
    requires Alters(x, y, k)
    ensures Alters(x + [c], y + [c], k)
  {
    Regroup(x[..k] + [y[k]], x[k + 1..], [c]);
  }

  lemma EndedApart(x: string, y: string, c: char)
    requires OneApart(x, y)
    ensures OneApart(x + [c], y + [c])
  {
    hide Drops, Alters;
    var k: nat :| Drops(x, y, k) || Drops(y, x, k) || Alters(x, y, k);
    DropsEnded(x, y, k, c);
    DropsEnded(y, x, k, c);
    if Alters(x, y, k) { AltersEnded(x, y, k, c); }
  }

  /** The same way, with one more character at the end of every text. */
  lemma Ended(texts: seq<string>, a: string, b: string, c: char) returns (longer: seq<string>)
    requires Way(texts, a, b)
    ensures |longer| == |texts| && Way(longer, a + [c], b + [c])
  {
    longer := seq(|texts|, i requires 0 <= i < |texts| => texts[i] + [c]);
    forall i | 0 <= i < |texts| - 1 ensures OneApart(longer[i], longer[i + 1]) {
      EndedApart(texts[i], texts[i + 1], c);
    }
  }

  lemma LastApart(x: string, c: char, d: char)
    ensures OneApart(x + [c], x) && OneApart(x, x + [c]) && OneApart(x + [c], x + [d])
  {
    assert Drops(x + [c], x, |x|);
    assert Alters(x + [c], x + [d], |x|);
  }

  lemma StepFirst(x: string, texts: seq<string>, a: string, b: string)
    requires Way(texts, a, b) && OneApart(x, a)
    ensures Way([x] + texts, x, b)
  {
    hide OneApart;
  }

  lemma StepLast(texts: seq<string>, a: string, b: string, y: string)
    requires Way(texts, a, b) && OneApart(b, y)
    ensures Way(texts + [y], a, y)
  {
    hide OneApart;
  }

  /** The last character of one text, of the other, or of both is dealt with last. */
  lemma LastStep(a: string, b: string, x: string, y: string)
    requires a != "" || b != ""
    requires (a != "" ==> x == a[..|a| - 1]) && (b != "" ==> y == b[..|b| - 1])
    ensures
      || (a != "" && Distance(a, b) == Distance(x, b) + 1) || (b != "" && Distance(a, b) == Distance(a, y) + 1)
      || (a != "" && b != "" && Distance(a, b) == Distance(x, y) + if a[|a| - 1] == b[|b| - 1] then 0 else 1)
  {
  }

  lemma Peel(a: string) returns (front: string, last: char)
    requires a != ""
    ensures front == a[..|a| - 1] && last == a[|a| - 1] && a == front + [last] && |front| == |a| - 1
  {
    front, last := a[..|a| - 1], a[|a| - 1];
  }

  /** Some way is as short as the distance. */
  lemma {:induction false} ShortWay(a: string, b: string) returns (texts: seq<string>)
    ensures Way(texts, a, b) && |texts| - 1 == Distance(a, b)
    decreases |a| + |b|
  {
    if a == "" && b == "" {
      texts := [""];
      return;
    }
    hide OneApart, Distance, Way;
    var x, c := "", ' ';
    var y, d := "", ' ';
    if a != "" { x, c := Peel(a); }
    if b != "" { y, d := Peel(b); }
    LastStep(a, b, x, y);
    LastApart(x, c, d);
    LastApart(y, d, d);
    if a != "" && Distance(a, b) == Distance(x, b) + 1 {
      texts := ShortWay(x, b);
      StepFirst(a, texts, x, b);
      texts := [a] + texts;
    } else if b != "" && Distance(a, b) == Distance(a, y) + 1 {
      texts := ShortWay(a, y);
      StepLast(texts, a, y, b);
      texts := texts + [b];
    } else {
      texts := ShortWay(x, y);
      texts := Ended(texts, x, y, d);
      if c != d {
        StepFirst(a, texts, x + [d], b);
        texts := [a] + texts;
      }
    }
  }

  /** The distance is the least number of single changes that lead from one text to the other. */
  lemma ShortestWay(a: string, b: string)
    ensures exists texts :: Way(texts, a, b) && |texts| - 1 == Distance(a, b)
    ensures forall texts :: Way(texts, a, b) ==> |texts| - 1 >= Distance(a, b)
  {
    var texts := ShortWay(a, b);
    forall other | Way(other, a, b) ensures |other| - 1 >= Distance(a, b) {
      NoShorterWay(other, a, b);
    }
  }
}
