/** The distance between two names, and the visible name nearest to a misspelt one. */
module EditDistance {
  import opened Arith
  import opened Scopes

  function Init(s: string): string
    requires |s| > 0
  {
    s[..|s| - 1]
  }

  function Cost(x: char, y: char): nat {
    if x == y then 0 else 1
  }

  function Min(a: nat, b: nat): nat {
    if a < b then a else b
  }

  function Distance(a: string, b: string): nat
    decreases |a| + |b|
  {
    if |a| == 0 then |b|
    else if |b| == 0 then |a|
    else
      Min(Distance(Init(a), Init(b)) + Cost(a[|a| - 1], b[|b| - 1]),
          Min(Distance(Init(a), b) + 1, Distance(a, Init(b)) + 1))
  }

  // ---------------------------------------------------------------- a metric

  lemma {:induction false} DistanceSelf(a: string)
    ensures Distance(a, a) == 0
    decreases |a|
  {
    if |a| > 0 {
      DistanceSelf(Init(a));
    }
  }

  lemma {:induction false} ZeroIffEqual(a: string, b: string)
    ensures Distance(a, b) == 0 <==> a == b
    decreases |a| + |b|
  {
    if a == b {
      DistanceSelf(a);
    } else if |a| > 0 && |b| > 0 {
      ZeroIffEqual(Init(a), Init(b));
      assert a == Init(a) + [a[|a| - 1]] && b == Init(b) + [b[|b| - 1]];
    }
  }

  lemma {:induction false} Symmetric(a: string, b: string)
    ensures Distance(a, b) == Distance(b, a)
    decreases |a| + |b|
  {
    if |a| > 0 && |b| > 0 {
      Symmetric(Init(a), Init(b));
      Symmetric(Init(a), b);
      Symmetric(a, Init(b));
    }
  }

  lemma {:induction false} LengthApart(a: string, b: string)
    ensures |a| <= |b| + Distance(a, b) && |b| <= |a| + Distance(a, b)
    ensures Distance(a, b) <= |a| + |b|
    decreases |a| + |b|
  {
    if |a| > 0 && |b| > 0 {
      LengthApart(Init(a), Init(b));
      LengthApart(Init(a), b);
      LengthApart(a, Init(b));
    }
  }

  lemma {:induction false} Triangle(a: string, b: string, c: string)
    ensures Distance(a, c) <= Distance(a, b) + Distance(b, c)
    decreases |a| + |b| + |c|
  {
    if |a| == 0 || |b| == 0 || |c| == 0 {
      LengthApart(a, b);
      LengthApart(b, c);
      LengthApart(a, c);
    } else if Distance(a, b) == Distance(Init(a), b) + 1 {
      Triangle(Init(a), b, c);
    } else if Distance(b, c) == Distance(b, Init(c)) + 1 {
      Triangle(a, b, Init(c));
    } else if Distance(a, b) == Distance(a, Init(b)) + 1 && Distance(b, c) == Distance(Init(b), c) + 1 {
      Triangle(a, Init(b), c);
    } else if Distance(a, b) == Distance(a, Init(b)) + 1 {
      Triangle(a, Init(b), Init(c));
    } else if Distance(b, c) == Distance(Init(b), c) + 1 {
      Triangle(Init(a), Init(b), c);
    } else {
      Triangle(Init(a), Init(b), Init(c));
    }
  }

  // ---------------------------------------------------------------- the fewest edits

  predicate Inserted(a: string, b: string, i: nat) {
    i <= |a| && |b| == |a| + 1 && b[..i] == a[..i] && b[i + 1..] == a[i..]
  }

  predicate Replaced(a: string, b: string, i: nat) {
    i < |a| == |b| && b[..i] == a[..i] && b[i + 1..] == a[i + 1..]
  }

  /** One character inserted, deleted or replaced. */
  ghost predicate OneEdit(a: string, b: string) {
    exists i: nat :: Inserted(a, b, i) || Inserted(b, a, i) || Replaced(a, b, i)
  }

  ghost predicate IsScript(s: seq<string>, a: string, b: string) {
    |s| > 0 && s[0] == a && s[|s| - 1] == b && forall k :: 0 <= k < |s| - 1 ==> OneEdit(s[k], s[k + 1])
  }

  lemma {:induction false} SameSuffix(a: string, b: string, s: string)
    ensures Distance(a + s, b + s) <= Distance(a, b)
    decreases |s|
  {
    if |s| == 0 {
      assert a + s == a && b + s == b;
    } else {
      SameSuffix(a, b, Init(s));
      assert Init(a + s) == a + Init(s) && Init(b + s) == b + Init(s);
    }
  }

  lemma {:induction false} OneMore(a: string, x: char)
    ensures Distance(a, a + [x]) <= 1 && Distance(a + [x], a) <= 1
  {
    DistanceSelf(a);
    assert Init(a + [x]) == a;
    LengthApart(a, a + [x]);
  }

  lemma {:induction false} OneOther(a: string, x: char, y: char)
    ensures Distance(a + [x], a + [y]) <= 1
  {
    DistanceSelf(a);
    assert Init(a + [x]) == a && Init(a + [y]) == a;
  }

  lemma {:induction false} EditIsNear(a: string, b: string)
    requires OneEdit(a, b)
    ensures Distance(a, b) <= 1
  {
    hide Distance;
    var i: nat :| Inserted(a, b, i) || Inserted(b, a, i) || Replaced(a, b, i);
    if Inserted(a, b, i) {
      InsertedIsNear(a, b, i);
    } else if Inserted(b, a, i) {
      InsertedIsNear(b, a, i);
    } else {
      OneOther(a[..i], a[i], b[i]);
      SameSuffix(a[..i] + [a[i]], a[..i] + [b[i]], a[i + 1..]);
      assert a == a[..i] + [a[i]] + a[i + 1..] && b == a[..i] + [b[i]] + a[i + 1..];
    }
  }

  lemma {:induction false} InsertedIsNear(a: string, b: string, i: nat)
    requires Inserted(a, b, i)
    ensures Distance(a, b) <= 1 && Distance(b, a) <= 1
  {
    hide Distance;
    OneMore(a[..i], b[i]);
    SameSuffix(a[..i], a[..i] + [b[i]], a[i..]);
    SameSuffix(a[..i] + [b[i]], a[..i], a[i..]);
    assert a == a[..i] + a[i..];
    assert b == a[..i] + [b[i]] + a[i..];
  }

  /** No script is shorter than the distance. */
  lemma {:induction false} ScriptIsLong(s: seq<string>, a: string, b: string)
    requires IsScript(s, a, b)
    ensures Distance(a, b) <= |s| - 1
    decreases |s|
  {
    hide Distance, OneEdit;
    if |s| == 1 {
      DistanceSelf(a);
    } else {
      assert OneEdit(s[0], s[0 + 1]);
      EditIsNear(s[0], s[1]);
      var t := s[1..];
      assert forall k :: 0 <= k < |t| ==> t[k] == s[k + 1];
      forall k | 0 <= k < |t| - 1 ensures OneEdit(t[k], t[k + 1]) {
        assert OneEdit(s[k + 1], s[k + 1 + 1]);
      }
      ScriptIsLong(t, s[1], b);
      Triangle(a, s[1], b);
    }
  }

  lemma {:induction false} EditWithSuffix(a: string, b: string, x: char)
    requires OneEdit(a, b)
    ensures OneEdit(a + [x], b + [x])
  {
    var i: nat :| Inserted(a, b, i) || Inserted(b, a, i) || Replaced(a, b, i);
    var c, d := a + [x], b + [x];
    if Inserted(a, b, i) {
      InsertedWithSuffix(a, b, i, x);
    } else if Inserted(b, a, i) {
      InsertedWithSuffix(b, a, i, x);
    } else {
      assert d[..i] == b[..i] && c[..i] == a[..i] && d[i + 1..] == b[i + 1..] + [x] && c[i + 1..] == a[i + 1..] + [x];
      assert Replaced(c, d, i);
    }
  }

  lemma {:induction false} InsertedWithSuffix(a: string, b: string, i: nat, x: char)
    requires Inserted(a, b, i)
    ensures Inserted(a + [x], b + [x], i)
  {
    var c, d := a + [x], b + [x];
    assert d[..i] == b[..i] && c[..i] == a[..i] && d[i + 1..] == b[i + 1..] + [x] && c[i..] == a[i..] + [x];
  }

  function EachWith(s: seq<string>, x: char): (r: seq<string>)
    ensures |r| == |s| && forall k :: 0 <= k < |s| ==> r[k] == s[k] + [x]
  {
    seq(|s|, k requires 0 <= k < |s| => s[k] + [x])
  }

  lemma {:induction false} ScriptWithSuffix(s: seq<string>, a: string, b: string, x: char)
    requires IsScript(s, a, b)
    ensures IsScript(EachWith(s, x), a + [x], b + [x])
  {
    hide OneEdit;
    var r := EachWith(s, x);
    forall k | 0 <= k < |r| - 1 ensures OneEdit(r[k], r[k + 1]) {
      EditWithSuffix(s[k], s[k + 1], x);
    }
  }

  lemma {:induction false} ScriptThen(s: seq<string>, a: string, b: string, c: string)
    requires IsScript(s, a, b) && OneEdit(b, c)
    ensures IsScript(s + [c], a, c)
  {
    hide OneEdit;
    var r := s + [c];
    forall k | 0 <= k < |r| - 1 ensures OneEdit(r[k], r[k + 1]) {
      if k < |s| - 1 {
        assert r[k] == s[k] && r[k + 1] == s[k + 1];
      }
    }
  }

  lemma {:induction false} Appending(a: string, x: char)
    ensures OneEdit(a, a + [x]) && OneEdit(a + [x], a)
  {
    var b := a + [x];
    assert b[..|a|] == a[..|a|] && b[|a| + 1..] == a[|a|..] == [];
    assert Inserted(a, b, |a|);
  }

  lemma {:induction false} Replacing(a: string, x: char, y: char)
    ensures OneEdit(a + [x], a + [y])
  {
    var b, c := a + [x], a + [y];
    assert c[..|a|] == b[..|a|] && c[|a| + 1..] == b[|a| + 1..] == [];
    assert Replaced(b, c, |a|);
  }

  /** A script as long as the distance. */
  lemma {:induction false} ShortestScript(a: string, b: string) returns (s: seq<string>)
    ensures IsScript(s, a, b) && |s| - 1 == Distance(a, b)
    decreases |a| + |b|
  {
    hide OneEdit, IsScript;
    if |a| == 0 && |b| == 0 {
      s := [a];
      Standing(a);
    } else if |a| > 0 && |b| > 0 && Distance(a, b) == Distance(Init(a), Init(b)) + Cost(a[|a| - 1], b[|b| - 1]) {
      var x, y := a[|a| - 1], b[|b| - 1];
      assert a == Init(a) + [x] && b == Init(b) + [y];
      var t := ShortestScript(Init(a), Init(b));
      ScriptWithSuffix(t, Init(a), Init(b), x);
      s := EachWith(t, x);
      if x != y {
        Replacing(Init(b), x, y);
        ScriptThen(s, a, Init(b) + [x], b);
        s := s + [b];
      }
    } else if |b| == 0 || (|a| > 0 && Distance(a, b) == Distance(Init(a), b) + 1) {
      var x := a[|a| - 1];
      assert a == Init(a) + [x];
      var t := ShortestScript(Init(a), b);
      ScriptWithSuffix(t, Init(a), b, x);
      Appending(b, x);
      ScriptThen(EachWith(t, x), a, b + [x], b);
      s := EachWith(t, x) + [b];
      LengthApart(a, b);
    } else {
      var y := b[|b| - 1];
      assert b == Init(b) + [y];
      var t := ShortestScript(a, Init(b));
      Appending(Init(b), y);
      ScriptThen(t, a, Init(b), b);
      s := t + [b];
    }
  }

  lemma {:induction false} Standing(a: string)
    ensures IsScript([a], a, a)
  {}

  /** The distance is the fewest insertions, deletions and replacements of one character. */
  lemma {:induction false} FewestEdits(a: string, b: string)
    ensures exists s :: IsScript(s, a, b) && |s| - 1 == Distance(a, b)
    ensures forall s :: IsScript(s, a, b) ==> Distance(a, b) <= |s| - 1
  {
    hide IsScript;
    var s := ShortestScript(a, b);
    forall t | IsScript(t, a, b) ensures Distance(a, b) <= |t| - 1 {
      ScriptIsLong(t, a, b);
    }
  }

  // ---------------------------------------------------------------- the two rows

  const DISTANCE_MAX: nat := 256
  const TOO_FAR: nat := 0xFFFF_FFFF

  /** What the program computes: too long a second name is too far from everything. */
  function Measured(a: string, b: string): nat {
    if |b| >= DISTANCE_MAX then TOO_FAR else Distance(a, b)
  }

  lemma {:induction false} Cell(a: string, b: string, i: nat, j: nat)
    requires 0 < i <= |a| && 0 < j <= |b|
    ensures Distance(a[..i], b[..j]) ==
            Min(Distance(a[..i - 1], b[..j - 1]) + Cost(a[i - 1], b[j - 1]),
                Min(Distance(a[..i - 1], b[..j]) + 1, Distance(a[..i], b[..j - 1]) + 1))
  {
    hide Distance;
    assert Init(a[..i]) == a[..i - 1] && Init(b[..j]) == b[..j - 1];
    Unfolded(a[..i], b[..j]);
  }

  lemma {:induction false} Unfolded(a: string, b: string)
    requires |a| > 0 && |b| > 0
    ensures Distance(a, b) ==
            Min(Distance(Init(a), Init(b)) + Cost(a[|a| - 1], b[|b| - 1]),
                Min(Distance(Init(a), b) + 1, Distance(a, Init(b)) + 1))
  {}

  method Measure(a: string, b: string) returns (d: nat)
    ensures d == Measured(a, b)
  {
    hide Distance;
    if |b| >= DISTANCE_MAX {
      return TOO_FAR;
    }
    EmptyFirst(b);
    var previous, current := new nat[DISTANCE_MAX], new nat[DISTANCE_MAX];
    var j: nat := 0;
    while j <= |b|
      invariant j <= |b| + 1
      invariant forall k :: 0 <= k < j ==> previous[k] == k
    {
      previous[j] := j;
      j := j + 1;
    }
    var i: nat := 1;
    while i <= |a|
      invariant 1 <= i <= |a| + 1
      invariant forall k :: 0 <= k <= |b| ==> previous[k] == Distance(a[..i - 1], b[..k])
    {
      current[0] := i;
      EmptySecond(a[..i]);
      j := 1;
      while j <= |b|
        invariant 1 <= j <= |b| + 1
        invariant forall k :: 0 <= k <= |b| ==> previous[k] == Distance(a[..i - 1], b[..k])
        invariant forall k :: 0 <= k < j ==> current[k] == Distance(a[..i], b[..k])
      {
        Cell(a, b, i, j);
        var best := previous[j - 1] + Cost(a[i - 1], b[j - 1]);
        if previous[j] + 1 < best {
          best := previous[j] + 1;
        }
        if current[j - 1] + 1 < best {
          best := current[j - 1] + 1;
        }
        current[j] := best;
        j := j + 1;
      }
      forall k | 0 <= k <= |b| {
        previous[k] := current[k];
      }
      i := i + 1;
    }
    assert a[..|a|] == a && b[..|b|] == b;
    return previous[|b|];
  }

  lemma {:induction false} EmptyFirst(b: string)
    ensures forall k :: 0 <= k <= |b| ==> Distance([], b[..k]) == k
  {}

  lemma {:induction false} EmptySecond(a: string)
    ensures Distance(a, []) == |a|
  {}

  // ---------------------------------------------------------------- suggestions

  /** `r` is the first of the nearest of `names`, and near enough; none if none is. */
  ghost predicate Suggests(names: seq<string>, name: string, r: Option<string>) {
    match r
    case None => |name| >= DISTANCE_MAX || forall k :: 0 <= k < |names| ==> Distance(names[k], name) > |name| / 2
    case Some(best) =>
      Distance(best, name) <= |name| / 2 && |name| < DISTANCE_MAX &&
      exists k :: 0 <= k < |names| && names[k] == best &&
                  (forall l :: 0 <= l < |names| ==> Distance(best, name) <= Distance(names[l], name)) &&
                  forall l :: 0 <= l < k ==> Distance(best, name) < Distance(names[l], name)
  }

  /** The best of the names so far, with how far it is. */
  ghost predicate BestOf(names: seq<string>, name: string, best: Option<string>, least: nat) {
    least <= TOO_FAR && (forall l :: 0 <= l < |names| ==> least <= Measured(names[l], name)) &&
    match best
    case None => least == TOO_FAR
    case Some(b) =>
      least < TOO_FAR && exists k :: 0 <= k < |names| && names[k] == b && Measured(b, name) == least &&
                                     forall l :: 0 <= l < k ==> least < Measured(names[l], name)
  }

  lemma {:induction false} BestMore(names: seq<string>, name: string, best: Option<string>, least: nat, x: string)
    requires BestOf(names, name, best, least)
    ensures var d := Measured(x, name);
            if d < least then BestOf(names + [x], name, Some(x), d) else BestOf(names + [x], name, best, least)
  {
    hide Measured;
    var more, d := names + [x], Measured(x, name);
    if d < least {
      assert more[|names|] == x;
    } else if best.Some? {
      var k :| 0 <= k < |names| && names[k] == best.value && Measured(best.value, name) == least &&
               forall l :: 0 <= l < k ==> least < Measured(names[l], name);
      assert more[k] == best.value;
    }
  }

  lemma {:induction false} BestSuggests(names: seq<string>, name: string, best: Option<string>, least: nat)
    requires BestOf(names, name, best, least)
    ensures Suggests(names, name, if least > |name| / 2 then None else best)
  {
    hide Distance;
    if |name| < DISTANCE_MAX && best.Some? && least <= |name| / 2 {
      var k :| 0 <= k < |names| && names[k] == best.value && Measured(best.value, name) == least &&
               forall l :: 0 <= l < k ==> least < Measured(names[l], name);
      assert Distance(best.value, name) == least;
      assert forall l :: 0 <= l < |names| ==> Measured(names[l], name) == Distance(names[l], name);
    }
  }

  /** The names in the order they are tried: the innermost scope first, each in order of declaration. */
  function TableNames(table: Table): (r: seq<string>)
    ensures |r| == |table| && forall j :: 0 <= j < |r| ==> r[j] == table[j].name
  {
    seq(|table|, j requires 0 <= j < |table| => table[j].name)
  }

  function NamesInside(stack: Stack, depth: nat): seq<string>
    requires depth <= |stack|
    decreases |stack| - depth
  {
    if depth == |stack| then [] else NamesInside(stack, depth + 1) + TableNames(stack[depth])
  }

  method ClosestVariable(scope: Scope, name: string) returns (r: Option<string>)
    ensures Suggests(NamesInside(scope.stack, 0), name, r)
  {
    hide Measured;
    var best: Option<string>, least: nat := None, TOO_FAR;
    var i := |scope.stack|;
    while i > 0
      invariant 0 <= i <= |scope.stack|
      invariant BestOf(NamesInside(scope.stack, i), name, best, least)
    {
      var table := scope.stack[i - 1];
      var j := 0;
      ghost var inner := NamesInside(scope.stack, i);
      assert inner + TableNames(table)[..0] == inner;
      while j < |table|
        invariant 0 <= j <= |table| && BestOf(inner + TableNames(table)[..j], name, best, least)
      {
        var d := Measure(table[j].name, name);
        BestMore(inner + TableNames(table)[..j], name, best, least, table[j].name);
        assert inner + TableNames(table)[..j] + [table[j].name] == inner + TableNames(table)[..j + 1];
        if d < least {
          least, best := d, Some(table[j].name);
        }
        j := j + 1;
      }
      assert TableNames(table)[..j] == TableNames(table);
      i := i - 1;
    }
    BestSuggests(NamesInside(scope.stack, 0), name, best, least);
    return if least > |name| / 2 then None else best;
  }

  /** The same over one table of functions. */
  method ClosestFunction(names: seq<string>, name: string) returns (r: Option<string>)
    ensures Suggests(names, name, r)
  {
    hide Measured;
    var best: Option<string>, least: nat := None, TOO_FAR;
    var i := 0;
    while i < |names|
      invariant 0 <= i <= |names| && BestOf(names[..i], name, best, least)
    {
      var d := Measure(names[i], name);
      BestMore(names[..i], name, best, least, names[i]);
      assert names[..i] + [names[i]] == names[..i + 1];
      if d < least {
        least, best := d, Some(names[i]);
      }
      i := i + 1;
    }
    assert names[..i] == names;
    BestSuggests(names, name, best, least);
    return if least > |name| / 2 then None else best;
  }
}
