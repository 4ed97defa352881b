/** Every way through a statement, its conditions chosen freely: a statement always returns exactly if no way leads
  * to its end, and after an accepted statement that may end the analyser holds a variable for initialized exactly
  * if it was before or every way to the end assigns it. */
module Paths {
  import opened Values
  import opened Arith
  import opened Scopes
  import opened Analysis
  import opened Endings
  import opened Resolution
  import opened Assignment
  import C = Checked
  import S = Syntax

  // ---------------------------------------------------------------- walks

  /** A walk reaches the end of the statement with some choices left and some variables assigned, or it meets a
    * return, or it runs out of choices. */
  datatype Walked = Ends(rest: seq<bool>, given: set<nat>) | Leaves | Waits

  /** The walk on which the conditions turn out as chosen, one after the other. */
  function Walk(s: C.Stmt, choices: seq<bool>): (w: Walked)
    ensures w.Ends? ==> |w.rest| <= |choices|
    decreases |choices|, s, 1
  {
    match s
    case Decl(_, _, id, init) => Ends(choices, if init.Some? then {id} else {})
    case Assign(_, _, id, _) => Ends(choices, {id})
    case Block(body) => WalkAll(body, choices)
    case If(_, thn, els) =>
      if |choices| == 0 then Waits
      else if choices[0] then Walk(thn, choices[1..])
      else if els.Some? then Walk(els.value, choices[1..])
      else Ends(choices[1..], {})
    case While(_, body) =>
      if |choices| == 0 then Waits
      else if !choices[0] then Ends(choices[1..], {})
      else Then(s, Walk(body, choices[1..]), |choices|)
    case Return(_) => Leaves
    case ExprStmt(_) => Ends(choices, {})
  }

  /** On to `s` after a walk that reached an end. */
  function Then(s: C.Stmt, w: Walked, n: nat): (r: Walked)
    requires w.Ends? ==> |w.rest| < n
    ensures r.Ends? ==> |r.rest| <= n
    decreases n, s, 0
  {
    if !w.Ends? then w
    else
      var next := Walk(s, w.rest);
      if next.Ends? then Ends(next.rest, w.given + next.given) else next
  }

  function WalkAll(body: seq<C.Stmt>, choices: seq<bool>): (w: Walked)
    ensures w.Ends? ==> |w.rest| <= |choices|
    decreases |choices|, body, 0
  {
    if |body| == 0 then Ends(choices, {})
    else
      var first := Walk(body[0], choices);
      if !first.Ends? then first
      else
        var next := WalkAll(body[1..], first.rest);
        if next.Ends? then Ends(next.rest, first.given + next.given) else next
  }

  // ---------------------------------------------------------------- statements that always return

  lemma {:induction false} NoWayToTheEnd(s: C.Stmt, choices: seq<bool>)
    requires AlwaysReturns(s)
    ensures !Walk(s, choices).Ends?
    decreases s
  {
    match s
    case Return(_) =>
    case Block(body) => NoWayThrough(body, choices);
    case If(_, thn, els) =>
      if |choices| > 0 {
        NoWayToTheEnd(thn, choices[1..]);
        NoWayToTheEnd(els.value, choices[1..]);
      }
  }

  lemma {:induction false} NoWayThrough(body: seq<C.Stmt>, choices: seq<bool>)
    requires AnyReturns(body)
    ensures !WalkAll(body, choices).Ends?
    decreases body
  {
    hide Walk;
    if AlwaysReturns(body[0]) {
      NoWayToTheEnd(body[0], choices);
    } else if Walk(body[0], choices).Ends? {
      NoWayThrough(body[1..], Walk(body[0], choices).rest);
    }
  }

  /** A walk to the end that uses up exactly these choices, whatever follows them, and does not assign `x`. */
  ghost predicate Avoids(s: C.Stmt, choices: seq<bool>, x: nat) {
    forall more: seq<bool> :: Walk(s, choices + more).Ends? && Walk(s, choices + more).rest == more &&
                              x !in Walk(s, choices + more).given
  }

  ghost predicate AvoidsAll(body: seq<C.Stmt>, choices: seq<bool>, x: nat) {
    forall more: seq<bool> :: WalkAll(body, choices + more).Ends? && WalkAll(body, choices + more).rest == more &&
                              x !in WalkAll(body, choices + more).given
  }

  lemma AvoidsNone(x: nat)
    ensures AvoidsAll([], [], x)
  {
    forall more: seq<bool> ensures WalkAll([], [] + more) == Ends(more, {}) {
      assert [] + more == more;
    }
  }

  lemma AvoidsCons(s: C.Stmt, body: seq<C.Stmt>, a: seq<bool>, b: seq<bool>, x: nat)
    requires Avoids(s, a, x) && AvoidsAll(body, b, x)
    ensures AvoidsAll([s] + body, a + b, x)
  {
    hide Walk;
    forall more: seq<bool>
      ensures WalkAll([s] + body, a + b + more).Ends? && WalkAll([s] + body, a + b + more).rest == more &&
              x !in WalkAll([s] + body, a + b + more).given
    {
      assert a + b + more == a + (b + more);
      assert Walk(s, a + (b + more)).rest == b + more;
      assert WalkAll(body, b + more).rest == more;
      assert ([s] + body)[1..] == body;
    }
  }

  lemma AvoidsBlock(body: seq<C.Stmt>, a: seq<bool>, x: nat)
    requires AvoidsAll(body, a, x)
    ensures Avoids(C.Block(body), a, x)
  {
    hide WalkAll;
    forall more: seq<bool> ensures Walk(C.Block(body), a + more) == WalkAll(body, a + more) {}
  }

  /** The branch chosen, then the walk through it. */
  lemma AvoidsIf(s: C.Stmt, first: bool, a: seq<bool>, x: nat)
    requires s.If?
    requires if first then Avoids(s.thn, a, x) else if s.els.Some? then Avoids(s.els.value, a, x) else a == []
    ensures Avoids(s, [first] + a, x)
  {
    forall more: seq<bool>
      ensures Walk(s, [first] + a + more).Ends? && Walk(s, [first] + a + more).rest == more &&
              x !in Walk(s, [first] + a + more).given
    {
      assert ([first] + a + more)[1..] == a + more;
      assert [] + more == more;
    }
  }

  lemma AvoidsWhile(s: C.Stmt, x: nat)
    requires s.While?
    ensures Avoids(s, [false], x)
  {
    forall more: seq<bool> ensures Walk(s, [false] + more) == Ends(more, {}) {
      assert ([false] + more)[1..] == more;
    }
  }

  lemma AvoidsSimple(s: C.Stmt, x: nat)
    requires s.ExprStmt? || (s.Assign? && s.id != x) || (s.Decl? && (s.init.None? || s.id != x))
    ensures Avoids(s, [], x)
  {
    forall more: seq<bool> ensures [] + more == more {}
  }

  /** An id above every one assigned outside loops. */
  function Unused(s: C.Stmt): nat
    decreases s, 1
  {
    match s
    case Decl(_, _, id, _) => id + 1
    case Assign(_, _, id, _) => id + 1
    case Block(body) => UnusedAll(body)
    case If(_, thn, els) =>
      var a, b := Unused(thn), if els.Some? then Unused(els.value) else 0;
      if a < b then b else a
    case _ => 0
  }

  function UnusedAll(body: seq<C.Stmt>): nat
    decreases body, 0
  {
    if |body| == 0 then 0
    else
      var a, b := Unused(body[0]), UnusedAll(body[1..]);
      if a < b then b else a
  }

  /** A statement that does not always return has a way to its end. */
  lemma {:induction false} SomeWay(s: C.Stmt, x: nat) returns (choices: seq<bool>)
    requires !AlwaysReturns(s) && x >= Unused(s)
    ensures Avoids(s, choices, x)
    decreases s, 1
  {
    hide Avoids, AvoidsAll;
    match s
    case Block(body) =>
      choices := SomeWayThrough(body, x);
      AvoidsBlock(body, choices, x);
    case If(_, thn, els) =>
      if !AlwaysReturns(thn) {
        var a := SomeWay(thn, x);
        choices := [true] + a;
        AvoidsIf(s, true, a, x);
      } else if els.Some? {
        var a := SomeWay(els.value, x);
        choices := [false] + a;
        AvoidsIf(s, false, a, x);
      } else {
        choices := [false] + [];
        AvoidsIf(s, false, [], x);
      }
    case While(_, _) =>
      choices := [false];
      AvoidsWhile(s, x);
    case _ =>
      choices := [];
      AvoidsSimple(s, x);
  }

  lemma {:induction false} SomeWayThrough(body: seq<C.Stmt>, x: nat) returns (choices: seq<bool>)
    requires !AnyReturns(body) && x >= UnusedAll(body)
    ensures AvoidsAll(body, choices, x)
    decreases body, 0
  {
    hide Avoids, AvoidsAll;
    if |body| == 0 {
      choices := [];
      AvoidsNone(x);
    } else {
      var a := SomeWay(body[0], x);
      var b := SomeWayThrough(body[1..], x);
      choices := a + b;
      AvoidsCons(body[0], body[1..], a, b, x);
      assert [body[0]] + body[1..] == body;
    }
  }

  /** The analyser's rule is exact: a statement always returns if and only if, however its conditions turn out, no
    * walk through it comes to its end. */
  lemma AlwaysReturnsExactly(s: C.Stmt)
    ensures AlwaysReturns(s) <==> forall choices: seq<bool> :: !Walk(s, choices).Ends?
  {
    hide Walk, AlwaysReturns;
    if AlwaysReturns(s) {
      forall choices: seq<bool> ensures !Walk(s, choices).Ends? {
        NoWayToTheEnd(s, choices);
      }
    } else {
      var choices := SomeWay(s, Unused(s));
      assert Walk(s, choices + []).Ends?;
    }
  }

  // ---------------------------------------------------------------- flags at a place

  /** The symbol at place `j` of table `i` is held for initialized. */
  ghost predicate Marked(stack: Stack, i: nat, j: nat) {
    i < |stack| && j < |stack[i]| && stack[i][j].initialized
  }

  ghost predicate Place(stack: Stack, i: nat, j: nat) {
    i < |stack| && j < |stack[i]|
  }

  /** How many flags come before those of table `i`. */
  function Before(stack: Stack, i: nat): nat
    requires i <= |stack|
    decreases i
  {
    if i == 0 then 0 else |stack[0]| + Before(stack[1..], i - 1)
  }

  lemma {:induction false} FlagAt(stack: Stack, i: nat, j: nat)
    requires Place(stack, i, j)
    ensures Before(stack, i) + j < |Flags(stack)| && Flags(stack)[Before(stack, i) + j] == stack[i][j].initialized
    decreases i
  {
    if i > 0 {
      FlagAt(stack[1..], i - 1, j);
    }
  }

  lemma {:induction false} BeforeSame(a: Stack, b: Stack, i: nat)
    requires SameShape(a, b) && i <= |a|
    ensures Before(a, i) == Before(b, i)
    decreases i
  {
    if i > 0 {
      assert SameTable(a[0], b[0]);
      ShapeTail(a, b);
      BeforeSame(a[1..], b[1..], i - 1);
    }
  }

  lemma PlaceSame(a: Stack, b: Stack, i: nat, j: nat)
    requires SameShape(a, b) && Place(a, i, j)
    ensures Place(b, i, j) && a[i][j].id == b[i][j].id
  {
    assert SameTable(a[i], b[i]);
  }

  /** After an `if`: marked on both sides, where a side that always returns counts as marked. */
  lemma IntersectMarks(before: Stack, t: Stack, e: Stack, a: bool, b: bool, i: nat, j: nat)
    requires Below(before, t) && Below(before, e) && Place(before, i, j)
    ensures Marked(WithFlags(e, Intersect(AfterBranch(t, a), AfterBranch(e, b))), i, j) <==>
            (a || Marked(t, i, j)) && (b || Marked(e, i, j))
  {
    hide Below, SameShape, Flags, WithFlags, Before;
    BelowShape(before, t);
    BelowShape(before, e);
    FlagsLength(before, t);
    FlagsLength(before, e);
    var f := Intersect(AfterBranch(t, a), AfterBranch(e, b));
    WithFlagsShape(e, f);
    var r := WithFlags(e, f);
    ShapesChain(before, r, e);
    PlaceSame(before, t, i, j);
    PlaceSame(before, e, i, j);
    PlaceSame(before, r, i, j);
    BeforeSame(before, t, i);
    BeforeSame(before, e, i);
    BeforeSame(before, r, i);
    FlagAt(t, i, j);
    FlagAt(e, i, j);
    FlagAt(r, i, j);
  }

  lemma GrownPlace(a: Stack, b: Stack, i: nat, j: nat)
    requires Grown(a, b) && Place(a, i, j)
    ensures Place(b, i, j) && b[i][j].id == a[i][j].id && (Marked(a, i, j) ==> Marked(b, i, j))
  {
    assert TableBelow(a[i], b[i][..|a[i]|]);
    assert b[i][j] == b[i][..|a[i]|][j];
  }

  lemma InsertMarks(stack: Stack, symbol: Symbol, id: nat, i: nat, j: nat)
    requires Insert(stack, symbol, id).Some? && Place(stack, i, j)
    ensures Marked(Insert(stack, symbol, id).value, i, j) <==> Marked(stack, i, j)
  {}

  /** An assignment marks the variable it names, and no other. */
  lemma ReplaceMarks(st: State, name: string, i: nat, j: nat)
    requires Good(st) && Lookup(st.stack, name).Some? && Place(st.stack, i, j)
    ensures Marked(Replace(st.stack, name, true), i, j) <==>
            Marked(st.stack, i, j) || st.stack[i][j].id == Lookup(st.stack, name).value.id
  {
    hide NamesOnce;
    var k := FindScope(st.stack, name).value;
    var m := FindIn(st.stack[k], name).value;
    if st.stack[i][j].id == st.stack[k][m].id {
      assert i == k && j == m;
    }
  }

  lemma PopMarks(stack: Stack, i: nat, j: nat)
    requires |stack| > 0 && i < |stack| - 1
    ensures Marked(PopStack(stack), i, j) <==> Marked(stack, i, j)
  {}

  // ---------------------------------------------------------------- marked means assigned on every way

  lemma {:induction false} MarkedIsAssigned(cx: Context, st: State, s: S.Stmt, i: nat, j: nat, choices: seq<bool>)
    requires Good(st) && S.Built(s) && ResolveStmt(cx, st, s).Some? && Place(st.stack, i, j)
    ensures var d := ResolveStmt(cx, st, s).value; var w := Walk(d.node, choices);
            Marked(d.st.stack, i, j) && w.Ends? ==> Marked(st.stack, i, j) || st.stack[i][j].id in w.given
    decreases s, 1
  {
    hide Good, ResolveExpr, Insert, Replace, Lookup, ResolveCondition, Flags, WithFlags, Intersect, Marked, Below,
         Grown;
    var d := ResolveStmt(cx, st, s).value;
    match s
    case Decl(quals, t, name, init) =>
      InsertMarks(st.stack, Symbol(name, t, quals.isMutable, 0, 0, init.Some?), st.nextId, i, j);
    case Assign(name, _) => ReplaceMarks(st, name, i, j);
    case Block(stmts) =>
      var inner := st.(stack := st.stack + [[]]);
      GoodPush(st);
      OpenMarks(st.stack, i, j);
      MarkedThrough(cx, inner, stmts, i, j, choices);
      BlockHeight(cx, st, stmts);
      PopMarks(ResolveAll(cx, inner, stmts).value.st.stack, i, j);
    case If(_, _, _) => MarkedAfterIf(cx, st, s, i, j, choices);
    case While(_, body) =>
      ResolveKeeps(cx, st, body);
      PutBack(st.stack, ResolveStmt(cx, st, body).value.st.stack);
    case Return(_) =>
    case ExprStmt(_) =>
  }

  lemma OpenMarks(stack: Stack, i: nat, j: nat)
    requires Place(stack, i, j)
    ensures Place(stack + [[]], i, j) && (stack + [[]])[i][j] == stack[i][j]
    ensures Marked(stack + [[]], i, j) <==> Marked(stack, i, j)
  {}

  lemma BlockHeight(cx: Context, st: State, stmts: seq<S.Stmt>)
    requires Good(st) && forall k :: 0 <= k < |stmts| ==> S.Built(stmts[k])
    requires ResolveAll(cx, st.(stack := st.stack + [[]]), stmts).Some?
    ensures |ResolveAll(cx, st.(stack := st.stack + [[]]), stmts).value.st.stack| == |st.stack| + 1
  {
    hide Good, Grown, ResolveAll, S.Built;
    var inner := st.(stack := st.stack + [[]]);
    GoodPush(st);
    AllKeeps(cx, inner, stmts);
    GrownLength(inner.stack, ResolveAll(cx, inner, stmts).value.st.stack);
  }

  lemma {:induction false} MarkedThrough(cx: Context, st: State, stmts: seq<S.Stmt>, i: nat, j: nat,
      choices: seq<bool>)
    requires Good(st) && (forall k :: 0 <= k < |stmts| ==> S.Built(stmts[k])) && ResolveAll(cx, st, stmts).Some?
    requires Place(st.stack, i, j)
    ensures var d := ResolveAll(cx, st, stmts).value; var w := WalkAll(d.node, choices);
            Marked(d.st.stack, i, j) && w.Ends? ==> Marked(st.stack, i, j) || st.stack[i][j].id in w.given
    decreases stmts, 0
  {
    hide Good, ResolveStmt, S.Built, Walk, Marked, Grown;
    if |stmts| > 0 {
      ResolveKeeps(cx, st, stmts[0]);
      MarkedIsAssigned(cx, st, stmts[0], i, j, choices);
      var a := ResolveStmt(cx, st, stmts[0]).value;
      GrownPlace(st.stack, a.st.stack, i, j);
      assert forall k :: 0 <= k < |stmts[1..]| ==> stmts[1..][k] == stmts[k + 1];
      var rest := ResolveAll(cx, a.st, stmts[1..]).value;
      assert ([a.node] + rest.node)[1..] == rest.node;
      if Walk(a.node, choices).Ends? {
        MarkedThrough(cx, a.st, stmts[1..], i, j, Walk(a.node, choices).rest);
      }
    }
  }

  lemma {:induction false} MarkedAfterIf(cx: Context, st: State, s: S.Stmt, i: nat, j: nat, choices: seq<bool>)
    requires s.If? && Good(st) && S.Built(s) && ResolveStmt(cx, st, s).Some? && Place(st.stack, i, j)
    ensures var d := ResolveStmt(cx, st, s).value; var w := Walk(d.node, choices);
            Marked(d.st.stack, i, j) && w.Ends? ==> Marked(st.stack, i, j) || st.stack[i][j].id in w.given
    decreases s, 0
  {
    hide Good, ResolveCondition, ResolveStmt, Flags, WithFlags, Intersect, AfterBranch, AlwaysReturns, Marked, Below,
         Grown, SameShape;
    var c: C.Expr, a: Done<C.Stmt>;
    c, a := IfParts(cx, st, s);
    ResolveKeeps(cx, st, s.thn);
    PutBack(st.stack, a.st.stack);
    BelowSelf(st.stack);
    var st1 := State(st.stack, a.st.nextId);
    GoodMore(st, st1);
    if |choices| > 0 {
      MarkedIsAssigned(cx, st, s.thn, i, j, choices[1..]);
      if AlwaysReturns(a.node) {
        NoWayToTheEnd(a.node, choices[1..]);
      }
      if s.els.None? {
        IntersectMarks(st.stack, a.st.stack, st.stack, AlwaysReturns(a.node), false, i, j);
      } else {
        ResolveKeeps(cx, st1, s.els.value);
        MarkedIsAssigned(cx, st1, s.els.value, i, j, choices[1..]);
        var b := ResolveStmt(cx, st1, s.els.value).value;
        if AlwaysReturns(b.node) {
          NoWayToTheEnd(b.node, choices[1..]);
        }
        IntersectMarks(st.stack, a.st.stack, b.st.stack, AlwaysReturns(a.node), AlwaysReturns(b.node), i, j);
      }
    }
  }

  // ---------------------------------------------------------------- what is not marked may be unassigned

  /** Where a variable is not marked after a statement that may end, some way to the end does not assign it. */
  lemma {:induction false} UnmarkedIsAvoided(cx: Context, st: State, s: S.Stmt, i: nat, j: nat)
    returns (choices: seq<bool>)
    requires Good(st) && S.Built(s) && ResolveStmt(cx, st, s).Some? && Place(st.stack, i, j)
    requires !Marked(ResolveStmt(cx, st, s).value.st.stack, i, j)
    requires !AlwaysReturns(ResolveStmt(cx, st, s).value.node)
    ensures Avoids(ResolveStmt(cx, st, s).value.node, choices, st.stack[i][j].id)
    decreases s, 1
  {
    hide Good, ResolveExpr, Insert, Replace, Lookup, ResolveCondition, Flags, WithFlags, Intersect, Marked, Below,
         Grown,
         Avoids, AvoidsAll, Walk;
    var d, x := ResolveStmt(cx, st, s).value, st.stack[i][j].id;
    choices := [];
    match s
    case Decl(_, _, _, _) =>
      IdIsOld(st, i, j);
      AvoidsSimple(d.node, x);
    case Assign(name, _) =>
      ReplaceMarks(st, name, i, j);
      AvoidsSimple(d.node, x);
    case Block(stmts) =>
      var inner := st.(stack := st.stack + [[]]);
      GoodPush(st);
      OpenMarks(st.stack, i, j);
      BlockHeight(cx, st, stmts);
      PopMarks(ResolveAll(cx, inner, stmts).value.st.stack, i, j);
      choices := AvoidedThrough(cx, inner, stmts, i, j);
      AvoidsBlock(ResolveAll(cx, inner, stmts).value.node, choices, x);
    case If(_, _, _) => choices := AvoidedByIf(cx, st, s, i, j);
    case While(_, body) =>
      choices := [false];
      AvoidsWhile(d.node, x);
    case Return(_) =>
    case ExprStmt(_) => AvoidsSimple(d.node, x);
  }

  lemma IdIsOld(st: State, i: nat, j: nat)
    requires Good(st) && Place(st.stack, i, j)
    ensures st.stack[i][j].id < st.nextId
  {
    hide NamesOnce, IdsOnce;
  }

  lemma {:induction false} AvoidedThrough(cx: Context, st: State, stmts: seq<S.Stmt>, i: nat, j: nat)
    returns (choices: seq<bool>)
    requires Good(st) && (forall k :: 0 <= k < |stmts| ==> S.Built(stmts[k])) && ResolveAll(cx, st, stmts).Some?
    requires Place(st.stack, i, j) && !Marked(ResolveAll(cx, st, stmts).value.st.stack, i, j)
    requires !AnyReturns(ResolveAll(cx, st, stmts).value.node)
    ensures AvoidsAll(ResolveAll(cx, st, stmts).value.node, choices, st.stack[i][j].id)
    decreases stmts, 0
  {
    hide Good, ResolveStmt, S.Built, Walk, Marked, Grown, Avoids, AvoidsAll, AlwaysReturns;
    if |stmts| == 0 {
      choices := [];
      AvoidsNone(st.stack[i][j].id);
    } else {
      ResolveKeeps(cx, st, stmts[0]);
      var a := ResolveStmt(cx, st, stmts[0]).value;
      GrownPlace(st.stack, a.st.stack, i, j);
      assert forall k :: 0 <= k < |stmts[1..]| ==> stmts[1..][k] == stmts[k + 1];
      var rest := ResolveAll(cx, a.st, stmts[1..]).value;
      assert ([a.node] + rest.node)[1..] == rest.node;
      AllKeeps(cx, a.st, stmts[1..]);
      GrownPlace(a.st.stack, rest.st.stack, i, j);
      var first := UnmarkedIsAvoided(cx, st, stmts[0], i, j);
      var next := AvoidedThrough(cx, a.st, stmts[1..], i, j);
      choices := first + next;
      AvoidsCons(a.node, rest.node, first, next, st.stack[i][j].id);
    }
  }

  lemma {:induction false} AvoidedByIf(cx: Context, st: State, s: S.Stmt, i: nat, j: nat) returns (choices: seq<bool>)
    requires s.If? && Good(st) && S.Built(s) && ResolveStmt(cx, st, s).Some? && Place(st.stack, i, j)
    requires !Marked(ResolveStmt(cx, st, s).value.st.stack, i, j)
    requires !AlwaysReturns(ResolveStmt(cx, st, s).value.node)
    ensures Avoids(ResolveStmt(cx, st, s).value.node, choices, st.stack[i][j].id)
    decreases s, 0
  {
    hide Good, ResolveCondition, ResolveStmt, Flags, WithFlags, Intersect, AfterBranch, Marked, Below, Grown, SameShape,
         Avoids;
    var c: C.Expr, a: Done<C.Stmt>;
    c, a := IfParts(cx, st, s);
    var node := ResolveStmt(cx, st, s).value.node;
    var x := st.stack[i][j].id;
    ResolveKeeps(cx, st, s.thn);
    PutBack(st.stack, a.st.stack);
    BelowSelf(st.stack);
    var st1 := State(st.stack, a.st.nextId);
    GoodMore(st, st1);
    if s.els.None? {
      IntersectMarks(st.stack, a.st.stack, st.stack, AlwaysReturns(a.node), false, i, j);
      if !AlwaysReturns(a.node) && !Marked(a.st.stack, i, j) {
        var way := UnmarkedIsAvoided(cx, st, s.thn, i, j);
        choices := [true] + way;
        AvoidsIf(node, true, way, x);
      } else {
        choices := [false] + [];
        AvoidsIf(node, false, [], x);
      }
    } else {
      ResolveKeeps(cx, st1, s.els.value);
      var b := ResolveStmt(cx, st1, s.els.value).value;
      IntersectMarks(st.stack, a.st.stack, b.st.stack, AlwaysReturns(a.node), AlwaysReturns(b.node), i, j);
      if !AlwaysReturns(a.node) && !Marked(a.st.stack, i, j) {
        var way := UnmarkedIsAvoided(cx, st, s.thn, i, j);
        choices := [true] + way;
        AvoidsIf(node, true, way, x);
      } else {
        var way := UnmarkedIsAvoided(cx, st1, s.els.value, i, j);
        choices := [false] + way;
        AvoidsIf(node, false, way, x);
      }
    }
  }

  /** The flags are exact. After an accepted statement that may end, a variable of the scopes open before it is held
    * for initialized if and only if it was already or every walk to the end of the statement assigns it. */
  lemma FlagsExact(cx: Context, st: State, s: S.Stmt, i: nat, j: nat)
    requires Good(st) && S.Built(s) && ResolveStmt(cx, st, s).Some? && Place(st.stack, i, j)
    requires !AlwaysReturns(ResolveStmt(cx, st, s).value.node)
    ensures var d := ResolveStmt(cx, st, s).value;
            Marked(d.st.stack, i, j) <==>
            Marked(st.stack, i, j) ||
            forall choices: seq<bool> :: Walk(d.node, choices).Ends? ==>
              st.stack[i][j].id in Walk(d.node, choices).given
  {
    hide Good, ResolveStmt, Walk, Marked, AlwaysReturns, Grown, Below;
    var d := ResolveStmt(cx, st, s).value;
    if Marked(d.st.stack, i, j) {
      if !Marked(st.stack, i, j) {
        forall choices: seq<bool> | Walk(d.node, choices).Ends?
          ensures st.stack[i][j].id in Walk(d.node, choices).given
        {
          MarkedIsAssigned(cx, st, s, i, j, choices);
        }
      }
    } else {
      ResolveKeeps(cx, st, s);
      GrownPlace(st.stack, d.st.stack, i, j);
      var choices := UnmarkedIsAvoided(cx, st, s, i, j);
      assert Walk(d.node, choices + []).Ends? && st.stack[i][j].id !in Walk(d.node, choices + []).given;
    }
  }
}
