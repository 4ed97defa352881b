/** Accepted functions never read a variable before it has a value, and the flat environment of
  * `name@id` variables is a correct renaming of nested scopes: both evaluators agree on every run. */
module Assignment {
  import opened Values
  import opened Arith
  import opened Scopes
  import opened Constants
  import opened Analysis
  import opened Endings
  import opened Resolution
  import C = Checked
  import S = Syntax
  import N = Nested

  // ---------------------------------------------------------------- resolved expressions

  /** Every variable of the expression is known where the expression is evaluated. */
  predicate Bound(stack: Stack, e: C.Expr) {
    match e
    case Literal(_, _) => true
    case Ident(_, name, id) => Known(stack, name, id)
    case Binary(_, _, l, r) => Bound(stack, l) && Bound(stack, r)
    case Unary(_, _, a) => Bound(stack, a)
    case Increment(_, _, _, name, id) => Known(stack, name, id)
    case Cast(_, a) => Bound(stack, a)
    case Call(_, _, args) => forall i :: 0 <= i < |args| ==> Bound(stack, args[i])
  }

  lemma FinishShape(op: BinaryOp, l: C.Expr, r: C.Expr)
    requires FinishBinary(op, l, r).Some?
    ensures var e := FinishBinary(op, l, r).value; e == C.Binary(e.t, op, l, r)
  {
    hide EvalInt, NoOverflow, IsConstantZero, SameGroup, Promote, IsInteger, WidthBits, IsSigned;
  }

  lemma FinishBound(stack: Stack, op: BinaryOp, l: C.Expr, r: C.Expr)
    requires Bound(stack, l) && Bound(stack, r)
    ensures FinishBinary(op, l, r).Some? ==> Bound(stack, FinishBinary(op, l, r).value)
  {
    hide FinishBinary, Known;
    if FinishBinary(op, l, r).Some? {
      FinishShape(op, l, r);
    }
  }

  lemma {:induction false} ResolvedBound(funcs: Funcs, stack: Stack, e: S.Expr, expected: ValueType)
    requires ResolveExpr(funcs, stack, e, expected).Some?
    ensures Bound(stack, ResolveExpr(funcs, stack, e, expected).value)
    decreases e
  {
    hide FinishBinary, EvalInt, UintLiteralFits, NegatedLiteralFits;
    match e
    case Number(_) =>
    case Boolean(_) =>
    case Identifier(_) =>
    case Binary(op, left, right) =>
      var want := OperandExpected(op, expected);
      if IsRelational(op) && IsLiteral(left) && !IsLiteral(right) {
        ResolvedBound(funcs, stack, right, want);
        var r := ResolveExpr(funcs, stack, right, want).value;
        var wantLeft := if r.t != Unresolved then r.t else want;
        ResolvedBound(funcs, stack, left, wantLeft);
        FinishBound(stack, op, ResolveExpr(funcs, stack, left, wantLeft).value, r);
      } else {
        ResolvedBound(funcs, stack, left, want);
        var l := ResolveExpr(funcs, stack, left, want).value;
        var wantRight := if !IsShift(op) && l.t != Unresolved then l.t else want;
        ResolvedBound(funcs, stack, right, wantRight);
        FinishBound(stack, op, l, ResolveExpr(funcs, stack, right, wantRight).value);
      }
    case Unary(Minus, a) =>
      if !a.Number? {
        ResolvedBound(funcs, stack, a, if IsSigned(expected) then expected else I64);
      }
    case Unary(Tilde, a) => ResolvedBound(funcs, stack, a, expected);
    case Unary(Bang, a) => ResolvedBound(funcs, stack, a, Bool);
    case Unary(_, _) =>
    case Cast(a, _) => ResolvedBound(funcs, stack, a, Unresolved);
    case Call(callee, args) => ResolvedArgsBound(funcs, stack, args, funcs[FindFunc(funcs, callee).value].params);
  }

  lemma {:induction false} ResolvedArgsBound(funcs: Funcs, stack: Stack, args: seq<S.Expr>, params: seq<ValueType>)
    requires |args| == |params| && ResolveArgs(funcs, stack, args, params).Some?
    ensures var cs := ResolveArgs(funcs, stack, args, params).value; forall i :: 0 <= i < |cs| ==> Bound(stack, cs[i])
    decreases args
  {
    if |args| > 0 {
      ResolvedBound(funcs, stack, args[0], params[0]);
      ResolvedArgsBound(funcs, stack, args[1..], params[1..]);
    }
  }

  // ---------------------------------------------------------------- the two evaluators

  /** Faults a run may meet: arithmetic ones, and calls of functions that are not there. */
  predicate Allowed(r: C.Reason) {
    !r.UnassignedRead? && !r.MissingReturn?
  }

  ghost predicate SameValue(stack: Stack, a: N.ExprResult, b: C.ExprResult) {
    match a
    case Value(v, fs) => b.Value? && b.v == v && Match(stack, fs, b.env)
    case ExprFault(r) => b == C.ExprFault(r) && Allowed(r)
    case ExprTimeout => b == C.ExprTimeout
  }

  ghost predicate SameArgs(stack: Stack, a: N.ArgsResult, b: C.ArgsResult) {
    match a
    case Args(vs, fs) => b.Args? && b.vs == vs && Match(stack, fs, b.env)
    case ArgsFault(r) => b == C.ArgsFault(r) && Allowed(r)
    case ArgsTimeout => b == C.ArgsTimeout
  }

  /** What a call delivers, without the environments it leaves. */
  ghost predicate SameOutcome(a: N.ExprResult, b: C.ExprResult) {
    match a
    case Value(v, _) => b.Value? && b.v == v
    case ExprFault(r) => b == C.ExprFault(r) && Allowed(r)
    case ExprTimeout => b == C.ExprTimeout
  }

  /** Functions as the analyser leaves them. */
  ghost predicate Analyzed(fn: C.Function) {
    fn.body.Some? ==>
      exists cx: Context, st: State, params: seq<S.Param>, body: S.Stmt ::
        Good(st) && S.Built(body) && body.Block? && BodyOf(cx, st, params, body, fn)
  }

  ghost predicate BodyOf(cx: Context, st: State, params: seq<S.Param>, body: S.Stmt, fn: C.Function)
    requires fn.body.Some?
  {
    st.stack == [[]] && DistinctNames(params) &&
    var d := DeclareParams(st.(stack := st.stack + [[]]), params);
    d.Some? && d.value.node == fn.params && cx.ret == fn.ret &&
    var b := ResolveStmt(cx, d.value.st, body);
    b.Some? && b.value.node == fn.body.value && (fn.ret.Void? || AlwaysReturns(b.value.node))
  }

  ghost predicate AllAnalyzed(p: C.Program) {
    forall i :: 0 <= i < |p| ==> Analyzed(p[i])
  }

  lemma {:induction false} SimExpr(p: C.Program, st: State, e: C.Expr, fs: N.Frames, env: C.Env, fuel: C.Fuel)
    requires AllAnalyzed(p) && Good(st) && Bound(st.stack, e) && Match(st.stack, fs, env)
    ensures SameValue(st.stack, N.Eval(p, e, fs, fuel), C.Eval(p, e, env, fuel))
    decreases fuel.calls, fuel.loops, 0, e, 1
  {
    hide AllAnalyzed, Good, Match, Known, C.Key, Convert, C.LiteralValue, Apply, ApplyUnary;
    match e
    case Literal(_, _) =>
    case Ident(_, name, id) => ReadKnown(st.stack, fs, env, name, id);
    case Binary(_, op, l, r) =>
      SimExpr(p, st, l, fs, env, fuel);
      if N.Eval(p, l, fs, fuel).Value? {
        SimExpr(p, st, r, N.Eval(p, l, fs, fuel).fs, C.Eval(p, l, env, fuel).env, fuel);
      }
    case Unary(_, _, a) => SimExpr(p, st, a, fs, env, fuel);
    case Increment(t, up, _, name, id) =>
      ReadKnown(st.stack, fs, env, name, id);
      KnownId(st.stack, name, id);
      ReplaceKnown(st.stack, name, id);
      WriteMatch(st, fs, env, name, Wrap(t, N.Read(fs, name).value + C.Step(up)), true);
    case Cast(_, a) => SimExpr(p, st, a, fs, env, fuel);
    case Call(_, f, args) =>
      SimArgs(p, st, args, fs, env, fuel);
      if fuel.calls > 0 && N.EvalArgs(p, args, fs, fuel).Args? {
        SimInvoke(p, f, N.EvalArgs(p, args, fs, fuel).vs, fuel.(calls := fuel.calls - 1));
      }
  }

  lemma KnownId(stack: Stack, name: string, id: nat)
    requires Known(stack, name, id)
    ensures Lookup(stack, name).Some? && Lookup(stack, name).value.id == id
  {}

  lemma {:induction false} SimArgs(p: C.Program, st: State, args: seq<C.Expr>, fs: N.Frames, env: C.Env, fuel: C.Fuel)
    requires AllAnalyzed(p) && Good(st) && Match(st.stack, fs, env) &&
             forall i :: 0 <= i < |args| ==> Bound(st.stack, args[i])
    ensures SameArgs(st.stack, N.EvalArgs(p, args, fs, fuel), C.EvalArgs(p, args, env, fuel))
    decreases fuel.calls, fuel.loops, 0, args, 0
  {
    hide AllAnalyzed, Good, Match, Bound, N.Eval, C.Eval;
    if |args| > 0 {
      SimExpr(p, st, args[0], fs, env, fuel);
      if N.Eval(p, args[0], fs, fuel).Value? {
        assert forall i :: 0 <= i < |args[1..]| ==> args[1..][i] == args[i + 1];
        SimArgs(p, st, args[1..], N.Eval(p, args[0], fs, fuel).fs, C.Eval(p, args[0], env, fuel).env, fuel);
      }
    }
  }

  // ---------------------------------------------------------------- statements keep the stack's shape

  /** The same scopes; only the innermost may have new symbols, and nothing initialized is forgotten. */
  ghost predicate Grown(a: Stack, b: Stack) {
    |a| == |b| &&
    forall i :: 0 <= i < |a| ==>
      |a[i]| <= |b[i]| && TableBelow(a[i], b[i][..|a[i]|]) && (i < |a| - 1 ==> |a[i]| == |b[i]|)
  }

  /** What a statement does to the analyser's state. */
  ghost predicate Keeps(st: State, st': State) {
    Good(st') && st'.nextId >= st.nextId && Grown(st.stack, st'.stack)
  }

  lemma GrownSelf(a: Stack)
    ensures Grown(a, a)
  {
    forall i | 0 <= i < |a| ensures TableBelow(a[i], a[i][..|a[i]|]) {
      assert a[i][..|a[i]|] == a[i];
    }
  }

  lemma GrownJoin(a: Stack, b: Stack, c: Stack)
    requires Grown(a, b) && Grown(b, c)
    ensures Grown(a, c)
  {
    forall i | 0 <= i < |a|
      ensures |a[i]| <= |c[i]| && TableBelow(a[i], c[i][..|a[i]|]) && (i < |a| - 1 ==> |a[i]| == |c[i]|)
    {
      assert TableBelow(a[i], b[i][..|a[i]|]) && TableBelow(b[i], c[i][..|b[i]|]);
      assert |a[i]| <= |b[i]| <= |c[i]|;
    }
  }

  lemma GrownBelow(a: Stack, b: Stack)
    requires Below(a, b)
    ensures Grown(a, b)
  {
    forall i | 0 <= i < |a| ensures |a[i]| == |b[i]| && TableBelow(a[i], b[i][..|a[i]|]) {
      assert TableBelow(a[i], b[i]);
      assert b[i][..|a[i]|] == b[i];
    }
  }

  /** A block forgets what was declared in it. */
  lemma GrownPop(a: Stack, b: Stack)
    requires Grown(a + [[]], b)
    ensures Below(a, PopStack(b))
  {
    forall i | 0 <= i < |a| ensures TableBelow(a[i], PopStack(b)[i]) {
      assert (a + [[]])[i] == a[i];
      assert b[i][..|a[i]|] == b[i];
    }
  }

  lemma InsertGrown(stack: Stack, symbol: Symbol, id: nat)
    requires Insert(stack, symbol, id).Some?
    ensures Grown(stack, Insert(stack, symbol, id).value)
  {
    var b := Insert(stack, symbol, id).value;
    forall i | 0 <= i < |stack| ensures |stack[i]| <= |b[i]| && TableBelow(stack[i], b[i][..|stack[i]|]) {
      assert b[i][..|stack[i]|] == stack[i];
    }
  }

  /** The flags after an `if`: at least those before it, at most those after a branch that ends. */
  lemma IntersectBelow(before: Stack, t: Stack, e: Stack, a: bool, b: bool)
    requires Below(before, t) && Below(before, e)
    ensures var r := WithFlags(e, Intersect(AfterBranch(t, a), AfterBranch(e, b)));
            SameShape(r, e) && Below(before, r) && (!a ==> Below(r, t)) && (!b ==> Below(r, e))
  {
    hide TableBelow, SameTable;
    BelowShape(before, t);
    BelowShape(before, e);
    FlagsLength(before, t);
    FlagsLength(before, e);
    var f := Intersect(AfterBranch(t, a), AfterBranch(e, b));
    WithFlagsShape(e, f);
    var r := WithFlags(e, f);
    ShapesChain(before, r, e);
    ShapesChain2(r, e, before, t);
    FlagsBelow(before, t);
    FlagsBelow(before, e);
    BelowByFlags(before, r);
    if !a {
      BelowByFlags(r, t);
    }
    if !b {
      BelowByFlags(r, e);
    }
  }

  lemma ShapesChain(a: Stack, b: Stack, c: Stack)
    requires SameShape(a, c) && SameShape(b, c)
    ensures SameShape(a, b)
  {
    forall i | 0 <= i < |a| ensures SameTable(a[i], b[i]) {
      assert SameTable(a[i], c[i]) && SameTable(b[i], c[i]);
    }
  }

  lemma ShapesChain2(a: Stack, b: Stack, c: Stack, d: Stack)
    requires SameShape(a, b) && SameShape(c, b) && SameShape(c, d)
    ensures SameShape(a, d)
  {
    forall i | 0 <= i < |a| ensures SameTable(a[i], d[i]) {
      assert SameTable(a[i], b[i]) && SameTable(c[i], b[i]) && SameTable(c[i], d[i]);
    }
  }

  lemma ShapeTurned(a: Stack, b: Stack)
    requires SameShape(a, b)
    ensures SameShape(b, a)
  {
    forall i | 0 <= i < |a| ensures SameTable(b[i], a[i]) {
      assert SameTable(a[i], b[i]);
    }
  }

  /** The stack an `if` or a loop puts back is the one it began with. */
  lemma PutBack(before: Stack, after: Stack)
    requires Below(before, after)
    ensures WithFlags(after, Flags(before)) == before
  {
    BelowShape(before, after);
    ShapeTurned(before, after);
    RestoreSaved(after, before);
  }

  /** The pieces of an accepted `if`. */
  lemma IfParts(cx: Context, st: State, s: S.Stmt) returns (c: C.Expr, a: Done<C.Stmt>)
    requires s.If? && ResolveStmt(cx, st, s).Some?
    ensures ResolveCondition(cx, st, s.cond) == Some(c) && ResolveStmt(cx, st, s.thn) == Some(a)
    ensures WithFlags(a.st.stack, Flags(st.stack)) == st.stack ==>
      var d := ResolveStmt(cx, st, s).value; var afterThen := AfterBranch(a.st.stack, AlwaysReturns(a.node));
      var st1 := State(st.stack, a.st.nextId);
      if s.els.None? then
        d == Done(State(WithFlags(st.stack, Intersect(afterThen, AfterBranch(st.stack, false))), a.st.nextId),
                  C.If(c, a.node, None))
      else
        ResolveStmt(cx, st1, s.els.value).Some? &&
        var b := ResolveStmt(cx, st1, s.els.value).value;
        d == Done(State(WithFlags(b.st.stack, Intersect(afterThen, AfterBranch(b.st.stack, AlwaysReturns(b.node)))),
                        b.st.nextId),
                  C.If(c, a.node, Some(b.node)))
  {
    hide ResolveCondition, Flags, WithFlags, Intersect, AlwaysReturns, Filled;
    c := ResolveCondition(cx, st, s.cond).value;
    a := ResolveStmt(cx, st, s.thn).value;
  }

  lemma {:induction false} ResolveKeeps(cx: Context, st: State, s: S.Stmt)
    requires Good(st) && S.Built(s) && ResolveStmt(cx, st, s).Some?
    ensures Keeps(st, ResolveStmt(cx, st, s).value.st)
    ensures s.Block? || s.If? || s.While? ==> Below(st.stack, ResolveStmt(cx, st, s).value.st.stack)
    decreases s
  {
    hide ResolveExpr, Good, Below, Grown, Flags, WithFlags, Intersect, ResolveCondition, Insert, Replace, Lookup,
         ResolveInit;
    var d := ResolveStmt(cx, st, s).value;
    match s
    case Decl(quals, t, name, init) =>
      var symbol := Symbol(name, t, quals.isMutable, 0, 0, init.Some?);
      GoodInsert(st, symbol);
      InsertGrown(st.stack, symbol, st.nextId);
    case Assign(name, value) =>
      ReplaceShape(st.stack, name);
      GoodShape(st, d.st);
      GrownBelow(st.stack, d.st.stack);
    case Block(stmts) => BlockKeeps(cx, st, s);
    case If(cond, thn, els) => IfKeeps(cx, st, s);
    case While(cond, body) =>
      ResolveKeeps(cx, st, body);
      var b := ResolveStmt(cx, st, body).value;
      PutBack(st.stack, b.st.stack);
      BelowSelf(st.stack);
      GrownSelf(st.stack);
      GoodMore(st, d.st);
    case Return(_) => GrownSelf(st.stack);
    case ExprStmt(_) => GrownSelf(st.stack);
  }

  lemma BelowSelf(a: Stack)
    ensures Below(a, a) && SameShape(a, a)
  {}

  lemma GoodMore(st: State, st': State)
    requires Good(st) && st'.stack == st.stack && st'.nextId >= st.nextId
    ensures Good(st')
  {}

  lemma {:induction false} BlockKeeps(cx: Context, st: State, s: S.Stmt)
    requires s.Block? && Good(st) && S.Built(s) && ResolveStmt(cx, st, s).Some?
    ensures Keeps(st, ResolveStmt(cx, st, s).value.st) && Below(st.stack, ResolveStmt(cx, st, s).value.st.stack)
    decreases s, 0
  {
    hide Good, Below, Grown;
    var inner := st.(stack := st.stack + [[]]);
    GoodPush(st);
    AllKeeps(cx, inner, s.stmts);
    var d := ResolveAll(cx, inner, s.stmts).value;
    GrownPop(st.stack, d.st.stack);
    GrownLength(inner.stack, d.st.stack);
    StackHeight(st);
    GoodPop(d.st);
    GrownBelow(st.stack, PopStack(d.st.stack));
  }

  lemma GrownLength(a: Stack, b: Stack)
    requires Grown(a, b)
    ensures |a| == |b|
  {
    hide TableBelow;
  }

  lemma StackHeight(st: State)
    requires Good(st)
    ensures |st.stack| > 0
  {
    hide IdsBelow, IdsOnce, NamesOnce;
  }

  lemma {:induction false} AllKeeps(cx: Context, st: State, stmts: seq<S.Stmt>)
    requires Good(st) && (forall i :: 0 <= i < |stmts| ==> S.Built(stmts[i])) && ResolveAll(cx, st, stmts).Some?
    ensures Keeps(st, ResolveAll(cx, st, stmts).value.st)
    decreases stmts
  {
    hide Good, Grown, ResolveStmt, S.Built;
    if |stmts| == 0 {
      GrownSelf(st.stack);
    } else {
      ResolveKeeps(cx, st, stmts[0]);
      var a := ResolveStmt(cx, st, stmts[0]).value;
      assert forall i :: 0 <= i < |stmts[1..]| ==> stmts[1..][i] == stmts[i + 1];
      AllKeeps(cx, a.st, stmts[1..]);
      GrownJoin(st.stack, a.st.stack, ResolveAll(cx, a.st, stmts[1..]).value.st.stack);
    }
  }

  lemma {:induction false} IfKeeps(cx: Context, st: State, s: S.Stmt)
    requires s.If? && Good(st) && S.Built(s) && ResolveStmt(cx, st, s).Some?
    ensures Keeps(st, ResolveStmt(cx, st, s).value.st) && Below(st.stack, ResolveStmt(cx, st, s).value.st.stack)
    decreases s, 0
  {
    hide Good, Below, Grown, Flags, WithFlags, Intersect, ResolveCondition, ResolveStmt, AfterBranch, AlwaysReturns,
         SameShape;
    var c: C.Expr, a: Done<C.Stmt>;
    c, a := IfParts(cx, st, s);
    var d := ResolveStmt(cx, st, s).value;
    ResolveKeeps(cx, st, s.thn);
    PutBack(st.stack, a.st.stack);
    var st1 := State(st.stack, a.st.nextId);
    GoodMore(st, st1);
    BelowSelf(st.stack);
    if s.els.None? {
      IntersectBelow(st.stack, a.st.stack, st.stack, AlwaysReturns(a.node), false);
      GoodShape(st1, d.st);
    } else {
      ResolveKeeps(cx, st1, s.els.value);
      var b := ResolveStmt(cx, st1, s.els.value).value;
      IntersectBelow(st.stack, a.st.stack, b.st.stack, AlwaysReturns(a.node), AlwaysReturns(b.node));
      GoodShape(b.st, d.st);
    }
    GrownBelow(st.stack, d.st.stack);
  }

  // ---------------------------------------------------------------- runs of statements

  ghost predicate SameResult(stack: Stack, a: N.StmtResult, b: C.StmtResult) {
    match a
    case Next(fs) => b.Next? && Match(stack, fs, b.env)
    case Returned(v) => b.Returned? && b.v == v
    case Fault(r) => b == C.Fault(r) && Allowed(r)
    case Timeout => b == C.Timeout
  }

  lemma SameResultBelow(a: Stack, b: Stack, x: N.StmtResult, y: C.StmtResult)
    requires x.Next? ==> Below(a, b)
    requires SameResult(b, x, y)
    ensures SameResult(a, x, y)
  {
    hide Below, Match;
    if x.Next? {
      MatchBelow(a, b, x.fs, y.env);
    }
  }

  lemma {:induction false} SimStmt(
    p: C.Program, cx: Context, st: State, s: S.Stmt, fs: N.Frames, env: C.Env, fuel: C.Fuel)
    requires AllAnalyzed(p) && Good(st) && S.Built(s) && ResolveStmt(cx, st, s).Some? && Match(st.stack, fs, env)
    ensures var d := ResolveStmt(cx, st, s).value;
            SameResult(d.st.stack, N.Exec(p, d.node, fs, fuel), C.Exec(p, d.node, env, fuel))
    decreases fuel.calls, fuel.loops, 1, s, 1
  {
    hide AllAnalyzed, Good, Match, Known, Bound, C.Key, Convert, ResolveExpr, N.Eval, C.Eval, Insert, Replace, Lookup,
         Below, ResolveCondition, WithFlags, Flags;
    match s
    case Decl(_, _, _, _) => SimDecl(p, cx, st, s, fs, env, fuel);
    case Assign(_, _) => SimAssign(p, cx, st, s, fs, env, fuel);
    case Block(_) => SimBlock(p, cx, st, s, fs, env, fuel);
    case If(_, _, _) => SimIf(p, cx, st, s, fs, env, fuel);
    case While(_, _) => SimWhile(p, cx, st, s, fs, env, fuel);
    case Return(result) =>
      if result.Some? {
        ResolvedBound(cx.funcs, st.stack, result.value, cx.ret);
        SimExpr(p, st, ResolveExpr(cx.funcs, st.stack, result.value, cx.ret).value, fs, env, fuel);
      }
    case ExprStmt(e) =>
      ResolvedBound(cx.funcs, st.stack, e, Unresolved);
      SimExpr(p, st, ResolveExpr(cx.funcs, st.stack, e, Unresolved).value, fs, env, fuel);
  }

  lemma {:induction false} SimDecl(
    p: C.Program, cx: Context, st: State, s: S.Stmt, fs: N.Frames, env: C.Env, fuel: C.Fuel)
    requires s.Decl? && AllAnalyzed(p) && Good(st) && ResolveStmt(cx, st, s).Some? && Match(st.stack, fs, env)
    ensures var d := ResolveStmt(cx, st, s).value;
            SameResult(d.st.stack, N.Exec(p, d.node, fs, fuel), C.Exec(p, d.node, env, fuel))
    decreases fuel.calls, fuel.loops, 1, s, 0
  {
    hide AllAnalyzed, Good, Match, Known, Bound, C.Key, Convert, ResolveExpr, N.Eval, C.Eval, Insert;
    var symbol := Symbol(s.name, s.t, s.quals.isMutable, 0, 0, s.init.Some?);
    if s.init.Some? {
      var c := ResolveExpr(cx.funcs, st.stack, s.init.value, s.t).value;
      ResolvedBound(cx.funcs, st.stack, s.init.value, s.t);
      SimExpr(p, st, c, fs, env, fuel);
      var r, q := N.Eval(p, c, fs, fuel), C.Eval(p, c, env, fuel);
      if r.Value? {
        DeclareMatch(st, r.fs, q.env, symbol, Some(Convert(s.t, r.v)));
      }
    } else {
      DeclareMatch(st, fs, env, symbol, None);
    }
  }

  lemma {:induction false} SimAssign(
    p: C.Program, cx: Context, st: State, s: S.Stmt, fs: N.Frames, env: C.Env, fuel: C.Fuel)
    requires s.Assign? && AllAnalyzed(p) && Good(st) && ResolveStmt(cx, st, s).Some? && Match(st.stack, fs, env)
    ensures var d := ResolveStmt(cx, st, s).value;
            SameResult(d.st.stack, N.Exec(p, d.node, fs, fuel), C.Exec(p, d.node, env, fuel))
    decreases fuel.calls, fuel.loops, 1, s, 0
  {
    hide AllAnalyzed, Good, Match, Known, Bound, C.Key, Convert, ResolveExpr, N.Eval, C.Eval, Replace, Lookup;
    var sym := Lookup(st.stack, s.name).value;
    var c := ResolveExpr(cx.funcs, st.stack, s.value, sym.t).value;
    ResolvedBound(cx.funcs, st.stack, s.value, sym.t);
    SimExpr(p, st, c, fs, env, fuel);
    var r, q := N.Eval(p, c, fs, fuel), C.Eval(p, c, env, fuel);
    if r.Value? {
      WriteMatch(st, r.fs, q.env, s.name, Convert(sym.t, r.v), true);
    }
  }

  lemma {:induction false} SimBlock(
    p: C.Program, cx: Context, st: State, s: S.Stmt, fs: N.Frames, env: C.Env, fuel: C.Fuel)
    requires s.Block? && AllAnalyzed(p) && Good(st) && S.Built(s) && ResolveStmt(cx, st, s).Some? &&
             Match(st.stack, fs, env)
    ensures var d := ResolveStmt(cx, st, s).value;
            SameResult(d.st.stack, N.Exec(p, d.node, fs, fuel), C.Exec(p, d.node, env, fuel))
    decreases fuel.calls, fuel.loops, 1, s, 0
  {
    hide AllAnalyzed, Good, Match, C.ExecAll, N.ExecAll, ResolveAll;
    var inner := st.(stack := st.stack + [[]]);
    GoodPush(st);
    MatchPush(st.stack, fs, env);
    SimAll(p, cx, inner, s.stmts, fs + [map[]], env, fuel);
    var d := ResolveAll(cx, inner, s.stmts).value;
    var r, q := N.ExecAll(p, d.node, fs + [map[]], fuel), C.ExecAll(p, d.node, env, fuel);
    if r.Next? {
      MatchPop(d.st.stack, r.fs, q.env);
    }
  }

  lemma {:induction false} SimAll(
    p: C.Program, cx: Context, st: State, stmts: seq<S.Stmt>, fs: N.Frames, env: C.Env, fuel: C.Fuel)
    requires AllAnalyzed(p) && Good(st) && (forall i :: 0 <= i < |stmts| ==> S.Built(stmts[i]))
    requires ResolveAll(cx, st, stmts).Some? && Match(st.stack, fs, env)
    ensures var d := ResolveAll(cx, st, stmts).value;
            SameResult(d.st.stack, N.ExecAll(p, d.node, fs, fuel), C.ExecAll(p, d.node, env, fuel))
    decreases fuel.calls, fuel.loops, 1, stmts, 0
  {
    hide AllAnalyzed, Good, Match, C.Exec, N.Exec, ResolveStmt, S.Built, Grown;
    if |stmts| > 0 {
      SimStmt(p, cx, st, stmts[0], fs, env, fuel);
      ResolveKeeps(cx, st, stmts[0]);
      var a := ResolveStmt(cx, st, stmts[0]).value;
      var rest := ResolveAll(cx, a.st, stmts[1..]).value;
      assert ([a.node] + rest.node)[1..] == rest.node;
      var r, q := N.Exec(p, a.node, fs, fuel), C.Exec(p, a.node, env, fuel);
      if r.Next? {
        assert forall i :: 0 <= i < |stmts[1..]| ==> stmts[1..][i] == stmts[i + 1];
        SimAll(p, cx, a.st, stmts[1..], r.fs, q.env, fuel);
      }
    }
  }

  lemma SimCondition(p: C.Program, cx: Context, st: State, cond: S.Expr, fs: N.Frames, env: C.Env, fuel: C.Fuel)
    requires AllAnalyzed(p) && Good(st) && Match(st.stack, fs, env) && ResolveCondition(cx, st, cond).Some?
    ensures var c := ResolveCondition(cx, st, cond).value;
            SameValue(st.stack, N.Eval(p, c, fs, fuel), C.Eval(p, c, env, fuel))
    decreases fuel.calls, fuel.loops, 1, cond, 0
  {
    hide AllAnalyzed, Good, Match, Bound, ResolveExpr, N.Eval, C.Eval;
    ResolvedBound(cx.funcs, st.stack, cond, Bool);
    SimExpr(p, st, ResolveCondition(cx, st, cond).value, fs, env, fuel);
  }

  lemma {:induction false} SimIf(
    p: C.Program, cx: Context, st: State, s: S.Stmt, fs: N.Frames, env: C.Env, fuel: C.Fuel)
    requires s.If? && AllAnalyzed(p) && Good(st) && S.Built(s) && ResolveStmt(cx, st, s).Some? &&
             Match(st.stack, fs, env)
    ensures var d := ResolveStmt(cx, st, s).value;
            SameResult(d.st.stack, N.Exec(p, d.node, fs, fuel), C.Exec(p, d.node, env, fuel))
    decreases fuel.calls, fuel.loops, 1, s, 0
  {
    hide AllAnalyzed, Good, Match, Below, Grown, Flags, WithFlags, Intersect, ResolveCondition, ResolveStmt,
         AfterBranch, AlwaysReturns, SameShape, N.Eval, C.Eval, SameResult;
    var c: C.Expr, a: Done<C.Stmt>;
    c, a := IfParts(cx, st, s);
    var d := ResolveStmt(cx, st, s).value;
    SimCondition(p, cx, st, s.cond, fs, env, fuel);
    var r, q := N.Eval(p, c, fs, fuel), C.Eval(p, c, env, fuel);
    ResolveKeeps(cx, st, s.thn);
    PutBack(st.stack, a.st.stack);
    var st1 := State(st.stack, a.st.nextId);
    GoodMore(st, st1);
    BelowSelf(st.stack);
    if s.els.Some? {
      ResolveKeeps(cx, st1, s.els.value);
    }
    var e := if s.els.None? then st.stack else ResolveStmt(cx, st1, s.els.value).value.st.stack;
    var b := if s.els.None? then false else AlwaysReturns(ResolveStmt(cx, st1, s.els.value).value.node);
    IntersectBelow(st.stack, a.st.stack, e, AlwaysReturns(a.node), b);
    if !r.Value? {
      PassOn(d.st.stack, r, q);
    } else if r.v != 0 {
      SimStmt(p, cx, st, s.thn, r.fs, q.env, fuel);
      BranchResult(p, d.st.stack, a.st.stack, a.node, r.fs, q.env, fuel);
    } else if s.els.Some? {
      SimStmt(p, cx, st1, s.els.value, r.fs, q.env, fuel);
      BranchResult(p, d.st.stack, e, ResolveStmt(cx, st1, s.els.value).value.node, r.fs, q.env, fuel);
    } else {
      NextResult(st.stack, r.fs, q.env);
      SameResultBelow(d.st.stack, st.stack, N.Next(r.fs), C.Next(q.env));
    }
  }

  lemma NextResult(stack: Stack, fs: N.Frames, env: C.Env)
    requires Match(stack, fs, env)
    ensures SameResult(stack, N.Next(fs), C.Next(env))
  {}

  lemma PassOn(stack: Stack, r: N.ExprResult, q: C.ExprResult)
    requires SameValue(stack, r, q) || (!r.Value? && exists other :: SameValue(other, r, q))
    requires !r.Value?
    ensures SameResult(stack, if r.ExprFault? then N.Fault(r.reason) else N.Timeout,
                              if q.ExprFault? then C.Fault(q.reason) else C.Timeout)
    ensures q.ExprFault? <==> r.ExprFault?
    ensures !q.Value?
  {}

  /** After a branch only what both branches initialize counts, except that a branch that always
    * returns never gets there. */
  lemma BranchResult(p: C.Program, stack: Stack, branch: Stack, node: C.Stmt, fs: N.Frames, env: C.Env, fuel: C.Fuel)
    requires SameResult(branch, N.Exec(p, node, fs, fuel), C.Exec(p, node, env, fuel))
    requires !AlwaysReturns(node) ==> Below(stack, branch)
    ensures SameResult(stack, N.Exec(p, node, fs, fuel), C.Exec(p, node, env, fuel))
  {
    hide Below, Match, N.Exec, C.Exec, AlwaysReturns;
    if AlwaysReturns(node) {
      NeverCompletes(p, node, env, fuel);
    }
    SameResultBelow(stack, branch, N.Exec(p, node, fs, fuel), C.Exec(p, node, env, fuel));
  }

  lemma {:induction false} SimWhile(
    p: C.Program, cx: Context, st: State, s: S.Stmt, fs: N.Frames, env: C.Env, fuel: C.Fuel)
    requires s.While? && AllAnalyzed(p) && Good(st) && S.Built(s) && ResolveStmt(cx, st, s).Some? &&
             Match(st.stack, fs, env)
    ensures var d := ResolveStmt(cx, st, s).value;
            SameResult(d.st.stack, N.Exec(p, d.node, fs, fuel), C.Exec(p, d.node, env, fuel))
    decreases fuel.calls, fuel.loops, 1, s, 0
  {
    hide AllAnalyzed, Good, Match, Below, Grown, Flags, WithFlags, ResolveCondition, N.Eval, C.Eval;
    if fuel.loops > 0 {
      var c, b := ResolveCondition(cx, st, s.cond).value, ResolveStmt(cx, st, s.body).value;
      SimCondition(p, cx, st, s.cond, fs, env, fuel);
      ResolveKeeps(cx, st, s.body);
      PutBack(st.stack, b.st.stack);
      var r, q := N.Eval(p, c, fs, fuel), C.Eval(p, c, env, fuel);
      if r.Value? && r.v != 0 {
        SimStmt(p, cx, st, s.body, r.fs, q.env, fuel);
        var r2, q2 := N.Exec(p, b.node, r.fs, fuel), C.Exec(p, b.node, q.env, fuel);
        if r2.Next? {
          MatchBelow(st.stack, b.st.stack, r2.fs, q2.env);
          SimWhile(p, cx, st, s, r2.fs, q2.env, fuel.(loops := fuel.loops - 1));
        }
      }
    }
  }

  // ---------------------------------------------------------------- calls

  lemma {:induction false} ParamsMatch(st: State, params: seq<S.Param>, frame: N.Frame, env: C.Env, vs: seq<int>)
    requires Good(st) && |st.stack| == 2 && st.stack[0] == [] && DeclareParams(st, params).Some? && |vs| == |params|
    requires Match(st.stack, [map[], frame], env)
    ensures var d := DeclareParams(st, params).value;
            Good(d.st) && |d.st.stack| == 2 && d.st.stack[0] == [] &&
            |d.node| == |params| && Match(d.st.stack, [map[], frame + N.Bind(d.node, vs)], env + C.Bind(d.node, vs))
    decreases |params|
  {
    hide Match, C.Key, Good, Insert, N.Bind, C.Bind;
    if |params| == 0 {
      NoParams();
      assert frame + map[] == frame && env + map[] == env;
    } else {
      var q := params[0];
      var st1, frame1, env1 := OneParamMatch(st, q, frame, env, vs[0]);
      ParamsMatch(st1, params[1..], frame1, env1, vs[1..]);
      var d1 := DeclareParams(st1, params[1..]).value;
      BindFirst(C.Param(q.name, st.nextId, q.t), d1.node, vs);
      FirstAdded(frame, q.name, Some(vs[0]), N.Bind(d1.node, vs[1..]));
      FirstAdded(env, C.Key(q.name, st.nextId), vs[0], C.Bind(d1.node, vs[1..]));
    }
  }

  lemma NoParams()
    ensures N.Bind([], []) == map[] && C.Bind([], []) == map[]
  {}

  lemma FirstAdded<K, V>(m: map<K, V>, k: K, v: V, rest: map<K, V>)
    ensures m + (map[k := v] + rest) == m[k := v] + rest
  {}

  lemma OneParamMatch(st: State, q: S.Param, frame: N.Frame, env: C.Env, v: int)
    returns (st1: State, frame1: N.Frame, env1: C.Env)
    requires Good(st) && |st.stack| == 2 && st.stack[0] == [] && Match(st.stack, [map[], frame], env)
    requires Insert(st.stack, Symbol(q.name, q.t, q.quals.isMutable, 0, 0, true), st.nextId).Some?
    ensures st1 == State(Insert(st.stack, Symbol(q.name, q.t, q.quals.isMutable, 0, 0, true), st.nextId).value,
                         st.nextId + 1)
    ensures Good(st1) && |st1.stack| == 2 && st1.stack[0] == [] && Match(st1.stack, [map[], frame1], env1)
    ensures frame1 == frame[q.name := Some(v)] && env1 == env[C.Key(q.name, st.nextId) := v]
  {
    hide Match, C.Key, Good, Insert;
    var symbol := Symbol(q.name, q.t, q.quals.isMutable, 0, 0, true);
    GoodInsert(st, symbol);
    DeclareMatch(st, [map[], frame], env, symbol, Some(v));
    InsertedStack(st.stack, symbol, st.nextId);
    st1 := State(Insert(st.stack, symbol, st.nextId).value, st.nextId + 1);
    frame1, env1 := frame[q.name := Some(v)], env[C.Key(q.name, st.nextId) := v];
    assert N.Declare([map[], frame], q.name, Some(v)) == [map[], frame1];
  }

  lemma InsertedStack(stack: Stack, symbol: Symbol, id: nat)
    requires |stack| == 2 && stack[0] == [] && Insert(stack, symbol, id).Some?
    ensures var r := Insert(stack, symbol, id).value; |r| == 2 && r[0] == []
  {}

  lemma NestedUnrolled(ps: seq<C.Param>, vs: seq<int>, n: nat)
    requires |ps| == |vs| == n + 1
    ensures N.Bind(ps, vs) == N.Bind(ps[..n], vs[..n])[ps[n].name := Some(vs[n])]
  {}

  lemma FlatUnrolled(ps: seq<C.Param>, vs: seq<int>, n: nat)
    requires |ps| == |vs| == n + 1
    ensures C.Bind(ps, vs) == C.Bind(ps[..n], vs[..n])[C.Key(ps[n].name, ps[n].id) := vs[n]]
  {
    hide C.Key;
  }

  /** Binding the first parameter before the others or after is the same. */
  lemma {:induction false} BindFirst(first: C.Param, rest: seq<C.Param>, vs: seq<int>)
    requires |vs| == |rest| + 1
    ensures N.Bind([first] + rest, vs) == map[first.name := Some(vs[0])] + N.Bind(rest, vs[1..])
    ensures C.Bind([first] + rest, vs) == map[C.Key(first.name, first.id) := vs[0]] + C.Bind(rest, vs[1..])
    decreases |rest|
  {
    hide C.Key, N.Bind, C.Bind;
    NoParams();
    var n := |rest|;
    NestedUnrolled([first] + rest, vs, n);
    FlatUnrolled([first] + rest, vs, n);
    if n == 0 {
      assert ([first] + rest)[..0] == [] && vs[..0] == [] && rest == [] && vs[1..] == [];
    } else {
      assert ([first] + rest)[..n] == [first] + rest[..n - 1];
      assert vs[1..][..n - 1] == vs[..n][1..];
      NestedUnrolled(rest, vs[1..], n - 1);
      FlatUnrolled(rest, vs[1..], n - 1);
      BindFirst(first, rest[..n - 1], vs[..n]);
    }
  }

  /** A call of an analysed function has one outcome, and it is never an unassigned read. */
  lemma {:induction false} SimInvoke(p: C.Program, f: string, vs: seq<int>, fuel: C.Fuel)
    requires AllAnalyzed(p)
    ensures SameOutcome(N.Invoke(p, f, vs, fuel), C.Invoke(p, f, vs, fuel))
    decreases fuel.calls, fuel.loops
  {
    hide Match, C.Key, Good, N.Exec, C.Exec, AlwaysReturns, S.Built, N.Bind, C.Bind;
    var found := C.Lookup(p, f);
    if found.Some? && |vs| == |found.value.params| {
      var fn := found.value;
      assert Analyzed(fn) by {
        var i :| 0 <= i < |p| && p[i] == fn;
      }
      var cx: Context, st: State, params: seq<S.Param>, body: S.Stmt :|
        Good(st) && S.Built(body) && body.Block? && BodyOf(cx, st, params, body, fn);
      var st0 := st.(stack := st.stack + [[]]);
      GoodPush(st);
      StartMatch(st0.stack);
      ParamsLength(st0, params);
      ParamsMatch(st0, params, map[], map[], vs);
      var d := DeclareParams(st0, params).value;
      assert map[] + N.Bind(fn.params, vs) == N.Bind(fn.params, vs);
      assert map[] + C.Bind(fn.params, vs) == C.Bind(fn.params, vs);
      SimStmt(p, cx, d.st, body, [map[], N.Bind(fn.params, vs)], C.Bind(fn.params, vs), fuel);
      if AlwaysReturns(fn.body.value) {
        NeverCompletes(p, fn.body.value, C.Bind(fn.params, vs), fuel);
      }
    }
  }

  lemma StartMatch(stack: Stack)
    requires stack == [[], []]
    ensures Match(stack, [map[], map[]], map[])
  {}

  lemma {:induction false} ParamsLength(st: State, params: seq<S.Param>)
    requires DeclareParams(st, params).Some?
    ensures |DeclareParams(st, params).value.node| == |params|
    decreases |params|
  {
    hide Insert;
    if |params| > 0 {
      var symbol := Symbol(params[0].name, params[0].t, params[0].quals.isMutable, 0, 0, true);
      ParamsLength(State(Insert(st.stack, symbol, st.nextId).value, st.nextId + 1), params[1..]);
    }
  }

  // ---------------------------------------------------------------- programs

  ghost predicate FunctionSyntax(fs: seq<S.Stmt>) {
    forall i :: 0 <= i < |fs| ==> fs[i].FuncDecl? && S.Built(fs[i])
  }

  lemma GoodStart(n: nat)
    ensures Good(State([[]], n))
  {}

  /** Between functions only the outermost, empty scope is open. */
  lemma {:induction false} DeclareShape(st: State, params: seq<S.Param>)
    requires Good(st) && |st.stack| == 2 && st.stack[0] == [] && DeclareParams(st, params).Some?
    ensures var d := DeclareParams(st, params).value;
            Good(d.st) && |d.st.stack| == 2 && d.st.stack[0] == [] && d.st.nextId >= st.nextId
    decreases |params|
  {
    hide Good, Insert;
    if |params| > 0 {
      var symbol := Symbol(params[0].name, params[0].t, params[0].quals.isMutable, 0, 0, true);
      GoodInsert(st, symbol);
      InsertedStack(st.stack, symbol, st.nextId);
      DeclareShape(State(Insert(st.stack, symbol, st.nextId).value, st.nextId + 1), params[1..]);
    }
  }

  lemma FunctionAnalyzed(prefix: Option<string>, funcs: Funcs, st: State, f: S.Stmt)
    requires f.FuncDecl? && S.Built(f) && st.stack == [[]] && ResolveFunction(prefix, funcs, st, f).Some?
    ensures var d := ResolveFunction(prefix, funcs, st, f).value; Analyzed(d.node) && d.st.stack == [[]]
  {
    hide Good, Grown, DeclareParams, ResolveStmt, InsertFunc, AlwaysReturns, Mangling.MangleFunction;
    var d := ResolveFunction(prefix, funcs, st, f).value;
    GoodStart(st.nextId);
    if f.definition.Some? {
      var inner := st.(stack := st.stack + [[]]);
      GoodPush(st);
      DeclareShape(inner, f.params);
      var ps := DeclareParams(inner, f.params).value;
      var cx := Context(ResolvedTable(prefix, funcs, f), ParamNames(f.params), f.ret);
      var body := f.definition.value;
      ResolveKeeps(cx, ps.st, body);
      var b := ResolveStmt(cx, ps.st, body).value;
      GrownOuter(ps.st.stack, b.st.stack);
      assert BodyOf(cx, st, f.params, body, d.node);
    }
  }

  /** The function table inside the body of `f`. */
  function ResolvedTable(prefix: Option<string>, funcs: Funcs, f: S.Stmt): Funcs
    requires f.FuncDecl?
  {
    var symbol := FuncSymbol(f.name, Mangling.MangleFunction(prefix, f.name, f.quals.isExtern), f.ret,
                             ParamTypes(f.params), f.definition.Some?);
    match InsertFunc(funcs, symbol, f.quals.isExtern)
    case Some(table) => table
    case None => funcs
  }

  lemma GrownOuter(a: Stack, b: Stack)
    requires Grown(a, b) && |a| == 2 && a[0] == []
    ensures PopStack(b) == [[]]
  {
    hide TableBelow;
  }

  lemma {:induction false} ProgramAnalyzed(prefix: Option<string>, funcs: Funcs, st: State, fs: seq<S.Stmt>)
    requires FunctionSyntax(fs) && st.stack == [[]] && ResolveProgram(prefix, funcs, st, fs).Some?
    ensures AllAnalyzed(ResolveProgram(prefix, funcs, st, fs).value)
    decreases |fs|
  {
    hide Analyzed, ResolveFunction, S.Built;
    if |fs| > 0 {
      FunctionAnalyzed(prefix, funcs, st, fs[0]);
      var d := ResolveFunction(prefix, funcs, st, fs[0]).value;
      assert forall i :: 0 <= i < |fs[1..]| ==> fs[1..][i] == fs[i + 1];
      ProgramAnalyzed(prefix, d.funcs, d.st, fs[1..]);
    }
  }

  /** Definite assignment and renaming, for whole programs. In a program the analyser accepts, a
    * call of any function on any values, for any number of steps, reads no variable that has no
    * value and falls off the end of no function that returns one; and running on nested scopes or on
    * one flat environment of `name@id` variables comes to the same. */
  lemma AcceptedRunsAgree(prefix: Option<string>, imported: Funcs, fs: seq<S.Stmt>, f: string, vs: seq<int>,
      fuel: C.Fuel)
    requires FunctionSyntax(fs) && Analyze(prefix, imported, fs).Some?
    ensures var p := Analyze(prefix, imported, fs).value;
            SameOutcome(N.Invoke(p, f, vs, fuel), C.Invoke(p, f, vs, fuel))
  {
    hide AllAnalyzed, SameOutcome;
    ProgramAnalyzed(prefix, imported, State([[]], 0), fs);
    SimInvoke(Analyze(prefix, imported, fs).value, f, vs, fuel);
  }
}
