/** What acceptance by the analyser means for the back end. Every accepted tree has the types the
  * back end needs except for widths: it meets the back end's typing exactly when each arithmetic
  * operator has operands of one type, shifts have integer operands, and computed values that are
  * stored or returned have exactly the type of their target. */
module Widths {
  import opened Values
  import opened Arith
  import opened Names
  import opened Scopes
  import opened Constants
  import opened Analysis
  import opened Typing
  import opened Endings
  import opened Resolution
  import opened Assignment
  import C = Checked
  import S = Syntax

  // ---------------------------------------------------------------- what the analyser checks

  /** The types of an accepted expression. */
  predicate Checks(p: C.Program, g: Types, e: C.Expr) {
    match e
    case Literal(t, n) => LiteralFits(t, n)
    case Ident(t, name, id) => VarHasType(g, name, id, t)
    case Binary(t, op, l, r) =>
      Checks(p, g, l) && Checks(p, g, r) &&
      (if IsLogical(op) then l.t.Bool? && r.t.Bool? && t.Bool?
       else if IsShift(op) then t == l.t
       else if IsRelational(op) then SameGroup(l.t, r.t) && WidthBits(l.t) == WidthBits(r.t) && t.Bool?
       else SameGroup(l.t, r.t) && IsInteger(l.t) && t == Promote(l.t, r.t))
    case Unary(t, op, a) => Checks(p, g, a) && UnaryType(op, t) && a.t == t
    case Increment(t, _, _, name, id) => IsInteger(t) && VarHasType(g, name, id, t)
    case Cast(t, a) => Checks(p, g, a) && Castable(a.t, t) && PlainLiteral(a)
    case Call(t, f, args) =>
      C.Lookup(p, f).Some? && t == C.Lookup(p, f).value.ret && |args| == |C.Lookup(p, f).value.params| &&
      forall i :: 0 <= i < |args| ==>
        Checks(p, g, args[i]) && IsScalar(args[i].t) && args[i].t == C.Lookup(p, f).value.params[i].t
  }

  /** Equal widths where the back end needs them. */
  predicate Exact(e: C.Expr) {
    match e
    case Binary(_, op, l, r) =>
      Exact(l) && Exact(r) &&
      (if IsLogical(op) || IsRelational(op) then true
       else if IsShift(op) then IsInteger(l.t) && IsInteger(r.t)
       else l.t == r.t)
    case Unary(_, _, a) => Exact(a)
    case Cast(t, a) => Exact(a) && IsScalar(t)
    case Call(_, _, args) => forall i :: 0 <= i < |args| ==> Exact(args[i])
    case _ => true
  }

  lemma SameGroupScalar(a: ValueType, b: ValueType)
    requires SameGroup(a, b)
    ensures IsScalar(a) && IsScalar(b)
    ensures WidthBits(a) == WidthBits(b) ==> a == b
  {}

  /** An accepted expression is well typed for the back end exactly when its widths are exact. */
  lemma {:induction false} CheckedExpr(p: C.Program, g: Types, e: C.Expr)
    requires Checks(p, g, e)
    ensures WfExpr(p, g, e) <==> Exact(e)
    decreases e
  {
    hide LiteralFits, VarHasType, PlainLiteral;
    match e
    case Literal(_, _) =>
    case Ident(_, _, _) =>
    case Binary(t, op, l, r) =>
      CheckedExpr(p, g, l);
      CheckedExpr(p, g, r);
      if !IsLogical(op) && !IsShift(op) {
        SameGroupScalar(l.t, r.t);
      }
    case Unary(_, _, a) => CheckedExpr(p, g, a);
    case Increment(_, _, _, _, _) =>
    case Cast(t, a) =>
      CheckedExpr(p, g, a);
      if IsScalar(t) {
        CastScalar(a.t, t);
      }
    case Call(_, _, args) =>
      forall i | 0 <= i < |args| ensures WfExpr(p, g, args[i]) <==> Exact(args[i]) {
        CheckedExpr(p, g, args[i]);
      }
  }

  lemma CastScalar(from: ValueType, t: ValueType)
    requires Castable(from, t) && IsScalar(t)
    ensures IsScalar(from)
  {}

  /** What the analyser knows stays true as more variables are declared. */
  ghost predicate Extends(g: Types, g': Types) {
    forall x :: x in g ==> x in g' && g'[x] == g[x]
  }

  lemma {:induction false} ChecksMore(p: C.Program, g: Types, g': Types, e: C.Expr)
    requires Checks(p, g, e) && Extends(g, g')
    ensures Checks(p, g', e)
    decreases e
  {
    hide LiteralFits, PlainLiteral, SameGroup, IsInteger, Promote, Castable, UnaryType;
    match e
    case Binary(_, _, l, r) =>
      ChecksMore(p, g, g', l);
      ChecksMore(p, g, g', r);
    case Unary(_, _, a) => ChecksMore(p, g, g', a);
    case Cast(_, a) => ChecksMore(p, g, g', a);
    case Call(_, _, args) =>
      forall i | 0 <= i < |args| ensures Checks(p, g', args[i]) {
        ChecksMore(p, g, g', args[i]);
      }
    case _ =>
  }

  // ---------------------------------------------------------------- resolved expressions check

  ghost predicate SymbolTyped(g: Types, s: Symbol) {
    VarHasType(g, s.name, s.id, s.t)
  }

  /** Every declared variable has a type. */
  ghost predicate StackTyped(g: Types, stack: Stack) {
    forall i, j :: 0 <= i < |stack| && 0 <= j < |stack[i]| ==> SymbolTyped(g, stack[i][j])
  }

  ghost predicate Provided(p: C.Program, f: FuncSymbol) {
    (f.ret.Void? || IsScalar(f.ret)) &&
    C.Lookup(p, f.linkName).Some? && C.Lookup(p, f.linkName).value.ret == f.ret &&
    |C.Lookup(p, f.linkName).value.params| == |f.params| &&
    forall i :: 0 <= i < |f.params| ==> C.Lookup(p, f.linkName).value.params[i].t == f.params[i]
  }

  /** Every function that may be called is defined, with the signature it was declared with. */
  ghost predicate Provides(p: C.Program, funcs: Funcs) {
    forall i :: 0 <= i < |funcs| ==> Provided(p, funcs[i])
  }

  lemma LookupTyped(g: Types, stack: Stack, name: string)
    requires StackTyped(g, stack) && Lookup(stack, name).Some?
    ensures SymbolTyped(g, Lookup(stack, name).value)
  {}

  /** The types of what the analyser builds. */
  ghost predicate GoodExpr(p: C.Program, g: Types, c: C.Expr) {
    Checks(p, g, c) && (IsScalar(c.t) || c.t.Void?) && PlainLiteral(c)
  }

  lemma LiteralInRange(t: ValueType, n: nat)
    requires IsInteger(t)
    ensures UintLiteralFits(t, n) ==> LiteralFits(t, n) && InRange(t, n)
    ensures NegatedLiteralFits(t, n) ==> LiteralFits(t, n)
  {}

  lemma NumberChecks(p: C.Program, g: Types, n: nat, expected: ValueType)
    ensures ResolveNumber(n, expected).Some? ==> GoodExpr(p, g, ResolveNumber(n, expected).value)
    ensures ResolveNegatedNumber(n, expected).Some? ==> GoodExpr(p, g, ResolveNegatedNumber(n, expected).value)
  {
    hide LiteralFits, InRange, UintLiteralFits, NegatedLiteralFits;
    LiteralInRange(if IsInteger(expected) then expected else I64, n);
    var t := if IsSigned(expected) then expected else I64;
    LiteralInRange(t, n);
    if ResolveNegatedNumber(n, expected).Some? {
      assert Checks(p, g, C.Literal(t, n));
    }
  }

  lemma FinishChecks(p: C.Program, g: Types, op: BinaryOp, l: C.Expr, r: C.Expr)
    requires GoodExpr(p, g, l) && GoodExpr(p, g, r) && FinishBinary(op, l, r).Some?
    ensures GoodExpr(p, g, FinishBinary(op, l, r).value)
  {
    hide EvalInt, EvalUint, NoOverflow, IsConstantZero, InRange, VarHasType;
    FinishTypes(op, l, r);
  }

  lemma FinishTypes(op: BinaryOp, l: C.Expr, r: C.Expr)
    requires FinishBinary(op, l, r).Some?
    ensures var t := FinishBinary(op, l, r).value.t;
            FinishBinary(op, l, r).value == C.Binary(t, op, l, r) &&
            (if IsLogical(op) then l.t.Bool? && r.t.Bool? && t.Bool?
             else if IsShift(op) then t == l.t
             else if IsRelational(op) then SameGroup(l.t, r.t) && WidthBits(l.t) == WidthBits(r.t) && t.Bool?
             else SameGroup(l.t, r.t) && IsInteger(l.t) && t == Promote(l.t, r.t))
  {
    hide EvalInt, EvalUint, NoOverflow, IsConstantZero, SameGroup, IsInteger, Promote, WidthBits, IsSigned;
  }

  lemma {:induction false} ResolvedChecks(p: C.Program, g: Types, funcs: Funcs, stack: Stack, e: S.Expr,
      expected: ValueType)
    requires Provides(p, funcs) && StackTyped(g, stack) && ResolveExpr(funcs, stack, e, expected).Some?
    ensures GoodExpr(p, g, ResolveExpr(funcs, stack, e, expected).value)
    decreases e
  {
    hide FinishBinary, Provides, StackTyped, Lookup, ResolveNumber, ResolveNegatedNumber, FindFunc, Checks,
         ResolveIdentifier, GoodExpr;
    match e
    case Number(n) => NumberChecks(p, g, n, expected);
    case Boolean(b) => BooleanChecks(p, g, b);
    case Identifier(name) => IdentifierChecks(p, g, stack, name);
    case Binary(op, left, right) =>
      var want := OperandExpected(op, expected);
      if IsRelational(op) && IsLiteral(left) && !IsLiteral(right) {
        ResolvedChecks(p, g, funcs, stack, right, want);
        var r := ResolveExpr(funcs, stack, right, want).value;
        var wantLeft := if r.t != Unresolved then r.t else want;
        ResolvedChecks(p, g, funcs, stack, left, wantLeft);
        FinishChecks(p, g, op, ResolveExpr(funcs, stack, left, wantLeft).value, r);
      } else {
        ResolvedChecks(p, g, funcs, stack, left, want);
        var l := ResolveExpr(funcs, stack, left, want).value;
        var wantRight := if !IsShift(op) && l.t != Unresolved then l.t else want;
        ResolvedChecks(p, g, funcs, stack, right, wantRight);
        FinishChecks(p, g, op, l, ResolveExpr(funcs, stack, right, wantRight).value);
      }
    case Unary(Minus, a) =>
      if a.Number? {
        NumberChecks(p, g, a.value, expected);
      } else {
        ResolvedChecks(p, g, funcs, stack, a, if IsSigned(expected) then expected else I64);
        UnaryChecks(p, g, Negate, ResolveExpr(funcs, stack, a, if IsSigned(expected) then expected else I64).value);
      }
    case Unary(Tilde, a) =>
      ResolvedChecks(p, g, funcs, stack, a, expected);
      UnaryChecks(p, g, BitNot, ResolveExpr(funcs, stack, a, expected).value);
    case Unary(Bang, a) =>
      ResolvedChecks(p, g, funcs, stack, a, Bool);
      UnaryChecks(p, g, LogNot, ResolveExpr(funcs, stack, a, Bool).value);
    case Unary(kind, a) => IncrementChecks(p, g, stack, kind, a);
    case Cast(a, target) =>
      ResolvedChecks(p, g, funcs, stack, a, Unresolved);
      CastChecks(p, g, target, ResolveExpr(funcs, stack, a, Unresolved).value);
    case Call(callee, args) =>
      var f := funcs[FindFunc(funcs, callee).value];
      ResolvedArgsCheck(p, g, funcs, stack, args, f.params);
      CallChecks(p, g, funcs, FindFunc(funcs, callee).value, ResolveArgs(funcs, stack, args, f.params).value);
  }

  lemma BooleanChecks(p: C.Program, g: Types, b: bool)
    ensures GoodExpr(p, g, C.Literal(Bool, Flag(b)))
  {}

  lemma IdentifierChecks(p: C.Program, g: Types, stack: Stack, name: string)
    requires StackTyped(g, stack) && ResolveIdentifier(stack, name).Some?
    ensures GoodExpr(p, g, ResolveIdentifier(stack, name).value)
  {
    hide C.Key;
    LookupTyped(g, stack, name);
  }

  lemma IncrementChecks(p: C.Program, g: Types, stack: Stack, kind: S.UnaryKind, a: S.Expr)
    requires StackTyped(g, stack) && ResolveIncrement(stack, kind, a).Some?
    ensures GoodExpr(p, g, ResolveIncrement(stack, kind, a).value)
  {
    hide C.Key;
    LookupTyped(g, stack, a.name);
  }

  lemma UnaryChecks(p: C.Program, g: Types, op: UnaryOp, c: C.Expr)
    requires GoodExpr(p, g, c) && UnaryType(op, c.t)
    ensures GoodExpr(p, g, C.Unary(c.t, op, c))
  {
    hide VarHasType, LiteralFits;
  }

  lemma CastChecks(p: C.Program, g: Types, target: ValueType, c: C.Expr)
    requires GoodExpr(p, g, c) && Castable(c.t, target)
    ensures GoodExpr(p, g, C.Cast(target, c))
  {
    hide VarHasType, LiteralFits, InRange;
  }

  lemma CallChecks(p: C.Program, g: Types, funcs: Funcs, i: nat, args: seq<C.Expr>)
    requires Provides(p, funcs) && i < |funcs| && |args| == |funcs[i].params|
    requires forall j :: 0 <= j < |args| ==>
               Checks(p, g, args[j]) && IsScalar(args[j].t) && args[j].t == funcs[i].params[j]
    ensures GoodExpr(p, g, C.Call(funcs[i].ret, funcs[i].linkName, args))
  {
    hide VarHasType, LiteralFits, C.Lookup;
    assert Provided(p, funcs[i]);
  }

  lemma {:induction false} ResolvedArgsCheck(p: C.Program, g: Types, funcs: Funcs, stack: Stack, args: seq<S.Expr>,
      params: seq<ValueType>)
    requires Provides(p, funcs) && StackTyped(g, stack) && |args| == |params| &&
             ResolveArgs(funcs, stack, args, params).Some?
    ensures var cs := ResolveArgs(funcs, stack, args, params).value;
            forall i :: 0 <= i < |cs| ==> Checks(p, g, cs[i]) && IsScalar(cs[i].t) && cs[i].t == params[i]
    decreases args
  {
    hide Provides, StackTyped, Checks, ResolveExpr, PlainLiteral;
    if |args| > 0 {
      ResolvedChecks(p, g, funcs, stack, args[0], params[0]);
      ResolvedArgsCheck(p, g, funcs, stack, args[1..], params[1..]);
      var c := ResolveExpr(funcs, stack, args[0], params[0]).value;
      ArgumentCast(p, g, c, params[0]);
    }
  }

  /** The cast put around a narrower argument. */
  lemma ArgumentCast(p: C.Program, g: Types, c: C.Expr, t: ValueType)
    requires GoodExpr(p, g, c) && Converts(c.t, t)
    ensures var a := if c.t == t then c else C.Cast(t, c); Checks(p, g, a) && IsScalar(a.t) && a.t == t
  {
    hide VarHasType, LiteralFits, PlainLiteral;
    SameGroupScalar(c.t, t);
    SameGroupCastable(c.t, t);
  }

  // ---------------------------------------------------------------- statements

  predicate ChecksStmt(p: C.Program, g: Types, ret: ValueType, s: C.Stmt) {
    match s
    case Decl(t, name, id, init) => VarHasType(g, name, id, t) && (init.Some? ==> ChecksValue(p, g, t, init.value))
    case Assign(t, name, id, e) => VarHasType(g, name, id, t) && ChecksValue(p, g, t, e)
    case Block(stmts) => forall i :: 0 <= i < |stmts| ==> ChecksStmt(p, g, ret, stmts[i])
    case If(c, thn, els) =>
      Checks(p, g, c) && c.t.Bool? && ChecksStmt(p, g, ret, thn) && (els.Some? ==> ChecksStmt(p, g, ret, els.value))
    case While(c, body) => Checks(p, g, c) && c.t.Bool? && ChecksStmt(p, g, ret, body)
    case Return(None) => ret.Void?
    case Return(Some(e)) => ChecksValue(p, g, ret, e)
    case ExprStmt(e) => Checks(p, g, e)
  }

  predicate ChecksValue(p: C.Program, g: Types, t: ValueType, e: C.Expr) {
    Checks(p, g, e) && Converts(e.t, t) && PlainLiteral(e)
  }

  /** A computed value has exactly the type it is stored at; a variable, an increment or a literal may widen. */
  predicate ExactValue(t: ValueType, e: C.Expr) {
    Exact(e) && (e.t == t || e.Ident? || e.Increment? || e.Literal?)
  }

  predicate ExactStmt(ret: ValueType, s: C.Stmt) {
    match s
    case Decl(t, _, _, init) => init.Some? ==> ExactValue(t, init.value)
    case Assign(t, _, _, e) => ExactValue(t, e)
    case Block(stmts) => forall i :: 0 <= i < |stmts| ==> ExactStmt(ret, stmts[i])
    case If(c, thn, els) => Exact(c) && ExactStmt(ret, thn) && (els.Some? ==> ExactStmt(ret, els.value))
    case While(c, body) => Exact(c) && ExactStmt(ret, body)
    case Return(e) => e.Some? ==> Exact(e.value) && e.value.t == ret
    case ExprStmt(e) => Exact(e)
  }

  lemma CheckedValue(p: C.Program, g: Types, t: ValueType, e: C.Expr)
    requires ChecksValue(p, g, t, e)
    ensures WfExpr(p, g, e) && Assignable(t, e) <==> ExactValue(t, e)
    ensures WfExpr(p, g, e) <==> Exact(e)
    ensures IsScalar(t)
  {
    hide Checks, WfExpr, Exact, PlainLiteral;
    CheckedExpr(p, g, e);
    SameGroupScalar(e.t, t);
  }

  lemma {:induction false} CheckedStmt(p: C.Program, g: Types, ret: ValueType, s: C.Stmt)
    requires ChecksStmt(p, g, ret, s)
    ensures WfStmt(p, g, ret, s) <==> ExactStmt(ret, s)
    decreases s
  {
    hide Checks, WfExpr, Exact, ChecksValue, ExactValue, Assignable, VarHasType;
    match s
    case Decl(t, _, _, init) =>
      if init.Some? {
        CheckedValue(p, g, t, init.value);
      }
    case Assign(t, _, _, e) => CheckedValue(p, g, t, e);
    case Block(stmts) =>
      forall i | 0 <= i < |stmts| ensures WfStmt(p, g, ret, stmts[i]) <==> ExactStmt(ret, stmts[i]) {
        CheckedStmt(p, g, ret, stmts[i]);
      }
    case If(c, thn, els) =>
      CheckedExpr(p, g, c);
      CheckedStmt(p, g, ret, thn);
      if els.Some? {
        CheckedStmt(p, g, ret, els.value);
      }
    case While(c, body) =>
      CheckedExpr(p, g, c);
      CheckedStmt(p, g, ret, body);
    case Return(e) =>
      if e.Some? {
        CheckedValue(p, g, ret, e.value);
      }
    case ExprStmt(e) => CheckedExpr(p, g, e);
  }

  lemma {:induction false} ChecksStmtMore(p: C.Program, g: Types, g': Types, ret: ValueType, s: C.Stmt)
    requires ChecksStmt(p, g, ret, s) && Extends(g, g')
    ensures ChecksStmt(p, g', ret, s)
    decreases s
  {
    hide Checks, Converts, PlainLiteral, Extends;
    match s
    case Decl(t, name, id, init) =>
      VarTypeMore(g, g', name, id, t);
      if init.Some? {
        ChecksMore(p, g, g', init.value);
      }
    case Assign(t, name, id, e) =>
      VarTypeMore(g, g', name, id, t);
      ChecksMore(p, g, g', e);
    case Block(stmts) =>
      forall i | 0 <= i < |stmts| ensures ChecksStmt(p, g', ret, stmts[i]) {
        ChecksStmtMore(p, g, g', ret, stmts[i]);
      }
    case If(c, thn, els) =>
      ChecksMore(p, g, g', c);
      ChecksStmtMore(p, g, g', ret, thn);
      if els.Some? {
        ChecksStmtMore(p, g, g', ret, els.value);
      }
    case While(c, body) =>
      ChecksMore(p, g, g', c);
      ChecksStmtMore(p, g, g', ret, body);
    case Return(e) =>
      if e.Some? {
        ChecksMore(p, g, g', e.value);
      }
    case ExprStmt(e) => ChecksMore(p, g, g', e);
  }

  lemma VarTypeMore(g: Types, g': Types, name: string, id: nat, t: ValueType)
    requires VarHasType(g, name, id, t) && Extends(g, g')
    ensures VarHasType(g', name, id, t)
  {
    hide C.Key;
  }

  // ---------------------------------------------------------------- resolved statements check

  /** No id from `n` on has been used. */
  ghost predicate FreshFrom(g: Types, n: nat) {
    forall name, id: nat :: id >= n ==> C.Key(name, id) !in g
  }

  /** The typing fits the analyser's state. */
  ghost predicate Fits(g: Types, st: State) {
    StackTyped(g, st.stack) && FreshFrom(g, st.nextId)
  }

  lemma FitsMore(g: Types, g': Types, stack: Stack, stack': Stack)
    requires StackTyped(g, stack) && Extends(g, g') && SameShape(stack, stack')
    ensures StackTyped(g', stack')
  {
    hide C.Key;
    forall i, j | 0 <= i < |stack'| && 0 <= j < |stack'[i]| ensures SymbolTyped(g', stack'[i][j]) {
      assert SameTable(stack[i], stack'[i]);
      assert SymbolTyped(g, stack[i][j]);
    }
  }

  lemma ExtendsJoin(a: Types, b: Types, c: Types)
    requires Extends(a, b) && Extends(b, c)
    ensures Extends(a, c)
  {}

  /** A declaration adds one variable. */
  lemma DeclareFits(g: Types, st: State, symbol: Symbol) returns (g': Types)
    requires Fits(g, st) && IsScalar(symbol.t) && Insert(st.stack, symbol, st.nextId).Some? && |st.stack| > 0
    ensures Extends(g, g') && VarHasType(g', symbol.name, st.nextId, symbol.t)
    ensures Fits(g', State(Insert(st.stack, symbol, st.nextId).value, st.nextId + 1))
  {
    hide MangleVariable;
    g' := g[C.Key(symbol.name, st.nextId) := symbol.t];
    var n, stack' := |st.stack| - 1, Insert(st.stack, symbol, st.nextId).value;
    forall i, j | 0 <= i < |stack'| && 0 <= j < |stack'[i]| ensures SymbolTyped(g', stack'[i][j]) {
      if i < n || j < |st.stack[n]| {
        assert SymbolTyped(g, st.stack[i][j]);
      }
    }
    forall name, id: nat | id >= st.nextId + 1 ensures C.Key(name, id) !in g' {
      if C.Key(name, id) == C.Key(symbol.name, st.nextId) {
        MangleInjective(name, id, symbol.name, st.nextId);
      }
    }
  }

  lemma ResolvedValue(p: C.Program, g: Types, funcs: Funcs, stack: Stack, e: S.Expr, t: ValueType)
    requires Provides(p, funcs) && StackTyped(g, stack) && ResolveExpr(funcs, stack, e, t).Some?
    requires Converts(ResolveExpr(funcs, stack, e, t).value.t, t)
    ensures ChecksValue(p, g, t, ResolveExpr(funcs, stack, e, t).value)
  {
    hide Provides, StackTyped, Checks, ResolveExpr;
    ResolvedChecks(p, g, funcs, stack, e, t);
  }

  lemma {:induction false} ResolvedStmtChecks(p: C.Program, g: Types, cx: Context, st: State, s: S.Stmt)
    returns (g': Types)
    requires Provides(p, cx.funcs) && Fits(g, st) && Good(st) && S.Built(s) && ResolveStmt(cx, st, s).Some?
    ensures Extends(g, g') && ChecksStmt(p, g', cx.ret, ResolveStmt(cx, st, s).value.node)
    ensures Fits(g', ResolveStmt(cx, st, s).value.st)
    decreases s, 1
  {
    hide Provides, StackTyped, FreshFrom, ResolveExpr, Good, Insert, Lookup, Replace, Checks, ChecksValue, VarHasType,
         Converts;
    var d := ResolveStmt(cx, st, s).value;
    match s
    case Decl(quals, t, name, init) =>
      var symbol := Symbol(name, t, quals.isMutable, 0, 0, init.Some?);
      StackHeight(st);
      g' := DeclareFits(g, st, symbol);
      if init.Some? {
        ResolvedValue(p, g, cx.funcs, st.stack, init.value, t);
        ValueMore(p, g, g', t, d.node.init.value);
      }
    case Assign(name, value) =>
      g' := g;
      var sym := Lookup(st.stack, name).value;
      LookupTyped(g, st.stack, name);
      ResolvedValue(p, g, cx.funcs, st.stack, value, sym.t);
      ReplaceShape(st.stack, name);
      ShapeTurned(d.st.stack, st.stack);
      FitsMore(g, g, st.stack, d.st.stack);
    case Block(_) => g' := BlockChecks(p, g, cx, st, s);
    case If(_, _, _) => g' := IfChecks(p, g, cx, st, s);
    case While(_, _) => g' := WhileChecks(p, g, cx, st, s);
    case Return(result) =>
      g' := g;
      if result.Some? {
        ResolvedValue(p, g, cx.funcs, st.stack, result.value, cx.ret);
      }
    case ExprStmt(e) =>
      g' := g;
      ResolvedChecks(p, g, cx.funcs, st.stack, e, Unresolved);
  }

  lemma ValueMore(p: C.Program, g: Types, g': Types, t: ValueType, e: C.Expr)
    requires ChecksValue(p, g, t, e) && Extends(g, g')
    ensures ChecksValue(p, g', t, e)
  {
    hide Checks, PlainLiteral, Converts;
    ChecksMore(p, g, g', e);
  }

  lemma {:induction false} BlockChecks(p: C.Program, g: Types, cx: Context, st: State, s: S.Stmt) returns (g': Types)
    requires s.Block? && Provides(p, cx.funcs) && Fits(g, st) && Good(st) && S.Built(s) && ResolveStmt(cx, st, s).Some?
    ensures Extends(g, g') && ChecksStmt(p, g', cx.ret, ResolveStmt(cx, st, s).value.node)
    ensures Fits(g', ResolveStmt(cx, st, s).value.st)
    decreases s, 0
  {
    hide Provides, Good, ResolveAll, ChecksStmt, Below;
    var inner := st.(stack := st.stack + [[]]);
    GoodPush(st);
    FitsPush(g, st);
    g' := AllChecks(p, g, cx, inner, s.stmts);
    var d := ResolveStmt(cx, st, s).value;
    ResolveKeeps(cx, st, s);
    BelowShape(st.stack, d.st.stack);
    FitsMore(g, g', st.stack, d.st.stack);
    BlockOf(p, g', cx.ret, d.node.stmts);
  }

  lemma BlockOf(p: C.Program, g: Types, ret: ValueType, stmts: seq<C.Stmt>)
    requires forall i :: 0 <= i < |stmts| ==> ChecksStmt(p, g, ret, stmts[i])
    ensures ChecksStmt(p, g, ret, C.Block(stmts))
  {}

  lemma FitsPush(g: Types, st: State)
    requires Fits(g, st)
    ensures Fits(g, st.(stack := st.stack + [[]]))
  {
    hide C.Key;
    var stack := st.stack + [[]];
    forall i, j | 0 <= i < |stack| && 0 <= j < |stack[i]| ensures SymbolTyped(g, stack[i][j]) {
      assert SymbolTyped(g, st.stack[i][j]);
    }
  }

  lemma {:induction false} AllChecks(p: C.Program, g: Types, cx: Context, st: State, stmts: seq<S.Stmt>)
    returns (g': Types)
    requires Provides(p, cx.funcs) && Fits(g, st) && Good(st) && (forall i :: 0 <= i < |stmts| ==> S.Built(stmts[i]))
    requires ResolveAll(cx, st, stmts).Some?
    ensures var d := ResolveAll(cx, st, stmts).value;
            Extends(g, g') && Fits(g', d.st) && forall i :: 0 <= i < |d.node| ==> ChecksStmt(p, g', cx.ret, d.node[i])
    decreases stmts, 0
  {
    hide Provides, Good, ResolveStmt, ChecksStmt, Fits, Extends, S.Built, Grown;
    if |stmts| == 0 {
      g' := g;
      ExtendsSelf(g);
    } else {
      var a := ResolveStmt(cx, st, stmts[0]).value;
      var g1 := ResolvedStmtChecks(p, g, cx, st, stmts[0]);
      ResolveKeeps(cx, st, stmts[0]);
      assert forall i :: 0 <= i < |stmts[1..]| ==> stmts[1..][i] == stmts[i + 1];
      g' := AllChecks(p, g1, cx, a.st, stmts[1..]);
      ExtendsJoin(g, g1, g');
      ChecksStmtMore(p, g1, g', cx.ret, a.node);
    }
  }

  lemma ExtendsSelf(g: Types)
    ensures Extends(g, g)
  {}

  lemma ConditionChecks(p: C.Program, g: Types, cx: Context, st: State, cond: S.Expr)
    requires Provides(p, cx.funcs) && StackTyped(g, st.stack) && ResolveCondition(cx, st, cond).Some?
    ensures var c := ResolveCondition(cx, st, cond).value; Checks(p, g, c) && c.t.Bool?
  {
    hide Provides, StackTyped, Checks, ResolveExpr;
    ResolvedChecks(p, g, cx.funcs, st.stack, cond, Bool);
  }

  /** The typing after a statement that leaves the stack in the same shape. */
  lemma FitsAfter(g: Types, g': Types, st: State, st': State)
    requires Fits(g, st) && Extends(g, g') && Below(st.stack, st'.stack) && FreshFrom(g', st'.nextId)
    ensures Fits(g', st')
  {
    hide StackTyped, FreshFrom, Extends, Below;
    BelowShape(st.stack, st'.stack);
    FitsMore(g, g', st.stack, st'.stack);
  }

  lemma {:induction false} WhileChecks(p: C.Program, g: Types, cx: Context, st: State, s: S.Stmt) returns (g': Types)
    requires s.While? && Provides(p, cx.funcs) && Fits(g, st) && Good(st) && S.Built(s) && ResolveStmt(cx, st, s).Some?
    ensures Extends(g, g') && ChecksStmt(p, g', cx.ret, ResolveStmt(cx, st, s).value.node)
    ensures Fits(g', ResolveStmt(cx, st, s).value.st)
    decreases s, 0
  {
    hide Provides, Good, StackTyped, FreshFrom, Extends, Below, Checks, ResolveCondition, WithFlags, Flags;
    ConditionChecks(p, g, cx, st, s.cond);
    g' := ResolvedStmtChecks(p, g, cx, st, s.body);
    ChecksMore(p, g, g', ResolveCondition(cx, st, s.cond).value);
    ResolveKeeps(cx, st, s);
    FitsAfter(g, g', st, ResolveStmt(cx, st, s).value.st);
  }

  lemma {:induction false} IfChecks(p: C.Program, g: Types, cx: Context, st: State, s: S.Stmt) returns (g': Types)
    requires s.If? && Provides(p, cx.funcs) && Fits(g, st) && Good(st) && S.Built(s) && ResolveStmt(cx, st, s).Some?
    ensures Extends(g, g') && ChecksStmt(p, g', cx.ret, ResolveStmt(cx, st, s).value.node)
    ensures Fits(g', ResolveStmt(cx, st, s).value.st)
    decreases s, 0
  {
    hide Provides, Good, StackTyped, FreshFrom, Extends, Below, Checks, ResolveCondition, ResolveStmt, WithFlags,
         Flags, AfterBranch, AlwaysReturns, Intersect, Grown;
    var c: C.Expr, a: Done<C.Stmt>;
    c, a := IfParts(cx, st, s);
    var d := ResolveStmt(cx, st, s).value;
    ResolveKeeps(cx, st, s.thn);
    PutBack(st.stack, a.st.stack);
    ResolveKeeps(cx, st, s);
    ConditionChecks(p, g, cx, st, s.cond);
    var g1 := ResolvedStmtChecks(p, g, cx, st, s.thn);
    if s.els.None? {
      g' := g1;
    } else {
      var st1 := State(st.stack, a.st.nextId);
      GoodMore(st, st1);
      BelowSelf(st.stack);
      FitsAfter(g, g1, st, st1);
      g' := ResolvedStmtChecks(p, g1, cx, st1, s.els.value);
      ExtendsJoin(g, g1, g');
      ChecksStmtMore(p, g1, g', cx.ret, a.node);
    }
    ChecksMore(p, g, g', c);
    FitsAfter(g, g', st, d.st);
  }

  // ---------------------------------------------------------------- functions and programs

  lemma {:induction false} ParamsFit(g: Types, st: State, params: seq<S.Param>) returns (g': Types)
    requires Fits(g, st) && Good(st) && |st.stack| == 2 && st.stack[0] == [] && DeclareParams(st, params).Some?
    requires forall i :: 0 <= i < |params| ==> IsScalar(params[i].t)
    ensures var d := DeclareParams(st, params).value;
            Extends(g, g') && Fits(g', d.st) && WfParams(g', d.node) && |d.node| == |params| &&
            forall i :: 0 <= i < |params| ==> d.node[i].t == params[i].t
    decreases |params|
  {
    hide Fits, Good, Insert, VarHasType;
    if |params| == 0 {
      g' := g;
    } else {
      var q := params[0];
      var symbol := Symbol(q.name, q.t, q.quals.isMutable, 0, 0, true);
      var g1 := DeclareFits(g, st, symbol);
      GoodInsert(st, symbol);
      InsertedStack(st.stack, symbol, st.nextId);
      var st1 := State(Insert(st.stack, symbol, st.nextId).value, st.nextId + 1);
      g' := ParamsFit(g1, st1, params[1..]);
      ExtendsJoin(g, g1, g');
      VarTypeMore(g1, g', q.name, st.nextId, q.t);
    }
  }

  /** Exact widths in the whole body of a function. */
  predicate ExactFunction(f: C.Function) {
    f.body.Some? ==> ExactStmt(f.ret, f.body.value)
  }

  predicate ExactProgram(p: C.Program) {
    forall i :: 0 <= i < |p| ==> ExactFunction(p[i])
  }

  // ---------------------------------------------------------------- no typing without exact widths

  /** Under whatever types of the variables: what is well typed for the back end has exact widths. */
  lemma {:induction false} TypedExprExact(p: C.Program, g: Types, e: C.Expr)
    requires WfExpr(p, g, e)
    ensures Exact(e)
    decreases e
  {
    hide LiteralFits, VarHasType, PlainLiteral;
    match e
    case Binary(_, _, l, r) =>
      TypedExprExact(p, g, l);
      TypedExprExact(p, g, r);
    case Unary(_, _, a) => TypedExprExact(p, g, a);
    case Cast(_, a) => TypedExprExact(p, g, a);
    case Call(_, _, args) =>
      forall i | 0 <= i < |args| ensures Exact(args[i]) {
        TypedExprExact(p, g, args[i]);
      }
    case _ =>
  }

  lemma {:induction false} TypedStmtExact(p: C.Program, g: Types, ret: ValueType, s: C.Stmt)
    requires WfStmt(p, g, ret, s)
    ensures ExactStmt(ret, s)
    decreases s
  {
    hide WfExpr, Exact, VarHasType, PlainLiteral;
    match s
    case Decl(_, _, _, init) =>
      if init.Some? {
        TypedExprExact(p, g, init.value);
      }
    case Assign(_, _, _, e) => TypedExprExact(p, g, e);
    case Block(stmts) =>
      forall i | 0 <= i < |stmts| ensures ExactStmt(ret, stmts[i]) {
        TypedStmtExact(p, g, ret, stmts[i]);
      }
    case If(c, thn, els) =>
      TypedExprExact(p, g, c);
      TypedStmtExact(p, g, ret, thn);
      if els.Some? {
        TypedStmtExact(p, g, ret, els.value);
      }
    case While(c, body) =>
      TypedExprExact(p, g, c);
      TypedStmtExact(p, g, ret, body);
    case Return(e) =>
      if e.Some? {
        TypedExprExact(p, g, e.value);
      }
    case ExprStmt(e) => TypedExprExact(p, g, e);
  }

  lemma TypedFunctionExact(p: C.Program, g: Types, f: C.Function)
    requires TypedBy(p, g, f)
    ensures ExactFunction(f)
  {
    hide WfStmt, ExactStmt, WfParams;
    if f.body.Some? {
      TypedStmtExact(p, g, f.ret, f.body.value);
    }
  }

  lemma TypedProgramExact(p: C.Program, gs: Typings)
    requires WfProgram(p, gs)
    ensures ExactProgram(p)
  {
    hide TypedBy, ExactFunction;
    forall i | 0 <= i < |p| ensures ExactFunction(p[i]) {
      TypedFunctionExact(p, gs[i], p[i]);
    }
  }

  /** A declaration has no typing of its own to meet beyond its parameters'. */
  lemma DeclaredTyping(params: seq<C.Param>) returns (g: Types)
    requires forall i, j :: 0 <= i < j < |params| ==> C.Key(params[i].name, params[i].id) != C.Key(params[j].name,
        params[j].id)
    requires forall i :: 0 <= i < |params| ==> IsScalar(params[i].t)
    ensures WfParams(g, params)
    decreases |params|
  {
    hide C.Key;
    if |params| == 0 {
      g := map[];
    } else {
      var n := |params| - 1;
      g := DeclaredTyping(params[..n]);
      var g1 := g[C.Key(params[n].name, params[n].id) := params[n].t];
      forall i | 0 <= i < |params| ensures VarHasType(g1, params[i].name, params[i].id, params[i].t) {
        if i < n {
          assert VarHasType(g, params[..n][i].name, params[..n][i].id, params[..n][i].t);
        }
      }
      g := g1;
    }
  }

  lemma UndeclaredTyping(params: seq<S.Param>) returns (g: Types)
    requires DistinctNames(params) && forall i :: 0 <= i < |params| ==> IsScalar(params[i].t)
    ensures WfParams(g, Undeclared(params))
  {
    hide MangleVariable;
    var ps := Undeclared(params);
    forall i, j | 0 <= i < j < |ps| ensures C.Key(ps[i].name, ps[i].id) != C.Key(ps[j].name, ps[j].id) {
      if C.Key(ps[i].name, ps[i].id) == C.Key(ps[j].name, ps[j].id) {
        MangleInjective(ps[i].name, 0, ps[j].name, 0);
      }
      assert params[j].name != params[i].name;
    }
    g := DeclaredTyping(ps);
  }

  lemma ParamsScalar(f: S.Stmt)
    requires f.FuncDecl? && S.Built(f) && !(exists i :: 0 <= i < |f.params| && f.params[i].t.Void?)
    ensures forall i :: 0 <= i < |f.params| ==> IsScalar(f.params[i].t)
    ensures f.ret.Void? || IsScalar(f.ret)
  {}

  /** An accepted function meets the back end's typing, under some types of its variables, exactly when its
    * widths are exact; and then under the types returned here. */
  lemma FunctionTyping(p: C.Program, prefix: Option<string>, funcs: Funcs, st: State, f: S.Stmt) returns (g: Types)
    requires f.FuncDecl? && S.Built(f) && st.stack == [[]] && ResolveFunction(prefix, funcs, st, f).Some?
    requires Provides(p, ResolvedTable(prefix, funcs, f))
    ensures var node := ResolveFunction(prefix, funcs, st, f).value.node; TypedBy(p, g, node) <==> ExactFunction(node)
    ensures var node := ResolveFunction(prefix, funcs, st, f).value.node;
            (exists h: Types :: TypedBy(p, h, node)) <==> ExactFunction(node)
  {
    hide Provides, Good, Fits, InsertFunc, DeclareParams, ResolveStmt, WfParams, AlwaysReturns,
         Mangling.MangleFunction, Undeclared, ExactStmt, ChecksStmt, WfStmt;
    ParamsScalar(f);
    if f.definition.None? {
      g := UndeclaredTyping(f.params);
    } else {
      var node := ResolveFunction(prefix, funcs, st, f).value.node;
      var inner := st.(stack := st.stack + [[]]);
      GoodStart(st.nextId);
      GoodPush(st);
      EmptyFits(inner);
      var g1 := ParamsFit(map[], inner, f.params);
      DeclareShape(inner, f.params);
      var d := DeclareParams(inner, f.params).value;
      var cx := Context(ResolvedTable(prefix, funcs, f), ParamNames(f.params), f.ret);
      g := ResolvedStmtChecks(p, g1, cx, d.st, f.definition.value);
      ParamsMore(g1, g, d.node);
      CheckedStmt(p, g, f.ret, ResolveStmt(cx, d.st, f.definition.value).value.node);
    }
    OnlyIfExact(p, ResolveFunction(prefix, funcs, st, f).value.node);
  }

  lemma OnlyIfExact(p: C.Program, f: C.Function)
    ensures (exists h: Types :: TypedBy(p, h, f)) ==> ExactFunction(f)
  {
    hide TypedBy, ExactFunction;
    forall h: Types | TypedBy(p, h, f) ensures ExactFunction(f) {
      TypedFunctionExact(p, h, f);
    }
  }

  lemma EmptyFits(st: State)
    requires st.stack == [[], []]
    ensures Fits(map[], st)
  {}

  lemma ParamsMore(g: Types, g': Types, params: seq<C.Param>)
    requires WfParams(g, params) && Extends(g, g')
    ensures WfParams(g', params)
  {
    hide VarHasType;
    forall i | 0 <= i < |params| ensures VarHasType(g', params[i].name, params[i].id, params[i].t) {
      VarTypeMore(g, g', params[i].name, params[i].id, params[i].t);
    }
  }

  /** The table of functions once the whole file is analysed. */
  function FinalTable(prefix: Option<string>, funcs: Funcs, fs: seq<S.Stmt>): Funcs
    requires forall i :: 0 <= i < |fs| ==> fs[i].FuncDecl?
    decreases |fs|
  {
    if |fs| == 0 then funcs else FinalTable(prefix, ResolvedTable(prefix, funcs, fs[0]), fs[1..])
  }

  /** Entries keep their names and signatures; only `defined` may be set. */
  ghost predicate TableGrows(a: Funcs, b: Funcs) {
    |a| <= |b| && forall i :: 0 <= i < |a| ==> b[i] == a[i].(defined := b[i].defined)
  }

  lemma TableStep(prefix: Option<string>, funcs: Funcs, f: S.Stmt)
    requires f.FuncDecl?
    ensures TableGrows(funcs, ResolvedTable(prefix, funcs, f))
  {
    hide Mangling.MangleFunction;
  }

  lemma {:induction false} TableRest(prefix: Option<string>, funcs: Funcs, fs: seq<S.Stmt>)
    requires forall i :: 0 <= i < |fs| ==> fs[i].FuncDecl?
    ensures TableGrows(funcs, FinalTable(prefix, funcs, fs))
    decreases |fs|
  {
    hide ResolvedTable;
    if |fs| > 0 {
      TableStep(prefix, funcs, fs[0]);
      TableRest(prefix, ResolvedTable(prefix, funcs, fs[0]), fs[1..]);
    }
  }

  lemma ProvidesLess(p: C.Program, a: Funcs, b: Funcs)
    requires TableGrows(a, b) && Provides(p, b)
    ensures Provides(p, a)
  {
    hide C.Lookup;
    forall i | 0 <= i < |a| ensures Provided(p, a[i]) {
      assert Provided(p, b[i]);
    }
  }

  lemma {:induction false} FunctionsTyping(p: C.Program, prefix: Option<string>, funcs: Funcs, st: State,
      fs: seq<S.Stmt>) returns (gs: Typings)
    requires FunctionSyntax(fs) && st.stack == [[]] && ResolveProgram(prefix, funcs, st, fs).Some?
    requires Provides(p, FinalTable(prefix, funcs, fs))
    ensures var q := ResolveProgram(prefix, funcs, st, fs).value;
            |gs| == |q| && forall i :: 0 <= i < |q| ==> (TypedBy(p, gs[i], q[i]) <==> ExactFunction(q[i]))
    decreases |fs|
  {
    hide Provides, TypedBy, ExactFunction, ResolveFunction, S.Built, TableGrows;
    if |fs| == 0 {
      gs := [];
    } else {
      var d := ResolveFunction(prefix, funcs, st, fs[0]).value;
      FunctionAnalyzed(prefix, funcs, st, fs[0]);
      FunctionTable(prefix, funcs, st, fs[0]);
      TableRest(prefix, d.funcs, fs[1..]);
      ProvidesLess(p, d.funcs, FinalTable(prefix, funcs, fs));
      var g := FunctionTyping(p, prefix, funcs, st, fs[0]);
      assert forall i :: 0 <= i < |fs[1..]| ==> fs[1..][i] == fs[i + 1];
      var rest := FunctionsTyping(p, prefix, d.funcs, d.st, fs[1..]);
      gs := [g] + rest;
    }
  }

  lemma FunctionTable(prefix: Option<string>, funcs: Funcs, st: State, f: S.Stmt)
    requires f.FuncDecl? && ResolveFunction(prefix, funcs, st, f).Some?
    ensures ResolveFunction(prefix, funcs, st, f).value.funcs == ResolvedTable(prefix, funcs, f)
  {
    hide Mangling.MangleFunction, InsertFunc, DeclareParams, ResolveStmt;
  }

  /** An accepted program in which every declared function is defined can be typed as the back end needs
    * exactly when its widths are exact; and then it is by the typings returned here. */
  lemma AcceptedIsTyped(prefix: Option<string>, imported: Funcs, fs: seq<S.Stmt>) returns (gs: Typings)
    requires FunctionSyntax(fs) && Analyze(prefix, imported, fs).Some?
    requires Provides(Analyze(prefix, imported, fs).value, FinalTable(prefix, imported, fs))
    ensures var p := Analyze(prefix, imported, fs).value; WfProgram(p, gs) <==> ExactProgram(p)
    ensures var p := Analyze(prefix, imported, fs).value; (exists hs: Typings :: WfProgram(p, hs)) <==> ExactProgram(p)
  {
    hide Provides, TypedBy, ExactFunction;
    var p := Analyze(prefix, imported, fs).value;
    gs := FunctionsTyping(p, prefix, imported, State([[]], 0), fs);
    forall hs: Typings | WfProgram(p, hs) ensures ExactProgram(p) {
      TypedProgramExact(p, hs);
    }
  }
}
