/** The analyser keeps the meaning of what the parser built. On an accepted program the run of the source tree
  * and the run of the checked tree have one outcome, so every operator, operand, branch, increment, cast, callee
  * and argument of the checked tree is the one written; and no run breaks a rule of the language. */
module Elaboration {
  import opened Values
  import opened Arith
  import opened Scopes
  import opened Constants
  import opened Analysis
  import opened Resolution
  import opened Assignment
  import opened Widths
  import opened CellMatch
  import C = Checked
  import M = Meaning
  import N = Nested
  import S = Syntax

  // ---------------------------------------------------------------- outcomes

  /** The faults an accepted program may meet; no run breaks a rule the analyser checks. */
  predicate Passes(r: M.Reason) {
    r.Unassigned? || r.Arithmetic? || r.UnknownFunction? || r.MissingReturn?
  }

  function Reported(r: M.Reason): C.Reason
    requires Passes(r)
  {
    match r
    case Unassigned(x) => C.UnassignedRead(x)
    case Arithmetic => C.Arithmetic
    case UnknownFunction => C.UnknownFunction
    case MissingReturn => C.MissingReturn
  }

  /** A value of type `t` on both sides, and the same variables after it. */
  ghost predicate SameExpr(stack: Stack, t: ValueType, a: M.ExprResult, b: N.ExprResult) {
    match a
    case Value(u, v, scopes) => u == t && b == N.Value(v, Erase(scopes)) && Typed(stack, scopes)
    case ExprFault(r) => Passes(r) && b == N.ExprFault(Reported(r))
    case ExprTimeout => b == N.ExprTimeout
  }

  ghost predicate SameList(stack: Stack, a: M.ArgsResult, b: N.ArgsResult) {
    match a
    case Args(vs, scopes) => b == N.Args(vs, Erase(scopes)) && Typed(stack, scopes)
    case ArgsFault(r) => Passes(r) && b == N.ArgsFault(Reported(r))
    case ArgsTimeout => b == N.ArgsTimeout
  }

  ghost predicate SameRun(stack: Stack, a: M.StmtResult, b: N.StmtResult) {
    match a
    case Next(scopes) => b == N.Next(Erase(scopes)) && Typed(stack, scopes)
    case Returned(v) => b == N.Returned(v)
    case Fault(r) => Passes(r) && b == N.Fault(Reported(r))
    case Timeout => b == N.Timeout
  }

  ghost predicate SameCall(a: M.ExprResult, b: N.ExprResult) {
    match a
    case Value(_, v, _) => b.Value? && b.v == v
    case ExprFault(r) => Passes(r) && b == N.ExprFault(Reported(r))
    case ExprTimeout => b == N.ExprTimeout
  }

  // ---------------------------------------------------------------- functions and their names

  /** What the analyser's table says of a function is what its name means. */
  ghost predicate Named(src: M.Source, funcs: Funcs) {
    forall name :: FindFunc(funcs, name).Some? ==>
      M.SignatureOf(src.prefix, src.imported, src.functions, name) ==
      Some(SymbolSignature(funcs[FindFunc(funcs, name).value]))
  }

  function SymbolSignature(f: FuncSymbol): M.Signature {
    M.Signature(f.linkName, f.params, f.ret)
  }

  /** `fn` is `f` with the body the analyser built for it. */
  ghost predicate Elaborated(src: M.Source, f: S.Stmt, fn: C.Function) {
    f.FuncDecl? && fn.name == M.LinkName(src.prefix, f) && fn.ret == f.ret && |fn.params| == |f.params| &&
    (forall i :: 0 <= i < |f.params| ==> fn.params[i].name == f.params[i].name && fn.params[i].t == f.params[i].t) &&
    (fn.body.Some? <==> f.definition.Some?) &&
    (fn.body.Some? ==> exists cx: Context, st: State :: BodyBuilt(src, f, fn, cx, st))
  }

  ghost predicate BodyBuilt(src: M.Source, f: S.Stmt, fn: C.Function, cx: Context, st: State)
    requires f.FuncDecl? && f.definition.Some? && fn.body.Some?
  {
    st.stack == [[], []] && Named(src, cx.funcs) && cx.ret == f.ret && S.Built(f.definition.value) &&
    var d := DeclareParams(st, f.params);
    d.Some? && Good(d.value.st) && d.value.node == fn.params &&
    var b := ResolveStmt(cx, d.value.st, f.definition.value);
    b.Some? && b.value.node == fn.body.value
  }

  ghost predicate AllElaborated(src: M.Source, fs: seq<S.Stmt>, p: C.Program) {
    |p| == |fs| && forall i :: 0 <= i < |fs| ==> Elaborated(src, fs[i], p[i])
  }

  /** The linker finds the checked function of the definition it finds in the source. */
  lemma {:induction false} LinkedAlike(src: M.Source, fs: seq<S.Stmt>, p: C.Program, link: string)
    requires AllElaborated(src, fs, p)
    ensures C.Lookup(p, link).Some? <==> M.Definition(src.prefix, fs, link).Some?
    ensures C.Lookup(p, link).Some? ==>
              Elaborated(src, M.Definition(src.prefix, fs, link).value, C.Lookup(p, link).value)
    decreases |fs|
  {
    hide BodyBuilt, M.LinkName;
    if |fs| > 0 {
      assert Elaborated(src, fs[0], p[0]);
      assert forall i :: 0 <= i < |fs[1..]| ==> fs[1..][i] == fs[i + 1] && p[1..][i] == p[i + 1];
      LinkedAlike(src, fs[1..], p[1..], link);
    }
  }

  // ---------------------------------------------------------------- leaves

  lemma NegatedAlike(t: ValueType, n: nat)
    requires IsSigned(t) && NegatedLiteralFits(t, n)
    ensures InRange(t, -(n as int)) && ApplyUnary(Negate, t, C.LiteralValue(t, n)) == -(n as int)
  {
    var m := Modulus(WidthBytes(t));
    WrapOfInRange(t, -(n as int));
    if n <= SignedMax(t) {
      WrapOfInRange(t, n);
    } else {
      ModSmall(n, m);
    }
  }

  lemma NumberAlike(stack: Stack, n: nat, want: ValueType, scopes: M.Scopes)
    requires Typed(stack, scopes) && ResolveNumber(n, want).Some?
    ensures var c := ResolveNumber(n, want).value;
            SameExpr(stack, c.t, M.NumberValue(if IsInteger(want) then want else I64, n, scopes),
                     N.Value(C.LiteralValue(c.t, c.number), Erase(scopes)))
  {
    hide Typed, InRange, Wrap, UintLiteralFits;
    var t := if IsInteger(want) then want else I64;
    LiteralInRange(t, n);
    WrapOfInRange(t, n);
  }

  lemma MinusNumberAlike(stack: Stack, n: nat, want: ValueType, scopes: M.Scopes)
    requires Typed(stack, scopes) && ResolveNegatedNumber(n, want).Some?
    ensures var c := ResolveNegatedNumber(n, want).value;
            c.Unary? && c.operand.Literal? &&
            SameExpr(stack, c.t, M.NumberValue(if IsSigned(want) then want else I64, -(n as int), scopes),
                     N.Value(ApplyUnary(c.uop, c.operand.t, C.LiteralValue(c.operand.t, c.operand.number)),
                             Erase(scopes)))
  {
    hide Typed, InRange, Wrap, NegatedLiteralFits, ApplyUnary, C.LiteralValue;
    NegatedAlike(if IsSigned(want) then want else I64, n);
  }

  lemma NameAlike(p: C.Program, stack: Stack, name: string, scopes: M.Scopes, fuel: C.Fuel, src: M.Source,
      want: ValueType)
    requires Typed(stack, scopes) && ResolveIdentifier(stack, name).Some?
    ensures var c := ResolveIdentifier(stack, name).value;
            SameExpr(stack, c.t, M.Eval(src, S.Identifier(name), want, scopes, fuel),
                     N.Eval(p, c, Erase(scopes), fuel))
  {
    hide Typed, Lookup;
    CellFound(stack, scopes, name);
    ErasedRead(scopes, name);
  }

  lemma CountAlike(p: C.Program, stack: Stack, kind: S.UnaryKind, a: S.Expr, scopes: M.Scopes, fuel: C.Fuel)
    requires Typed(stack, scopes) && ResolveIncrement(stack, kind, a).Some?
    requires !kind.Minus? && !kind.Tilde? && !kind.Bang?
    ensures var c := ResolveIncrement(stack, kind, a).value;
            SameExpr(stack, c.t, M.Count(kind, a, scopes), N.Eval(p, c, Erase(scopes), fuel))
  {
    hide Typed, Lookup, Wrap, M.CellOf, M.Store, N.Read, N.Update, Erase, IsInteger;
    CellFound(stack, scopes, a.name);
    ErasedRead(scopes, a.name);
    var cell := M.CellOf(scopes, a.name).value;
    if cell.value.Some? {
      Counted(stack, scopes, a.name, Wrap(cell.t, cell.value.value + 1));
      Counted(stack, scopes, a.name, Wrap(cell.t, cell.value.value - 1));
    }
  }

  lemma Counted(stack: Stack, scopes: M.Scopes, name: string, v: int)
    requires Typed(stack, scopes)
    ensures Typed(stack, M.Store(scopes, name, v)) && Erase(M.Store(scopes, name, v)) ==
            N.Update(Erase(scopes), name, v)
  {
    ErasedStore(scopes, name, v);
    TypedStore(stack, scopes, name, v);
  }

  /** An accepted binary node is the operation on its operands. */
  lemma OperateAlike(stack: Stack, op: BinaryOp, l: C.Expr, r: C.Expr, a: int, b: int, scopes: M.Scopes)
    requires FinishBinary(op, l, r).Some? && Typed(stack, scopes)
    ensures var c := FinishBinary(op, l, r).value; c.Binary? && c.op == op && c.left == l && c.right == r
    ensures var c := FinishBinary(op, l, r).value; var v := Apply(op, l.t, a, b);
            SameExpr(stack, c.t, M.Operate(op, l.t, a, r.t, b, scopes),
                     if v.Some? then N.Value(v.value, Erase(scopes)) else N.ExprFault(C.Arithmetic))
  {
    hide EvalInt, NoOverflow, IsConstantZero, Apply, Typed, FinishBinary;
    FinishTypes(op, l, r);
    FinishKnown(op, l, r);
    SameTypes(l.t, r.t);
  }

  lemma FinishKnown(op: BinaryOp, l: C.Expr, r: C.Expr)
    requires FinishBinary(op, l, r).Some?
    ensures l.t != Unresolved && r.t != Unresolved
  {
    hide EvalInt, NoOverflow, IsConstantZero, SameGroup, IsInteger, Promote, WidthBits, IsSigned;
  }

  lemma SameTypes(t: ValueType, u: ValueType)
    ensures SameGroup(t, u) && WidthBits(t) == WidthBits(u) ==> t == u && IsScalar(t)
  {}

  // ---------------------------------------------------------------- expressions

  lemma {:induction false} ExprAlike(src: M.Source, p: C.Program, funcs: Funcs, stack: Stack, e: S.Expr,
      want: ValueType, scopes: M.Scopes, fuel: C.Fuel)
    requires AllElaborated(src, src.functions, p) && Named(src, funcs) && Typed(stack, scopes)
    requires ResolveExpr(funcs, stack, e, want).Some?
    ensures var c := ResolveExpr(funcs, stack, e, want).value;
            SameExpr(stack, c.t, M.Eval(src, e, want, scopes, fuel), N.Eval(p, c, Erase(scopes), fuel))
    decreases fuel.calls, fuel.loops, 0, e, 2
  {
    hide AllElaborated, Named, Typed, FinishBinary, Apply, ApplyUnary, Convert, ResolveNumber, ResolveNegatedNumber,
         ResolveIncrement, ResolveIdentifier, M.Count, M.NumberValue, C.LiteralValue;
    match e
    case Number(n) => NumberAlike(stack, n, want, scopes);
      assert ResolveNumber(n, want).value.Literal? by { NumberShape(n, want); }
    case Boolean(b) => BooleanAlike(b);
    case Identifier(name) => NameAlike(p, stack, name, scopes, fuel, src, want);
    case Binary(_, _, _) => BinaryAlike(src, p, funcs, stack, e, want, scopes, fuel);
    case Unary(_, _) => UnaryAlike(src, p, funcs, stack, e, want, scopes, fuel);
    case Cast(a, target) =>
      ExprAlike(src, p, funcs, stack, a, Unresolved, scopes, fuel);
      CastsAlike(ResolveExpr(funcs, stack, a, Unresolved).value.t, target);
    case Call(_, _) => CallAlike(src, p, funcs, stack, e, want, scopes, fuel);
  }

  lemma NumberShape(n: nat, want: ValueType)
    requires ResolveNumber(n, want).Some?
    ensures ResolveNumber(n, want).value.Literal?
  {}

  lemma BooleanAlike(b: bool)
    ensures C.LiteralValue(Bool, Flag(b)) == Flag(b)
  {}

  lemma CastsAlike(from: ValueType, to: ValueType)
    ensures Castable(from, to) ==> M.CastAllowed(from, to)
  {}

  lemma {:induction false} BinaryAlike(src: M.Source, p: C.Program, funcs: Funcs, stack: Stack, e: S.Expr,
      want: ValueType, scopes: M.Scopes, fuel: C.Fuel)
    requires e.Binary? && AllElaborated(src, src.functions, p) && Named(src, funcs) && Typed(stack, scopes)
    requires ResolveExpr(funcs, stack, e, want).Some?
    ensures var c := ResolveExpr(funcs, stack, e, want).value;
            SameExpr(stack, c.t, M.Eval(src, e, want, scopes, fuel), N.Eval(p, c, Erase(scopes), fuel))
    decreases fuel.calls, fuel.loops, 0, e, 1
  {
    hide AllElaborated, Named, Typed, ResolveExpr, M.Eval, N.Eval, SameExpr, IsLiteral, IsRelational;
    if IsRelational(e.op) && IsLiteral(e.left) && !IsLiteral(e.right) {
      LiteralFirst(src, p, funcs, stack, e, want, scopes, fuel);
    } else {
      LeftFirst(src, p, funcs, stack, e, want, scopes, fuel);
    }
  }

  /** The operands of an accepted binary expression, the left one resolved first. */
  lemma LeftFirstParts(funcs: Funcs, stack: Stack, e: S.Expr, want: ValueType) returns (l: C.Expr, r: C.Expr)
    requires e.Binary? && ResolveExpr(funcs, stack, e, want).Some?
    requires !(IsRelational(e.op) && IsLiteral(e.left) && !IsLiteral(e.right))
    ensures l.t != Unresolved && ResolveExpr(funcs, stack, e.left, OperandExpected(e.op, want)) == Some(l)
    ensures ResolveExpr(funcs, stack, e.right, if IsShift(e.op) then OperandExpected(e.op, want) else l.t) == Some(r)
    ensures FinishBinary(e.op, l, r).Some? && ResolveExpr(funcs, stack, e, want) == FinishBinary(e.op, l, r)
  {
    hide FinishBinary, OperandExpected, IsRelational, IsShift;
    var w := OperandExpected(e.op, want);
    l := ResolveExpr(funcs, stack, e.left, w).value;
    r := ResolveExpr(funcs, stack, e.right, if !IsShift(e.op) && l.t != Unresolved then l.t else w).value;
    FinishKnown(e.op, l, r);
  }

  lemma MeantLeftFirst(src: M.Source, e: S.Expr, want: ValueType, scopes: M.Scopes, fuel: C.Fuel)
    requires e.Binary? && !(IsRelational(e.op) && IsLiteral(e.left) && !IsLiteral(e.right))
    ensures var w := OperandExpected(e.op, want);
            var x := M.Eval(src, e.left, w, scopes, fuel);
            M.Eval(src, e, want, scopes, fuel) ==
            if !x.Value? then x
            else
              var y := M.Eval(src, e.right, if IsShift(e.op) then w else x.t, x.scopes, fuel);
              if !y.Value? then y else M.Operate(e.op, x.t, x.v, y.t, y.v, y.scopes)
  {
    hide M.Operate;
  }

  lemma {:induction false} LeftFirst(src: M.Source, p: C.Program, funcs: Funcs, stack: Stack, e: S.Expr,
      want: ValueType, scopes: M.Scopes, fuel: C.Fuel)
    requires e.Binary? && AllElaborated(src, src.functions, p) && Named(src, funcs) && Typed(stack, scopes)
    requires ResolveExpr(funcs, stack, e, want).Some?
    requires !(IsRelational(e.op) && IsLiteral(e.left) && !IsLiteral(e.right))
    ensures var c := ResolveExpr(funcs, stack, e, want).value;
            SameExpr(stack, c.t, M.Eval(src, e, want, scopes, fuel), N.Eval(p, c, Erase(scopes), fuel))
    decreases fuel.calls, fuel.loops, 0, e, 0
  {
    hide AllElaborated, Named, Typed, FinishBinary, Apply, M.Operate, ResolveExpr, IsRelational, IsShift, M.Eval,
         OperandExpected;
    var w := OperandExpected(e.op, want);
    var l, r := LeftFirstParts(funcs, stack, e, want);
    ExprAlike(src, p, funcs, stack, e.left, w, scopes, fuel);
    MeantLeftFirst(src, e, want, scopes, fuel);
    var x := M.Eval(src, e.left, w, scopes, fuel);
    OperateAlike(stack, e.op, l, r, 0, 0, scopes);
    if x.Value? {
      var wr := if IsShift(e.op) then w else l.t;
      ExprAlike(src, p, funcs, stack, e.right, wr, x.scopes, fuel);
      var y := M.Eval(src, e.right, wr, x.scopes, fuel);
      if y.Value? {
        OperateAlike(stack, e.op, l, r, x.v, y.v, y.scopes);
      }
    }
  }

  /** A literal changes nothing, so it does not matter that it is evaluated last. */
  lemma LiteralQuiet(p: C.Program, funcs: Funcs, stack: Stack, e: S.Expr, want: ValueType, fs: N.Frames,
      gs: N.Frames, fuel: C.Fuel)
    requires IsLiteral(e) && ResolveExpr(funcs, stack, e, want).Some?
    ensures var c := ResolveExpr(funcs, stack, e, want).value;
            c.Literal? && N.Eval(p, c, fs, fuel) == N.Value(C.LiteralValue(c.t, c.number), fs) &&
            N.Eval(p, c, gs, fuel) == N.Value(C.LiteralValue(c.t, c.number), gs)
  {
    hide C.LiteralValue, UintLiteralFits;
  }

  lemma {:induction false} LiteralFirst(src: M.Source, p: C.Program, funcs: Funcs, stack: Stack, e: S.Expr,
      want: ValueType, scopes: M.Scopes, fuel: C.Fuel)
    requires e.Binary? && AllElaborated(src, src.functions, p) && Named(src, funcs) && Typed(stack, scopes)
    requires ResolveExpr(funcs, stack, e, want).Some?
    requires IsRelational(e.op) && IsLiteral(e.left) && !IsLiteral(e.right)
    ensures var c := ResolveExpr(funcs, stack, e, want).value;
            SameExpr(stack, c.t, M.Eval(src, e, want, scopes, fuel), N.Eval(p, c, Erase(scopes), fuel))
    decreases fuel.calls, fuel.loops, 0, e, 0
  {
    hide AllElaborated, Named, Typed, FinishBinary, Apply, M.Operate, C.LiteralValue;
    var w := OperandExpected(e.op, want);
    var r := ResolveExpr(funcs, stack, e.right, w).value;
    var wl := if r.t != Unresolved then r.t else w;
    var l := ResolveExpr(funcs, stack, e.left, wl).value;
    FinishKnown(e.op, l, r);
    OperateAlike(stack, e.op, l, r, 0, 0, scopes);
    LiteralQuiet(p, funcs, stack, e.left, wl, Erase(scopes), Erase(scopes), fuel);
    ExprAlike(src, p, funcs, stack, e.right, w, scopes, fuel);
    var y := M.Eval(src, e.right, w, scopes, fuel);
    if y.Value? {
      ExprAlike(src, p, funcs, stack, e.left, wl, y.scopes, fuel);
      LiteralQuiet(p, funcs, stack, e.left, wl, Erase(scopes), Erase(y.scopes), fuel);
      OperateAlike(stack, e.op, l, r, C.LiteralValue(l.t, l.number), y.v, y.scopes);
    }
  }

  lemma {:induction false} UnaryAlike(src: M.Source, p: C.Program, funcs: Funcs, stack: Stack, e: S.Expr,
      want: ValueType, scopes: M.Scopes, fuel: C.Fuel)
    requires e.Unary? && AllElaborated(src, src.functions, p) && Named(src, funcs) && Typed(stack, scopes)
    requires ResolveExpr(funcs, stack, e, want).Some?
    ensures var c := ResolveExpr(funcs, stack, e, want).value;
            SameExpr(stack, c.t, M.Eval(src, e, want, scopes, fuel), N.Eval(p, c, Erase(scopes), fuel))
    decreases fuel.calls, fuel.loops, 0, e, 1
  {
    hide AllElaborated, Named, Typed, ApplyUnary, ResolveNegatedNumber, ResolveIncrement, M.Count, M.NumberValue,
         C.LiteralValue;
    var a := e.operand;
    if e.kind.Minus? && a.Number? {
      MinusNumberAlike(stack, a.value, want, scopes);
    } else if e.kind.Minus? || e.kind.Tilde? || e.kind.Bang? {
      ExprAlike(src, p, funcs, stack, a, M.UnaryWant(e.kind, want), scopes, fuel);
    } else {
      CountAlike(p, stack, e.kind, a, scopes, fuel);
    }
  }

  lemma {:induction false} CallAlike(src: M.Source, p: C.Program, funcs: Funcs, stack: Stack, e: S.Expr,
      want: ValueType, scopes: M.Scopes, fuel: C.Fuel)
    requires e.Call? && AllElaborated(src, src.functions, p) && Named(src, funcs) && Typed(stack, scopes)
    requires ResolveExpr(funcs, stack, e, want).Some?
    ensures var c := ResolveExpr(funcs, stack, e, want).value;
            SameExpr(stack, c.t, M.Eval(src, e, want, scopes, fuel), N.Eval(p, c, Erase(scopes), fuel))
    decreases fuel.calls, fuel.loops, 0, e, 1
  {
    hide AllElaborated, Named, Typed, M.SignatureOf, M.Invoke, N.Invoke;
    var f := funcs[FindFunc(funcs, e.callee).value];
    assert M.SignatureOf(src.prefix, src.imported, src.functions, e.callee) == Some(SymbolSignature(f)) by {
      NamedAt(src, funcs, e.callee);
    }
    ListAlike(src, p, funcs, stack, e.args, f.params, scopes, fuel);
    var r := M.EvalArgs(src, e.args, f.params, scopes, fuel);
    if fuel.calls > 0 && r.Args? {
      InvokeAlike(src, p, f.linkName, r.vs, fuel.(calls := fuel.calls - 1));
    }
  }

  lemma NamedAt(src: M.Source, funcs: Funcs, name: string)
    requires Named(src, funcs) && FindFunc(funcs, name).Some?
    ensures M.SignatureOf(src.prefix, src.imported, src.functions, name) ==
            Some(SymbolSignature(funcs[FindFunc(funcs, name).value]))
  {}

  lemma WidensAlike(from: ValueType, to: ValueType)
    ensures Converts(from, to) ==> M.Widens(from, to)
  {}

  lemma {:induction false} ListAlike(src: M.Source, p: C.Program, funcs: Funcs, stack: Stack, args: seq<S.Expr>,
      params: seq<ValueType>, scopes: M.Scopes, fuel: C.Fuel)
    requires |args| == |params| && AllElaborated(src, src.functions, p) && Named(src, funcs) && Typed(stack, scopes)
    requires ResolveArgs(funcs, stack, args, params).Some?
    ensures SameList(stack, M.EvalArgs(src, args, params, scopes, fuel),
                     N.EvalArgs(p, ResolveArgs(funcs, stack, args, params).value, Erase(scopes), fuel))
    decreases fuel.calls, fuel.loops, 0, args, 0
  {
    hide AllElaborated, Named, Typed, ResolveExpr, M.Eval, Convert, Converts, M.Widens;
    if |args| > 0 {
      var c := ResolveExpr(funcs, stack, args[0], params[0]).value;
      ExprAlike(src, p, funcs, stack, args[0], params[0], scopes, fuel);
      WidensAlike(c.t, params[0]);
      var r := M.Eval(src, args[0], params[0], scopes, fuel);
      var rest := ResolveArgs(funcs, stack, args[1..], params[1..]).value;
      var first := if c.t == params[0] then c else C.Cast(params[0], c);
      assert ([first] + rest)[1..] == rest;
      if r.Value? {
        ListAlike(src, p, funcs, stack, args[1..], params[1..], r.scopes, fuel);
      }
    }
  }

  // ---------------------------------------------------------------- statements

  lemma {:induction false} StmtAlike(src: M.Source, p: C.Program, cx: Context, st: State, s: S.Stmt,
      scopes: M.Scopes, fuel: C.Fuel)
    requires AllElaborated(src, src.functions, p) && Named(src, cx.funcs) && Typed(st.stack, scopes)
    requires Good(st) && S.Built(s) && ResolveStmt(cx, st, s).Some?
    ensures var d := ResolveStmt(cx, st, s).value;
            SameRun(d.st.stack, M.Exec(src, cx.ret, s, scopes, fuel), N.Exec(p, d.node, Erase(scopes), fuel))
    decreases fuel.calls, fuel.loops, 1, s, 2
  {
    hide AllElaborated, Named, Typed, Good, ResolveExpr, M.Eval, N.Eval, Converts, M.Widens;
    match s
    case Decl(_, _, _, _) => DeclAlike(src, p, cx, st, s, scopes, fuel);
    case Assign(_, _) => AssignAlike(src, p, cx, st, s, scopes, fuel);
    case Block(_) => BlockAlike(src, p, cx, st, s, scopes, fuel);
    case If(_, _, _) => IfAlike(src, p, cx, st, s, scopes, fuel);
    case While(_, _) => WhileAlike(src, p, cx, st, s, scopes, fuel);
    case Return(result) =>
      if result.Some? {
        ExprAlike(src, p, cx.funcs, st.stack, result.value, cx.ret, scopes, fuel);
        WidensAlike(ResolveExpr(cx.funcs, st.stack, result.value, cx.ret).value.t, cx.ret);
      }
    case ExprStmt(e) => ExprAlike(src, p, cx.funcs, st.stack, e, Unresolved, scopes, fuel);
  }

  lemma {:induction false} DeclAlike(src: M.Source, p: C.Program, cx: Context, st: State, s: S.Stmt,
      scopes: M.Scopes, fuel: C.Fuel)
    requires s.Decl? && AllElaborated(src, src.functions, p) && Named(src, cx.funcs) && Typed(st.stack, scopes)
    requires Good(st) && ResolveStmt(cx, st, s).Some?
    ensures var d := ResolveStmt(cx, st, s).value;
            SameRun(d.st.stack, M.Exec(src, cx.ret, s, scopes, fuel), N.Exec(p, d.node, Erase(scopes), fuel))
    decreases fuel.calls, fuel.loops, 1, s, 1
  {
    hide AllElaborated, Named, Typed, Good, ResolveExpr, M.Eval, N.Eval, Converts, M.Widens, Insert, Convert;
    var symbol := Symbol(s.name, s.t, s.quals.isMutable, 0, 0, s.init.Some?);
    StackHeight(st);
    TypedHeight(st.stack, scopes);
    TypedDeclare(st.stack, scopes, symbol, st.nextId, None);
    if s.init.Some? {
      var c := ResolveExpr(cx.funcs, st.stack, s.init.value, s.t).value;
      ExprAlike(src, p, cx.funcs, st.stack, s.init.value, s.t, scopes, fuel);
      WidensAlike(c.t, s.t);
      var r := M.Eval(src, s.init.value, s.t, scopes, fuel);
      if r.Value? {
        var cell := M.Cell(s.t, s.quals.isMutable, Some(Convert(s.t, r.v)));
        TypedDeclare(st.stack, r.scopes, symbol, st.nextId, cell.value);
        ErasedDeclare(r.scopes, s.name, cell);
      }
    } else {
      ErasedDeclare(scopes, s.name, M.Cell(s.t, s.quals.isMutable, None));
    }
  }

  lemma TypedHeight(stack: Stack, scopes: M.Scopes)
    requires Typed(stack, scopes)
    ensures |stack| == |scopes|
  {
    hide ScopeTyped;
  }

  lemma {:induction false} AssignAlike(src: M.Source, p: C.Program, cx: Context, st: State, s: S.Stmt,
      scopes: M.Scopes, fuel: C.Fuel)
    requires s.Assign? && AllElaborated(src, src.functions, p) && Named(src, cx.funcs) && Typed(st.stack, scopes)
    requires Good(st) && ResolveStmt(cx, st, s).Some?
    ensures var d := ResolveStmt(cx, st, s).value;
            SameRun(d.st.stack, M.Exec(src, cx.ret, s, scopes, fuel), N.Exec(p, d.node, Erase(scopes), fuel))
    decreases fuel.calls, fuel.loops, 1, s, 1
  {
    hide AllElaborated, Named, Typed, Good, ResolveExpr, M.Eval, N.Eval, Converts, M.Widens, Lookup, Replace, Convert,
         SameShape;
    var sym := Lookup(st.stack, s.name).value;
    CellFound(st.stack, scopes, s.name);
    var c := ResolveExpr(cx.funcs, st.stack, s.value, sym.t).value;
    ExprAlike(src, p, cx.funcs, st.stack, s.value, sym.t, scopes, fuel);
    WidensAlike(c.t, sym.t);
    var r := M.Eval(src, s.value, sym.t, scopes, fuel);
    if r.Value? {
      var v := Convert(sym.t, r.v);
      ErasedStore(r.scopes, s.name, v);
      TypedStore(st.stack, r.scopes, s.name, v);
      ReplaceShape(st.stack, s.name);
      ShapeTurned(Replace(st.stack, s.name, true), st.stack);
      TypedShape(st.stack, Replace(st.stack, s.name, true), M.Store(r.scopes, s.name, v));
    }
  }

  lemma {:induction false} BlockAlike(src: M.Source, p: C.Program, cx: Context, st: State, s: S.Stmt,
      scopes: M.Scopes, fuel: C.Fuel)
    requires s.Block? && AllElaborated(src, src.functions, p) && Named(src, cx.funcs) && Typed(st.stack, scopes)
    requires Good(st) && S.Built(s) && ResolveStmt(cx, st, s).Some?
    ensures var d := ResolveStmt(cx, st, s).value;
            SameRun(d.st.stack, M.Exec(src, cx.ret, s, scopes, fuel), N.Exec(p, d.node, Erase(scopes), fuel))
    decreases fuel.calls, fuel.loops, 1, s, 1
  {
    hide AllElaborated, Named, Typed, Good, ResolveAll, M.ExecAll, N.ExecAll;
    var inner := st.(stack := st.stack + [[]]);
    GoodPush(st);
    TypedOpen(st.stack, scopes);
    ErasedOpen(scopes);
    AllAlike(src, p, cx, inner, s.stmts, scopes + [map[]], fuel);
    var d := ResolveAll(cx, inner, s.stmts).value;
    var r := M.ExecAll(src, cx.ret, s.stmts, scopes + [map[]], fuel);
    if r.Next? {
      TypedOpen(d.st.stack, r.scopes);
      ErasedOpen(r.scopes);
    }
  }

  lemma {:induction false} AllAlike(src: M.Source, p: C.Program, cx: Context, st: State, stmts: seq<S.Stmt>,
      scopes: M.Scopes, fuel: C.Fuel)
    requires AllElaborated(src, src.functions, p) && Named(src, cx.funcs) && Typed(st.stack, scopes)
    requires Good(st) && (forall i :: 0 <= i < |stmts| ==> S.Built(stmts[i])) && ResolveAll(cx, st, stmts).Some?
    ensures var d := ResolveAll(cx, st, stmts).value;
            SameRun(d.st.stack, M.ExecAll(src, cx.ret, stmts, scopes, fuel),
                    N.ExecAll(p, d.node, Erase(scopes), fuel))
    decreases fuel.calls, fuel.loops, 1, stmts, 0
  {
    hide AllElaborated, Named, Typed, Good, ResolveStmt, M.Exec, N.Exec, S.Built, Grown;
    if |stmts| > 0 {
      StmtAlike(src, p, cx, st, stmts[0], scopes, fuel);
      ResolveKeeps(cx, st, stmts[0]);
      var a := ResolveStmt(cx, st, stmts[0]).value;
      var rest := ResolveAll(cx, a.st, stmts[1..]).value;
      assert ([a.node] + rest.node)[1..] == rest.node;
      var r := M.Exec(src, cx.ret, stmts[0], scopes, fuel);
      if r.Next? {
        assert forall i :: 0 <= i < |stmts[1..]| ==> stmts[1..][i] == stmts[i + 1];
        AllAlike(src, p, cx, a.st, stmts[1..], r.scopes, fuel);
      }
    }
  }

  lemma ConditionAlike(src: M.Source, p: C.Program, cx: Context, st: State, cond: S.Expr, scopes: M.Scopes,
      fuel: C.Fuel)
    requires AllElaborated(src, src.functions, p) && Named(src, cx.funcs) && Typed(st.stack, scopes)
    requires ResolveCondition(cx, st, cond).Some?
    ensures SameExpr(st.stack, Bool, M.Eval(src, cond, Bool, scopes, fuel),
                     N.Eval(p, ResolveCondition(cx, st, cond).value, Erase(scopes), fuel))
    decreases fuel.calls, fuel.loops, 1, cond, 0
  {
    hide AllElaborated, Named, Typed, ResolveExpr, M.Eval, N.Eval;
    ExprAlike(src, p, cx.funcs, st.stack, cond, Bool, scopes, fuel);
  }

  /** Another stack with the same symbols. */
  lemma RunShape(a: Stack, b: Stack, x: M.StmtResult, y: N.StmtResult)
    requires SameRun(a, x, y) && SameShape(a, b)
    ensures SameRun(b, x, y)
  {
    hide Typed, SameShape;
    if x.Next? {
      TypedShape(a, b, x.scopes);
    }
  }

  /** A statement that declares nothing outside its own blocks leaves the symbols it found. */
  lemma StackKept(cx: Context, st: State, s: S.Stmt)
    requires s.Block? || s.If? || s.While?
    requires Good(st) && S.Built(s) && ResolveStmt(cx, st, s).Some?
    ensures var after := ResolveStmt(cx, st, s).value.st.stack; SameShape(st.stack, after) && SameShape(after, st.stack)
  {
    hide Good, SameShape, Below, ResolveStmt, Grown;
    ResolveKeeps(cx, st, s);
    BelowShape(st.stack, ResolveStmt(cx, st, s).value.st.stack);
    ShapeTurned(st.stack, ResolveStmt(cx, st, s).value.st.stack);
  }

  lemma {:induction false} IfAlike(src: M.Source, p: C.Program, cx: Context, st: State, s: S.Stmt,
      scopes: M.Scopes, fuel: C.Fuel)
    requires s.If? && AllElaborated(src, src.functions, p) && Named(src, cx.funcs) && Typed(st.stack, scopes)
    requires Good(st) && S.Built(s) && ResolveStmt(cx, st, s).Some?
    ensures var d := ResolveStmt(cx, st, s).value;
            SameRun(d.st.stack, M.Exec(src, cx.ret, s, scopes, fuel), N.Exec(p, d.node, Erase(scopes), fuel))
    decreases fuel.calls, fuel.loops, 1, s, 1
  {
    hide AllElaborated, Named, Typed, Good, ResolveStmt, ResolveCondition, Flags, WithFlags, Intersect, AfterBranch,
         Endings.AlwaysReturns, SameShape, Below, Grown, M.Eval, N.Eval, SameRun;
    var c: C.Expr, a: Done<C.Stmt>;
    c, a := IfParts(cx, st, s);
    var d := ResolveStmt(cx, st, s).value;
    ConditionAlike(src, p, cx, st, s.cond, scopes, fuel);
    var r := M.Eval(src, s.cond, Bool, scopes, fuel);
    ResolveKeeps(cx, st, s.thn);
    PutBack(st.stack, a.st.stack);
    var st1 := State(st.stack, a.st.nextId);
    GoodMore(st, st1);
    StackKept(cx, st, s);
    StackKept(cx, st, s.thn);
    if s.els.Some? {
      StackKept(cx, st1, s.els.value);
    }
    if !r.Value? {
      FailedRun(d.st.stack, st.stack, r, N.Eval(p, c, Erase(scopes), fuel));
    } else if r.v != 0 {
      StmtAlike(src, p, cx, st, s.thn, r.scopes, fuel);
      RunBack(a.st.stack, st.stack, d.st.stack, M.Exec(src, cx.ret, s.thn, r.scopes, fuel),
        N.Exec(p, a.node, Erase(r.scopes), fuel));
    } else if s.els.Some? {
      StmtAlike(src, p, cx, st1, s.els.value, r.scopes, fuel);
      var b := ResolveStmt(cx, st1, s.els.value).value;
      RunBack(b.st.stack, st.stack, d.st.stack, M.Exec(src, cx.ret, s.els.value, r.scopes, fuel),
        N.Exec(p, b.node, Erase(r.scopes), fuel));
    } else {
      GoesOn(st.stack, r.scopes);
      RunShape(st.stack, d.st.stack, M.Next(r.scopes), N.Next(Erase(r.scopes)));
    }
  }

  lemma GoesOn(stack: Stack, scopes: M.Scopes)
    requires Typed(stack, scopes)
    ensures SameRun(stack, M.Next(scopes), N.Next(Erase(scopes)))
  {}

  lemma RunBack(a: Stack, b: Stack, c: Stack, x: M.StmtResult, y: N.StmtResult)
    requires SameRun(a, x, y) && SameShape(a, b) && SameShape(b, c)
    ensures SameRun(c, x, y)
  {
    hide SameRun, SameShape;
    RunShape(a, b, x, y);
    RunShape(b, c, x, y);
  }

  lemma FailedRun(stack: Stack, other: Stack, x: M.ExprResult, y: N.ExprResult)
    requires SameExpr(other, Bool, x, y) && !x.Value?
    ensures SameRun(stack, if x.ExprFault? then M.Fault(x.reason) else M.Timeout,
                    if y.ExprFault? then N.Fault(y.reason) else N.Timeout)
    ensures !y.Value?
  {}

  lemma {:induction false} WhileAlike(src: M.Source, p: C.Program, cx: Context, st: State, s: S.Stmt,
      scopes: M.Scopes, fuel: C.Fuel)
    requires s.While? && AllElaborated(src, src.functions, p) && Named(src, cx.funcs) && Typed(st.stack, scopes)
    requires Good(st) && S.Built(s) && ResolveStmt(cx, st, s).Some?
    ensures var d := ResolveStmt(cx, st, s).value;
            SameRun(d.st.stack, M.Exec(src, cx.ret, s, scopes, fuel), N.Exec(p, d.node, Erase(scopes), fuel))
    decreases fuel.calls, fuel.loops, 1, s, 1
  {
    hide AllElaborated, Named, Typed, Good, ResolveCondition, Flags, WithFlags, SameShape, Below, Grown, M.Eval, N.Eval;
    if fuel.loops > 0 {
      ConditionAlike(src, p, cx, st, s.cond, scopes, fuel);
      StackKept(cx, st, s.body);
      ResolveKeeps(cx, st, s.body);
      var b := ResolveStmt(cx, st, s.body).value;
      PutBack(st.stack, b.st.stack);
      var r := M.Eval(src, s.cond, Bool, scopes, fuel);
      if r.Value? && r.v != 0 {
        StmtAlike(src, p, cx, st, s.body, r.scopes, fuel);
        var r2 := M.Exec(src, cx.ret, s.body, r.scopes, fuel);
        if r2.Next? {
          TypedShape(b.st.stack, st.stack, r2.scopes);
          WhileAlike(src, p, cx, st, s, r2.scopes, fuel.(loops := fuel.loops - 1));
        }
      }
    }
  }

  // ---------------------------------------------------------------- calls

  lemma StartTyped()
    ensures Typed([[], []], [map[], map[]])
  {}

  lemma ErasedStart(scope: M.Scope)
    ensures Erase([map[], scope]) == [map[], EraseScope(scope)]
  {
    assert EraseScope(map[]) == map[];
    assert Erase([map[], scope]) == [map[], EraseScope(scope)];
  }

  lemma {:induction false} InvokeAlike(src: M.Source, p: C.Program, link: string, vs: seq<int>, fuel: C.Fuel)
    requires AllElaborated(src, src.functions, p)
    ensures SameCall(M.Invoke(src, link, vs, fuel), N.Invoke(p, link, vs, fuel))
    decreases fuel.calls, fuel.loops
  {
    hide AllElaborated, Named, Typed, Good, M.Exec, N.Exec, M.Bind, N.Bind, S.Built, M.LinkName, DeclareParams,
         ResolveStmt;
    LinkedAlike(src, src.functions, p, link);
    var found := M.Definition(src.prefix, src.functions, link);
    if found.Some? && |vs| == |found.value.params| {
      var f, fn := found.value, C.Lookup(p, link).value;
      var cx: Context, st: State :| BodyBuilt(src, f, fn, cx, st);
      var d := DeclareParams(st, f.params).value;
      var scope := M.Bind(f.params, vs);
      StartTyped();
      ParamsTyped(st, f.params, vs, map[]);
      assert map[] + scope == scope;
      ErasedStart(scope);
      ErasedBind(f.params, fn.params, vs);
      StmtAlike(src, p, cx, d.st, f.definition.value, [map[], scope], fuel);
    }
  }

  // ---------------------------------------------------------------- programs

  lemma {:induction false} SignatureSplit(prefix: Option<string>, funcs: Funcs, fs: seq<S.Stmt>, name: string)
    ensures M.SignatureOf(prefix, funcs, fs, name) ==
            if FindFunc(funcs, name).Some? then Some(SymbolSignature(funcs[FindFunc(funcs, name).value]))
            else M.SignatureOf(prefix, [], fs, name)
    decreases |funcs|
  {
    if |funcs| > 0 {
      SignatureSplit(prefix, funcs[1..], fs, name);
    }
  }

  lemma {:induction false} FindAppended(funcs: Funcs, f: FuncSymbol, name: string)
    ensures FindFunc(funcs + [f], name) ==
            if FindFunc(funcs, name).Some? then FindFunc(funcs, name)
            else if f.name == name then Some(|funcs|) else None
    decreases |funcs|
  {
    if |funcs| > 0 {
      assert (funcs + [f])[1..] == funcs[1..] + [f];
      FindAppended(funcs[1..], f, name);
    }
  }

  lemma {:induction false} FindUpdated(funcs: Funcs, i: nat, f: FuncSymbol, name: string)
    requires i < |funcs| && f.name == funcs[i].name
    ensures FindFunc(funcs[i := f], name) == FindFunc(funcs, name)
    decreases |funcs|
  {
    if i > 0 {
      assert funcs[i := f][1..] == funcs[1..][i - 1 := f];
      FindUpdated(funcs[1..], i - 1, f, name);
    } else {
      assert funcs[i := f][1..] == funcs[1..];
    }
  }

  lemma {:induction false} TypesAlike(params: seq<S.Param>)
    ensures M.TypesOf(params) == ParamTypes(params)
    decreases |params|
  {
    if |params| > 0 {
      TypesAlike(params[1..]);
      assert M.TypesOf(params) == ParamTypes(params);
    }
  }

  /** A declaration that is accepted does not change what the names of a file mean. */
  lemma SignatureStep(prefix: Option<string>, funcs: Funcs, fs: seq<S.Stmt>, st: State, name: string)
    requires |fs| > 0 && fs[0].FuncDecl? && ResolveFunction(prefix, funcs, st, fs[0]).Some?
    ensures M.SignatureOf(prefix, ResolvedTable(prefix, funcs, fs[0]), fs[1..], name) ==
            M.SignatureOf(prefix, funcs, fs, name)
  {
    hide M.SignatureOf, ResolveBody, FindFunc, Mangling.MangleFunction, ParamTypes;
    var f := fs[0];
    var symbol := FuncSymbol(f.name, M.LinkName(prefix, f), f.ret, ParamTypes(f.params), f.definition.Some?);
    var table := ResolvedTable(prefix, funcs, f);
    TypesAlike(f.params);
    SignatureSplit(prefix, funcs, fs, name);
    SignatureSplit(prefix, table, fs[1..], name);
    FileStep(prefix, fs, name);
    if FindFunc(funcs, f.name).None? {
      FindAppended(funcs, symbol, name);
    } else {
      var i := FindFunc(funcs, f.name).value;
      FindUpdated(funcs, i, funcs[i].(defined := symbol.defined || funcs[i].defined), name);
    }
  }

  lemma FileStep(prefix: Option<string>, fs: seq<S.Stmt>, name: string)
    requires |fs| > 0 && fs[0].FuncDecl?
    ensures M.SignatureOf(prefix, [], fs, name) ==
            if fs[0].name == name then Some(M.Signature(M.LinkName(prefix, fs[0]), M.TypesOf(fs[0].params), fs[0].ret))
            else M.SignatureOf(prefix, [], fs[1..], name)
  {}

  lemma FunctionElaborated(src: M.Source, funcs: Funcs, st: State, f: S.Stmt)
    requires f.FuncDecl? && S.Built(f) && st.stack == [[]] && ResolveFunction(src.prefix, funcs, st, f).Some?
    requires Named(src, ResolvedTable(src.prefix, funcs, f))
    ensures Elaborated(src, f, ResolveFunction(src.prefix, funcs, st, f).value.node)
  {
    hide Named, Good, DeclareParams, ResolveStmt, InsertFunc, Endings.AlwaysReturns, Mangling.MangleFunction;
    var d := ResolveFunction(src.prefix, funcs, st, f).value;
    if f.definition.Some? {
      var inner := st.(stack := st.stack + [[]]);
      GoodStart(st.nextId);
      GoodPush(State([[]], st.nextId));
      assert inner.stack == [[], []];
      DeclareShape(inner, f.params);
      DeclaredParams(inner, f.params);
      assert BodyBuilt(src, f, d.node, Context(ResolvedTable(src.prefix, funcs, f), ParamNames(f.params), f.ret),
                       inner);
    } else {
      UndeclaredShape(f.params);
    }
  }

  lemma UndeclaredShape(params: seq<S.Param>)
    ensures var ps := Undeclared(params);
            forall i :: 0 <= i < |params| ==> ps[i].name == params[i].name && ps[i].t == params[i].t
  {}

  /** The table after the functions before `fs` says what their names mean in the whole file. */
  ghost predicate TableMeans(src: M.Source, funcs: Funcs, fs: seq<S.Stmt>) {
    forall name :: M.SignatureOf(src.prefix, funcs, fs, name) ==
                   M.SignatureOf(src.prefix, src.imported, src.functions, name)
  }

  lemma MeansNamed(src: M.Source, funcs: Funcs, fs: seq<S.Stmt>)
    requires TableMeans(src, funcs, fs)
    ensures Named(src, funcs)
  {
    forall name | FindFunc(funcs, name).Some?
      ensures M.SignatureOf(src.prefix, src.imported, src.functions, name) ==
              Some(SymbolSignature(funcs[FindFunc(funcs, name).value]))
    {
      SignatureSplit(src.prefix, funcs, fs, name);
    }
  }

  lemma MeansStep(src: M.Source, funcs: Funcs, fs: seq<S.Stmt>, st: State)
    requires TableMeans(src, funcs, fs)
    requires |fs| > 0 && fs[0].FuncDecl? && ResolveFunction(src.prefix, funcs, st, fs[0]).Some?
    ensures TableMeans(src, ResolvedTable(src.prefix, funcs, fs[0]), fs[1..])
  {
    hide M.SignatureOf, ResolveFunction, ResolvedTable;
    forall name
      ensures M.SignatureOf(src.prefix, ResolvedTable(src.prefix, funcs, fs[0]), fs[1..], name) ==
              M.SignatureOf(src.prefix, src.imported, src.functions, name)
    {
      SignatureStep(src.prefix, funcs, fs, st, name);
    }
  }

  lemma {:induction false} FileElaborated(src: M.Source, funcs: Funcs, st: State, fs: seq<S.Stmt>)
    requires FunctionSyntax(fs) && st.stack == [[]] && TableMeans(src, funcs, fs)
    requires ResolveProgram(src.prefix, funcs, st, fs).Some?
    ensures AllElaborated(src, fs, ResolveProgram(src.prefix, funcs, st, fs).value)
    decreases |fs|
  {
    hide ResolveFunction, S.Built, Elaborated, TableMeans, Named, ResolvedTable;
    if |fs| > 0 {
      MeansStep(src, funcs, fs, st);
      MeansNamed(src, ResolvedTable(src.prefix, funcs, fs[0]), fs[1..]);
      FunctionAnalyzed(src.prefix, funcs, st, fs[0]);
      FunctionElaborated(src, funcs, st, fs[0]);
      var d := ResolveFunction(src.prefix, funcs, st, fs[0]).value;
      TableAfter(src.prefix, funcs, st, fs[0]);
      assert forall i :: 0 <= i < |fs[1..]| ==> fs[1..][i] == fs[i + 1];
      FileElaborated(src, d.funcs, d.st, fs[1..]);
      var rest := ResolveProgram(src.prefix, d.funcs, d.st, fs[1..]).value;
      assert forall i :: 0 < i < |fs| ==> fs[i] == fs[1..][i - 1];
    }
  }

  lemma TableAfter(prefix: Option<string>, funcs: Funcs, st: State, f: S.Stmt)
    requires f.FuncDecl? && ResolveFunction(prefix, funcs, st, f).Some?
    ensures ResolveFunction(prefix, funcs, st, f).value.funcs == ResolvedTable(prefix, funcs, f)
  {
    hide DeclareParams, ResolveStmt, InsertFunc, Endings.AlwaysReturns, Mangling.MangleFunction;
  }

  /** A call of any function of an accepted program means the same by its source tree as by the tree the
    * analyser built: the same value, or the same fault, or no end within the bounds. */
  lemma SourceMeaningKept(prefix: Option<string>, imported: Funcs, fs: seq<S.Stmt>, f: string, vs: seq<int>,
      fuel: C.Fuel)
    requires FunctionSyntax(fs) && Analyze(prefix, imported, fs).Some?
    ensures SameCall(M.Invoke(M.Source(prefix, imported, fs), f, vs, fuel),
                     N.Invoke(Analyze(prefix, imported, fs).value, f, vs, fuel))
    ensures AllElaborated(M.Source(prefix, imported, fs), fs, Analyze(prefix, imported, fs).value)
  {
    hide AllElaborated, M.Invoke, N.Invoke, M.SignatureOf, ResolveProgram, S.Built;
    var src := M.Source(prefix, imported, fs);
    assert TableMeans(src, imported, fs);
    FileElaborated(src, imported, State([[]], 0), fs);
    InvokeAlike(src, Analyze(prefix, imported, fs).value, f, vs, fuel);
  }

  /** A run of an accepted program keeps every rule the analyser checks: it uses no name that is not declared,
    * declares none twice in a scope, reads no variable without a value, writes no immutable one after its
    * declaration, applies no operator to values of other types than it takes, stores and returns no value at
    * a type that may not hold it, and leaves no function without the value it returns. */
  lemma AcceptedRunsKeepTheRules(prefix: Option<string>, imported: Funcs, fs: seq<S.Stmt>, f: string, vs: seq<int>,
      fuel: C.Fuel)
    requires FunctionSyntax(fs) && Analyze(prefix, imported, fs).Some?
    ensures var r := M.Invoke(M.Source(prefix, imported, fs), f, vs, fuel);
            r.ExprFault? ==> r.reason.Arithmetic? || r.reason.UnknownFunction?
  {
    hide AllElaborated, M.Invoke, N.Invoke, C.Invoke, Analyze, S.Built;
    SourceMeaningKept(prefix, imported, fs, f, vs, fuel);
    AcceptedRunsAgree(prefix, imported, fs, f, vs, fuel);
  }
}
