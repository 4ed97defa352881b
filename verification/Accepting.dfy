/** The analyser accepts a file if and only if the file keeps the rules. */
module Accepting {
  import opened Values
  import opened Arith
  import opened Scopes
  import opened Constants
  import opened Analysis
  import opened Endings
  import opened Resolution
  import opened Assignment
  import opened Widths
  import opened CellMatch
  import opened Elaboration
  import opened Paths
  import opened ReadyCells
  import C = Checked
  import M = Meaning
  import R = Rules
  import S = Syntax

  // ---------------------------------------------------------------- constants

  /** The constant evaluator says of the checked expression what the rules say of the source. */
  ghost predicate SameConstant(c: C.Expr, e: S.Expr) {
    EvalInt(c) == R.IntOf(e) && EvalUint(c) == R.UintOf(e)
  }

  lemma {:induction false} IntFits(e: S.Expr)
    ensures R.IntOf(e).Some? ==> IsInt64(R.IntOf(e).value)
    ensures R.UintOf(e).Some? ==> IsUint64(R.UintOf(e).value)
  {
    hide ExactOp;
  }

  lemma NotEvaluated(op: BinaryOp, a: int, b: int)
    requires !IsEvaluated(op)
    ensures EvalIntBinary(op, a, b).None? && EvalUintBinary(op, a, b).None? && ExactOp(I64, op, a, b).None? &&
            ExactOp(U64, op, a, b).None?
  {}

  lemma BinaryConstant(t: ValueType, op: BinaryOp, l: C.Expr, r: C.Expr, left: S.Expr, right: S.Expr)
    requires SameConstant(l, left) && SameConstant(r, right)
    ensures SameConstant(C.Binary(t, op, l, r), S.Binary(op, left, right))
  {
    hide EvalIntBinary, EvalUintBinary, ExactOp;
    IntFits(left);
    IntFits(right);
    if EvalInt(l).Some? && EvalInt(r).Some? {
      if IsEvaluated(op) {
        IntStepExact(op, EvalInt(l).value, EvalInt(r).value);
      } else {
        NotEvaluated(op, EvalInt(l).value, EvalInt(r).value);
      }
    }
    if EvalUint(l).Some? && EvalUint(r).Some? {
      if IsEvaluated(op) {
        UintStepExact(op, EvalUint(l).value, EvalUint(r).value);
      } else {
        NotEvaluated(op, EvalUint(l).value, EvalUint(r).value);
      }
    }
  }

  // ---------------------------------------------------------------- expressions

  /** What the table says of a name is what the name means; what it does not have means nothing. */
  ghost predicate Visible(src: M.Source, funcs: Funcs) {
    forall name :: M.SignatureOf(src.prefix, src.imported, src.functions, name) ==
                   if FindFunc(funcs, name).Some? then Some(SymbolSignature(funcs[FindFunc(funcs, name).value]))
                     else None
  }

  /** The expression is accepted exactly if it keeps the rules, with the type it has by them. */
  ghost predicate KeptAlike(e: S.Expr, c: Option<C.Expr>, t: Option<ValueType>) {
    (c.Some? <==> t.Some?) && (c.Some? ==> c.value.t == t.value && SameConstant(c.value, e))
  }

  lemma InRangeFits(t: ValueType, v: int)
    requires IsInt64(v)
    ensures IsSigned(t) ==> (SignedFits(t, v) <==> InRange(t, v))
  {}

  lemma UintFits(t: ValueType, v: int)
    requires v >= 0 && IsInteger(t)
    ensures UintLiteralFits(t, v) <==> InRange(t, v)
    ensures IsSigned(t) ==> (NegatedLiteralFits(t, v) <==> InRange(t, -v))
    ensures InRange(t, v) ==> v <= UINT64_MAX
    ensures IsSigned(t) && InRange(t, -v) ==> v <= UINT64_MAX
  {}

  lemma NumberKept(n: nat, want: ValueType)
    ensures KeptAlike(S.Number(n), ResolveNumber(n, want), R.NumberType(if IsInteger(want) then want else I64, n))
  {
    hide InRange, UintLiteralFits;
    UintFits(if IsInteger(want) then want else I64, n);
  }

  lemma MinusNumberKept(n: nat, want: ValueType)
    ensures KeptAlike(S.Unary(S.Minus, S.Number(n)), ResolveNegatedNumber(n, want),
                      if IsUnsigned(want) then None
                      else R.NumberType(if IsSigned(want) then want else I64, -(n as int)))
  {
    hide InRange, NegatedLiteralFits;
    UintFits(if IsSigned(want) then want else I64, n);
  }

  lemma NameKept(stack: Stack, scopes: M.Scopes, name: string)
    requires Ready(stack, scopes)
    ensures KeptAlike(S.Identifier(name), ResolveIdentifier(stack, name), R.ReadType(scopes, name))
  {
    hide Ready, Lookup;
    ReadyFound(stack, scopes, name);
  }

  lemma CountKept(stack: Stack, scopes: M.Scopes, kind: S.UnaryKind, a: S.Expr)
    requires Ready(stack, scopes) && !kind.Minus? && !kind.Tilde? && !kind.Bang?
    ensures KeptAlike(S.Unary(kind, a), ResolveIncrement(stack, kind, a), R.CountType(scopes, a))
  {
    hide Ready, Lookup, M.CellOf;
    if a.Identifier? {
      ReadyFound(stack, scopes, a.name);
    }
  }

  /** The analyser's checks of a binary node are those of the rules. */
  lemma FinishKept(op: BinaryOp, l: C.Expr, r: C.Expr, left: S.Expr, right: S.Expr)
    requires SameConstant(l, left) && SameConstant(r, right)
    ensures KeptAlike(S.Binary(op, left, right), FinishBinary(op, l, r), R.OperatorType(op, l.t, r.t, left, right))
  {
    hide InRange, EvalInt, EvalUint, R.IntOf, R.UintOf;
    if IsLogical(op) || IsShift(op) {
      PlainKept(op, l, r, left, right);
    } else if IsRelational(op) {
      RelationKept(op, l, r, left, right);
    } else {
      ArithmeticKept(op, l, r, left, right);
    }
  }

  lemma PlainKept(op: BinaryOp, l: C.Expr, r: C.Expr, left: S.Expr, right: S.Expr)
    requires (IsLogical(op) || IsShift(op)) && SameConstant(l, left) && SameConstant(r, right)
    ensures KeptAlike(S.Binary(op, left, right), FinishBinary(op, l, r), R.OperatorType(op, l.t, r.t, left, right))
  {
    hide EvalInt, EvalUint, R.IntOf, R.UintOf;
    BinaryConstant(if IsLogical(op) then Bool else l.t, op, l, r, left, right);
  }

  lemma RelationKept(op: BinaryOp, l: C.Expr, r: C.Expr, left: S.Expr, right: S.Expr)
    requires IsRelational(op) && SameConstant(l, left) && SameConstant(r, right)
    ensures KeptAlike(S.Binary(op, left, right), FinishBinary(op, l, r), R.OperatorType(op, l.t, r.t, left, right))
  {
    hide EvalInt, EvalUint, R.IntOf, R.UintOf, SameGroup, WidthBits, IsScalar;
    BinaryConstant(Bool, op, l, r, left, right);
    SameTypes(l.t, r.t);
    ScalarGroup(l.t);
  }

  lemma ScalarGroup(t: ValueType)
    ensures IsScalar(t) ==> SameGroup(t, t)
  {}

  lemma ArithmeticKept(op: BinaryOp, l: C.Expr, r: C.Expr, left: S.Expr, right: S.Expr)
    requires !IsLogical(op) && !IsShift(op) && !IsRelational(op) && SameConstant(l, left) && SameConstant(r, right)
    ensures KeptAlike(S.Binary(op, left, right), FinishBinary(op, l, r), R.OperatorType(op, l.t, r.t, left, right))
  {
    hide EvalInt, EvalUint, R.IntOf, R.UintOf, SameGroup, InRange, IsSigned, IsUnsigned, Promote, NoOverflow,
         IsConstantZero;
    GroupOperands(l.t, r.t);
    if SameGroup(l.t, r.t) && IsInteger(l.t) {
      var t := Promote(l.t, r.t);
      BinaryConstant(t, op, l, r, left, right);
      OverflowKept(op, t, l, r, left, right);
      assert t == M.ResultType(op, l.t, r.t) by { PromotedType(op, l.t, r.t); }
    }
  }

  lemma PromotedType(op: BinaryOp, t: ValueType, u: ValueType)
    requires !IsLogical(op) && !IsShift(op) && !IsRelational(op)
    ensures Promote(t, u) == M.ResultType(op, t, u)
  {}

  lemma GroupOperands(t: ValueType, u: ValueType)
    ensures SameGroup(t, u) && IsInteger(t) <==> (IsSigned(t) && IsSigned(u)) || (IsUnsigned(t) && IsUnsigned(u))
    ensures SameGroup(t, u) && IsInteger(t) ==> t != Unresolved && u != Unresolved && IsInteger(Promote(t, u))
  {}

  lemma OverflowKept(op: BinaryOp, t: ValueType, l: C.Expr, r: C.Expr, left: S.Expr, right: S.Expr)
    requires IsInteger(t) && !IsLogical(op) && !IsShift(op) && !IsRelational(op)
    requires SameConstant(l, left) && SameConstant(r, right)
    requires SameConstant(C.Binary(t, op, l, r), S.Binary(op, left, right))
    ensures R.ConstantsFit(op, t, t, left, right) <==>
            !(op.Div? && IsConstantZero(r, IsSigned(t))) && NoOverflow(C.Binary(t, op, l, r), t)
  {
    hide EvalInt, EvalUint, R.IntOf, R.UintOf, InRange, SignedFits, UintLiteralFits;
    var e := S.Binary(op, left, right);
    IntFits(e);
    SignOfInteger(t);
    if IsSigned(t) {
      if R.IntOf(e).Some? {
        InRangeFits(t, R.IntOf(e).value);
      }
    } else if R.UintOf(e).Some? {
      UintFits(t, R.UintOf(e).value);
      UnderflowHasNoValue(op, left, right);
    }
  }

  lemma SignOfInteger(t: ValueType)
    requires IsInteger(t)
    ensures IsSigned(t) <==> !IsUnsigned(t)
  {}

  lemma UnderflowHasNoValue(op: BinaryOp, left: S.Expr, right: S.Expr)
    ensures op.Sub? && R.UintOf(left).Some? && R.UintOf(right).Some? && R.UintOf(left).value < R.UintOf(right).value ==>
              R.UintOf(S.Binary(op, left, right)).None?
  {}

  lemma {:induction false} ExprKept(src: M.Source, funcs: Funcs, stack: Stack, e: S.Expr, want: ValueType,
      scopes: M.Scopes)
    requires Visible(src, funcs) && Ready(stack, scopes)
    ensures KeptAlike(e, ResolveExpr(funcs, stack, e, want), R.TypeOf(src, e, want, scopes))
    decreases e, 2
  {
    hide Visible, Ready, ResolveNumber, ResolveIdentifier, R.NumberType, R.ReadType, EvalInt, EvalUint, R.IntOf,
         R.UintOf;
    match e
    case Number(n) => NumberKept(n, want);
    case Boolean(b) => BooleanKept(b);
    case Identifier(name) => NameKept(stack, scopes, name);
    case Binary(_, _, _) => BinaryKept(src, funcs, stack, e, want, scopes);
    case Unary(_, _) => UnaryKept(src, funcs, stack, e, want, scopes);
    case Cast(a, target) =>
      ExprKept(src, funcs, stack, a, Unresolved, scopes);
      CastKept(a, target, ResolveExpr(funcs, stack, a, Unresolved));
    case Call(_, _) => CallKept(src, funcs, stack, e, want, scopes);
  }

  lemma BooleanKept(b: bool)
    ensures SameConstant(C.Literal(Bool, Flag(b)), S.Boolean(b))
  {}

  lemma CastKept(a: S.Expr, target: ValueType, c: Option<C.Expr>)
    ensures c.Some? ==> SameConstant(C.Cast(target, c.value), S.Cast(a, target)) &&
                        (Castable(c.value.t, target) <==> M.CastAllowed(c.value.t, target))
  {}

  lemma {:induction false} BinaryKept(src: M.Source, funcs: Funcs, stack: Stack, e: S.Expr, want: ValueType,
      scopes: M.Scopes)
    requires e.Binary? && Visible(src, funcs) && Ready(stack, scopes)
    ensures KeptAlike(e, ResolveExpr(funcs, stack, e, want), R.TypeOf(src, e, want, scopes))
    decreases e, 1
  {
    hide Visible, Ready, FinishBinary, R.OperatorType, SameConstant, IsRelational, IsShift, OperandExpected, IsLiteral;
    var w := OperandExpected(e.op, want);
    WantAlike(e.op, want);
    NumeralAlike(e.left);
    NumeralAlike(e.right);
    if IsRelational(e.op) && IsLiteral(e.left) && !IsLiteral(e.right) {
      ExprKept(src, funcs, stack, e.right, w, scopes);
      var r := ResolveExpr(funcs, stack, e.right, w);
      if r.Some? {
        var wl := if r.value.t != Unresolved then r.value.t else w;
        ExprKept(src, funcs, stack, e.left, wl, scopes);
        ExprKept(src, funcs, stack, e.left, r.value.t, scopes);
        OperandsKept(e, ResolveExpr(funcs, stack, e.left, wl), r);
        OperandsKept(e, ResolveExpr(funcs, stack, e.left, r.value.t), r);
      }
    } else {
      ExprKept(src, funcs, stack, e.left, w, scopes);
      var l := ResolveExpr(funcs, stack, e.left, w);
      if l.Some? {
        var wr := if !IsShift(e.op) && l.value.t != Unresolved then l.value.t else w;
        var wr' := if IsShift(e.op) then w else l.value.t;
        ExprKept(src, funcs, stack, e.right, wr, scopes);
        ExprKept(src, funcs, stack, e.right, wr', scopes);
        OperandsKept(e, l, ResolveExpr(funcs, stack, e.right, wr));
        OperandsKept(e, l, ResolveExpr(funcs, stack, e.right, wr'));
      }
    }
  }

  lemma WantAlike(op: BinaryOp, want: ValueType)
    ensures OperandExpected(op, want) == M.OperandWant(op, want)
  {}

  lemma NumeralAlike(e: S.Expr)
    ensures IsLiteral(e) <==> M.IsNumeral(e)
  {}

  /** An operand of no known type is not accepted, whatever the other is resolved to. */
  lemma OperandsKept(e: S.Expr, l: Option<C.Expr>, r: Option<C.Expr>)
    requires e.Binary?
    ensures l.Some? && r.Some? && SameConstant(l.value, e.left) && SameConstant(r.value, e.right) ==>
              KeptAlike(e, FinishBinary(e.op, l.value, r.value),
                        R.OperatorType(e.op, l.value.t, r.value.t, e.left, e.right))
    ensures l.Some? && r.Some? && (l.value.t == Unresolved || r.value.t == Unresolved) ==>
              FinishBinary(e.op, l.value, r.value).None?
    ensures forall t, u :: t == Unresolved || u == Unresolved ==> R.OperatorType(e.op, t, u, e.left, e.right).None?
  {
    hide SameConstant, EvalInt, NoOverflow, IsConstantZero, KeptAlike, R.ConstantsFit, M.OperandsFit;
    if l.Some? && r.Some? && SameConstant(l.value, e.left) && SameConstant(r.value, e.right) {
      FinishKept(e.op, l.value, r.value, e.left, e.right);
    }
  }

  lemma {:induction false} UnaryKept(src: M.Source, funcs: Funcs, stack: Stack, e: S.Expr, want: ValueType,
      scopes: M.Scopes)
    requires e.Unary? && Visible(src, funcs) && Ready(stack, scopes)
    ensures KeptAlike(e, ResolveExpr(funcs, stack, e, want), R.TypeOf(src, e, want, scopes))
    decreases e, 1
  {
    hide Visible, Ready, SameConstant, ResolveNegatedNumber, ResolveIncrement, R.CountType, R.NumberType, IsSigned;
    var a := e.operand;
    if e.kind.Minus? && a.Number? {
      MinusNumberKept(a.value, want);
    } else if e.kind.Minus? || e.kind.Tilde? || e.kind.Bang? {
      var w := M.UnaryWant(e.kind, want);
      ExprKept(src, funcs, stack, a, w, scopes);
      var c := ResolveExpr(funcs, stack, a, w);
      if c.Some? {
        if c.value.Literal? {
          LiteralFromLiteral(funcs, stack, a, w);
        }
        NegatedConstant(e.kind, a, c.value);
      }
    } else {
      CountKept(stack, scopes, e.kind, a);
    }
  }

  lemma LiteralFromLiteral(funcs: Funcs, stack: Stack, a: S.Expr, want: ValueType)
    requires ResolveExpr(funcs, stack, a, want).Some? && ResolveExpr(funcs, stack, a, want).value.Literal?
    ensures a.Number? || (a.Boolean? && ResolveExpr(funcs, stack, a, want).value.t.Bool?)
  {
    hide FinishBinary;
    if a.Binary? {
      BinaryIsBinary(funcs, stack, a, want);
    }
  }

  lemma BinaryIsBinary(funcs: Funcs, stack: Stack, a: S.Expr, want: ValueType)
    requires a.Binary? && ResolveExpr(funcs, stack, a, want).Some?
    ensures ResolveExpr(funcs, stack, a, want).value.Binary?
  {
    hide FinishBinary, OperandExpected, IsRelational, IsShift;
    forall l: C.Expr, r: C.Expr | FinishBinary(a.op, l, r).Some? ensures FinishBinary(a.op, l, r).value.Binary? {
      FinishShape(a.op, l, r);
    }
  }

  lemma NegatedConstant(kind: S.UnaryKind, a: S.Expr, c: C.Expr)
    requires SameConstant(c, a) && !(kind.Minus? && a.Number?) && (c.Literal? ==> a.Number? || c.t.Bool?)
    requires kind.Minus? || kind.Tilde? || kind.Bang?
    ensures kind.Minus? && IsSigned(c.t) ==> SameConstant(C.Unary(c.t, Negate, c), S.Unary(kind, a))
    ensures kind.Tilde? ==> SameConstant(C.Unary(c.t, BitNot, c), S.Unary(kind, a))
    ensures kind.Bang? ==> SameConstant(C.Unary(Bool, LogNot, c), S.Unary(kind, a))
  {
    IntFits(a);
  }

  lemma {:induction false} CallKept(src: M.Source, funcs: Funcs, stack: Stack, e: S.Expr, want: ValueType,
      scopes: M.Scopes)
    requires e.Call? && Visible(src, funcs) && Ready(stack, scopes)
    ensures KeptAlike(e, ResolveExpr(funcs, stack, e, want), R.TypeOf(src, e, want, scopes))
    decreases e, 1
  {
    hide Visible, Ready, M.SignatureOf;
    VisibleAt(src, funcs, e.callee);
    if FindFunc(funcs, e.callee).Some? {
      var f := funcs[FindFunc(funcs, e.callee).value];
      if |e.args| == |f.params| {
        ArgsKept(src, funcs, stack, e.args, f.params, scopes);
      }
    }
  }

  lemma VisibleAt(src: M.Source, funcs: Funcs, name: string)
    requires Visible(src, funcs)
    ensures M.SignatureOf(src.prefix, src.imported, src.functions, name) ==
            if FindFunc(funcs, name).Some? then Some(SymbolSignature(funcs[FindFunc(funcs, name).value])) else None
  {}

  lemma ConvertsWidens(from: ValueType, to: ValueType)
    ensures Converts(from, to) <==> M.Widens(from, to)
  {}

  lemma {:induction false} ArgsKept(src: M.Source, funcs: Funcs, stack: Stack, args: seq<S.Expr>,
      params: seq<ValueType>, scopes: M.Scopes)
    requires |args| == |params| && Visible(src, funcs) && Ready(stack, scopes)
    ensures ResolveArgs(funcs, stack, args, params).Some? <==> R.ArgsFit(src, args, params, scopes)
    decreases args, 0
  {
    hide Visible, Ready, SameConstant, ResolveExpr, R.TypeOf, Converts, M.Widens;
    if |args| > 0 {
      ExprKept(src, funcs, stack, args[0], params[0], scopes);
      var c := ResolveExpr(funcs, stack, args[0], params[0]);
      if c.Some? {
        ConvertsWidens(c.value.t, params[0]);
        ArgsKept(src, funcs, stack, args[1..], params[1..], scopes);
      }
    }
  }

  /** A value that may be stored at type `t`. */
  lemma ValueKept(src: M.Source, funcs: Funcs, stack: Stack, e: S.Expr, t: ValueType, scopes: M.Scopes)
    requires Visible(src, funcs) && Ready(stack, scopes)
    ensures var c := ResolveExpr(funcs, stack, e, t);
            c.Some? && Converts(c.value.t, t) <==> R.ValueFits(t, R.TypeOf(src, e, t, scopes))
  {
    hide Visible, Ready, SameConstant, ResolveExpr, R.TypeOf, Converts, M.Widens;
    ExprKept(src, funcs, stack, e, t, scopes);
    var c := ResolveExpr(funcs, stack, e, t);
    if c.Some? {
      ConvertsWidens(c.value.t, t);
    }
  }

  // ---------------------------------------------------------------- ways

  lemma {:induction false} WayAlike(cx: Context, st: State, s: S.Stmt, choices: seq<bool>)
    requires ResolveStmt(cx, st, s).Some?
    ensures var w := Walk(ResolveStmt(cx, st, s).value.node, choices);
            R.Way(s, choices) == if w.Ends? then Some(w.rest) else None
    decreases |choices|, s, 1
  {
    hide ResolveExpr, ResolveCondition, Insert, Replace, Lookup, Flags, WithFlags, Intersect, AfterBranch, ResolveInit;
    match s
    case Decl(_, _, _, _) =>
    case Assign(_, _) =>
    case Block(stmts) => WaysAlike(cx, st.(stack := st.stack + [[]]), stmts, choices);
    case If(_, thn, els) =>
      if |choices| > 0 {
        WayAlike(cx, st, thn, choices[1..]);
        if els.Some? {
          var a := ResolveStmt(cx, st, thn).value;
          WayAlike(cx, a.st.(stack := WithFlags(a.st.stack, Flags(st.stack))), els.value, choices[1..]);
        }
      }
    case While(_, body) =>
      if |choices| > 0 && choices[0] {
        WayAlike(cx, st, body, choices[1..]);
        var w := Walk(ResolveStmt(cx, st, body).value.node, choices[1..]);
        if w.Ends? {
          WayAlike(cx, st, s, w.rest);
        }
      }
    case Return(_) =>
    case ExprStmt(_) =>
  }

  lemma {:induction false} WaysAlike(cx: Context, st: State, stmts: seq<S.Stmt>, choices: seq<bool>)
    requires ResolveAll(cx, st, stmts).Some?
    ensures var w := WalkAll(ResolveAll(cx, st, stmts).value.node, choices);
            R.WayThrough(stmts, choices) == if w.Ends? then Some(w.rest) else None
    decreases |choices|, stmts, 0
  {
    hide ResolveStmt, Walk, R.Way;
    if |stmts| > 0 {
      WayAlike(cx, st, stmts[0], choices);
      var a := ResolveStmt(cx, st, stmts[0]).value;
      var rest := ResolveAll(cx, a.st, stmts[1..]).value;
      assert ([a.node] + rest.node)[1..] == rest.node;
      var w := Walk(a.node, choices);
      if w.Ends? {
        WaysAlike(cx, a.st, stmts[1..], w.rest);
      }
    }
  }

  /** A statement always returns by the analyser's rule exactly if no way through the source comes to its end. */
  lemma ReturnsAlike(cx: Context, st: State, s: S.Stmt)
    requires ResolveStmt(cx, st, s).Some?
    ensures AlwaysReturns(ResolveStmt(cx, st, s).value.node) <==> R.NeverEnds(s)
  {
    hide ResolveStmt, Walk, R.Way, AlwaysReturns;
    var node := ResolveStmt(cx, st, s).value.node;
    AlwaysReturnsExactly(node);
    if AlwaysReturns(node) {
      forall choices: seq<bool> ensures R.Way(s, choices).None? {
        WayAlike(cx, st, s, choices);
      }
    } else {
      var choices: seq<bool> :| Walk(node, choices).Ends?;
      WayAlike(cx, st, s, choices);
    }
  }

  // ---------------------------------------------------------------- statements

  /** The statement is accepted exactly if it keeps the rules, and leaves what it does by them. */
  ghost predicate StmtAccepted(d: Option<Done<C.Stmt>>, r: Option<M.Scopes>) {
    (d.Some? <==> r.Some?) && (d.Some? ==> Ready(d.value.st.stack, r.value))
  }

  lemma {:induction false} StmtKept(src: M.Source, cx: Context, st: State, s: S.Stmt, scopes: M.Scopes)
    requires Visible(src, cx.funcs) && Ready(st.stack, scopes) && Good(st) && S.Built(s)
    ensures StmtAccepted(ResolveStmt(cx, st, s), R.Check(src, cx.params, cx.ret, s, scopes))
    decreases s, 2
  {
    hide Visible, Ready, Good, ResolveExpr, R.TypeOf, R.ValueFits, Converts;
    match s
    case Decl(_, _, _, _) => DeclKept(src, cx, st, s, scopes);
    case Assign(_, _) => AssignKept(src, cx, st, s, scopes);
    case Block(_) => BlockKept(src, cx, st, s, scopes);
    case If(_, _, _) => IfKept(src, cx, st, s, scopes);
    case While(_, _) => WhileKept(src, cx, st, s, scopes);
    case Return(result) =>
      if result.Some? {
        ValueKept(src, cx.funcs, st.stack, result.value, cx.ret, scopes);
        NothingFitsVoid(R.TypeOf(src, result.value, cx.ret, scopes));
      }
    case ExprStmt(e) => ExprKept(src, cx.funcs, st.stack, e, Unresolved, scopes);
    case FuncDecl(_, _, _, _, _) =>
  }

  lemma NothingFitsVoid(t: Option<ValueType>)
    ensures !R.ValueFits(Void, t)
  {}

  lemma DeclKept(src: M.Source, cx: Context, st: State, s: S.Stmt, scopes: M.Scopes)
    requires s.Decl? && Visible(src, cx.funcs) && Ready(st.stack, scopes) && Good(st)
    ensures StmtAccepted(ResolveStmt(cx, st, s), R.Check(src, cx.params, cx.ret, s, scopes))
  {
    hide Visible, Ready, Good, ResolveExpr, R.TypeOf, R.ValueFits, Converts, Insert;
    var symbol := Symbol(s.name, s.t, s.quals.isMutable, 0, 0, s.init.Some?);
    StackHeight(st);
    ReadyDeclare(st.stack, scopes, symbol, st.nextId, if s.init.Some? then Some(0) else None);
    if s.init.Some? {
      ValueKept(src, cx.funcs, st.stack, s.init.value, s.t, scopes);
    }
  }

  lemma AssignKept(src: M.Source, cx: Context, st: State, s: S.Stmt, scopes: M.Scopes)
    requires s.Assign? && Visible(src, cx.funcs) && Ready(st.stack, scopes) && Good(st)
    ensures StmtAccepted(ResolveStmt(cx, st, s), R.Check(src, cx.params, cx.ret, s, scopes))
  {
    hide Visible, Ready, Good, ResolveExpr, R.TypeOf, R.ValueFits, Converts, Replace, Lookup, M.CellOf;
    ReadyFound(st.stack, scopes, s.name);
    var sym := Lookup(st.stack, s.name);
    if sym.Some? {
      ValueKept(src, cx.funcs, st.stack, s.value, sym.value.t, scopes);
      ReadyStore(st.stack, scopes, s.name);
    }
  }

  lemma {:induction false} BlockKept(src: M.Source, cx: Context, st: State, s: S.Stmt, scopes: M.Scopes)
    requires s.Block? && Visible(src, cx.funcs) && Ready(st.stack, scopes) && Good(st) && S.Built(s)
    ensures StmtAccepted(ResolveStmt(cx, st, s), R.Check(src, cx.params, cx.ret, s, scopes))
    decreases s, 1
  {
    hide Visible, Ready, Good, ResolveAll, R.CheckAll;
    var inner := st.(stack := st.stack + [[]]);
    GoodPush(st);
    ReadyOpen(st.stack, scopes);
    AllKept(src, cx, inner, s.stmts, scopes + [map[]]);
    var d := ResolveAll(cx, inner, s.stmts);
    if d.Some? {
      ReadyOpen(d.value.st.stack, R.CheckAll(src, cx.params, cx.ret, s.stmts, scopes + [map[]]).value);
    }
  }

  lemma {:induction false} AllKept(src: M.Source, cx: Context, st: State, stmts: seq<S.Stmt>, scopes: M.Scopes)
    requires Visible(src, cx.funcs) && Ready(st.stack, scopes) && Good(st)
    requires forall i :: 0 <= i < |stmts| ==> S.Built(stmts[i])
    ensures var d, r := ResolveAll(cx, st, stmts), R.CheckAll(src, cx.params, cx.ret, stmts, scopes);
            (d.Some? <==> r.Some?) && (d.Some? ==> Ready(d.value.st.stack, r.value))
    decreases stmts, 0
  {
    hide Visible, Ready, Good, ResolveStmt, R.Check, S.Built, Grown;
    if |stmts| > 0 {
      StmtKept(src, cx, st, stmts[0], scopes);
      var a := ResolveStmt(cx, st, stmts[0]);
      if a.Some? {
        ResolveKeeps(cx, st, stmts[0]);
        assert forall i :: 0 <= i < |stmts[1..]| ==> stmts[1..][i] == stmts[i + 1];
        AllKept(src, cx, a.value.st, stmts[1..], R.Check(src, cx.params, cx.ret, stmts[0], scopes).value);
      }
    }
  }

  lemma ConditionKept(src: M.Source, cx: Context, st: State, cond: S.Expr, scopes: M.Scopes)
    requires Visible(src, cx.funcs) && Ready(st.stack, scopes)
    ensures ResolveCondition(cx, st, cond).Some? <==> R.TypeOf(src, cond, Bool, scopes) == Some(Bool)
  {
    hide Visible, Ready, ResolveExpr, R.TypeOf, SameConstant;
    ExprKept(src, cx.funcs, st.stack, cond, Bool, scopes);
  }

  lemma {:induction false} WhileKept(src: M.Source, cx: Context, st: State, s: S.Stmt, scopes: M.Scopes)
    requires s.While? && Visible(src, cx.funcs) && Ready(st.stack, scopes) && Good(st) && S.Built(s)
    ensures StmtAccepted(ResolveStmt(cx, st, s), R.Check(src, cx.params, cx.ret, s, scopes))
    decreases s, 1
  {
    hide Visible, Ready, Good, ResolveCondition, R.TypeOf, Flags, WithFlags, Below, Grown;
    ConditionKept(src, cx, st, s.cond, scopes);
    StmtKept(src, cx, st, s.body, scopes);
    if ResolveStmt(cx, st, s.body).Some? {
      ResolveKeeps(cx, st, s.body);
      PutBack(st.stack, ResolveStmt(cx, st, s.body).value.st.stack);
    }
  }

  lemma {:induction false} IfKept(src: M.Source, cx: Context, st: State, s: S.Stmt, scopes: M.Scopes)
    requires s.If? && Visible(src, cx.funcs) && Ready(st.stack, scopes) && Good(st) && S.Built(s)
    ensures StmtAccepted(ResolveStmt(cx, st, s), R.Check(src, cx.params, cx.ret, s, scopes))
    decreases s, 1
  {
    hide Visible, Ready, Good, ResolveCondition, ResolveStmt, R.TypeOf, R.Check, Flags, WithFlags, Intersect,
         AfterBranch,
         AlwaysReturns, R.NeverEnds, Below, Grown, SameShape, R.Joined;
    ConditionKept(src, cx, st, s.cond, scopes);
    StmtKept(src, cx, st, s.thn, scopes);
    var a := ResolveStmt(cx, st, s.thn);
    if a.Some? {
      ResolveKeeps(cx, st, s.thn);
      PutBack(st.stack, a.value.st.stack);
      var st1 := State(st.stack, a.value.st.nextId);
      GoodMore(st, st1);
      BelowSelf(st.stack);
      ReturnsAlike(cx, st, s.thn);
      var ra := R.Check(src, cx.params, cx.ret, s.thn, scopes).value;
      var skip := AlwaysReturns(a.value.node);
      if s.els.None? {
        ReadyJoined(st.stack, a.value.st.stack, st.stack, ra, scopes, skip, false);
      } else {
        StmtKept(src, cx, st1, s.els.value, scopes);
        var b := ResolveStmt(cx, st1, s.els.value);
        if b.Some? {
          ResolveKeeps(cx, st1, s.els.value);
          ReturnsAlike(cx, st1, s.els.value);
          ReadyJoined(st.stack, a.value.st.stack, b.value.st.stack, ra,
            R.Check(src, cx.params, cx.ret, s.els.value, scopes).value, skip, AlwaysReturns(b.value.node));
        }
      }
    }
    IfResolved(cx, st, s);
    IfChecked(src, cx, s, scopes);
  }

  /** When an `if` is accepted, by its parts. */
  lemma IfResolved(cx: Context, st: State, s: S.Stmt)
    requires s.If?
    ensures ResolveStmt(cx, st, s).Some? <==>
              ResolveCondition(cx, st, s.cond).Some? && ResolveStmt(cx, st, s.thn).Some? &&
              (s.els.Some? ==>
                 var a := ResolveStmt(cx, st, s.thn).value;
                 ResolveStmt(cx, a.st.(stack := WithFlags(a.st.stack, Flags(st.stack))), s.els.value).Some?)
    ensures ResolveStmt(cx, st, s).Some? ==>
              var a := ResolveStmt(cx, st, s.thn).value;
              var st1 := a.st.(stack := WithFlags(a.st.stack, Flags(st.stack)));
              ResolveStmt(cx, st, s).value.st.stack ==
              if s.els.None? then
                WithFlags(st1.stack, Intersect(AfterBranch(a.st.stack, AlwaysReturns(a.node)),
                                               AfterBranch(st1.stack, false)))
              else
                var b := ResolveStmt(cx, st1, s.els.value).value;
                WithFlags(b.st.stack, Intersect(AfterBranch(a.st.stack, AlwaysReturns(a.node)),
                                                AfterBranch(b.st.stack, AlwaysReturns(b.node))))
  {
    hide ResolveCondition, Flags, WithFlags, Intersect, AlwaysReturns, Filled;
  }

  lemma IfChecked(src: M.Source, cx: Context, s: S.Stmt, scopes: M.Scopes)
    requires s.If?
    ensures var a := R.Check(src, cx.params, cx.ret, s.thn, scopes);
            var b := if s.els.Some? then R.Check(src, cx.params, cx.ret, s.els.value, scopes) else Some(scopes);
            R.Check(src, cx.params, cx.ret, s, scopes) ==
            if R.TypeOf(src, s.cond, Bool, scopes) == Some(Bool) && a.Some? && b.Some? then
              Some(R.Joined(a.value, b.value, R.NeverEnds(s.thn), s.els.Some? && R.NeverEnds(s.els.value)))
            else None
  {
    hide R.TypeOf, R.NeverEnds, R.Joined;
  }

  // ---------------------------------------------------------------- functions

  /** The table holds what the imports and the functions of `src` say. */
  ghost predicate TableOf(src: M.Source, funcs: Funcs) {
    Visible(src, funcs) &&
    forall name :: FindFunc(funcs, name).Some? ==>
      (funcs[FindFunc(funcs, name).value].defined <==> R.Defined(src.imported, src.functions, name))
  }

  lemma TableAt(src: M.Source, funcs: Funcs, name: string)
    requires TableOf(src, funcs)
    ensures FindFunc(funcs, name).Some? ==>
              (funcs[FindFunc(funcs, name).value].defined <==> R.Defined(src.imported, src.functions, name))
    ensures M.SignatureOf(src.prefix, src.imported, src.functions, name) ==
            if FindFunc(funcs, name).Some? then Some(SymbolSignature(funcs[FindFunc(funcs, name).value])) else None
  {}

  function SymbolOf(prefix: Option<string>, f: S.Stmt): FuncSymbol
    requires f.FuncDecl?
  {
    FuncSymbol(f.name, M.LinkName(prefix, f), f.ret, ParamTypes(f.params), f.definition.Some?)
  }

  /** A declaration conflicts with nothing exactly if it agrees with what was said before. */
  lemma InsertKept(src: M.Source, funcs: Funcs, f: S.Stmt)
    requires f.FuncDecl? && TableOf(src, funcs)
    ensures InsertFunc(funcs, SymbolOf(src.prefix, f), f.quals.isExtern).Some? <==>
            !(f.quals.isExtern && f.definition.Some?) && R.Agrees(src, f)
  {
    hide M.SignatureOf, FindFunc, R.Defined, M.LinkName, ParamTypes, TableOf;
    TableAt(src, funcs, f.name);
    TypesAlike(f.params);
  }

  lemma {:induction false} SignatureAppended(prefix: Option<string>, imported: Funcs, fs: seq<S.Stmt>, f: S.Stmt,
      name: string)
    requires f.FuncDecl?
    ensures M.SignatureOf(prefix, imported, fs + [f], name) ==
            if M.SignatureOf(prefix, imported, fs, name).Some? then M.SignatureOf(prefix, imported, fs, name)
            else if f.name == name then Some(SymbolSignature(SymbolOf(prefix, f))) else None
    decreases |imported|, |fs|
  {
    if |imported| > 0 {
      SignatureAppended(prefix, imported[1..], fs, f, name);
    } else if |fs| > 0 {
      assert (fs + [f])[1..] == fs[1..] + [f];
      SignatureAppended(prefix, [], fs[1..], f, name);
    } else {
      TypesAlike(f.params);
      assert (fs + [f])[1..] == [];
    }
  }

  lemma DefinedAppended(imported: Funcs, fs: seq<S.Stmt>, f: S.Stmt, name: string)
    requires f.FuncDecl?
    ensures R.Defined(imported, fs + [f], name) <==>
            R.Defined(imported, fs, name) || (f.name == name && f.definition.Some?)
  {
    hide FindFunc;
    var more := fs + [f];
    assert forall i :: 0 <= i < |fs| ==> more[i] == fs[i];
    assert more[|fs|] == f;
  }

  lemma {:induction false} SignatureOfOne(prefix: Option<string>, fs: seq<S.Stmt>, i: nat)
    requires i < |fs| && fs[i].FuncDecl?
    ensures M.SignatureOf(prefix, [], fs, fs[i].name).Some?
    decreases i
  {
    hide M.LinkName;
    if i > 0 {
      SignatureOfOne(prefix, fs[1..], i - 1);
    }
  }

  lemma DefinedIsSaid(src: M.Source, name: string)
    requires R.Defined(src.imported, src.functions, name)
    ensures M.SignatureOf(src.prefix, src.imported, src.functions, name).Some?
  {
    hide M.SignatureOf, FindFunc;
    SignatureSplit(src.prefix, src.imported, src.functions, name);
    if FindFunc(src.imported, name).None? {
      var i :| 0 <= i < |src.functions| && src.functions[i].FuncDecl? && src.functions[i].name == name;
      SignatureOfOne(src.prefix, src.functions, i);
    }
  }

  function With(src: M.Source, f: S.Stmt): M.Source {
    src.(functions := src.functions + [f])
  }

  lemma TableNext(src: M.Source, funcs: Funcs, f: S.Stmt)
    requires f.FuncDecl? && TableOf(src, funcs) && InsertFunc(funcs, SymbolOf(src.prefix, f), f.quals.isExtern).Some?
    ensures TableOf(With(src, f), InsertFunc(funcs, SymbolOf(src.prefix, f), f.quals.isExtern).value)
  {
    hide M.SignatureOf, FindFunc, R.Defined, TableOf, SymbolOf;
    var symbol := SymbolOf(src.prefix, f);
    var table := InsertFunc(funcs, symbol, f.quals.isExtern).value;
    SymbolNamed(src.prefix, f);
    forall name
      ensures M.SignatureOf(src.prefix, src.imported, With(src, f).functions, name) ==
              if FindFunc(table, name).Some? then Some(SymbolSignature(table[FindFunc(table, name).value])) else None
      ensures FindFunc(table, name).Some? ==>
                (table[FindFunc(table, name).value].defined <==> R.Defined(src.imported, With(src, f).functions, name))
    {
      TableAt(src, funcs, name);
      TableAt(src, funcs, f.name);
      SignatureAppended(src.prefix, src.imported, src.functions, f, name);
      DefinedAppended(src.imported, src.functions, f, name);
      if R.Defined(src.imported, src.functions, name) {
        DefinedIsSaid(src, name);
      }
      if FindFunc(funcs, f.name).None? {
        FindAppended(funcs, symbol, name);
      } else {
        var i := FindFunc(funcs, f.name).value;
        FindUpdated(funcs, i, funcs[i].(defined := symbol.defined || funcs[i].defined), name);
      }
    }
    TableFrom(With(src, f), table);
  }

  lemma SymbolNamed(prefix: Option<string>, f: S.Stmt)
    requires f.FuncDecl?
    ensures SymbolOf(prefix, f).name == f.name && SymbolOf(prefix, f).defined == f.definition.Some?
  {
    hide M.LinkName;
  }

  lemma TableFrom(src: M.Source, funcs: Funcs)
    requires forall name :: M.SignatureOf(src.prefix, src.imported, src.functions, name) ==
               if FindFunc(funcs, name).Some? then Some(SymbolSignature(funcs[FindFunc(funcs, name).value])) else None
    requires forall name :: FindFunc(funcs, name).Some? ==>
               (funcs[FindFunc(funcs, name).value].defined <==> R.Defined(src.imported, src.functions, name))
    ensures TableOf(src, funcs)
  {
    hide M.SignatureOf, FindFunc, R.Defined;
  }

  lemma BodyAccepted(src: M.Source, funcs: Funcs, link: string, st: State, f: S.Stmt)
    requires f.FuncDecl? && f.definition.Some? && S.Built(f) && st.stack == [[]] && DistinctNames(f.params)
    requires Visible(With(src, f), funcs)
    ensures ResolveBody(funcs, link, st, f).Some? <==> R.BodyKept(src, f)
  {
    hide Visible, Good, DeclareParams, ResolveStmt, R.Check, R.NeverEnds, AlwaysReturns, Ready, M.Bind;
    var inner := st.(stack := st.stack + [[]]);
    assert inner.stack == [[], []];
    GoodStart(st.nextId);
    GoodPush(State([[]], st.nextId));
    NothingDeclared(f.params);
    ParamsDeclared(inner, f.params);
    DeclareShape(inner, f.params);
    var d := DeclareParams(inner, f.params).value;
    var vs := R.Zeros(|f.params|);
    StartReady();
    ReadyParams(inner, f.params, vs, map[]);
    assert map[] + M.Bind(f.params, vs) == M.Bind(f.params, vs);
    var cx := Context(funcs, ParamNames(f.params), f.ret);
    assert ParamNames(f.params) == R.Names(f.params);
    StmtKept(With(src, f), cx, d.st, f.definition.value, [map[], M.Bind(f.params, vs)]);
    if ResolveStmt(cx, d.st, f.definition.value).Some? {
      ReturnsAlike(cx, d.st, f.definition.value);
    }
  }

  lemma NothingDeclared(params: seq<S.Param>)
    ensures forall i :: 0 <= i < |params| ==> FindIn([], params[i].name).None?
  {}

  lemma StartReady()
    ensures Ready([[], []], [map[], map[]])
  {
    StartTyped();
  }

  /** One function, accepted exactly if it keeps the rules behind those before it. */
  lemma FunctionAccepted(src: M.Source, funcs: Funcs, st: State, f: S.Stmt)
    requires f.FuncDecl? && S.Built(f) && st.stack == [[]] && TableOf(src, funcs)
    ensures ResolveFunction(src.prefix, funcs, st, f).Some? <==> R.FunctionKept(src, f)
    ensures ResolveFunction(src.prefix, funcs, st, f).Some? ==>
              var d := ResolveFunction(src.prefix, funcs, st, f).value;
              d.st.stack == [[]] && TableOf(With(src, f), d.funcs)
  {
    hide TableOf, InsertFunc, ResolveBody, R.BodyKept, R.Agrees, S.Built, M.LinkName, Mangling.MangleFunction, Analyzed;
    InsertKept(src, funcs, f);
    LinkAlike(src.prefix, f);
    if ResolveFunction(src.prefix, funcs, st, f).Some? {
      FunctionAnalyzed(src.prefix, funcs, st, f);
      TableKept(src.prefix, funcs, st, f);
    }
    if InsertFunc(funcs, SymbolOf(src.prefix, f), f.quals.isExtern).Some? {
      TableNext(src, funcs, f);
      if f.definition.Some? && DistinctNames(f.params) {
        var table := InsertFunc(funcs, SymbolOf(src.prefix, f), f.quals.isExtern).value;
        TableVisible(With(src, f), table);
        BodyAccepted(src, table, M.LinkName(src.prefix, f), st, f);
      }
    }
  }

  lemma LinkAlike(prefix: Option<string>, f: S.Stmt)
    requires f.FuncDecl?
    ensures M.LinkName(prefix, f) == Mangling.MangleFunction(prefix, f.name, f.quals.isExtern)
  {}

  lemma TableVisible(src: M.Source, funcs: Funcs)
    requires TableOf(src, funcs)
    ensures Visible(src, funcs)
  {
    hide M.SignatureOf, FindFunc, R.Defined;
  }

  lemma TableKept(prefix: Option<string>, funcs: Funcs, st: State, f: S.Stmt)
    requires f.FuncDecl? && ResolveFunction(prefix, funcs, st, f).Some?
    ensures InsertFunc(funcs, SymbolOf(prefix, f), f.quals.isExtern) ==
            Some(ResolveFunction(prefix, funcs, st, f).value.funcs)
  {
    hide DeclareParams, ResolveStmt, InsertFunc, AlwaysReturns, Mangling.MangleFunction;
  }

  // ---------------------------------------------------------------- files

  ghost predicate KeptFrom(src: M.Source, fs: seq<S.Stmt>)
    requires forall i :: 0 <= i < |fs| ==> fs[i].FuncDecl?
    decreases |fs|
  {
    |fs| == 0 || (R.FunctionKept(src, fs[0]) && KeptFrom(With(src, fs[0]), fs[1..]))
  }

  lemma {:induction false} FileAccepted(src: M.Source, funcs: Funcs, st: State, fs: seq<S.Stmt>)
    requires FunctionSyntax(fs) && st.stack == [[]] && TableOf(src, funcs)
    ensures ResolveProgram(src.prefix, funcs, st, fs).Some? <==> KeptFrom(src, fs)
    decreases |fs|
  {
    hide TableOf, ResolveFunction, R.FunctionKept, S.Built;
    if |fs| > 0 {
      FunctionAccepted(src, funcs, st, fs[0]);
      var d := ResolveFunction(src.prefix, funcs, st, fs[0]);
      if d.Some? {
        assert forall i :: 0 <= i < |fs[1..]| ==> fs[1..][i] == fs[i + 1];
        FileAccepted(With(src, fs[0]), d.value.funcs, d.value.st, fs[1..]);
      }
    }
  }

  ghost predicate KeptAt(src: M.Source, fs: seq<S.Stmt>, i: nat)
    requires i < |fs| && fs[i].FuncDecl?
  {
    R.FunctionKept(src.(functions := src.functions + fs[..i]), fs[i])
  }

  lemma {:induction false} KeptEach(src: M.Source, fs: seq<S.Stmt>)
    requires forall i :: 0 <= i < |fs| ==> fs[i].FuncDecl?
    ensures KeptFrom(src, fs) <==> forall i :: 0 <= i < |fs| ==> KeptAt(src, fs, i)
    decreases |fs|
  {
    hide R.FunctionKept;
    if |fs| > 0 {
      assert src.functions + fs[..0] == src.functions;
      assert KeptAt(src, fs, 0) <==> R.FunctionKept(src, fs[0]);
      assert forall i :: 0 <= i < |fs[1..]| ==> fs[1..][i] == fs[i + 1];
      KeptEach(With(src, fs[0]), fs[1..]);
      forall i | 0 <= i < |fs[1..]| ensures KeptAt(With(src, fs[0]), fs[1..], i) <==> KeptAt(src, fs, i + 1) {
        assert src.functions + [fs[0]] + fs[1..][..i] == src.functions + fs[..i + 1];
      }
      if KeptFrom(src, fs) {
        forall i | 0 <= i < |fs| ensures KeptAt(src, fs, i) {
          if i > 0 {
            assert KeptAt(With(src, fs[0]), fs[1..], i - 1);
          }
        }
      } else if R.FunctionKept(src, fs[0]) {
        var i :| 0 <= i < |fs[1..]| && !KeptAt(With(src, fs[0]), fs[1..], i);
        assert !KeptAt(src, fs, i + 1);
      }
    }
  }

  /** The table a file begins with holds what the imports say. */
  lemma ImportedTable(prefix: Option<string>, imported: Funcs)
    ensures TableOf(M.Source(prefix, imported, []), imported)
  {
    hide M.SignatureOf, FindFunc;
    forall name
      ensures M.SignatureOf(prefix, imported, [], name) ==
              if FindFunc(imported, name).Some? then Some(SymbolSignature(imported[FindFunc(imported, name).value]))
              else None
    {
      SignatureSplit(prefix, imported, [], name);
      NothingSaid(prefix, name);
    }
  }

  lemma NothingSaid(prefix: Option<string>, name: string)
    ensures M.SignatureOf(prefix, [], [], name).None?
  {}

  /** A file is accepted if and only if every function of it keeps the rules: nothing that keeps them is rejected,
    * and nothing else is accepted. */
  lemma AcceptedExactly(prefix: Option<string>, imported: Funcs, fs: seq<S.Stmt>)
    requires FunctionSyntax(fs)
    ensures Analyze(prefix, imported, fs).Some? <==> R.FileKept(prefix, imported, fs)
  {
    hide TableOf, ResolveProgram, R.FunctionKept, S.Built, KeptFrom;
    var src := M.Source(prefix, imported, []);
    ImportedTable(prefix, imported);
    FileAccepted(src, imported, State([[]], 0), fs);
    KeptEach(src, fs);
    forall i | 0 <= i < |fs|
      ensures KeptAt(src, fs, i) <==> R.FunctionKept(M.Source(prefix, imported, fs[..i]), fs[i])
    {
      assert [] + fs[..i] == fs[..i];
    }
  }
}
