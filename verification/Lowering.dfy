/** Flattening checked trees into intermediate code. The functions say which operations a tree
  * becomes; the generator's methods append exactly those, bumping the temporary and label
  * counters in place. A destination hint makes an operation write its result straight into the
  * variable being assigned. */
module Lowering {
  import opened Values
  import opened Arith
  import opened Names
  import opened Ir
  import C = Checked

  // ---------------------------------------------------------------- the code of a tree

  /** Operations, the operand that holds the result, and the next free temporary. */
  datatype ExprCode = ExprCode(ops: seq<Operation>, result: Operand, temps: nat)
  datatype ArgsCode = ArgsCode(ops: seq<Operation>, results: seq<Operand>, temps: nat)

  /** Operations and the next free temporary and label. */
  datatype StmtCode = StmtCode(ops: seq<Operation>, temps: nat, labels: nat)

  /** Where an operation writes: the hint if there is one, else a new temporary. */
  function Destination(hint: Operand, t: ValueType, n: nat): Operand {
    if hint.NoOperand? then Temporary(n, t) else hint
  }

  function AfterDestination(hint: Operand, n: nat): nat {
    if hint.NoOperand? then n + 1 else n
  }

  function LowerExpr(e: C.Expr, hint: Operand, n: nat): (c: ExprCode)
    ensures c.temps >= n
    decreases e, 1
  {
    match e
    case Literal(t, number) => ExprCode([], Immediate(number, t), n)
    case Ident(t, name, id) => ExprCode([], Variable(MangleVariable(name, id), t), n)
    case Binary(t, op, l, r) =>
      var L := LowerExpr(l, NoOperand, n);
      var R := LowerExpr(r, NoOperand, L.temps);
      var dst := Destination(hint, t, R.temps);
      ExprCode(L.ops + R.ops + [Bin(op, dst, L.result, R.result)], dst, AfterDestination(hint, R.temps))
    case Unary(t, uop, a) =>
      var A := LowerExpr(a, NoOperand, n);
      var dst := Destination(hint, t, A.temps);
      ExprCode(A.ops + [Un(uop, dst, A.result)], dst, AfterDestination(hint, A.temps))
    case Increment(t, up, postfix, name, id) =>
      var variable := Variable(MangleVariable(name, id), t);
      var updated := Temporary(n, t);
      var bump := Bin(if up then Add else Sub, updated, variable, Immediate(1, t));
      if postfix then
        ExprCode([Assign(Temporary(n + 1, t), variable), bump, Assign(variable, updated)], Temporary(n + 1, t), n + 2)
      else
        ExprCode([bump, Assign(variable, updated)], updated, n + 1)
    case Cast(t, a) =>
      var A := LowerExpr(a, NoOperand, n);
      var dst := Destination(hint, t, A.temps);
      ExprCode(A.ops + [CastTo(dst, A.result)], dst, AfterDestination(hint, A.temps))
    case Call(t, f, args) =>
      var A := LowerArgs(args, n);
      if t.Void? then
        ExprCode(A.ops + Params(A.results) + [Call(NoOperand, f)], NoOperand, A.temps)
      else
        var dst := Destination(hint, t, A.temps);
        ExprCode(A.ops + Params(A.results) + [Call(dst, f)], dst, AfterDestination(hint, A.temps))
  }

  function LowerArgs(args: seq<C.Expr>, n: nat): (c: ArgsCode)
    ensures c.temps >= n && |c.results| == |args|
    decreases args, 0
  {
    if |args| == 0 then ArgsCode([], [], n)
    else
      var A := LowerExpr(args[0], NoOperand, n);
      var B := LowerArgs(args[1..], A.temps);
      ArgsCode(A.ops + B.ops, [A.result] + B.results, B.temps)
  }

  function Params(operands: seq<Operand>): (ops: seq<Operation>)
    ensures |ops| == |operands|
    ensures forall i :: 0 <= i < |ops| ==> ops[i] == Param(operands[i])
  {
    seq(|operands|, i requires 0 <= i < |operands| => Param(operands[i]))
  }

  /** The value was computed straight into the destination; no ASSIGN is needed. */
  predicate WroteDirectly(dst: Operand, src: Operand) {
    dst.Variable? && src.Variable? && src.name == dst.name
  }

  function LowerAssignment(dst: Operand, e: C.Expr, n: nat): ExprCode {
    var V := LowerExpr(e, dst, n);
    if WroteDirectly(dst, V.result) then V else V.(ops := V.ops + [Assign(dst, V.result)])
  }

  function LowerStmt(s: C.Stmt, n: nat, l: nat): (c: StmtCode)
    ensures c.temps >= n && c.labels >= l
    decreases s, 1
  {
    match s
    case Decl(t, name, id, None) => StmtCode([], n, l)
    case Decl(t, name, id, Some(e)) =>
      var V := LowerAssignment(Variable(MangleVariable(name, id), t), e, n);
      StmtCode(V.ops, V.temps, l)
    case Assign(t, name, id, e) =>
      var V := LowerAssignment(Variable(MangleVariable(name, id), t), e, n);
      StmtCode(V.ops, V.temps, l)
    case Block(stmts) => LowerAll(stmts, n, l)
    case If(c, thn, None) =>
      var V := LowerExpr(c, NoOperand, n);
      var T := LowerStmt(thn, V.temps, l + 1);
      StmtCode(V.ops + [JumpIfFalse(l, V.result)] + T.ops + [Label(l)], T.temps, T.labels)
    case If(c, thn, Some(els)) =>
      var V := LowerExpr(c, NoOperand, n);
      var B := BranchesCode(s, V.result, V.temps, l);
      B.(ops := V.ops + B.ops)
    case While(c, body) =>
      var V := LowerExpr(c, NoOperand, n);
      var B := LowerStmt(body, V.temps, l + 2);
      StmtCode(
        [Label(l)] + V.ops + [JumpIfFalse(l + 1, V.result)] + B.ops + [Jump(l), Label(l + 1)],
        B.temps, B.labels)
    case Return(None) => StmtCode([Return(NoOperand)], n, l)
    case Return(Some(e)) =>
      var V := LowerExpr(e, NoOperand, n);
      StmtCode(V.ops + [Return(V.result)], V.temps, l)
    case ExprStmt(e) =>
      var V := LowerExpr(e, NoOperand, n);
      StmtCode(V.ops, V.temps, l)
  }

  function BranchesCode(s: C.Stmt, cond: Operand, n: nat, l: nat): (c: StmtCode)
    requires s.If? && s.els.Some?
    ensures c.temps >= n && c.labels >= l
    decreases s, 0
  {
    var T := LowerStmt(s.thn, n, l + 2);
    var E := LowerStmt(s.els.value, T.temps, T.labels);
    StmtCode(
      [JumpIfFalse(l, cond)] + T.ops + [Jump(l + 1), Label(l)] + E.ops + [Label(l + 1)], E.temps, E.labels)
  }

  function LowerAll(stmts: seq<C.Stmt>, n: nat, l: nat): (c: StmtCode)
    ensures c.temps >= n && c.labels >= l
    decreases stmts, 0
  {
    if |stmts| == 0 then StmtCode([], n, l)
    else
      var A := LowerStmt(stmts[0], n, l);
      var B := LowerAll(stmts[1..], A.temps, A.labels);
      StmtCode(A.ops + B.ops, B.temps, B.labels)
  }

  predicate EndsWithReturn(ops: seq<Operation>) {
    |ops| > 0 && ops[|ops| - 1].Return?
  }

  /** A void body that does not end in RETURN gets one. */
  function LowerBody(f: C.Function, l: nat): StmtCode {
    match f.body
    case None => StmtCode([], 0, l)
    case Some(body) =>
      var B := LowerStmt(body, 0, l);
      if f.ret.Void? && !EndsWithReturn(B.ops) then B.(ops := B.ops + [Return(NoOperand)]) else B
  }

  function LowerParams(params: seq<C.Param>): (ps: seq<IrParam>)
    ensures |ps| == |params|
    ensures forall i :: 0 <= i < |ps| ==> ps[i] == LowerParam(params[i])
  {
    seq(|params|, i requires 0 <= i < |params| => LowerParam(params[i]))
  }

  function LowerParam(p: C.Param): IrParam {
    IrParam(MangleVariable(p.name, p.id), p.t)
  }

  function LowerFunction(f: C.Function, l: nat): IrFunction {
    IrFunction(f.name, LowerParams(f.params), f.ret, f.body.Some?, LowerBody(f, l).ops)
  }

  function LowerProgram(p: C.Program, l: nat): IrProgram {
    if |p| == 0 then [] else [LowerFunction(p[0], l)] + LowerProgram(p[1..], LowerBody(p[0], l).labels)
  }

  // ---------------------------------------------------------------- the generator

  /** The operation list of the function being generated. */
  class Context {
    var operations: seq<Operation>
    var nextTemp: nat

    constructor ()
      ensures operations == [] && nextTemp == 0
    {
      operations, nextTemp := [], 0;
    }

    method Emit(op: Operation)
      modifies this`operations
      ensures operations == old(operations) + [op]
    {
      operations := operations + [op];
    }

    method NewTemporary(t: ValueType) returns (o: Operand)
      modifies this`nextTemp
      ensures o == Temporary(old(nextTemp), t) && nextTemp == old(nextTemp) + 1
    {
      o := Temporary(nextTemp, t);
      nextTemp := nextTemp + 1;
    }

    method DestinationFor(hint: Operand, t: ValueType) returns (o: Operand)
      modifies this`nextTemp
      ensures o == Destination(hint, t, old(nextTemp)) && nextTemp == AfterDestination(hint, old(nextTemp))
    {
      if hint.NoOperand? {
        o := NewTemporary(t);
      } else {
        o := hint;
      }
    }

    method GenerateExpression(e: C.Expr, hint: Operand) returns (o: Operand)
      modifies this
      ensures operations == old(operations) + LowerExpr(e, hint, old(nextTemp)).ops
      ensures o == LowerExpr(e, hint, old(nextTemp)).result
      ensures nextTemp == LowerExpr(e, hint, old(nextTemp)).temps
      decreases e, 1
    {
      match e
      case Literal(t, number) => o := Immediate(number, t);
      case Ident(t, name, id) => o := Variable(MangleVariable(name, id), t);
      case Binary(t, op, l, r) =>
        var left := GenerateExpression(l, NoOperand);
        var right := GenerateExpression(r, NoOperand);
        o := DestinationFor(hint, t);
        Emit(Bin(op, o, left, right));
      case Unary(t, uop, a) =>
        var src := GenerateExpression(a, NoOperand);
        o := DestinationFor(hint, t);
        Emit(Un(uop, o, src));
      case Increment(t, up, postfix, name, id) => o := GenerateIncrement(t, up, postfix, name, id, hint);
      case Cast(t, a) =>
        var src := GenerateExpression(a, NoOperand);
        o := DestinationFor(hint, t);
        Emit(CastTo(o, src));
      case Call(t, f, args) => o := GenerateCall(t, f, args, hint);
    }

    method GenerateIncrement(t: ValueType, up: bool, postfix: bool, name: string, id: nat, ghost hint: Operand)
      returns (o: Operand)
      modifies this
      ensures operations == old(operations) + LowerExpr(C.Increment(t, up, postfix, name, id), hint, old(nextTemp)).ops
      ensures o == LowerExpr(C.Increment(t, up, postfix, name, id), hint, old(nextTemp)).result
      ensures nextTemp == LowerExpr(C.Increment(t, up, postfix, name, id), hint, old(nextTemp)).temps
    {
      var variable := Variable(MangleVariable(name, id), t);
      var updated := NewTemporary(t);
      o := updated;
      if postfix {
        o := NewTemporary(t);
        Emit(Assign(o, variable));
      }
      Emit(Bin(if up then Add else Sub, updated, variable, Immediate(1, t)));
      Emit(Assign(variable, updated));
    }

    method GenerateArguments(args: seq<C.Expr>) returns (operands: seq<Operand>)
      modifies this
      ensures operations == old(operations) + LowerArgs(args, old(nextTemp)).ops
      ensures operands == LowerArgs(args, old(nextTemp)).results
      ensures nextTemp == LowerArgs(args, old(nextTemp)).temps
      decreases args, 0
    {
      hide LowerExpr;
      ghost var start, A := operations, LowerArgs(args, nextTemp);
      operands := [];
      var i := 0;
      while i < |args|
        invariant 0 <= i <= |args|
        invariant start + A.ops == operations + LowerArgs(args[i..], nextTemp).ops
        invariant A.results == operands + LowerArgs(args[i..], nextTemp).results
        invariant A.temps == LowerArgs(args[i..], nextTemp).temps
      {
        assert args[i..][0] == args[i] && args[i..][1..] == args[i + 1..];
        ghost var before := operations;
        ghost var A1 := LowerExpr(args[i], NoOperand, nextTemp);
        ghost var B := LowerArgs(args[i + 1..], A1.temps);
        var a := GenerateExpression(args[i], NoOperand);
        assert operations + B.ops == before + (A1.ops + B.ops);
        operands := operands + [a];
        i := i + 1;
      }
    }

    method EmitParams(operands: seq<Operand>)
      modifies this`operations
      ensures operations == old(operations) + Params(operands)
    {
      var i := 0;
      while i < |operands|
        invariant 0 <= i <= |operands|
        invariant operations == old(operations) + Params(operands)[..i]
      {
        Emit(Param(operands[i]));
        i := i + 1;
      }
    }

    method GenerateCall(t: ValueType, f: string, args: seq<C.Expr>, hint: Operand) returns (o: Operand)
      modifies this
      ensures operations == old(operations) + LowerExpr(C.Call(t, f, args), hint, old(nextTemp)).ops
      ensures o == LowerExpr(C.Call(t, f, args), hint, old(nextTemp)).result
      ensures nextTemp == LowerExpr(C.Call(t, f, args), hint, old(nextTemp)).temps
      decreases args, 1
    {
      hide LowerArgs;
      ghost var start, A := operations, LowerArgs(args, nextTemp);
      var operands := GenerateArguments(args);
      EmitParams(operands);
      assert operations == start + (A.ops + Params(A.results));
      if t.Void? {
        o := NoOperand;
      } else {
        o := DestinationFor(hint, t);
      }
      Emit(Call(o, f));
    }

    method GenerateAssignment(dst: Operand, value: C.Expr)
      modifies this
      ensures operations == old(operations) + LowerAssignment(dst, value, old(nextTemp)).ops
      ensures nextTemp == LowerAssignment(dst, value, old(nextTemp)).temps
    {
      var src := GenerateExpression(value, dst);
      if !WroteDirectly(dst, src) {
        Emit(Assign(dst, src));
      }
    }
  }

  /** The program being generated: its functions and its label counter. */
  class Generator {
    var functions: seq<IrFunction>
    var nextLabel: nat

    constructor ()
      ensures functions == [] && nextLabel == 0
    {
      functions, nextLabel := [], 0;
    }

    method NewLabel() returns (l: nat)
      modifies this`nextLabel
      ensures l == old(nextLabel) && nextLabel == l + 1
    {
      l := nextLabel;
      nextLabel := nextLabel + 1;
    }

    method GenerateStatement(ctx: Context, s: C.Stmt)
      modifies ctx, this`nextLabel
      ensures ctx.operations == old(ctx.operations) + LowerStmt(s, old(ctx.nextTemp), old(nextLabel)).ops
      ensures ctx.nextTemp == LowerStmt(s, old(ctx.nextTemp), old(nextLabel)).temps
      ensures nextLabel == LowerStmt(s, old(ctx.nextTemp), old(nextLabel)).labels
      decreases s, 1
    {
      match s
      case Decl(t, name, id, init) =>
        if init.Some? {
          ctx.GenerateAssignment(Variable(MangleVariable(name, id), t), init.value);
        }
      case Assign(t, name, id, e) => ctx.GenerateAssignment(Variable(MangleVariable(name, id), t), e);
      case Block(stmts) => GenerateBlock(ctx, stmts);
      case If(_, _, _) => GenerateIf(ctx, s);
      case While(_, _) => GenerateWhile(ctx, s);
      case Return(value) =>
        var o := NoOperand;
        if value.Some? {
          o := ctx.GenerateExpression(value.value, NoOperand);
        }
        ctx.Emit(Return(o));
      case ExprStmt(e) => var _ := ctx.GenerateExpression(e, NoOperand);
    }

    method GenerateBlock(ctx: Context, stmts: seq<C.Stmt>)
      modifies ctx, this`nextLabel
      ensures ctx.operations == old(ctx.operations) + LowerAll(stmts, old(ctx.nextTemp), old(nextLabel)).ops
      ensures ctx.nextTemp == LowerAll(stmts, old(ctx.nextTemp), old(nextLabel)).temps
      ensures nextLabel == LowerAll(stmts, old(ctx.nextTemp), old(nextLabel)).labels
      decreases stmts, 0
    {
      hide LowerExpr, LowerStmt;
      ghost var start, All := ctx.operations, LowerAll(stmts, ctx.nextTemp, nextLabel);
      var i := 0;
      while i < |stmts|
        invariant 0 <= i <= |stmts|
        invariant start + All.ops == ctx.operations + LowerAll(stmts[i..], ctx.nextTemp, nextLabel).ops
        invariant All.temps == LowerAll(stmts[i..], ctx.nextTemp, nextLabel).temps
        invariant All.labels == LowerAll(stmts[i..], ctx.nextTemp, nextLabel).labels
      {
        assert stmts[i..][0] == stmts[i] && stmts[i..][1..] == stmts[i + 1..];
        ghost var before := ctx.operations;
        ghost var A := LowerStmt(stmts[i], ctx.nextTemp, nextLabel);
        ghost var B := LowerAll(stmts[i + 1..], A.temps, A.labels);
        GenerateStatement(ctx, stmts[i]);
        assert ctx.operations + B.ops == before + (A.ops + B.ops);
        i := i + 1;
      }
    }

    method GenerateIf(ctx: Context, s: C.Stmt)
      requires s.If?
      modifies ctx, this`nextLabel
      ensures ctx.operations == old(ctx.operations) + LowerStmt(s, old(ctx.nextTemp), old(nextLabel)).ops
      ensures ctx.nextTemp == LowerStmt(s, old(ctx.nextTemp), old(nextLabel)).temps
      ensures nextLabel == LowerStmt(s, old(ctx.nextTemp), old(nextLabel)).labels
      decreases s, 0, 1
    {
      hide LowerExpr, LowerAll, BranchesCode;
      ghost var start, n, l := ctx.operations, ctx.nextTemp, nextLabel;
      ghost var V := LowerExpr(s.cond, NoOperand, n);
      var cond := ctx.GenerateExpression(s.cond, NoOperand);
      var elseLabel := NewLabel();
      if s.els.None? {
        ghost var T := LowerStmt(s.thn, V.temps, l + 1);
        ctx.Emit(JumpIfFalse(elseLabel, cond));
        assert ctx.operations == start + (V.ops + [JumpIfFalse(l, V.result)]);
        GenerateStatement(ctx, s.thn);
        assert ctx.operations == start + (V.ops + [JumpIfFalse(l, V.result)] + T.ops);
        ctx.Emit(Label(elseLabel));
      } else {
        GenerateBranches(ctx, s, cond, elseLabel);
      }
    }

    /** Both branches of an `if` that has an `else`, after its condition. */
    method GenerateBranches(ctx: Context, s: C.Stmt, cond: Operand, elseLabel: nat)
      requires s.If? && s.els.Some? && nextLabel == elseLabel + 1
      modifies ctx, this`nextLabel
      ensures ctx.operations == old(ctx.operations) + BranchesCode(s, cond, old(ctx.nextTemp), elseLabel).ops
      ensures ctx.nextTemp == BranchesCode(s, cond, old(ctx.nextTemp), elseLabel).temps
      ensures nextLabel == BranchesCode(s, cond, old(ctx.nextTemp), elseLabel).labels
      decreases s, 0, 0
    {
      hide LowerExpr, LowerAll, LowerStmt;
      ghost var start := ctx.operations;
      ghost var T := LowerStmt(s.thn, ctx.nextTemp, elseLabel + 2);
      ghost var E := LowerStmt(s.els.value, T.temps, T.labels);
      var endLabel := NewLabel();
      ctx.Emit(JumpIfFalse(elseLabel, cond));
      GenerateStatement(ctx, s.thn);
      ctx.Emit(Jump(endLabel));
      ctx.Emit(Label(elseLabel));
      ghost var upToElse := [JumpIfFalse(elseLabel, cond)] + T.ops + [Jump(endLabel), Label(elseLabel)];
      assert ctx.operations == start + upToElse;
      GenerateStatement(ctx, s.els.value);
      assert ctx.operations == start + (upToElse + E.ops);
      ctx.Emit(Label(endLabel));
    }

    method GenerateWhile(ctx: Context, s: C.Stmt)
      requires s.While?
      modifies ctx, this`nextLabel
      ensures ctx.operations == old(ctx.operations) + LowerStmt(s, old(ctx.nextTemp), old(nextLabel)).ops
      ensures ctx.nextTemp == LowerStmt(s, old(ctx.nextTemp), old(nextLabel)).temps
      ensures nextLabel == LowerStmt(s, old(ctx.nextTemp), old(nextLabel)).labels
      decreases s, 0
    {
      hide LowerExpr, LowerAll;
      ghost var start, n, l := ctx.operations, ctx.nextTemp, nextLabel;
      ghost var V := LowerExpr(s.cond, NoOperand, n);
      ghost var B := LowerStmt(s.body, V.temps, l + 2);
      var startLabel := NewLabel();
      var endLabel := NewLabel();
      ctx.Emit(Label(startLabel));
      var cond := ctx.GenerateExpression(s.cond, NoOperand);
      assert ctx.operations == start + ([Label(l)] + V.ops);
      ctx.Emit(JumpIfFalse(endLabel, cond));
      ghost var head := [Label(l)] + V.ops + [JumpIfFalse(l + 1, V.result)];
      assert ctx.operations == start + head;
      GenerateStatement(ctx, s.body);
      assert ctx.operations == start + (head + B.ops);
      ctx.Emit(Jump(startLabel));
      ctx.Emit(Label(endLabel));
    }

    method GenerateFunction(f: C.Function)
      modifies this
      ensures functions == old(functions) + [LowerFunction(f, old(nextLabel))]
      ensures nextLabel == LowerBody(f, old(nextLabel)).labels
    {
      var ctx := new Context();
      if f.body.Some? {
        GenerateStatement(ctx, f.body.value);
        assert ctx.operations == LowerStmt(f.body.value, 0, old(nextLabel)).ops;
        if f.ret.Void? && !EndsWithReturn(ctx.operations) {
          ctx.Emit(Return(NoOperand));
        }
      }
      functions := functions + [IrFunction(f.name, LowerParams(f.params), f.ret, f.body.Some?, ctx.operations)];
    }

    method GenerateProgram(p: C.Program)
      modifies this
      ensures functions == old(functions) + LowerProgram(p, old(nextLabel))
    {
      ghost var All := LowerProgram(p, nextLabel);
      var i := 0;
      while i < |p|
        invariant 0 <= i <= |p|
        invariant old(functions) + All == functions + LowerProgram(p[i..], nextLabel)
      {
        assert p[i..][0] == p[i] && p[i..][1..] == p[i + 1..];
        GenerateFunction(p[i]);
        i := i + 1;
      }
    }
  }
}
