/** The simulation: lowered expressions, statements and functions do what the source does. */
module LoweringSim {
  import opened Values
  import opened Arith
  import opened Names
  import opened Ir
  import opened Lowering
  import opened Labels
  import opened Typing
  import opened LoweringProof
  import C = Checked

  /** The whole program, its typings and its generated code. */
  ghost predicate Setup(p: C.Program, gs: Typings, l0: nat, ip: IrProgram) {
    WfProgram(p, gs) && StableProgram(p) && ip == LowerProgram(p, l0)
  }

  /** From `pc` the code of `e` runs to its end; the result operand then reads the value of `e`,
    * the variables are those of the source, and temporaries below `n` are untouched. */
  ghost predicate ExprDone(
    ip: IrProgram, calls: nat, ops: seq<Operation>, pc: nat, st: Store, e: C.Expr, hint: Operand, n: nat,
    v: int, env: C.Env, st': Store)
  {
    var code := LowerExpr(e, hint, n);
    Reaches(ip, calls, ops, At(pc, st, []), At(pc + |code.ops|, st', [])) &&
    Agrees(env, st', Ahead(hint, code.result)) &&
    (!e.t.Void? ==> Read(code.result, st') == Some(v)) &&
    KeepsTemps(st, st', n)
  }

  ghost predicate ArgsDone(
    ip: IrProgram, calls: nat, ops: seq<Operation>, pc: nat, st: Store, args: seq<C.Expr>, n: nat,
    vs: seq<int>, env: C.Env, st': Store)
  {
    var code := LowerArgs(args, n);
    Reaches(ip, calls, ops, At(pc, st, []), At(pc + |code.ops|, st', [])) &&
    Agrees(env, st', {}) &&
    |vs| == |args| && (forall i :: 0 <= i < |vs| ==> Read(code.results[i], st') == Some(vs[i])) &&
    KeepsTemps(st, st', n)
  }

  /** Writing the result to a hint or to a new temporary disturbs nothing else. */
  lemma WriteResult(hint: Operand, t: ValueType, temps: nat, n: nat, v: int, env: C.Env, st: Store, st1: Store)
    requires IsHint(hint) && n <= temps && Agrees(env, st1, {}) && KeepsTemps(st, st1, n)
    ensures var dst := Destination(hint, t, temps); var st2 := Write(dst, v, st1);
            Agrees(env, st2, Ahead(hint, dst)) && Read(dst, st2) == Some(v) && KeepsTemps(st, st2, n)
  {}

  lemma KeepsTempsJoin(a: Store, b: Store, c: Store, n: nat, m: nat)
    requires KeepsTemps(a, b, n) && KeepsTemps(b, c, m) && n <= m
    ensures KeepsTemps(a, c, n)
  {}

  lemma AgreesNoHint(env: C.Env, st: Store, o: Operand)
    requires Agrees(env, st, Ahead(NoOperand, o))
    ensures Agrees(env, st, {})
  {}

  /** A hint has the type of what is computed into it. */
  predicate HintFits(hint: Operand, e: C.Expr) {
    IsHint(hint) && (hint.Variable? && !e.Ident? && !e.Literal? && !e.Increment? ==> hint.t == e.t)
  }

  lemma {:induction false} SimExpr(
    p: C.Program, gs: Typings, g: Types, l0: nat, ip: IrProgram,
    e: C.Expr, hint: Operand, n: nat, env: C.Env, fuel: C.Fuel, ops: seq<Operation>, pc: nat, st: Store)
    returns (st': Store)
    requires Setup(p, gs, l0, ip) && WfExpr(p, g, e) && Stable(e) && HintFits(hint, e)
    requires C.Eval(p, e, env, fuel).Value? && EnvOk(g, env)
    requires CodeAt(ops, pc, LowerExpr(e, hint, n).ops) && Agrees(env, st, {})
    ensures var r := C.Eval(p, e, env, fuel);
            ExprDone(ip, fuel.calls, ops, pc, st, e, hint, n, r.v, r.env, st')
    decreases fuel.calls, fuel.loops, e, 2
  {
    match e
    case Literal(_, _) =>
      st' := st;
      ReachesSelf(ip, fuel.calls, ops, At(pc, st, []));
    case Ident(_, _, _) =>
      st' := st;
      ReachesSelf(ip, fuel.calls, ops, At(pc, st, []));
    case Binary(_, _, _, _) => st' := SimBinary(p, gs, g, l0, ip, e, hint, n, env, fuel, ops, pc, st);
    case Unary(_, _, _) => st' := SimUnary(p, gs, g, l0, ip, e, hint, n, env, fuel, ops, pc, st);
    case Increment(_, _, _, _, _) => st' := SimIncrement(p, g, ip, e, hint, n, env, fuel, ops, pc, st);
    case Cast(_, _) => st' := SimCast(p, gs, g, l0, ip, e, hint, n, env, fuel, ops, pc, st);
    case Call(_, _, _) => st' := SimCall(p, gs, g, l0, ip, e, hint, n, env, fuel, ops, pc, st);
  }

  /** What a binary expression is made of: its parts are well formed and have values. */
  lemma BinaryParts(p: C.Program, g: Types, e: C.Expr, hint: Operand, n: nat, env: C.Env, fuel: C.Fuel)
    requires e.Binary? && WfExpr(p, g, e) && Stable(e) && C.Eval(p, e, env, fuel).Value?
    ensures WfExpr(p, g, e.left) && WfExpr(p, g, e.right) && Stable(e.left) && Stable(e.right)
    ensures Survives(e.left, Increments(e.right)) && !e.left.t.Void? && !e.right.t.Void?
    ensures var a := C.Eval(p, e.left, env, fuel);
            a.Value? && var b := C.Eval(p, e.right, a.env, fuel);
            b.Value? && Apply(e.op, e.left.t, a.v, b.v).Some? &&
            C.Eval(p, e, env, fuel) == C.Value(Apply(e.op, e.left.t, a.v, b.v).value, b.env)
    ensures var L := LowerExpr(e.left, NoOperand, n);
            var R := LowerExpr(e.right, NoOperand, L.temps);
            var dst := Destination(hint, e.t, R.temps);
            LowerExpr(e, hint, n) ==
              ExprCode(L.ops + R.ops + [Bin(e.op, dst, L.result, R.result)], dst, AfterDestination(hint, R.temps))
  {
    hide Apply, Increments, Stable, WfExpr, C.Eval, LowerExpr, Survives;
    BinaryStatic(p, g, e);
    BinaryValue(p, e, env, fuel);
    BinaryCode(e, hint, n);
  }

  lemma BinaryStatic(p: C.Program, g: Types, e: C.Expr)
    requires e.Binary? && WfExpr(p, g, e) && Stable(e)
    ensures WfExpr(p, g, e.left) && WfExpr(p, g, e.right) && Stable(e.left) && Stable(e.right)
    ensures Survives(e.left, Increments(e.right)) && !e.left.t.Void? && !e.right.t.Void?
  {
    hide Increments, Survives;
  }

  lemma BinaryValue(p: C.Program, e: C.Expr, env: C.Env, fuel: C.Fuel)
    requires e.Binary? && C.Eval(p, e, env, fuel).Value?
    ensures var a := C.Eval(p, e.left, env, fuel);
            a.Value? && var b := C.Eval(p, e.right, a.env, fuel);
            b.Value? && Apply(e.op, e.left.t, a.v, b.v).Some? &&
            C.Eval(p, e, env, fuel) == C.Value(Apply(e.op, e.left.t, a.v, b.v).value, b.env)
  {
    hide Apply;
  }

  lemma BinaryCode(e: C.Expr, hint: Operand, n: nat)
    requires e.Binary?
    ensures var L := LowerExpr(e.left, NoOperand, n);
            var R := LowerExpr(e.right, NoOperand, L.temps);
            var dst := Destination(hint, e.t, R.temps);
            LowerExpr(e, hint, n) ==
              ExprCode(L.ops + R.ops + [Bin(e.op, dst, L.result, R.result)], dst, AfterDestination(hint, R.temps))
  {}

  lemma {:induction false} SimBinary(
    p: C.Program, gs: Typings, g: Types, l0: nat, ip: IrProgram,
    e: C.Expr, hint: Operand, n: nat, env: C.Env, fuel: C.Fuel, ops: seq<Operation>, pc: nat, st: Store)
    returns (st': Store)
    requires e.Binary? && Setup(p, gs, l0, ip) && WfExpr(p, g, e) && Stable(e) && HintFits(hint, e)
    requires C.Eval(p, e, env, fuel).Value? && EnvOk(g, env)
    requires CodeAt(ops, pc, LowerExpr(e, hint, n).ops) && Agrees(env, st, {})
    ensures var r := C.Eval(p, e, env, fuel);
            ExprDone(ip, fuel.calls, ops, pc, st, e, hint, n, r.v, r.env, st')
    decreases fuel.calls, fuel.loops, e, 1
  {
    hide Reaches, Agrees, KeepsTemps, CodeAt, Apply, WfExpr, Stable, Increments, LowerExpr, C.Eval, EnvOk;
    BinaryParts(p, g, e, hint, n, env, fuel);
    var L := LowerExpr(e.left, NoOperand, n);
    var R := LowerExpr(e.right, NoOperand, L.temps);
    var dst := Destination(hint, e.t, R.temps);
    var last := Bin(e.op, dst, L.result, R.result);
    CodeAtSplit(ops, pc, L.ops + R.ops, [last]);
    CodeAtSplit(ops, pc, L.ops, R.ops);
    var a := C.Eval(p, e.left, env, fuel);
    var b := C.Eval(p, e.right, a.env, fuel);
    var st1 := SimExpr(p, gs, g, l0, ip, e.left, NoOperand, n, env, fuel, ops, pc, st);
    AgreesNoHint(a.env, st1, L.result);
    EvalTyped(p, gs, g, e.left, env, fuel);
    var pc1 := pc + |L.ops|;
    var st2 := SimExpr(p, gs, g, l0, ip, e.right, NoOperand, L.temps, a.env, fuel, ops, pc1, st1);
    AgreesNoHint(b.env, st2, R.result);
    BinaryOperands(p, g, e, n, env, fuel, st1, st2);
    KeepsTempsJoin(st, st1, st2, n, L.temps);
    WriteResult(hint, e.t, R.temps, n, C.Eval(p, e, env, fuel).v, b.env, st, st2);
    st' := Write(dst, C.Eval(p, e, env, fuel).v, st2);
    var pc2 := pc1 + |R.ops|;
    ReachesJoin(ip, fuel.calls, ops, At(pc, st, []), At(pc1, st1, []), At(pc2, st2, []));
    CodeAtOne(ops, pc2, last);
    BinStep(ip, ops, pc2, st2, last, a.v, b.v);
    ReachesStepThen(ip, fuel.calls, ops, At(pc, st, []), NO_CALLS, At(pc2, st2, []), At(pc2 + 1, st', []));
  }

  lemma BinStep(ip: IrProgram, ops: seq<Operation>, pc: nat, st: Store, op: Operation, x: int, y: int)
    requires pc < |ops| && ops[pc] == op && op.Bin? && !op.a.NoOperand? && !op.b.NoOperand?
    requires Read(op.a, st) == Some(x) && Read(op.b, st) == Some(y) && Apply(op.op, op.a.t, x, y).Some?
    ensures Step(ip, ops, NO_CALLS, At(pc, st, [])) ==
            Some(At(pc + 1, Write(op.dst, Apply(op.op, op.a.t, x, y).value, st), []))
  {
    hide Apply, Read;
  }

  lemma CodeAtOne(ops: seq<Operation>, pc: nat, op: Operation)
    requires CodeAt(ops, pc, [op])
    ensures pc < |ops| && ops[pc] == op
  {
    assert ops[pc + 0] == [op][0];
  }

  lemma CodeAtTwo(ops: seq<Operation>, pc: nat, a: Operation, b: Operation)
    requires CodeAt(ops, pc, [a, b])
    ensures pc + 1 < |ops| && ops[pc] == a && ops[pc + 1] == b
  {
    assert [a, b] == [a] + [b];
    CodeAtSplit(ops, pc, [a], [b]);
    CodeAtOne(ops, pc, a);
    CodeAtOne(ops, pc + 1, b);
  }

  /** Both operands read right when the operation runs. */
  lemma BinaryOperands(p: C.Program, g: Types, e: C.Expr, n: nat, env: C.Env, fuel: C.Fuel, st1: Store, st2: Store)
    requires e.Binary? && WfExpr(p, g, e) && Stable(e) && C.Eval(p, e, env, fuel).Value?
    requires C.Eval(p, e.left, env, fuel).Value?
    requires C.Eval(p, e.right, C.Eval(p, e.left, env, fuel).env, fuel).Value?
    requires var L := LowerExpr(e.left, NoOperand, n); var a := C.Eval(p, e.left, env, fuel);
             var b := C.Eval(p, e.right, a.env, fuel);
             Agrees(a.env, st1, {}) && Agrees(b.env, st2, {}) && KeepsTemps(st1, st2, L.temps) &&
             (!e.left.t.Void? ==> Read(L.result, st1) == Some(a.v))
    ensures var L := LowerExpr(e.left, NoOperand, n);
            Read(L.result, st2) == Some(C.Eval(p, e.left, env, fuel).v) && L.result.t == e.left.t &&
            !L.result.NoOperand? && !LowerExpr(e.right, NoOperand, L.temps).result.NoOperand?
  {
    hide Apply, Agrees, KeepsTemps, WfExpr, Stable, Increments, LowerExpr, C.Eval;
    BinaryParts(p, g, e, NoOperand, n, env, fuel);
    var L := LowerExpr(e.left, NoOperand, n);
    var a := C.Eval(p, e.left, env, fuel);
    var b := C.Eval(p, e.right, a.env, fuel);
    ResultOfExpr(e.left, n);
    ResultOfExpr(e.right, L.temps);
    EvalChanges(p, e.right, a.env, fuel);
    VariableResultInEnv(p, e.left, n, env, fuel);
    OperandSurvives(e.left, L.result, n, L.temps, a.v, Increments(e.right), a.env, b.env, st1, st2);
  }

  lemma VariableResultInEnv(p: C.Program, e: C.Expr, n: nat, env: C.Env, fuel: C.Fuel)
    requires C.Eval(p, e, env, fuel).Value?
    ensures var o := LowerExpr(e, NoOperand, n).result; o.Variable? ==> o.name in C.Eval(p, e, env, fuel).env
  {
    ResultOfExpr(e, n);
  }

  /** What a unary expression or a cast is made of. */
  lemma UnaryParts(p: C.Program, g: Types, e: C.Expr, hint: Operand, n: nat, env: C.Env, fuel: C.Fuel)
    requires (e.Unary? || e.Cast?) && WfExpr(p, g, e) && Stable(e) && C.Eval(p, e, env, fuel).Value?
    ensures WfExpr(p, g, e.operand) && Stable(e.operand) && IsScalar(e.operand.t) &&
            C.Eval(p, e.operand, env, fuel).Value?
    ensures var a := C.Eval(p, e.operand, env, fuel);
            C.Eval(p, e, env, fuel) ==
              C.Value(if e.Unary? then ApplyUnary(e.uop, e.operand.t, a.v) else Convert(e.t, a.v), a.env)
    ensures var A := LowerExpr(e.operand, NoOperand, n);
            var dst := Destination(hint, e.t, A.temps);
            var last := if e.Unary? then Un(e.uop, dst, A.result) else CastTo(dst, A.result);
            LowerExpr(e, hint, n) == ExprCode(A.ops + [last], dst, AfterDestination(hint, A.temps))
  {
    hide ApplyUnary, Convert;
  }

  lemma {:induction false} SimUnary(
    p: C.Program, gs: Typings, g: Types, l0: nat, ip: IrProgram,
    e: C.Expr, hint: Operand, n: nat, env: C.Env, fuel: C.Fuel, ops: seq<Operation>, pc: nat, st: Store)
    returns (st': Store)
    requires e.Unary? && Setup(p, gs, l0, ip) && WfExpr(p, g, e) && Stable(e) && HintFits(hint, e)
    requires C.Eval(p, e, env, fuel).Value? && EnvOk(g, env)
    requires CodeAt(ops, pc, LowerExpr(e, hint, n).ops) && Agrees(env, st, {})
    ensures var r := C.Eval(p, e, env, fuel);
            ExprDone(ip, fuel.calls, ops, pc, st, e, hint, n, r.v, r.env, st')
    decreases fuel.calls, fuel.loops, e, 1
  {
    hide Reaches, Agrees, KeepsTemps, CodeAt, ApplyUnary, Setup, EnvOk, WfExpr, Stable, LowerExpr, C.Eval;
    UnaryParts(p, g, e, hint, n, env, fuel);
    var A := LowerExpr(e.operand, NoOperand, n);
    var dst := Destination(hint, e.t, A.temps);
    CodeAtSplit(ops, pc, A.ops, [Un(e.uop, dst, A.result)]);
    var a := C.Eval(p, e.operand, env, fuel);
    var st1 := SimExpr(p, gs, g, l0, ip, e.operand, NoOperand, n, env, fuel, ops, pc, st);
    AgreesNoHint(a.env, st1, A.result);
    ResultOfExpr(e.operand, n);
    var v := ApplyUnary(e.uop, e.operand.t, a.v);
    WriteResult(hint, e.t, A.temps, n, v, a.env, st, st1);
    st' := Write(dst, v, st1);
    var pc1 := pc + |A.ops|;
    CodeAtOne(ops, pc1, Un(e.uop, dst, A.result));
    ReachesStepThen(ip, fuel.calls, ops, At(pc, st, []), NO_CALLS, At(pc1, st1, []), At(pc1 + 1, st', []));
  }

  lemma {:induction false} SimCast(
    p: C.Program, gs: Typings, g: Types, l0: nat, ip: IrProgram,
    e: C.Expr, hint: Operand, n: nat, env: C.Env, fuel: C.Fuel, ops: seq<Operation>, pc: nat, st: Store)
    returns (st': Store)
    requires e.Cast? && Setup(p, gs, l0, ip) && WfExpr(p, g, e) && Stable(e) && HintFits(hint, e)
    requires HintFits(hint, e)
    requires C.Eval(p, e, env, fuel).Value? && EnvOk(g, env)
    requires CodeAt(ops, pc, LowerExpr(e, hint, n).ops) && Agrees(env, st, {})
    ensures var r := C.Eval(p, e, env, fuel);
            ExprDone(ip, fuel.calls, ops, pc, st, e, hint, n, r.v, r.env, st')
    decreases fuel.calls, fuel.loops, e, 1
  {
    hide Reaches, Agrees, KeepsTemps, CodeAt, Convert, Setup, EnvOk, WfExpr, Stable, LowerExpr, C.Eval;
    UnaryParts(p, g, e, hint, n, env, fuel);
    var A := LowerExpr(e.operand, NoOperand, n);
    var dst := Destination(hint, e.t, A.temps);
    CodeAtSplit(ops, pc, A.ops, [CastTo(dst, A.result)]);
    var a := C.Eval(p, e.operand, env, fuel);
    var st1 := SimExpr(p, gs, g, l0, ip, e.operand, NoOperand, n, env, fuel, ops, pc, st);
    AgreesNoHint(a.env, st1, A.result);
    ResultOfExpr(e.operand, n);
    var v := Convert(e.t, a.v);
    WriteResult(hint, e.t, A.temps, n, v, a.env, st, st1);
    st' := Write(dst, v, st1);
    var pc1 := pc + |A.ops|;
    CodeAtOne(ops, pc1, CastTo(dst, A.result));
    ReachesStepThen(ip, fuel.calls, ops, At(pc, st, []), NO_CALLS, At(pc1, st1, []), At(pc1 + 1, st', []));
  }

  lemma ConvertSame(t: ValueType, v: int)
    requires IsScalar(t) && InRange(t, v)
    ensures Convert(t, v) == v
  {
    if IsInteger(t) {
      WrapOfInRange(t, v);
    }
  }

  lemma AssignStep(ip: IrProgram, calls: nat, ops: seq<Operation>, pc: nat, st: Store, dst: Operand, a: Operand, x: int)
    requires pc < |ops| && ops[pc] == Assign(dst, a) && IsPlace(dst) && Read(a, st) == Some(x)
    requires IsScalar(dst.t) && InRange(dst.t, x)
    ensures Reaches(ip, calls, ops, At(pc, st, []), At(pc + 1, Write(dst, x, st), []))
  {
    ConvertSame(dst.t, x);
    ReachesStep(ip, calls, ops, NO_CALLS, At(pc, st, []), At(pc + 1, Write(dst, x, st), []));
  }

  /** The two operations that add or subtract one. */
  lemma BumpAndStore(
    ip: IrProgram, calls: nat, ops: seq<Operation>, pc: nat, st: Store, t: ValueType, up: bool, updated: Operand,
    variable: Operand, x: int)
    returns (st': Store)
    requires IsInteger(t) && updated.Temporary? && variable.Variable? && updated.t == t && variable.t == t
    requires CodeAt(ops, pc, [Bin(if up then Add else Sub, updated, variable, Immediate(1, t)),
                              Assign(variable, updated)])
    requires Read(variable, st) == Some(x)
    ensures var v := Wrap(t, x + C.Step(up));
            st' == Write(variable, v, Write(updated, v, st)) &&
            Reaches(ip, calls, ops, At(pc, st, []), At(pc + 2, st', []))
  {
    hide Reaches, Wrap, InRange;
    var bump := Bin(if up then Add else Sub, updated, variable, Immediate(1, t));
    CodeAtTwo(ops, pc, bump, Assign(variable, updated));
    var v := Wrap(t, x + C.Step(up));
    OneInRange(t);
    WrapOfInRange(t, 1);
    BinStep(ip, ops, pc, st, bump, x, 1);
    var st1 := Write(updated, v, st);
    ReachesStep(ip, calls, ops, NO_CALLS, At(pc, st, []), At(pc + 1, st1, []));
    WrapInRange(t, x + C.Step(up));
    AssignStep(ip, calls, ops, pc + 1, st1, variable, updated, v);
    st' := Write(variable, v, st1);
    ReachesJoin(ip, calls, ops, At(pc, st, []), At(pc + 1, st1, []), At(pc + 2, st', []));
  }

  lemma OneInRange(t: ValueType)
    requires IsInteger(t)
    ensures InRange(t, 1)
  {}

  lemma SimIncrement(
    p: C.Program, g: Types, ip: IrProgram,
    e: C.Expr, hint: Operand, n: nat, env: C.Env, fuel: C.Fuel, ops: seq<Operation>, pc: nat, st: Store)
    returns (st': Store)
    requires e.Increment? && WfExpr(p, g, e) && EnvOk(g, env) && C.Eval(p, e, env, fuel).Value?
    requires CodeAt(ops, pc, LowerExpr(e, hint, n).ops) && Agrees(env, st, {})
    ensures var r := C.Eval(p, e, env, fuel);
            ExprDone(ip, fuel.calls, ops, pc, st, e, hint, n, r.v, r.env, st')
  {
    hide Reaches, Wrap, InRange, CodeAt, Agrees, KeepsTemps, LowerExpr, WfExpr, EnvOk, C.Eval;
    if e.postfix {
      st' := SimPostIncrement(p, g, ip, e, hint, n, env, fuel, ops, pc, st);
    } else {
      st' := SimPreIncrement(p, g, ip, e, hint, n, env, fuel, ops, pc, st);
    }
  }

  lemma SimPreIncrement(
    p: C.Program, g: Types, ip: IrProgram,
    e: C.Expr, hint: Operand, n: nat, env: C.Env, fuel: C.Fuel, ops: seq<Operation>, pc: nat, st: Store)
    returns (st': Store)
    requires e.Increment? && !e.postfix && WfExpr(p, g, e) && EnvOk(g, env) && C.Eval(p, e, env, fuel).Value?
    requires CodeAt(ops, pc, LowerExpr(e, hint, n).ops) && Agrees(env, st, {})
    ensures var r := C.Eval(p, e, env, fuel);
            ExprDone(ip, fuel.calls, ops, pc, st, e, hint, n, r.v, r.env, st')
  {
    hide Reaches, Wrap, InRange, CodeAt;
    var x := C.Key(e.name, e.id);
    st' := BumpAndStore(ip, fuel.calls, ops, pc, st, e.t, e.up, Temporary(n, e.t), Variable(x, e.t), env[x]);
  }

  lemma SimPostIncrement(
    p: C.Program, g: Types, ip: IrProgram,
    e: C.Expr, hint: Operand, n: nat, env: C.Env, fuel: C.Fuel, ops: seq<Operation>, pc: nat, st: Store)
    returns (st': Store)
    requires e.Increment? && e.postfix && WfExpr(p, g, e) && EnvOk(g, env) && C.Eval(p, e, env, fuel).Value?
    requires CodeAt(ops, pc, LowerExpr(e, hint, n).ops) && Agrees(env, st, {})
    ensures var r := C.Eval(p, e, env, fuel);
            ExprDone(ip, fuel.calls, ops, pc, st, e, hint, n, r.v, r.env, st')
  {
    hide Reaches, Wrap, InRange, CodeAt;
    var x := C.Key(e.name, e.id);
    var saved, updated, variable := Temporary(n + 1, e.t), Temporary(n, e.t), Variable(x, e.t);
    assert LowerExpr(e, hint, n).ops ==
           [Assign(saved, variable)] + [Bin(if e.up then Add else Sub, updated, variable, Immediate(1, e.t)),
                                        Assign(variable, updated)];
    st' := SimPostfix(ip, fuel.calls, ops, pc, st, e.t, e.up, saved, updated, variable, env[x]);
  }

  lemma SimPostfix(
    ip: IrProgram, calls: nat, ops: seq<Operation>, pc: nat, st: Store, t: ValueType, up: bool, saved: Operand,
    updated: Operand, variable: Operand, x: int)
    returns (st': Store)
    requires IsInteger(t) && saved.Temporary? && updated.Temporary? && variable.Variable?
    requires saved.t == t && updated.t == t && variable.t == t && InRange(t, x)
    requires CodeAt(ops, pc, [Assign(saved, variable)] +
                             [Bin(if up then Add else Sub, updated, variable, Immediate(1, t)),
                              Assign(variable, updated)])
    requires Read(variable, st) == Some(x)
    ensures var v := Wrap(t, x + C.Step(up));
            st' == Write(variable, v, Write(updated, v, Write(saved, x, st))) &&
            Reaches(ip, calls, ops, At(pc, st, []), At(pc + 3, st', []))
  {
    hide Reaches, Wrap, InRange, CodeAt;
    var bump := Bin(if up then Add else Sub, updated, variable, Immediate(1, t));
    CodeAtSplit(ops, pc, [Assign(saved, variable)], [bump, Assign(variable, updated)]);
    CodeAtOne(ops, pc, Assign(saved, variable));
    AssignStep(ip, calls, ops, pc, st, saved, variable, x);
    var st1 := Write(saved, x, st);
    st' := BumpAndStore(ip, calls, ops, pc + 1, st1, t, up, updated, variable, x);
    ReachesJoin(ip, calls, ops, At(pc, st, []), At(pc + 1, st1, []), At(pc + 3, st', []));
  }

  // ---------------------------------------------------------------- calls

  lemma CallParts(p: C.Program, g: Types, e: C.Expr, hint: Operand, n: nat, env: C.Env, fuel: C.Fuel)
    requires e.Call? && WfExpr(p, g, e) && Stable(e) && C.Eval(p, e, env, fuel).Value?
    ensures StableArgs(e.args) && C.EvalArgs(p, e.args, env, fuel).Args? && fuel.calls > 0
    ensures C.Lookup(p, e.func).Some? && |e.args| == |C.Lookup(p, e.func).value.params|
    ensures forall i :: 0 <= i < |e.args| ==> WfExpr(p, g, e.args[i]) && IsScalar(e.args[i].t)
    ensures forall i :: 0 <= i < |e.args| ==> e.args[i].t == C.Lookup(p, e.func).value.params[i].t
    ensures var r := C.Invoke(p, e.func, C.EvalArgs(p, e.args, env, fuel).vs, fuel.(calls := fuel.calls - 1));
            r.Value? && C.Eval(p, e, env, fuel) == C.Value(r.v, C.EvalArgs(p, e.args, env, fuel).env)
    ensures var A := LowerArgs(e.args, n);
            var dst := if e.t.Void? then NoOperand else Destination(hint, e.t, A.temps);
            LowerExpr(e, hint, n).ops == A.ops + Params(A.results) + [Call(dst, e.func)] &&
            LowerExpr(e, hint, n).result == dst
  {}

  lemma {:induction false} SimCall(
    p: C.Program, gs: Typings, g: Types, l0: nat, ip: IrProgram,
    e: C.Expr, hint: Operand, n: nat, env: C.Env, fuel: C.Fuel, ops: seq<Operation>, pc: nat, st: Store)
    returns (st': Store)
    requires e.Call? && Setup(p, gs, l0, ip) && WfExpr(p, g, e) && Stable(e) && HintFits(hint, e)
    requires C.Eval(p, e, env, fuel).Value? && EnvOk(g, env)
    requires CodeAt(ops, pc, LowerExpr(e, hint, n).ops) && Agrees(env, st, {})
    ensures var r := C.Eval(p, e, env, fuel);
            ExprDone(ip, fuel.calls, ops, pc, st, e, hint, n, r.v, r.env, st')
    decreases fuel.calls, fuel.loops, e, 1
  {
    hide Reaches, Agrees, KeepsTemps, CodeAt, Returns, WfExpr, Stable, Increments, LowerExpr, LowerArgs, C.Eval,
         C.EvalArgs, C.Invoke, EnvOk, InRange, Read, ArgsDone, ExprDone;
    CallParts(p, g, e, hint, n, env, fuel);
    var A := LowerArgs(e.args, n);
    var dst := if e.t.Void? then NoOperand else Destination(hint, e.t, A.temps);
    CodeAtSplit(ops, pc, A.ops + Params(A.results), [Call(dst, e.func)]);
    CodeAtSplit(ops, pc, A.ops, Params(A.results));
    var vs, env1 := C.EvalArgs(p, e.args, env, fuel).vs, C.EvalArgs(p, e.args, env, fuel).env;
    var fn := C.Lookup(p, e.func).value;
    var st1 := SimArgs(p, gs, g, l0, ip, e.args, fn.params, n, env, fuel, ops, pc, st);
    EvalArgsTyped(p, gs, g, e.args, fn.params, env, fuel);
    SimInvoke(p, gs, l0, ip, e.func, vs, fuel.(calls := fuel.calls - 1));
    st' := FinishCall(ip, fuel.calls, ops, pc, st, e, hint, n, vs, C.Eval(p, e, env, fuel).v, env1, st1);
  }

  /** The arguments computed: collect them, call, and store the result. */
  lemma FinishCall(
    ip: IrProgram, calls: nat, ops: seq<Operation>, pc: nat, st: Store, e: C.Expr, hint: Operand, n: nat, vs: seq<int>,
    v: int, env: C.Env, st1: Store)
    returns (st': Store)
    requires e.Call? && HintFits(hint, e) && CodeAt(ops, pc, LowerExpr(e, hint, n).ops)
    requires ArgsDone(ip, calls, ops, pc, st, e.args, n, vs, env, st1) && Returns(ip, calls, e.func, vs, v)
    ensures ExprDone(ip, calls, ops, pc, st, e, hint, n, v, env, st')
  {
    hide Reaches, Agrees, KeepsTemps, CodeAt, Returns, LowerArgs, Read;
    var A := LowerArgs(e.args, n);
    var dst := if e.t.Void? then NoOperand else Destination(hint, e.t, A.temps);
    CodeAtSplit(ops, pc, A.ops + Params(A.results), [Call(dst, e.func)]);
    CodeAtSplit(ops, pc, A.ops, Params(A.results));
    var pc1 := pc + |A.ops|;
    var pc2 := pc1 + |A.results|;
    CollectParams(ip, calls, ops, pc1, A.results, vs, st1, []);
    assert [] + vs == vs;
    ReachesJoin(ip, calls, ops, At(pc, st, []), At(pc1, st1, []), At(pc2, st1, vs));
    CodeAtOne(ops, pc2, Call(dst, e.func));
    st' := Write(dst, v, st1);
    CallStep(ip, calls, ops, pc2, st1, vs, dst, e.func, v);
    ReachesJoin(ip, calls, ops, At(pc, st, []), At(pc2, st1, vs), At(pc2 + 1, st', []));
    if e.t.Void? {
      AgreesWeaker(env, st1, Ahead(hint, dst));
    } else {
      WriteResult(hint, e.t, A.temps, n, v, env, st, st1);
    }
  }

  lemma AgreesWeaker(env: C.Env, st: Store, skip: set<string>)
    requires Agrees(env, st, {})
    ensures Agrees(env, st, skip)
  {}

  lemma CallStep(
    ip: IrProgram, calls: nat, ops: seq<Operation>, pc: nat, st: Store, vs: seq<int>, dst: Operand, f: string, v: int)
    requires pc < |ops| && ops[pc] == Call(dst, f) && Returns(ip, calls, f, vs, v)
    ensures Reaches(ip, calls, ops, At(pc, st, vs), At(pc + 1, Write(dst, v, st), []))
  {
    var n: nat :| RunFunction(ip, f, vs, Bounds(calls, n)) == Some(v);
    ReachesStep(ip, calls, ops, Bounds(calls, n), At(pc, st, vs), At(pc + 1, Write(dst, v, st), []));
  }

  /** The arguments of a call: all of their operands read right once the last is computed. */
  lemma {:induction false} SimArgs(
    p: C.Program, gs: Typings, g: Types, l0: nat, ip: IrProgram,
    args: seq<C.Expr>, params: seq<C.Param>, n: nat, env: C.Env, fuel: C.Fuel, ops: seq<Operation>, pc: nat, st: Store)
    returns (st': Store)
    requires Setup(p, gs, l0, ip) && StableArgs(args) && |args| == |params|
    requires forall i :: 0 <= i < |args| ==> WfExpr(p, g, args[i]) && args[i].t == params[i].t && IsScalar(args[i].t)
    requires C.EvalArgs(p, args, env, fuel).Args? && EnvOk(g, env)
    requires CodeAt(ops, pc, LowerArgs(args, n).ops) && Agrees(env, st, {})
    ensures ArgsDone(ip, fuel.calls, ops, pc, st, args, n,
                     C.EvalArgs(p, args, env, fuel).vs, C.EvalArgs(p, args, env, fuel).env, st')
    decreases fuel.calls, fuel.loops, args, 0
  {
    hide Reaches, Agrees, KeepsTemps, CodeAt, WfExpr, Stable, Increments, LowerExpr, C.Eval, EnvOk, InRange, Read;
    if |args| == 0 {
      st' := st;
      ReachesSelf(ip, fuel.calls, ops, At(pc, st, []));
      KeepsTempsSelf(st, n);
    } else {
      var A := LowerExpr(args[0], NoOperand, n);
      var B := LowerArgs(args[1..], A.temps);
      CodeAtSplit(ops, pc, A.ops, B.ops);
      var a := C.Eval(p, args[0], env, fuel);
      var st1 := SimExpr(p, gs, g, l0, ip, args[0], NoOperand, n, env, fuel, ops, pc, st);
      AgreesNoHint(a.env, st1, A.result);
      EvalTyped(p, gs, g, args[0], env, fuel);
      var pc1 := pc + |A.ops|;
      st' := SimArgs(p, gs, g, l0, ip, args[1..], params[1..], A.temps, a.env, fuel, ops, pc1, st1);
      FirstArgument(p, args, n, env, fuel, st1, st');
      KeepsTempsJoin(st, st1, st', n, A.temps);
      ReachesJoin(ip, fuel.calls, ops, At(pc, st, []), At(pc1, st1, []), At(pc1 + |B.ops|, st', []));
    }
  }

  lemma KeepsTempsSelf(st: Store, n: nat)
    ensures KeepsTemps(st, st, n)
  {}

  lemma FirstArgument(
    p: C.Program, args: seq<C.Expr>, n: nat, env: C.Env, fuel: C.Fuel, st1: Store, st2: Store)
    requires |args| > 0 && StableArgs(args) && IsScalar(args[0].t) && C.EvalArgs(p, args, env, fuel).Args?
    requires var A := LowerExpr(args[0], NoOperand, n); var a := C.Eval(p, args[0], env, fuel);
             Agrees(a.env, st1, {}) && Agrees(C.EvalArgs(p, args[1..], a.env, fuel).env, st2, {}) &&
             KeepsTemps(st1, st2, A.temps) && Read(A.result, st1) == Some(a.v)
    ensures Read(LowerExpr(args[0], NoOperand, n).result, st2) == Some(C.Eval(p, args[0], env, fuel).v)
  {
    hide Agrees, KeepsTemps, Stable, Increments, LowerExpr, C.Eval;
    var A, a := LowerExpr(args[0], NoOperand, n), C.Eval(p, args[0], env, fuel);
    ResultOfExpr(args[0], n);
    EvalArgsChanges(p, args[1..], a.env, fuel);
    VariableResultInEnv(p, args[0], n, env, fuel);
    OperandSurvives(
      args[0], A.result, n, A.temps, a.v, IncrementsAll(args[1..]),
      a.env, C.EvalArgs(p, args[1..], a.env, fuel).env, st1, st2);
  }

  // ---------------------------------------------------------------- statements

  /** From `pc` the code of a statement, `len` operations, does what the statement did. */
  ghost predicate StmtDone(
    ip: IrProgram, calls: nat, ops: seq<Operation>, pc: nat, len: nat, st: Store, r: C.StmtResult, st': Store)
  {
    match r
    case Next(env) => Reaches(ip, calls, ops, At(pc, st, []), At(pc + len, st', [])) && Agrees(env, st', {})
    case Returned(v, env) => Reaches(ip, calls, ops, At(pc, st, []), Done(v, st')) && Agrees(env, st', {})
    case _ => false
  }

  predicate Completes(r: C.StmtResult) {
    r.Next? || r.Returned?
  }

  ghost predicate EachLabelOnce(ops: seq<Operation>) {
    forall x :: Placed(ops, x) <= 1
  }

  lemma StmtAfter(
    ip: IrProgram, calls: nat, ops: seq<Operation>, pc: nat, pc1: nat, len1: nat, len: nat, st: Store, st1: Store,
    r: C.StmtResult, st': Store)
    requires Reaches(ip, calls, ops, At(pc, st, []), At(pc1, st1, []))
    requires StmtDone(ip, calls, ops, pc1, len1, st1, r, st') && pc + len == pc1 + len1
    ensures StmtDone(ip, calls, ops, pc, len, st, r, st')
  {
    hide Reaches, Agrees;
    if r.Next? {
      ReachesJoin(ip, calls, ops, At(pc, st, []), At(pc1, st1, []), At(pc + len, st', []));
    } else {
      ReachesJoin(ip, calls, ops, At(pc, st, []), At(pc1, st1, []), Done(r.v, st'));
    }
  }

  /** After a statement that fell through, control goes on to `pc + len`. */
  lemma StmtBefore(
    ip: IrProgram, calls: nat, ops: seq<Operation>, pc: nat, len1: nat, len: nat, st: Store, r: C.StmtResult,
    st': Store)
    requires StmtDone(ip, calls, ops, pc, len1, st, r, st')
    requires r.Next? ==> Reaches(ip, calls, ops, At(pc + len1, st', []), At(pc + len, st', []))
    ensures StmtDone(ip, calls, ops, pc, len, st, r, st')
  {
    hide Reaches, Agrees;
    if r.Next? {
      ReachesJoin(ip, calls, ops, At(pc, st, []), At(pc + len1, st', []), At(pc + len, st', []));
    }
  }

  lemma {:induction false} SimStmt(
    p: C.Program, gs: Typings, g: Types, ret: ValueType, l0: nat, ip: IrProgram, s: C.Stmt, n: nat, l: nat, env: C.Env,
    fuel: C.Fuel, ops: seq<Operation>, pc: nat, st: Store)
    returns (st': Store)
    requires Setup(p, gs, l0, ip) && WfStmt(p, g, ret, s) && StableStmt(s) && EnvOk(g, env)
    requires Completes(C.Exec(p, s, env, fuel))
    requires CodeAt(ops, pc, LowerStmt(s, n, l).ops) && EachLabelOnce(ops) && Agrees(env, st, {})
    ensures StmtDone(ip, fuel.calls, ops, pc, |LowerStmt(s, n, l).ops|, st, C.Exec(p, s, env, fuel), st')
    decreases fuel.calls, fuel.loops, s, 3
  {
    hide Reaches, Agrees, CodeAt, EachLabelOnce, WfExpr, Stable, LowerExpr, C.Eval, EnvOk, C.ExecAll, LowerAll, Setup,
         Convert, ExprDone;
    match s
    case Decl(t, name, id, init) =>
      if init.Some? {
        st' := SimAssignment(
          p, gs, g, l0, ip, Variable(C.Key(name, id), t), init.value, n, env, fuel, ops, pc, st);
      } else {
        st' := st;
        ReachesSelf(ip, fuel.calls, ops, At(pc, st, []));
      }
    case Assign(t, name, id, e) =>
      st' := SimAssignment(p, gs, g, l0, ip, Variable(C.Key(name, id), t), e, n, env, fuel, ops, pc, st);
    case Block(stmts) => st' := SimAll(p, gs, g, ret, l0, ip, stmts, n, l, env, fuel, ops, pc, st);
    case If(_, _, _) => st' := SimIf(p, gs, g, ret, l0, ip, s, n, l, env, fuel, ops, pc, st);
    case While(_, _) => st' := SimWhile(p, gs, g, ret, l0, ip, s, n, l, env, fuel, ops, pc, st);
    case Return(None) =>
      st' := st;
      CodeAtOne(ops, pc, Return(NoOperand));
      ReachesStep(ip, fuel.calls, ops, NO_CALLS, At(pc, st, []), Done(0, st));
    case Return(Some(e)) => st' := SimReturn(p, gs, g, ret, l0, ip, e, n, env, fuel, ops, pc, st);
    case ExprStmt(e) =>
      st' := SimExpr(p, gs, g, l0, ip, e, NoOperand, n, env, fuel, ops, pc, st);
      ExprStmtDone(ip, fuel.calls, ops, pc, st, e, n, C.Eval(p, e, env, fuel).v, C.Eval(p, e, env, fuel).env, st');
  }

  lemma ExprStmtDone(
    ip: IrProgram, calls: nat, ops: seq<Operation>, pc: nat, st: Store, e: C.Expr, n: nat, v: int, env: C.Env,
    st': Store)
    requires ExprDone(ip, calls, ops, pc, st, e, NoOperand, n, v, env, st')
    ensures Reaches(ip, calls, ops, At(pc, st, []), At(pc + |LowerExpr(e, NoOperand, n).ops|, st', []))
    ensures Agrees(env, st', {})
    ensures !e.t.Void? ==> Read(LowerExpr(e, NoOperand, n).result, st') == Some(v)
  {
    AgreesNoHint(env, st', LowerExpr(e, NoOperand, n).result);
  }

  lemma {:induction false} SimReturn(
    p: C.Program, gs: Typings, g: Types, ret: ValueType, l0: nat, ip: IrProgram,
    e: C.Expr, n: nat, env: C.Env, fuel: C.Fuel, ops: seq<Operation>, pc: nat, st: Store)
    returns (st': Store)
    requires Setup(p, gs, l0, ip) && WfExpr(p, g, e) && Stable(e) && IsScalar(e.t) && EnvOk(g, env)
    requires C.Eval(p, e, env, fuel).Value? && Agrees(env, st, {})
    requires var V := LowerExpr(e, NoOperand, n); CodeAt(ops, pc, V.ops + [Return(V.result)])
    ensures var r := C.Eval(p, e, env, fuel);
            Reaches(ip, fuel.calls, ops, At(pc, st, []), Done(r.v, st')) && Agrees(r.env, st', {})
    decreases fuel.calls, fuel.loops, e, 3
  {
    hide Reaches, Agrees, CodeAt, WfExpr, Stable, LowerExpr, C.Eval, EnvOk, ExprDone;
    var V, r := LowerExpr(e, NoOperand, n), C.Eval(p, e, env, fuel);
    CodeAtSplit(ops, pc, V.ops, [Return(V.result)]);
    st' := SimExpr(p, gs, g, l0, ip, e, NoOperand, n, env, fuel, ops, pc, st);
    ExprStmtDone(ip, fuel.calls, ops, pc, st, e, n, r.v, r.env, st');
    var pc1 := pc + |V.ops|;
    CodeAtOne(ops, pc1, Return(V.result));
    ReachesStepThen(ip, fuel.calls, ops, At(pc, st, []), NO_CALLS, At(pc1, st', []), Done(r.v, st'));
  }

  /** An assignment stores the converted value, whether the value was computed straight into the
    * variable or copied there. */
  lemma {:induction false} SimAssignment(
    p: C.Program, gs: Typings, g: Types, l0: nat, ip: IrProgram,
    dst: Operand, e: C.Expr, n: nat, env: C.Env, fuel: C.Fuel, ops: seq<Operation>, pc: nat, st: Store)
    returns (st': Store)
    requires Setup(p, gs, l0, ip) && WfExpr(p, g, e) && Stable(e) && dst.Variable? && Assignable(dst.t, e)
    requires EnvOk(g, env) && dst.name in g && g[dst.name] == dst.t
    requires C.Eval(p, e, env, fuel).Value? && Agrees(env, st, {})
    requires CodeAt(ops, pc, LowerAssignment(dst, e, n).ops)
    ensures var r := C.Eval(p, e, env, fuel);
            Reaches(ip, fuel.calls, ops, At(pc, st, []), At(pc + |LowerAssignment(dst, e, n).ops|, st', [])) &&
            Agrees(r.env[dst.name := Convert(dst.t, r.v)], st', {})
    decreases fuel.calls, fuel.loops, e, 3
  {
    hide Reaches, CodeAt, LowerExpr, Agrees, C.Eval, EnvOk, Convert, WfExpr, Stable, InRange;
    var V, r := LowerExpr(e, dst, n), C.Eval(p, e, env, fuel);
    EvalTyped(p, gs, g, e, env, fuel);
    if WroteDirectly(dst, V.result) {
      st' := SimExpr(p, gs, g, l0, ip, e, dst, n, env, fuel, ops, pc, st);
      DirectResult(p, g, e, dst, n, env, fuel);
      ConvertSame(dst.t, r.v);
      AgreesStored(r.env, st', Ahead(dst, V.result), dst.name, r.v);
    } else {
      CodeAtSplit(ops, pc, V.ops, [Assign(dst, V.result)]);
      var st1 := SimExpr(p, gs, g, l0, ip, e, dst, n, env, fuel, ops, pc, st);
      var pc1 := pc + |V.ops|;
      CodeAtOne(ops, pc1, Assign(dst, V.result));
      st' := Write(dst, Convert(dst.t, r.v), st1);
      ReachesStepThen(ip, fuel.calls, ops, At(pc, st, []), NO_CALLS, At(pc1, st1, []), At(pc1 + 1, st', []));
      AgreesWritten(r.env, st1, Ahead(dst, V.result), dst.name, Convert(dst.t, r.v));
    }
  }

  lemma AgreesStored(env: C.Env, st: Store, skip: set<string>, x: string, v: int)
    requires Agrees(env, st, skip) && skip <= {x} && VarPlace(x) in st && st[VarPlace(x)] == v
    ensures Agrees(env[x := v], st, {})
  {}

  lemma AgreesWritten(env: C.Env, st: Store, skip: set<string>, x: string, v: int)
    requires Agrees(env, st, skip) && skip <= {x}
    ensures Agrees(env[x := v], st[VarPlace(x) := v], {})
  {}

  /** A value written straight into the variable has the variable's type. */
  lemma DirectResult(p: C.Program, g: Types, e: C.Expr, dst: Operand, n: nat, env: C.Env, fuel: C.Fuel)
    requires WfExpr(p, g, e) && dst.Variable? && Assignable(dst.t, e)
    requires dst.name in g && g[dst.name] == dst.t
    requires WroteDirectly(dst, LowerExpr(e, dst, n).result)
    ensures e.t == dst.t
  {}

  lemma {:induction false} SimAll(
    p: C.Program, gs: Typings, g: Types, ret: ValueType, l0: nat, ip: IrProgram, stmts: seq<C.Stmt>, n: nat, l: nat,
    env: C.Env, fuel: C.Fuel, ops: seq<Operation>, pc: nat, st: Store)
    returns (st': Store)
    requires Setup(p, gs, l0, ip) && EnvOk(g, env)
    requires forall i :: 0 <= i < |stmts| ==> WfStmt(p, g, ret, stmts[i]) && StableStmt(stmts[i])
    requires Completes(C.ExecAll(p, stmts, env, fuel))
    requires CodeAt(ops, pc, LowerAll(stmts, n, l).ops) && EachLabelOnce(ops) && Agrees(env, st, {})
    ensures StmtDone(ip, fuel.calls, ops, pc, |LowerAll(stmts, n, l).ops|, st, C.ExecAll(p, stmts, env, fuel), st')
    decreases fuel.calls, fuel.loops, stmts, 0
  {
    hide Reaches, Agrees, CodeAt, EachLabelOnce, WfStmt, StableStmt, LowerStmt, C.Exec, EnvOk;
    if |stmts| == 0 {
      st' := st;
      ReachesSelf(ip, fuel.calls, ops, At(pc, st, []));
    } else {
      var A := LowerStmt(stmts[0], n, l);
      var B := LowerAll(stmts[1..], A.temps, A.labels);
      CodeAtSplit(ops, pc, A.ops, B.ops);
      var r := C.Exec(p, stmts[0], env, fuel);
      var st1 := SimStmt(p, gs, g, ret, l0, ip, stmts[0], n, l, env, fuel, ops, pc, st);
      if r.Next? {
        ExecTyped(p, gs, g, ret, stmts[0], env, fuel);
        var pc1 := pc + |A.ops|;
        st' := SimAll(p, gs, g, ret, l0, ip, stmts[1..], A.temps, A.labels, r.env, fuel, ops, pc1, st1);
        StmtAfter(ip, fuel.calls, ops, pc, pc1, |B.ops|, |A.ops| + |B.ops|, st, st1,
                  C.ExecAll(p, stmts[1..], r.env, fuel), st');
      } else {
        st' := st1;
      }
    }
  }

  // ---------------------------------------------------------------- control

  lemma SkipLabel(ip: IrProgram, calls: nat, ops: seq<Operation>, pc: nat, st: Store)
    requires pc < |ops| && ops[pc].Label?
    ensures Reaches(ip, calls, ops, At(pc, st, []), At(pc + 1, st, []))
  {
    ReachesStep(ip, calls, ops, NO_CALLS, At(pc, st, []), At(pc + 1, st, []));
  }

  /** A jump goes on after the one place of its label. */
  lemma GoTo(ip: IrProgram, calls: nat, ops: seq<Operation>, pc: nat, j: nat, st: Store)
    requires EachLabelOnce(ops) && pc < |ops| && ops[pc].Jump? && j < |ops| && ops[j] == Label(ops[pc].target)
    ensures Reaches(ip, calls, ops, At(pc, st, []), At(j, st, []))
    ensures Reaches(ip, calls, ops, At(pc, st, []), At(j + 1, st, []))
  {
    FindPlaced(ops, j);
    ReachesStep(ip, calls, ops, NO_CALLS, At(pc, st, []), At(j, st, []));
    SkipLabel(ip, calls, ops, j, st);
    ReachesJoin(ip, calls, ops, At(pc, st, []), At(j, st, []), At(j + 1, st, []));
  }

  lemma Branch(ip: IrProgram, calls: nat, ops: seq<Operation>, pc: nat, j: nat, st: Store, v: int)
    requires EachLabelOnce(ops) && pc < |ops| && ops[pc].JumpIfFalse? && j < |ops| && ops[j] == Label(ops[pc].target)
    requires Read(ops[pc].cond, st) == Some(v)
    ensures Reaches(ip, calls, ops, At(pc, st, []), At(if v != 0 then pc + 1 else j + 1, st, []))
  {
    if v != 0 {
      ReachesStep(ip, calls, ops, NO_CALLS, At(pc, st, []), At(pc + 1, st, []));
    } else {
      FindPlaced(ops, j);
      ReachesStep(ip, calls, ops, NO_CALLS, At(pc, st, []), At(j, st, []));
      SkipLabel(ip, calls, ops, j, st);
      ReachesJoin(ip, calls, ops, At(pc, st, []), At(j, st, []), At(j + 1, st, []));
    }
  }

  /** Where the pieces of an `if` with no `else` lie. */
  lemma IfPlaces(ops: seq<Operation>, pc: nat, s: C.Stmt, n: nat, l: nat)
    requires s.If? && s.els.None? && CodeAt(ops, pc, LowerStmt(s, n, l).ops)
    ensures var V := LowerExpr(s.cond, NoOperand, n); var T := LowerStmt(s.thn, V.temps, l + 1);
            var pc1 := pc + |V.ops|; var pc2 := pc1 + 1 + |T.ops|;
            CodeAt(ops, pc, V.ops) && CodeAt(ops, pc1 + 1, T.ops) && pc2 < |ops| &&
            ops[pc1] == JumpIfFalse(l, V.result) && ops[pc2] == Label(l) &&
            pc + |LowerStmt(s, n, l).ops| == pc2 + 1
  {
    hide CodeAt, LowerExpr;
    var V := LowerExpr(s.cond, NoOperand, n);
    var T := LowerStmt(s.thn, V.temps, l + 1);
    var test := [JumpIfFalse(l, V.result)];
    CodeAtSplit(ops, pc, V.ops + test + T.ops, [Label(l)]);
    CodeAtSplit(ops, pc, V.ops + test, T.ops);
    CodeAtSplit(ops, pc, V.ops, test);
    CodeAtOne(ops, pc + |V.ops|, JumpIfFalse(l, V.result));
    CodeAtOne(ops, pc + |V.ops| + 1 + |T.ops|, Label(l));
  }

  /** Where the pieces of an `if` with an `else` lie. */
  lemma IfElsePlaces(ops: seq<Operation>, pc: nat, s: C.Stmt, n: nat, l: nat)
    requires s.If? && s.els.Some? && CodeAt(ops, pc, LowerStmt(s, n, l).ops)
    ensures var V := LowerExpr(s.cond, NoOperand, n); var T := LowerStmt(s.thn, V.temps, l + 2);
            var E := LowerStmt(s.els.value, T.temps, T.labels);
            var pc1 := pc + |V.ops|; var pc2 := pc1 + 1 + |T.ops|; var pc3 := pc2 + 2 + |E.ops|;
            CodeAt(ops, pc, V.ops) && CodeAt(ops, pc1 + 1, T.ops) && CodeAt(ops, pc2 + 2, E.ops) && pc3 < |ops| &&
            ops[pc1] == JumpIfFalse(l, V.result) && ops[pc2] == Jump(l + 1) && ops[pc2 + 1] == Label(l) &&
            ops[pc3] == Label(l + 1) && pc + |LowerStmt(s, n, l).ops| == pc3 + 1
  {
    hide CodeAt, LowerExpr;
    var V := LowerExpr(s.cond, NoOperand, n);
    var T := LowerStmt(s.thn, V.temps, l + 2);
    var E := LowerStmt(s.els.value, T.temps, T.labels);
    var test, mid := [JumpIfFalse(l, V.result)], [Jump(l + 1), Label(l)];
    CodeAtSplit(ops, pc, V.ops, test + T.ops + mid + E.ops + [Label(l + 1)]);
    var pc1 := pc + |V.ops|;
    CodeAtSplit(ops, pc1, test + T.ops + mid + E.ops, [Label(l + 1)]);
    CodeAtSplit(ops, pc1, test + T.ops + mid, E.ops);
    CodeAtSplit(ops, pc1, test + T.ops, mid);
    CodeAtSplit(ops, pc1, test, T.ops);
    CodeAtOne(ops, pc1, JumpIfFalse(l, V.result));
    CodeAtTwo(ops, pc1 + 1 + |T.ops|, Jump(l + 1), Label(l));
    CodeAtOne(ops, pc1 + 1 + |T.ops| + 2 + |E.ops|, Label(l + 1));
  }

  /** Where the pieces of a loop lie. */
  lemma WhilePlaces(ops: seq<Operation>, pc: nat, s: C.Stmt, n: nat, l: nat)
    requires s.While? && CodeAt(ops, pc, LowerStmt(s, n, l).ops)
    ensures var V := LowerExpr(s.cond, NoOperand, n); var B := LowerStmt(s.body, V.temps, l + 2);
            var pc1 := pc + 1 + |V.ops|; var pc2 := pc1 + 1 + |B.ops|;
            pc < |ops| && ops[pc] == Label(l) && CodeAt(ops, pc + 1, V.ops) && CodeAt(ops, pc1 + 1, B.ops) &&
            pc2 + 1 < |ops| && ops[pc1] == JumpIfFalse(l + 1, V.result) && ops[pc2] == Jump(l) &&
            ops[pc2 + 1] == Label(l + 1) && pc + |LowerStmt(s, n, l).ops| == pc2 + 2
  {
    hide CodeAt, LowerExpr;
    var V := LowerExpr(s.cond, NoOperand, n);
    var B := LowerStmt(s.body, V.temps, l + 2);
    var head, test, tail := [Label(l)], [JumpIfFalse(l + 1, V.result)], [Jump(l), Label(l + 1)];
    CodeAtSplit(ops, pc, head + V.ops + test + B.ops, tail);
    CodeAtSplit(ops, pc, head + V.ops + test, B.ops);
    CodeAtSplit(ops, pc, head + V.ops, test);
    CodeAtSplit(ops, pc, head, V.ops);
    CodeAtOne(ops, pc, Label(l));
    CodeAtOne(ops, pc + 1 + |V.ops|, JumpIfFalse(l + 1, V.result));
    CodeAtTwo(ops, pc + 1 + |V.ops| + 1 + |B.ops|, Jump(l), Label(l + 1));
  }

  lemma {:induction false} SimIf(
    p: C.Program, gs: Typings, g: Types, ret: ValueType, l0: nat, ip: IrProgram, s: C.Stmt, n: nat, l: nat, env: C.Env,
    fuel: C.Fuel, ops: seq<Operation>, pc: nat, st: Store)
    returns (st': Store)
    requires s.If? && Setup(p, gs, l0, ip) && WfStmt(p, g, ret, s) && StableStmt(s) && EnvOk(g, env)
    requires Completes(C.Exec(p, s, env, fuel))
    requires CodeAt(ops, pc, LowerStmt(s, n, l).ops) && EachLabelOnce(ops) && Agrees(env, st, {})
    ensures StmtDone(ip, fuel.calls, ops, pc, |LowerStmt(s, n, l).ops|, st, C.Exec(p, s, env, fuel), st')
    decreases fuel.calls, fuel.loops, s, 2
  {
    hide Reaches, Agrees, CodeAt, EachLabelOnce, WfExpr, Stable, LowerExpr, LowerStmt, C.Eval, EnvOk, ExprDone,
         StmtDone, Read;
    var V, r := LowerExpr(s.cond, NoOperand, n), C.Eval(p, s.cond, env, fuel);
    var pc1, len, R := pc + |V.ops|, |LowerStmt(s, n, l).ops|, C.Exec(p, s, env, fuel);
    if s.els.None? {
      IfPlaces(ops, pc, s, n, l);
    } else {
      IfElsePlaces(ops, pc, s, n, l);
    }
    var st1 := SimExpr(p, gs, g, l0, ip, s.cond, NoOperand, n, env, fuel, ops, pc, st);
    ExprStmtDone(ip, fuel.calls, ops, pc, st, s.cond, n, r.v, r.env, st1);
    EvalTyped(p, gs, g, s.cond, env, fuel);
    if s.els.None? {
      var T := LowerStmt(s.thn, V.temps, l + 1);
      var pc2 := pc1 + 1 + |T.ops|;
      Branch(ip, fuel.calls, ops, pc1, pc2, st1, r.v);
      if r.v != 0 {
        st' := SimStmt(p, gs, g, ret, l0, ip, s.thn, V.temps, l + 1, r.env, fuel, ops, pc1 + 1, st1);
        SkipLabel(ip, fuel.calls, ops, pc2, st');
        StmtBefore(ip, fuel.calls, ops, pc1 + 1, |T.ops|, |T.ops| + 1, st1, R, st');
        ReachesJoin(ip, fuel.calls, ops, At(pc, st, []), At(pc1, st1, []), At(pc1 + 1, st1, []));
        StmtAfter(ip, fuel.calls, ops, pc, pc1 + 1, |T.ops| + 1, len, st, st1, R, st');
      } else {
        st' := st1;
        ReachesJoin(ip, fuel.calls, ops, At(pc, st, []), At(pc1, st1, []), At(pc2 + 1, st1, []));
        NextDone(ip, fuel.calls, ops, pc, len, st, r.env, st');
      }
    } else {
      ReachesBranchThen(ip, fuel.calls, ops, pc, pc1, pc1 + 1 + |LowerStmt(s.thn, V.temps, l + 2).ops| + 1, st, st1,
                        r.v);
      st' := SimBranches(p, gs, g, ret, l0, ip, s, n, l, r.v, r.env, fuel, ops, pc, st1);
      var start := if r.v != 0 then pc1 + 1 else pc1 + 1 + |LowerStmt(s.thn, V.temps, l + 2).ops| + 2;
      StmtAfter(ip, fuel.calls, ops, pc, start, pc + len - start, len, st, st1, R, st');
    }
  }

  lemma NextDone(ip: IrProgram, calls: nat, ops: seq<Operation>, pc: nat, len: nat, st: Store, env: C.Env, st': Store)
    requires Reaches(ip, calls, ops, At(pc, st, []), At(pc + len, st', [])) && Agrees(env, st', {})
    ensures StmtDone(ip, calls, ops, pc, len, st, C.Next(env), st')
  {}

  lemma ReachesBranchThen(
    ip: IrProgram, calls: nat, ops: seq<Operation>, pc: nat, pc1: nat, j: nat, st: Store, st1: Store, v: int)
    requires Reaches(ip, calls, ops, At(pc, st, []), At(pc1, st1, []))
    requires EachLabelOnce(ops) && pc1 < |ops| && ops[pc1].JumpIfFalse? && j < |ops| && ops[j] == Label(ops[pc1].target)
    requires Read(ops[pc1].cond, st1) == Some(v)
    ensures Reaches(ip, calls, ops, At(pc, st, []), At(if v != 0 then pc1 + 1 else j + 1, st1, []))
  {
    hide Reaches, EachLabelOnce, Read;
    Branch(ip, calls, ops, pc1, j, st1, v);
    ReachesJoin(ip, calls, ops, At(pc, st, []), At(pc1, st1, []), At(if v != 0 then pc1 + 1 else j + 1, st1, []));
  }

  /** The branch that was taken, from its first operation to the end of the whole `if`. */
  lemma {:induction false} SimBranches(
    p: C.Program, gs: Typings, g: Types, ret: ValueType, l0: nat, ip: IrProgram, s: C.Stmt, n: nat, l: nat, v: int,
    env: C.Env, fuel: C.Fuel, ops: seq<Operation>, pc: nat, st: Store)
    returns (st': Store)
    requires s.If? && s.els.Some? && Setup(p, gs, l0, ip) && WfStmt(p, g, ret, s) && StableStmt(s) && EnvOk(g, env)
    requires Completes(C.Exec(p, if v != 0 then s.thn else s.els.value, env, fuel))
    requires CodeAt(ops, pc, LowerStmt(s, n, l).ops) && EachLabelOnce(ops) && Agrees(env, st, {})
    ensures var V := LowerExpr(s.cond, NoOperand, n); var T := LowerStmt(s.thn, V.temps, l + 2);
            var pc1 := pc + |V.ops|; var end := pc + |LowerStmt(s, n, l).ops|;
            var start := if v != 0 then pc1 + 1 else pc1 + 1 + |T.ops| + 2;
            start <= end &&
            StmtDone(ip, fuel.calls, ops, start, end - start, st,
                     C.Exec(p, if v != 0 then s.thn else s.els.value, env, fuel), st')
    decreases fuel.calls, fuel.loops, s, 1
  {
    hide Reaches, Agrees, CodeAt, EachLabelOnce, WfExpr, Stable, LowerExpr, LowerStmt, EnvOk, StmtDone, C.Exec;
    IfElsePlaces(ops, pc, s, n, l);
    var V := LowerExpr(s.cond, NoOperand, n);
    var T := LowerStmt(s.thn, V.temps, l + 2);
    var E := LowerStmt(s.els.value, T.temps, T.labels);
    var pc1 := pc + |V.ops|;
    var pc2 := pc1 + 1 + |T.ops|;
    var pc3 := pc2 + 2 + |E.ops|;
    if v != 0 {
      st' := SimStmt(p, gs, g, ret, l0, ip, s.thn, V.temps, l + 2, env, fuel, ops, pc1 + 1, st);
      GoTo(ip, fuel.calls, ops, pc2, pc3, st');
      StmtBefore(ip, fuel.calls, ops, pc1 + 1, |T.ops|, pc3 + 1 - (pc1 + 1), st, C.Exec(p, s.thn, env, fuel), st');
    } else {
      st' := SimStmt(p, gs, g, ret, l0, ip, s.els.value, T.temps, T.labels, env, fuel, ops, pc2 + 2, st);
      SkipLabel(ip, fuel.calls, ops, pc3, st');
      StmtBefore(ip, fuel.calls, ops, pc2 + 2, |E.ops|, |E.ops| + 1, st, C.Exec(p, s.els.value, env, fuel), st');
    }
  }

  lemma {:induction false} SimWhile(
    p: C.Program, gs: Typings, g: Types, ret: ValueType, l0: nat, ip: IrProgram, s: C.Stmt, n: nat, l: nat, env: C.Env,
    fuel: C.Fuel, ops: seq<Operation>, pc: nat, st: Store)
    returns (st': Store)
    requires s.While? && Setup(p, gs, l0, ip) && WfStmt(p, g, ret, s) && StableStmt(s) && EnvOk(g, env)
    requires Completes(C.Exec(p, s, env, fuel))
    requires CodeAt(ops, pc, LowerStmt(s, n, l).ops) && EachLabelOnce(ops) && Agrees(env, st, {})
    ensures StmtDone(ip, fuel.calls, ops, pc, |LowerStmt(s, n, l).ops|, st, C.Exec(p, s, env, fuel), st')
    decreases fuel.calls, fuel.loops, s, 2
  {
    hide Reaches, Agrees, CodeAt, EachLabelOnce, WfExpr, Stable, LowerExpr, LowerStmt, C.Eval, EnvOk, ExprDone,
         StmtDone, Read;
    WhilePlaces(ops, pc, s, n, l);
    var V, r := LowerExpr(s.cond, NoOperand, n), C.Eval(p, s.cond, env, fuel);
    var B := LowerStmt(s.body, V.temps, l + 2);
    var len, R := |LowerStmt(s, n, l).ops|, C.Exec(p, s, env, fuel);
    var pc1 := pc + 1 + |V.ops|;
    var pc2 := pc1 + 1 + |B.ops|;
    SkipLabel(ip, fuel.calls, ops, pc, st);
    var st1 := SimExpr(p, gs, g, l0, ip, s.cond, NoOperand, n, env, fuel, ops, pc + 1, st);
    ExprStmtDone(ip, fuel.calls, ops, pc + 1, st, s.cond, n, r.v, r.env, st1);
    EvalTyped(p, gs, g, s.cond, env, fuel);
    ReachesJoin(ip, fuel.calls, ops, At(pc, st, []), At(pc + 1, st, []), At(pc1, st1, []));
    ReachesBranchThen(ip, fuel.calls, ops, pc, pc1, pc2 + 1, st, st1, r.v);
    if r.v == 0 {
      st' := st1;
      NextDone(ip, fuel.calls, ops, pc, len, st, r.env, st');
    } else {
      var b := C.Exec(p, s.body, r.env, fuel);
      var st2 := SimStmt(p, gs, g, ret, l0, ip, s.body, V.temps, l + 2, r.env, fuel, ops, pc1 + 1, st1);
      if b.Next? {
        ExecTyped(p, gs, g, ret, s.body, r.env, fuel);
        NextParts(ip, fuel.calls, ops, pc1 + 1, |B.ops|, st1, b.env, st2);
        ReachesJoin(ip, fuel.calls, ops, At(pc, st, []), At(pc1 + 1, st1, []), At(pc2, st2, []));
        GoTo(ip, fuel.calls, ops, pc2, pc, st2);
        ReachesJoin(ip, fuel.calls, ops, At(pc, st, []), At(pc2, st2, []), At(pc, st2, []));
        st' := SimStmt(p, gs, g, ret, l0, ip, s, n, l, b.env, fuel.(loops := fuel.loops - 1), ops, pc, st2);
        StmtAfter(ip, fuel.calls, ops, pc, pc, len, len, st, st2, R, st');
      } else {
        st' := st2;
        ReturnedDone(ip, fuel.calls, ops, pc, pc1 + 1, |B.ops|, len, st, st1, b, st');
      }
    }
  }

  lemma NextParts(ip: IrProgram, calls: nat, ops: seq<Operation>, pc: nat, len: nat, st: Store, env: C.Env, st': Store)
    requires StmtDone(ip, calls, ops, pc, len, st, C.Next(env), st')
    ensures Reaches(ip, calls, ops, At(pc, st, []), At(pc + len, st', [])) && Agrees(env, st', {})
  {}

  lemma ReturnedDone(
    ip: IrProgram, calls: nat, ops: seq<Operation>, pc: nat, pc1: nat, len1: nat, len: nat, st: Store, st1: Store,
    r: C.StmtResult, st': Store)
    requires r.Returned? && Reaches(ip, calls, ops, At(pc, st, []), At(pc1, st1, []))
    requires StmtDone(ip, calls, ops, pc1, len1, st1, r, st')
    ensures StmtDone(ip, calls, ops, pc, len, st, r, st')
  {
    hide Reaches, Agrees;
    ReachesJoin(ip, calls, ops, At(pc, st, []), At(pc1, st1, []), Done(r.v, st'));
  }

  // ---------------------------------------------------------------- functions

  lemma BodyLabels(f: C.Function, l: nat)
    ensures EachLabelOnce(LowerBody(f, l).ops)
  {
    forall x ensures Placed(LowerBody(f, l).ops, x) <= 1 {
      PlacedInBody(f, l, x);
    }
  }

  /** A call of a generated function returns what the source function returns. */
  lemma {:induction false} SimInvoke(
    p: C.Program, gs: Typings, l0: nat, ip: IrProgram, f: string, vs: seq<int>, fuel: C.Fuel)
    requires Setup(p, gs, l0, ip) && C.Lookup(p, f).Some? && ArgsInRange(C.Lookup(p, f).value.params, vs)
    requires C.Invoke(p, f, vs, fuel).Value?
    ensures Returns(ip, fuel.calls + 1, f, vs, C.Invoke(p, f, vs, fuel).v)
    decreases fuel.calls, fuel.loops
  {
    hide Reaches, Agrees, CodeAt, EachLabelOnce, WfStmt, StableStmt, LowerStmt, EnvOk, StmtDone, InRange, C.Exec;
    var fn := C.Lookup(p, f).value;
    var i := LookupIndex(p, f);
    var l := LookupLowered(p, l0, f);
    var body, ops := fn.body.value, LowerBody(fn, l).ops;
    var env, st := C.Bind(fn.params, vs), BindIr(LowerParams(fn.params), vs);
    BodyLabels(fn, l);
    BindAgrees(fn.params, vs);
    BindTyped(gs[i], fn.params, vs);
    BodyCodeAt(fn, l);
    var r := C.Exec(p, body, env, fuel);
    var st' := SimStmt(p, gs, gs[i], fn.ret, l0, ip, body, 0, l, env, fuel, ops, 0, st);
    FunctionReturns(ip, fuel.calls, fn, l, st, r, st');
    ReachesReturn(ip, fuel.calls, f, vs, C.Invoke(p, f, vs, fuel).v, st');
  }

  lemma BodyCodeAt(fn: C.Function, l: nat)
    requires fn.body.Some?
    ensures CodeAt(LowerBody(fn, l).ops, 0, LowerStmt(fn.body.value, 0, l).ops)
  {}

  /** Code whose last operation is RETURN is never run off its end. */
  lemma {:induction false} NeverPastReturn(ip: IrProgram, ops: seq<Operation>, bounds: Bounds, a: Config, k: nat)
    requires EndsWithReturn(ops) && a.At? && a.pc < |ops| && Steps(ip, ops, bounds, a, k).Some?
    ensures var b := Steps(ip, ops, bounds, a, k).value; b.At? ==> b.pc < |ops|
    decreases k
  {
    if k > 0 {
      var c := Step(ip, ops, bounds, a).value;
      if c.At? {
        NeverPastReturn(ip, ops, bounds, c, k - 1);
      }
    }
  }

  /** A body that falls off its end meets the RETURN appended for it. */
  lemma FunctionReturns(ip: IrProgram, calls: nat, fn: C.Function, l: nat, st: Store, r: C.StmtResult, st': Store)
    requires fn.body.Some? && StmtDone(ip, calls, LowerBody(fn, l).ops, 0, |LowerStmt(fn.body.value, 0, l).ops|, st, r,
                                       st')
    requires r.Next? ==> fn.ret.Void?
    ensures Reaches(ip, calls, LowerBody(fn, l).ops, At(0, st, []), Done(if r.Returned? then r.v else 0, st'))
  {
    hide Agrees, LowerStmt, Step;
    var ops := LowerBody(fn, l).ops;
    var end := |LowerStmt(fn.body.value, 0, l).ops|;
    if r.Next? {
      if EndsWithReturn(LowerStmt(fn.body.value, 0, l).ops) {
        var n: nat, k: nat :| Steps(ip, ops, Bounds(calls, n), At(0, st, []), k) == Some(At(end, st', []));
        NeverPastReturn(ip, ops, Bounds(calls, n), At(0, st, []), k);
        assert false;
      } else {
        ReturnOp(ip, ops, end, st');
        ReachesStepThen(ip, calls, ops, At(0, st, []), NO_CALLS, At(end, st', []), Done(0, st'));
      }
    }
  }

  lemma ReturnOp(ip: IrProgram, ops: seq<Operation>, pc: nat, st: Store)
    requires pc < |ops| && ops[pc] == Return(NoOperand)
    ensures Step(ip, ops, NO_CALLS, At(pc, st, [])) == Some(Done(0, st))
  {}

  /** The main result. If the source function, run on argument values of its parameter types,
    * returns a value, then the intermediate code of the whole program returns that value, with no more activations
    * at a time than the source run has. */
  lemma LoweringPreservesMeaning(p: C.Program, gs: Typings, l0: nat, f: string, vs: seq<int>, fuel: C.Fuel)
    requires WfProgram(p, gs) && StableProgram(p)
    requires C.Lookup(p, f).Some? && ArgsInRange(C.Lookup(p, f).value.params, vs)
    requires C.Invoke(p, f, vs, fuel).Value?
    ensures Returns(LowerProgram(p, l0), fuel.calls + 1, f, vs, C.Invoke(p, f, vs, fuel).v)
  {
    SimInvoke(p, gs, l0, LowerProgram(p, l0), f, vs, fuel);
  }
}
