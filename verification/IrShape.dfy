/** Generated functions are well shaped: typed throughout, complete, and with the arguments of each
  * call grouped in front of it however deeply calls nest. */
module IrShape {
  import opened Values
  import opened Arith
  import opened Names
  import opened Ir
  import opened Lowering
  import opened Labels
  import opened Typing
  import opened LoweringProof
  import opened LoweringSim
  import opened IrTyping
  import Codegen
  import C = Checked

  lemma {:induction false} CollectConcat(
    ip: IrProgram, pending: seq<Operand>, a: seq<Operation>, b: seq<Operation>)
    requires CollectAll(ip, pending, a).Some?
    ensures CollectAll(ip, pending, a + b) == CollectAll(ip, CollectAll(ip, pending, a).value, b)
    decreases |a|
  {
    hide Collect;
    if |a| == 0 {
      assert a + b == b;
    } else {
      assert (a + b)[1..] == a[1..] + b;
      CollectConcat(ip, Collect(ip, pending, a[0]).value, a[1..], b);
    }
  }

  /** Code that leaves no argument pending, put after other such code. */
  lemma CollectJoin(ip: IrProgram, a: seq<Operation>, b: seq<Operation>)
    requires CollectAll(ip, [], a) == Some([]) && CollectAll(ip, [], b) == Some([])
    ensures CollectAll(ip, [], a + b) == Some([])
  {
    CollectConcat(ip, [], a, b);
  }

  lemma CollectOne(ip: IrProgram, op: Operation)
    requires !op.Param? && !op.Call?
    ensures CollectAll(ip, [], [op]) == Some([])
  {}

  lemma {:induction false} CollectParamsOf(ip: IrProgram, pending: seq<Operand>, os: seq<Operand>)
    ensures CollectAll(ip, pending, Params(os)) == Some(pending + os)
    decreases |os|
  {
    if |os| == 0 {
      assert pending + os == pending;
    } else {
      assert Params(os)[1..] == Params(os[1..]);
      CollectParamsOf(ip, pending + [os[0]], os[1..]);
      assert pending + [os[0]] + os[1..] == pending + os;
    }
  }

  lemma {:induction false} ArgumentTypes(args: seq<C.Expr>, n: nat, i: nat)
    requires i < |args| && IsScalar(args[i].t)
    ensures var o := LowerArgs(args, n).results[i]; !o.NoOperand? && o.t == args[i].t
    decreases args
  {
    if i == 0 {
      ResultOfExpr(args[0], n);
    } else {
      ArgumentTypes(args[1..], LowerExpr(args[0], NoOperand, n).temps, i - 1);
    }
  }

  lemma {:induction false} CollectExpr(
    p: C.Program, types: Types, l0: nat, ip: IrProgram, e: C.Expr, hint: Operand, n: nat)
    requires WfExpr(p, types, e) && ip == LowerProgram(p, l0)
    requires hint.NoOperand? || (hint.Variable? && (e.Call? ==> hint.t == e.t))
    requires forall i :: 0 <= i < |p| ==> p[i].ret.Void? || IsScalar(p[i].ret)
    ensures CollectAll(ip, [], LowerExpr(e, hint, n).ops) == Some([])
    decreases e, 1
  {
    hide CollectAll, CallFits, OperandTypes;
    match e
    case Literal(_, _) => CollectNothing(ip);
    case Ident(_, _, _) => CollectNothing(ip);
    case Binary(t, op, l, r) =>
      var L := LowerExpr(l, NoOperand, n);
      var R := LowerExpr(r, NoOperand, L.temps);
      CollectExpr(p, types, l0, ip, l, NoOperand, n);
      CollectExpr(p, types, l0, ip, r, NoOperand, L.temps);
      CollectJoin(ip, L.ops, R.ops);
      var last := Bin(op, Destination(hint, t, R.temps), L.result, R.result);
      CollectOne(ip, last);
      CollectJoin(ip, L.ops + R.ops, [last]);
    case Unary(t, uop, a) =>
      var A := LowerExpr(a, NoOperand, n);
      CollectExpr(p, types, l0, ip, a, NoOperand, n);
      CollectOne(ip, Un(uop, Destination(hint, t, A.temps), A.result));
      CollectJoin(ip, A.ops, [Un(uop, Destination(hint, t, A.temps), A.result)]);
    case Increment(t, up, postfix, name, id) => CollectIncrement(ip, e, hint, n);
    case Cast(t, a) =>
      var A := LowerExpr(a, NoOperand, n);
      CollectExpr(p, types, l0, ip, a, NoOperand, n);
      CollectOne(ip, CastTo(Destination(hint, t, A.temps), A.result));
      CollectJoin(ip, A.ops, [CastTo(Destination(hint, t, A.temps), A.result)]);
    case Call(_, _, _) => CollectCall(p, types, l0, ip, e, hint, n);
  }

  lemma CollectNothing(ip: IrProgram)
    ensures CollectAll(ip, [], []) == Some([])
  {}

  lemma CollectIncrement(ip: IrProgram, e: C.Expr, hint: Operand, n: nat)
    requires e.Increment?
    ensures CollectAll(ip, [], LowerExpr(e, hint, n).ops) == Some([])
  {
    hide CollectAll;
    var ops := LowerExpr(e, hint, n).ops;
    if e.postfix {
      CollectOne(ip, ops[0]);
      CollectOne(ip, ops[1]);
      CollectOne(ip, ops[2]);
      CollectJoin(ip, [ops[0]], [ops[1]]);
      CollectJoin(ip, [ops[0]] + [ops[1]], [ops[2]]);
      assert ops == [ops[0]] + [ops[1]] + [ops[2]];
    } else {
      CollectOne(ip, ops[0]);
      CollectOne(ip, ops[1]);
      CollectJoin(ip, [ops[0]], [ops[1]]);
      assert ops == [ops[0]] + [ops[1]];
    }
  }

  lemma {:induction false} CollectCall(
    p: C.Program, types: Types, l0: nat, ip: IrProgram, e: C.Expr, hint: Operand, n: nat)
    requires e.Call? && WfExpr(p, types, e) && ip == LowerProgram(p, l0)
    requires hint.NoOperand? || (hint.Variable? && hint.t == e.t)
    requires forall i :: 0 <= i < |p| ==> p[i].ret.Void? || IsScalar(p[i].ret)
    ensures CollectAll(ip, [], LowerExpr(e, hint, n).ops) == Some([])
    decreases e, 0
  {
    hide CollectAll;
    var A := LowerArgs(e.args, n);
    var dst := if e.t.Void? then NoOperand else Destination(hint, e.t, A.temps);
    CollectArgs(p, types, l0, ip, e.args, n);
    CollectParamsOf(ip, [], A.results);
    assert [] + A.results == A.results;
    CollectConcat(ip, [], A.ops, Params(A.results));
    CollectConcat(ip, [], A.ops + Params(A.results), [Call(dst, e.func)]);
    var l := LookupLowered(p, l0, e.func);
    forall i | 0 <= i < |A.results|
      ensures !A.results[i].NoOperand? && A.results[i].t == C.Lookup(p, e.func).value.params[i].t
    {
      ArgumentTypes(e.args, n, i);
    }
    CollectTheCall(ip, A.results, dst, e.func);
  }

  lemma CollectTheCall(ip: IrProgram, pending: seq<Operand>, dst: Operand, f: string)
    requires CallFits(ip, pending, dst, f)
    ensures CollectAll(ip, pending, [Call(dst, f)]) == Some([])
  {}

  lemma {:induction false} CollectArgs(
    p: C.Program, types: Types, l0: nat, ip: IrProgram, args: seq<C.Expr>, n: nat)
    requires ip == LowerProgram(p, l0) && forall i :: 0 <= i < |args| ==> WfExpr(p, types, args[i])
    requires forall i :: 0 <= i < |p| ==> p[i].ret.Void? || IsScalar(p[i].ret)
    ensures CollectAll(ip, [], LowerArgs(args, n).ops) == Some([])
    decreases args, 0
  {
    hide CollectAll, LowerExpr, WfExpr;
    if |args| == 0 {
      CollectNothing(ip);
    } else {
      var A := LowerExpr(args[0], NoOperand, n);
      CollectExpr(p, types, l0, ip, args[0], NoOperand, n);
      CollectArgs(p, types, l0, ip, args[1..], A.temps);
      CollectJoin(ip, A.ops, LowerArgs(args[1..], A.temps).ops);
    }
  }

  lemma CollectAssignment(
    p: C.Program, types: Types, l0: nat, ip: IrProgram, name: string, id: nat, t: ValueType, e: C.Expr, n: nat)
    requires WfExpr(p, types, e) && Assignable(t, e) && ip == LowerProgram(p, l0) && ReturnsScalars(p)
    ensures CollectAll(ip, [], LowerAssignment(Variable(C.Key(name, id), t), e, n).ops) == Some([])
  {
    hide CollectAll, LowerExpr, WfExpr;
    var dst := Variable(C.Key(name, id), t);
    CollectExpr(p, types, l0, ip, e, dst, n);
    CollectOne(ip, Assign(dst, LowerExpr(e, dst, n).result));
    CollectJoin(ip, LowerExpr(e, dst, n).ops, [Assign(dst, LowerExpr(e, dst, n).result)]);
  }

  lemma {:induction false} CollectStmt(
    p: C.Program, types: Types, ret: ValueType, l0: nat, ip: IrProgram, s: C.Stmt, n: nat, l: nat)
    requires WfStmt(p, types, ret, s) && ip == LowerProgram(p, l0) && ReturnsScalars(p)
    ensures CollectAll(ip, [], LowerStmt(s, n, l).ops) == Some([])
    decreases s, 1
  {
    hide CollectAll, LowerExpr, WfExpr, LowerAll;
    match s
    case Decl(t, name, id, init) =>
      if init.Some? {
        CollectAssignment(p, types, l0, ip, name, id, t, init.value, n);
      } else {
        CollectNothing(ip);
      }
    case Assign(t, name, id, e) => CollectAssignment(p, types, l0, ip, name, id, t, e, n);
    case Block(stmts) => CollectStmts(p, types, ret, l0, ip, stmts, n, l);
    case If(_, _, _) => CollectIf(p, types, ret, l0, ip, s, n, l);
    case While(c, body) => CollectWhile(p, types, ret, l0, ip, s, n, l);
    case Return(None) => CollectOne(ip, Return(NoOperand));
    case Return(Some(e)) =>
      CollectExpr(p, types, l0, ip, e, NoOperand, n);
      CollectOne(ip, Return(LowerExpr(e, NoOperand, n).result));
      CollectJoin(ip, LowerExpr(e, NoOperand, n).ops, [Return(LowerExpr(e, NoOperand, n).result)]);
    case ExprStmt(e) => CollectExpr(p, types, l0, ip, e, NoOperand, n);
  }

  lemma {:induction false} CollectStmts(
    p: C.Program, types: Types, ret: ValueType, l0: nat, ip: IrProgram, stmts: seq<C.Stmt>, n: nat, l: nat)
    requires forall i :: 0 <= i < |stmts| ==> WfStmt(p, types, ret, stmts[i])
    requires ip == LowerProgram(p, l0) && ReturnsScalars(p)
    ensures CollectAll(ip, [], LowerAll(stmts, n, l).ops) == Some([])
    decreases stmts, 0
  {
    hide CollectAll, LowerStmt, WfStmt;
    if |stmts| == 0 {
      CollectNothing(ip);
    } else {
      var S := LowerStmt(stmts[0], n, l);
      CollectStmt(p, types, ret, l0, ip, stmts[0], n, l);
      CollectStmts(p, types, ret, l0, ip, stmts[1..], S.temps, S.labels);
      CollectJoin(ip, S.ops, LowerAll(stmts[1..], S.temps, S.labels).ops);
    }
  }

  lemma CollectTwo(ip: IrProgram, a: Operation, b: Operation)
    requires !a.Param? && !a.Call? && !b.Param? && !b.Call?
    ensures CollectAll(ip, [], [a, b]) == Some([])
  {
    CollectOne(ip, a);
    CollectOne(ip, b);
    CollectJoin(ip, [a], [b]);
    assert [a, b] == [a] + [b];
  }

  lemma {:induction false} CollectIf(
    p: C.Program, types: Types, ret: ValueType, l0: nat, ip: IrProgram, s: C.Stmt, n: nat, l: nat)
    requires s.If? && WfStmt(p, types, ret, s) && ip == LowerProgram(p, l0) && ReturnsScalars(p)
    ensures CollectAll(ip, [], LowerStmt(s, n, l).ops) == Some([])
    decreases s, 0
  {
    hide CollectAll, LowerExpr, WfExpr, LowerAll;
    var V := LowerExpr(s.cond, NoOperand, n);
    var test := [JumpIfFalse(l, V.result)];
    CollectExpr(p, types, l0, ip, s.cond, NoOperand, n);
    CollectOne(ip, test[0]);
    if s.els.None? {
      var T := LowerStmt(s.thn, V.temps, l + 1);
      CollectStmt(p, types, ret, l0, ip, s.thn, V.temps, l + 1);
      CollectJoin(ip, V.ops, test);
      CollectJoin(ip, V.ops + test, T.ops);
      CollectOne(ip, Label(l));
      CollectJoin(ip, V.ops + test + T.ops, [Label(l)]);
    } else {
      var T := LowerStmt(s.thn, V.temps, l + 2);
      var E := LowerStmt(s.els.value, T.temps, T.labels);
      var mid := [Jump(l + 1), Label(l)];
      CollectStmt(p, types, ret, l0, ip, s.thn, V.temps, l + 2);
      CollectStmt(p, types, ret, l0, ip, s.els.value, T.temps, T.labels);
      CollectJoin(ip, test, T.ops);
      CollectTwo(ip, mid[0], mid[1]);
      CollectJoin(ip, test + T.ops, mid);
      CollectJoin(ip, test + T.ops + mid, E.ops);
      CollectOne(ip, Label(l + 1));
      CollectJoin(ip, test + T.ops + mid + E.ops, [Label(l + 1)]);
      CollectJoin(ip, V.ops, test + T.ops + mid + E.ops + [Label(l + 1)]);
    }
  }

  lemma {:induction false} CollectWhile(
    p: C.Program, types: Types, ret: ValueType, l0: nat, ip: IrProgram, s: C.Stmt, n: nat, l: nat)
    requires s.While? && WfStmt(p, types, ret, s) && ip == LowerProgram(p, l0) && ReturnsScalars(p)
    ensures CollectAll(ip, [], LowerStmt(s, n, l).ops) == Some([])
    decreases s, 0
  {
    hide CollectAll, LowerExpr, WfExpr, LowerAll;
    var V := LowerExpr(s.cond, NoOperand, n);
    var B := LowerStmt(s.body, V.temps, l + 2);
    var head, test, tail := [Label(l)], [JumpIfFalse(l + 1, V.result)], [Jump(l), Label(l + 1)];
    CollectExpr(p, types, l0, ip, s.cond, NoOperand, n);
    CollectStmt(p, types, ret, l0, ip, s.body, V.temps, l + 2);
    CollectOne(ip, head[0]);
    CollectOne(ip, test[0]);
    CollectTwo(ip, tail[0], tail[1]);
    CollectJoin(ip, head, V.ops);
    CollectJoin(ip, head + V.ops, test);
    CollectJoin(ip, head + V.ops + test, B.ops);
    CollectJoin(ip, head + V.ops + test + B.ops, tail);
  }

  // ---------------------------------------------------------------- functions

  ghost function VarTypes(types: Types): Places {
    map x | x in types && '@' in x && IsScalar(types[x]) :: VarPlace(x) := types[x]
  }

  lemma VarTypesHold(types: Types)
    ensures HoldsVars(VarTypes(types), types) && Below(VarTypes(types), 0)
    ensures NamesOk(VarTypes(types), 0)
  {}

  lemma GrowsNames(g: Places, g': Places, k: nat)
    requires NamesOk(g, 0) && Grows(g, g', 0, k)
    ensures NamesOk(g', k)
  {}

  lemma ParamsAreTyped(g: Places, types: Types, params: seq<C.Param>)
    requires WfParams(types, params) && HoldsVars(g, types)
    ensures ParamsTyped(g, LowerParams(params))
  {
    forall i | 0 <= i < |params|
      ensures IsScalar(params[i].t) && VarPlace(LowerParam(params[i]).name) in g &&
              g[VarPlace(LowerParam(params[i]).name)] == params[i].t
    {
      VariableTyped(g, 0, types, params[i].name, params[i].id, params[i].t);
    }
  }

  /** The main shape result, for every function of a well-formed program: every place has one type, operands
    * fit their operations, at every CALL the arguments collected are that call's, no label is placed twice and
    * the target of every jump is placed once. Over the whole program every label id taken from the counter is
    * placed exactly once, and no other. */
  lemma LoweredFunctionTyped(p: C.Program, gs: Typings, l0: nat, i: nat, l: nat) returns (g: Places)
    requires WfProgram(p, gs) && i < |p| && p[i].body.Some?
    ensures FunctionTyped(LowerProgram(p, l0), g, LowerBody(p[i], l).temps, LowerFunction(p[i], l))
    ensures LabelsSound(LowerFunction(p[i], l).operations)
    ensures forall x: nat :: PlacedInProgram(LowerProgram(p, l0), x) == Within(l0, x, LabelsAfter(p, l0))
  {
    hide LabelsSound, PlacedInProgram, Within, LabelsAfter, Grows, HoldsVars, Below, OpsTyped, CollectAll, NamesOk,
         ParamsTyped;
    var f, types, ip := p[i], gs[i], LowerProgram(p, l0);
    var body := f.body.value;
    var S := LowerStmt(body, 0, l);
    BodyLabelsSound(f, l);
    forall x: nat ensures PlacedInProgram(ip, x) == Within(l0, x, LabelsAfter(p, l0)) {
      ProgramLabels(p, l0, x);
    }
    ProgramReturnsScalars(p, gs);
    VarTypesHold(types);
    g := TypeStmt(p, types, f.ret, VarTypes(types), body, 0, l);
    HoldsVarsGrows(VarTypes(types), g, 0, S.temps, types);
    ParamsAreTyped(g, types, f.params);
    GrowsNames(VarTypes(types), g, S.temps);
    CollectStmt(p, types, f.ret, l0, ip, body, 0, l);
    if f.ret.Void? {
      ReturnTyped(g, S.temps, f.ret, NoOperand);
      OpsTypedConcat(g, S.temps, f.ret, S.ops, [Return(NoOperand)]);
      CollectOne(ip, Return(NoOperand));
      CollectJoin(ip, S.ops, [Return(NoOperand)]);
    }
  }

  lemma ProgramReturnsScalars(p: C.Program, gs: Typings)
    requires WfProgram(p, gs)
    ensures ReturnsScalars(p)
  {
    forall i | 0 <= i < |p| ensures p[i].ret.Void? || IsScalar(p[i].ret) {
      assert TypedBy(p, gs[i], p[i]);
    }
  }

  lemma TypedIsComplete(g: Places, k: nat, ret: ValueType, ops: seq<Operation>)
    requires OpsTyped(g, k, ret, ops)
    ensures Codegen.AllComplete(ops)
  {
    hide OperandTyped;
    forall i | 0 <= i < |ops| ensures Codegen.Complete(ops[i]) {
      assert OpTyped(g, k, ret, ops[i]);
    }
  }
}
