/** A variable that is an operand or an argument is named, not copied, so it is read only after the
  * operands and arguments behind it. What the flat code then computes, for any of those, and exactly
  * when it is what the source computes. */
module Siblings {
  import opened Values
  import opened Arith
  import opened Names
  import opened Ir
  import opened Lowering
  import opened Labels
  import opened Typing
  import opened LoweringProof
  import opened LoweringSim
  import C = Checked

  // ---------------------------------------------------------------- operands

  /** `a op R`: the left operand is a bare variable. */
  predicate BareLeft(e: C.Expr) {
    e.Binary? && e.left.Ident?
  }

  /** What `a op R` computes when `a` is read after `R` instead of before. */
  function LateValue(p: C.Program, e: C.Expr, env: C.Env, fuel: C.Fuel): Option<int>
    requires BareLeft(e)
  {
    match C.Eval(p, e.right, env, fuel)
    case Value(v, env') =>
      var x := C.Key(e.left.name, e.left.id);
      if x in env' then Apply(e.op, e.left.t, env'[x], v) else None
    case _ => None
  }

  /** The flat code of `a op R`, for any well-typed `R`, reads `a` late, wherever
    * its result goes. */
  lemma LateLeft(
    p: C.Program, gs: Typings, g: Types, l0: nat, ip: IrProgram,
    e: C.Expr, hint: Operand, n: nat, env: C.Env, fuel: C.Fuel, ops: seq<Operation>, pc: nat, st: Store)
    returns (st': Store)
    requires BareLeft(e) && IsHint(hint) && Setup(p, gs, l0, ip) && WfExpr(p, g, e) && Stable(e.right) && EnvOk(g, env)
    requires C.Eval(p, e, env, fuel).Value? && LateValue(p, e, env, fuel).Some?
    requires CodeAt(ops, pc, LowerExpr(e, hint, n).ops) && Agrees(env, st, {})
    ensures var c := LowerExpr(e, hint, n);
            Reaches(ip, fuel.calls, ops, At(pc, st, []), At(pc + |c.ops|, st', [])) &&
            Agrees(C.Eval(p, e, env, fuel).env, st', Ahead(hint, c.result)) &&
              Read(c.result, st') == LateValue(p, e, env, fuel)
  {
    hide Reaches, Agrees, KeepsTemps, CodeAt, Apply, WfExpr, Stable, LowerExpr, C.Eval, EnvOk, Setup, Read;
    BareParts(p, g, e, hint, n, env, fuel);
    var R := LowerExpr(e.right, NoOperand, n);
    var dst := Destination(hint, e.t, R.temps);
    var left := Variable(C.Key(e.left.name, e.left.id), e.left.t);
    var last := Bin(e.op, dst, left, R.result);
    CodeAtSplit(ops, pc, R.ops, [last]);
    var b := C.Eval(p, e.right, env, fuel);
    var st1 := SimExpr(p, gs, g, l0, ip, e.right, NoOperand, n, env, fuel, ops, pc, st);
    AgreesNoHint(b.env, st1, R.result);
    ReadsVariable(b.env, st1, left);
    var v := LateValue(p, e, env, fuel).value;
    WriteResult(hint, e.t, R.temps, n, v, b.env, st, st1);
    st' := Write(dst, v, st1);
    var pc1 := pc + |R.ops|;
    CodeAtOne(ops, pc1, last);
    BinStep(ip, ops, pc1, st1, last, b.env[left.name], b.v);
    ReachesStepThen(ip, fuel.calls, ops, At(pc, st, []), NO_CALLS, At(pc1, st1, []), At(pc1 + 1, st', []));
  }

  lemma ReadsVariable(env: C.Env, st: Store, o: Operand)
    requires Agrees(env, st, {}) && o.Variable? && o.name in env
    ensures Read(o, st) == Some(env[o.name])
  {}

  lemma BareParts(p: C.Program, g: Types, e: C.Expr, hint: Operand, n: nat, env: C.Env, fuel: C.Fuel)
    requires BareLeft(e) && WfExpr(p, g, e) && C.Eval(p, e, env, fuel).Value?
    ensures WfExpr(p, g, e.right) && !e.right.t.Void? && C.Key(e.left.name, e.left.id) in env
    ensures var x := env[C.Key(e.left.name, e.left.id)]; var b := C.Eval(p, e.right, env, fuel);
            b.Value? && Apply(e.op, e.left.t, x, b.v).Some? &&
            C.Eval(p, e, env, fuel) == C.Value(Apply(e.op, e.left.t, x, b.v).value, b.env)
    ensures var R := LowerExpr(e.right, NoOperand, n);
            var dst := Destination(hint, e.t, R.temps);
            !R.result.NoOperand? &&
            LowerExpr(e, hint, n) ==
              ExprCode(R.ops + [Bin(e.op, dst, Variable(C.Key(e.left.name, e.left.id), e.left.t), R.result)], dst,
                       AfterDestination(hint, R.temps))
  {
    hide Apply;
    ResultOfExpr(e.right, n);
    assert [] + LowerExpr(e.right, NoOperand, n).ops == LowerExpr(e.right, NoOperand, n).ops;
  }

  /** Different left operands give different sums and differences. */
  lemma SumsDiffer(op: BinaryOp, t: ValueType, x: int, y: int, v: int)
    requires IsInteger(t) && (op.Add? || op.Sub?) && InRange(t, x) && InRange(t, y)
    ensures Apply(op, t, x, v) == Apply(op, t, y, v) <==> x == y
  {
    hide WidthBytes, Modulus, Decode, InRange;
    var m, c := Modulus(WidthBytes(t)), if op.Sub? then -v else v;
    if Apply(op, t, x, v) == Apply(op, t, y, v) {
      WrapInRange(t, x + c);
      WrapInRange(t, y + c);
      ModArith(x + c, c, m);
      ModArith(y + c, c, m);
      assert x + c - c == x && y + c - c == y;
      DecodeEncode(t, x);
      DecodeEncode(t, y);
    }
  }

  /** The exact condition for sums and differences, whatever the right operand is: the flat code
    * computes what the source computes if and only if evaluating the right operand leaves the value
    * of the variable on the left as it was. It does if the right operand increments it nowhere. */
  lemma LateOperandAgrees(p: C.Program, gs: Typings, g: Types, e: C.Expr, env: C.Env, fuel: C.Fuel)
    requires BareLeft(e) && (e.op.Add? || e.op.Sub?) && WfProgram(p, gs) && WfExpr(p, g, e) && EnvOk(g, env)
    requires C.Eval(p, e, env, fuel).Value?
    ensures C.Eval(p, e.right, env, fuel).Value?
    ensures var x := C.Key(e.left.name, e.left.id); var env' := C.Eval(p, e.right, env, fuel).env;
            x in env && x in env' && LateValue(p, e, env, fuel).Some? &&
            (LateValue(p, e, env, fuel) == Some(C.Eval(p, e, env, fuel).v) <==> env'[x] == env[x]) &&
            (x !in Increments(e.right) ==> env'[x] == env[x])
  {
    hide InRange, C.Eval, WfExpr, Wrap, Increments;
    BareParts(p, g, e, NoOperand, 0, env, fuel);
    var x, b := C.Key(e.left.name, e.left.id), C.Eval(p, e.right, env, fuel);
    EvalChanges(p, e.right, env, fuel);
    EvalTyped(p, gs, g, e.right, env, fuel);
    LeftType(p, g, e);
    SumsDiffer(e.op, e.left.t, b.env[x], env[x], b.v);
  }

  lemma LeftType(p: C.Program, g: Types, e: C.Expr)
    requires BareLeft(e) && (e.op.Add? || e.op.Sub?) && WfExpr(p, g, e)
    ensures var x := C.Key(e.left.name, e.left.id); IsInteger(e.left.t) && x in g && g[x] == e.left.t
  {}

  /** The whole statement: the code of `a + R` or `a - R`, for any well-typed `R`, gets to its end, and there
    * its result is the value of the source if and only if `R` leaves the value of `a` as it was. */
  lemma LateOperandRuns(
    p: C.Program, gs: Typings, g: Types, l0: nat, ip: IrProgram,
    e: C.Expr, hint: Operand, n: nat, env: C.Env, fuel: C.Fuel, ops: seq<Operation>, pc: nat, st: Store)
    returns (st': Store)
    requires BareLeft(e) && (e.op.Add? || e.op.Sub?) && IsHint(hint) && Setup(p, gs, l0, ip)
    requires WfExpr(p, g, e) && Stable(e.right) && EnvOk(g, env) && C.Eval(p, e, env, fuel).Value?
    requires CodeAt(ops, pc, LowerExpr(e, hint, n).ops) && Agrees(env, st, {})
    ensures var c := LowerExpr(e, hint, n); var x := C.Key(e.left.name, e.left.id);
            var a := C.Eval(p, e, env, fuel); var b := C.Eval(p, e.right, env, fuel);
            Reaches(ip, fuel.calls, ops, At(pc, st, []), At(pc + |c.ops|, st', [])) && b.Value? && x in env &&
              x in b.env &&
            (Read(c.result, st') == Some(a.v) <==> b.env[x] == env[x])
  {
    hide Reaches, Agrees, CodeAt, WfExpr, Stable, LowerExpr, C.Eval, EnvOk, Read, C.Key, LateValue, Increments;
    LateOperandAgrees(p, gs, g, e, env, fuel);
    st' := LateLeft(p, gs, g, l0, ip, e, hint, n, env, fuel, ops, pc, st);
  }

  /** A right operand that is `b++`, `--b` or the like changes `a` if and only if `b` is `a`. */
  lemma IncrementedSibling(p: C.Program, gs: Typings, g: Types, e: C.Expr, env: C.Env, fuel: C.Fuel)
    requires BareLeft(e) && (e.op.Add? || e.op.Sub?) && e.right.Increment? && WfProgram(p, gs) && WfExpr(p, g, e)
    requires EnvOk(g, env) && C.Eval(p, e, env, fuel).Value?
    ensures LateValue(p, e, env, fuel) == Some(C.Eval(p, e, env, fuel).v) <==>
            C.Key(e.left.name, e.left.id) != C.Key(e.right.name, e.right.id)
  {
    hide InRange, Wrap, C.Key, Apply;
    LateOperandAgrees(p, gs, g, e, env, fuel);
    var x := C.Key(e.left.name, e.left.id);
    if x == C.Key(e.right.name, e.right.id) {
      var t, d := e.right.t, C.Step(e.right.up);
      OneMoreDiffers(t, env[x], d);
      WrapOfInRange(t, env[x]);
    }
  }

  lemma OneMoreDiffers(t: ValueType, v: int, d: int)
    requires IsInteger(t) && (d == 1 || d == -1)
    ensures Wrap(t, v + d) != Wrap(t, v)
  {
    hide Wrap, InRange, WidthBytes, Modulus;
    WrapInRange(t, v + d);
    WrapInRange(t, v);
    var m := Modulus(WidthBytes(t));
    if (v + d) % m == v % m {
      var k := (v + d) / m - v / m;
      assert v + d == m * ((v + d) / m) + (v + d) % m && v == m * (v / m) + v % m;
      assert d == m * k;
      NotAMultiple(k, m, d);
    }
  }

  lemma NotAMultiple(k: int, m: int, d: int)
    requires m >= 2 && (d == 1 || d == -1)
    ensures d != m * k
  {
    if k != 0 {
      MultipleIsFar(k, m);
    }
  }

  /** `a + a++` at `i32` with 3 in `a`: 6 by the source, 7 by the flat code. */
  lemma LateOperandDiffers(fuel: C.Fuel)
    ensures var e := C.Binary(I32, Add, C.Ident(I32, "a", 0), C.Increment(I32, true, true, "a", 0));
            var env: C.Env := map["a@0" := 3];
            C.Eval([], e, env, fuel) == C.Value(6, map["a@0" := 4]) && LateValue([], e, env, fuel) == Some(7)
  {
    assert C.Key("a", 0) == "a@0" by {
      assert Decimal(0) == "0";
    }
    WrapOfInRange(I32, 4);
    WrapOfInRange(I32, 6);
    WrapOfInRange(I32, 7);
  }

  // ---------------------------------------------------------------- arguments

  /** The values a call receives: a bare variable is read after all the arguments. */
  function LateArgument(args: seq<C.Expr>, vs: seq<int>, env': C.Env, i: nat): int
    requires i < |args| == |vs|
  {
    if args[i].Ident? && C.Key(args[i].name, args[i].id) in env' then env'[C.Key(args[i].name, args[i].id)] else vs[i]
  }

  predicate EachStable(args: seq<C.Expr>) {
    forall i :: 0 <= i < |args| ==> Stable(args[i])
  }

  ghost predicate LateArgsDone(
    ip: IrProgram, calls: nat, ops: seq<Operation>, pc: nat, st: Store, args: seq<C.Expr>, n: nat, vs: seq<int>,
    env': C.Env, st': Store)
  {
    var code := LowerArgs(args, n);
    Reaches(ip, calls, ops, At(pc, st, []), At(pc + |code.ops|, st', [])) && Agrees(env', st', {}) &&
      KeepsTemps(st, st', n) &&
    |vs| == |args| && forall i :: 0 <= i < |args| ==>
                        Read(code.results[i], st') == Some(LateArgument(args, vs, env', i))
  }

  /** After the code of the arguments every operand reads the value the call will receive. */
  lemma {:induction false} LateArgs(
    p: C.Program, gs: Typings, g: Types, l0: nat, ip: IrProgram, args: seq<C.Expr>, n: nat, env: C.Env, fuel: C.Fuel,
    ops: seq<Operation>, pc: nat, st: Store)
    returns (st': Store)
    requires Setup(p, gs, l0, ip) && EachStable(args) && EnvOk(g, env)
    requires forall i :: 0 <= i < |args| ==> WfExpr(p, g, args[i]) && IsScalar(args[i].t)
    requires C.EvalArgs(p, args, env, fuel).Args?
    requires CodeAt(ops, pc, LowerArgs(args, n).ops) && Agrees(env, st, {})
    ensures LateArgsDone(ip, fuel.calls, ops, pc, st, args, n, C.EvalArgs(p, args, env, fuel).vs,
                         C.EvalArgs(p, args, env, fuel).env, st')
    decreases |args|
  {
    hide Reaches, Agrees, KeepsTemps, CodeAt, WfExpr, Stable, Increments, LowerExpr, C.Eval, EnvOk, InRange, Read;
    if |args| == 0 {
      st' := st;
      ReachesSelf(ip, fuel.calls, ops, At(pc, st, []));
      KeepsTempsSelf(st, n);
    } else {
      var A := LowerExpr(args[0], NoOperand, n);
      var B := LowerArgs(args[1..], A.temps);
      CodeAtSplit(ops, pc, A.ops, B.ops);
      var a := C.Eval(p, args[0], env, fuel);
      var st1 := SimExpr(p, gs, g, l0, ip, args[0], NoOperand, n, env, fuel, ops, pc, st);
      AgreesNoHint(a.env, st1, A.result);
      EvalTyped(p, gs, g, args[0], env, fuel);
      var pc1 := pc + |A.ops|;
      st' := LateArgs(p, gs, g, l0, ip, args[1..], A.temps, a.env, fuel, ops, pc1, st1);
      FirstLate(p, args, n, env, fuel, st1, st');
      KeepsTempsJoin(st, st1, st', n, A.temps);
      ReachesJoin(ip, fuel.calls, ops, At(pc, st, []), At(pc1, st1, []), At(pc1 + |B.ops|, st', []));
      OthersLate(args, n, a.v, C.EvalArgs(p, args[1..], a.env, fuel).vs, C.EvalArgs(p, args[1..], a.env, fuel).env,
                 st');
    }
  }

  lemma OthersLate(args: seq<C.Expr>, n: nat, v: int, vs: seq<int>, env': C.Env, st': Store)
    requires |args| > 0 && |vs| == |args| - 1
    requires var A := LowerExpr(args[0], NoOperand, n); var B := LowerArgs(args[1..], A.temps);
             Read(A.result, st') == Some(LateArgument(args, [v] + vs, env', 0)) &&
             forall i :: 0 <= i < |args[1..]| ==> Read(B.results[i], st') == Some(LateArgument(args[1..], vs, env', i))
    ensures var c := LowerArgs(args, n);
            forall i :: 0 <= i < |args| ==> Read(c.results[i], st') == Some(LateArgument(args, [v] + vs, env', i))
  {
    hide LowerExpr, Read, C.Key;
    var c := LowerArgs(args, n);
    forall i | 0 <= i < |args| ensures Read(c.results[i], st') == Some(LateArgument(args, [v] + vs, env', i)) {
      if i > 0 {
        var B := LowerArgs(args[1..], LowerExpr(args[0], NoOperand, n).temps);
        assert c.results[i] == B.results[i - 1] && args[1..][i - 1] == args[i] && ([v] + vs)[i] == vs[i - 1];
        assert LateArgument(args, [v] + vs, env', i) == LateArgument(args[1..], vs, env', i - 1);
      }
    }
  }

  lemma FirstLate(p: C.Program, args: seq<C.Expr>, n: nat, env: C.Env, fuel: C.Fuel, st1: Store, st2: Store)
    requires |args| > 0 && IsScalar(args[0].t) && C.EvalArgs(p, args, env, fuel).Args?
    requires var A := LowerExpr(args[0], NoOperand, n); var a := C.Eval(p, args[0], env, fuel);
             Agrees(a.env, st1, {}) && Agrees(C.EvalArgs(p, args[1..], a.env, fuel).env, st2, {}) &&
             KeepsTemps(st1, st2, A.temps) && Read(A.result, st1) == Some(a.v)
    ensures var r := C.EvalArgs(p, args, env, fuel);
            Read(LowerExpr(args[0], NoOperand, n).result, st2) == Some(LateArgument(args, r.vs, r.env, 0))
  {
    hide Agrees, KeepsTemps, Increments, C.Eval;
    var A, a := LowerExpr(args[0], NoOperand, n), C.Eval(p, args[0], env, fuel);
    var env' := C.EvalArgs(p, args[1..], a.env, fuel).env;
    EvalArgsChanges(p, args[1..], a.env, fuel);
    if args[0].Ident? {
      VariableResultInEnv(p, args[0], n, env, fuel);
      ReadsVariable(env', st2, A.result);
    } else {
      ResultOfExpr(args[0], n);
      OperandSurvives(args[0], A.result, n, A.temps, a.v, IncrementsAll(args[1..]), a.env, env', st1, st2);
    }
  }

  /** A call receives the values of its arguments if and only if every argument that is a bare variable
    * keeps its value while the arguments behind it are evaluated. */
  lemma LateArgumentsAgree(args: seq<C.Expr>, vs: seq<int>, env': C.Env, received: seq<int>)
    requires |vs| == |args| == |received|
    requires forall i :: 0 <= i < |args| ==> received[i] == LateArgument(args, vs, env', i)
    ensures received == vs <==>
            forall i :: 0 <= i < |args| && args[i].Ident? && C.Key(args[i].name, args[i].id) in env' ==>
              env'[C.Key(args[i].name, args[i].id)] == vs[i]
  {
    hide C.Key;
    assert received == vs <==> forall i :: 0 <= i < |args| ==> received[i] == vs[i];
  }

  /** The call itself: its PARAMs hand on exactly those values. */
  lemma LateCall(
    p: C.Program, gs: Typings, g: Types, l0: nat, ip: IrProgram, args: seq<C.Expr>, n: nat, env: C.Env, fuel: C.Fuel,
    ops: seq<Operation>, pc: nat, st: Store)
    returns (st': Store, received: seq<int>)
    requires Setup(p, gs, l0, ip) && EachStable(args) && EnvOk(g, env)
    requires forall i :: 0 <= i < |args| ==> WfExpr(p, g, args[i]) && IsScalar(args[i].t)
    requires C.EvalArgs(p, args, env, fuel).Args?
    requires var c := LowerArgs(args, n); CodeAt(ops, pc, c.ops + Params(c.results)) && Agrees(env, st, {})
    ensures var c := LowerArgs(args, n); var r := C.EvalArgs(p, args, env, fuel);
            Reaches(ip, fuel.calls, ops, At(pc, st, []), At(pc + |c.ops| + |args|, st', received)) &&
              |received| == |args| &&
            (received == r.vs <==>
              forall i :: 0 <= i < |args| && args[i].Ident? && C.Key(args[i].name, args[i].id) in r.env ==>
                r.env[C.Key(args[i].name, args[i].id)] == r.vs[i])
  {
    hide Reaches, Agrees, KeepsTemps, CodeAt, WfExpr, Stable, LowerExpr, C.EvalArgs, EnvOk, Read, LowerArgs, C.Key,
         EachStable, LateArgument, Setup, IsScalar, Params;
    var c, r := LowerArgs(args, n), C.EvalArgs(p, args, env, fuel);
    CodeAtSplit(ops, pc, c.ops, Params(c.results));
    st' := LateArgs(p, gs, g, l0, ip, args, n, env, fuel, ops, pc, st);
    received := seq(|args|, i requires 0 <= i < |args| => LateArgument(args, r.vs, r.env, i));
    HandedOn(ip, fuel.calls, ops, pc, |c.ops|, c.results, received, st, st');
    LateArgumentsAgree(args, r.vs, r.env, received);
  }

  /** The code of the arguments, then their PARAMs. */
  lemma HandedOn(ip: IrProgram, calls: nat, ops: seq<Operation>, pc: nat, len: nat, results: seq<Operand>,
      received: seq<int>, st: Store, st': Store)
    requires |results| == |received| && CodeAt(ops, pc + len, Params(results))
    requires forall i :: 0 <= i < |received| ==> Read(results[i], st') == Some(received[i])
    requires Reaches(ip, calls, ops, At(pc, st, []), At(pc + len, st', []))
    ensures Reaches(ip, calls, ops, At(pc, st, []), At(pc + len + |results|, st', received))
  {
    hide Reaches, Read, CodeAt, Params;
    CollectParams(ip, calls, ops, pc + len, results, received, st', []);
    assert [] + received == received;
    ReachesJoin(ip, calls, ops, At(pc, st, []), At(pc + len, st', []), At(pc + len + |results|, st', received));
  }
}
