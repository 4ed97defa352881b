/** What the back end assumes of a checked tree: operands of one type per operator, computed
  * right-hand sides and results of exactly the target type (the destination hint carries the
  * target's type into the operation), and no variable read by name incremented by a later
  * sibling operand. Runs of such trees keep every value inside the range of its type. */
module Typing {
  import opened Values
  import opened Arith
  import opened Checked

  /** The type of every variable of one function. */
  type Types = map<string, ValueType>

  predicate VarHasType(g: Types, name: string, id: nat, t: ValueType) {
    IsScalar(t) && Key(name, id) in g && g[Key(name, id)] == t
  }

  predicate LiteralFits(t: ValueType, number: nat) {
    IsScalar(t) && number < Modulus(WidthBytes(t)) && (t.Bool? ==> number <= 1)
  }

  predicate WfExpr(p: Program, g: Types, e: Expr) {
    match e
    case Literal(t, n) => LiteralFits(t, n)
    case Ident(t, name, id) => VarHasType(g, name, id, t)
    case Binary(t, op, l, r) =>
      WfExpr(p, g, l) && WfExpr(p, g, r) && OperandTypes(op, l.t, r.t) && t == ResultType(op, l.t)
    case Unary(t, op, a) => WfExpr(p, g, a) && UnaryType(op, t) && a.t == t
    case Increment(t, _, _, name, id) => IsInteger(t) && VarHasType(g, name, id, t)
    case Cast(t, a) => WfExpr(p, g, a) && IsScalar(t) && IsScalar(a.t) && Castable(a.t, t) && PlainLiteral(a)
    case Call(t, f, args) =>
      Lookup(p, f).Some? && t == Lookup(p, f).value.ret && |args| == |Lookup(p, f).value.params| &&
      forall i :: 0 <= i < |args| ==>
        WfExpr(p, g, args[i]) && IsScalar(args[i].t) && args[i].t == Lookup(p, f).value.params[i].t
  }

  /** A literal that denotes itself, not the operand of a negated literal. */
  predicate PlainLiteral(e: Expr) {
    e.Literal? ==> InRange(e.t, e.number)
  }

  /** `e` may be stored in a variable of type `t`: its type is exactly `t`, or it is a plain variable, an
    * increment or a literal, which ASSIGN widens. */
  predicate Assignable(t: ValueType, e: Expr) {
    IsScalar(t) &&
    (e.t == t ||
     ((e.Ident? || e.Increment? || e.Literal?) && SameGroup(e.t, t) && WidthBits(e.t) <= WidthBits(t) &&
      PlainLiteral(e)))
  }

  predicate WfStmt(p: Program, g: Types, ret: ValueType, s: Stmt) {
    match s
    case Decl(t, name, id, init) =>
      VarHasType(g, name, id, t) && (init.Some? ==> WfExpr(p, g, init.value) && Assignable(t, init.value))
    case Assign(t, name, id, e) => VarHasType(g, name, id, t) && WfExpr(p, g, e) && Assignable(t, e)
    case Block(stmts) => forall i :: 0 <= i < |stmts| ==> WfStmt(p, g, ret, stmts[i])
    case If(c, thn, els) =>
      WfExpr(p, g, c) && c.t.Bool? && WfStmt(p, g, ret, thn) && (els.Some? ==> WfStmt(p, g, ret, els.value))
    case While(c, body) => WfExpr(p, g, c) && c.t.Bool? && WfStmt(p, g, ret, body)
    case Return(None) => ret.Void?
    case Return(Some(e)) => WfExpr(p, g, e) && IsScalar(ret) && e.t == ret
    case ExprStmt(e) => WfExpr(p, g, e)
  }

  predicate WfParams(g: Types, params: seq<Param>) {
    forall i :: 0 <= i < |params| ==> VarHasType(g, params[i].name, params[i].id, params[i].t)
  }

  predicate TypedBy(p: Program, g: Types, f: Function) {
    WfParams(g, f.params) && (f.ret.Void? || IsScalar(f.ret)) &&
    (f.body.Some? ==> WfStmt(p, g, f.ret, f.body.value))
  }

  /** A typing for every function. */
  type Typings = seq<Types>

  predicate WfProgram(p: Program, gs: Typings) {
    |gs| == |p| && forall i :: 0 <= i < |p| ==> TypedBy(p, gs[i], p[i])
  }

  // ---------------------------------------------------------------- aliasing

  /** The variables the evaluation of `e` may change. */
  function Increments(e: Expr): set<string> {
    match e
    case Literal(_, _) => {}
    case Ident(_, _, _) => {}
    case Binary(_, _, l, r) => Increments(l) + Increments(r)
    case Unary(_, _, a) => Increments(a)
    case Increment(_, _, _, name, id) => {Key(name, id)}
    case Cast(_, a) => Increments(a)
    case Call(_, _, args) => IncrementsAll(args)
  }

  function IncrementsAll(es: seq<Expr>): set<string> {
    if |es| == 0 then {} else Increments(es[0]) + IncrementsAll(es[1..])
  }

  /** A bare variable is passed on by name, so nothing evaluated after it may change it. */
  predicate Survives(e: Expr, changed: set<string>) {
    e.Ident? ==> Key(e.name, e.id) !in changed
  }

  predicate Stable(e: Expr) {
    match e
    case Binary(_, _, l, r) => Stable(l) && Stable(r) && Survives(l, Increments(r))
    case Unary(_, _, a) => Stable(a)
    case Cast(_, a) => Stable(a)
    case Call(_, _, args) => StableArgs(args)
    case _ => true
  }

  predicate StableArgs(args: seq<Expr>) {
    |args| == 0 ||
    (Stable(args[0]) && Survives(args[0], IncrementsAll(args[1..])) && StableArgs(args[1..]))
  }

  predicate StableStmt(s: Stmt) {
    match s
    case Decl(_, _, _, init) => init.Some? ==> Stable(init.value)
    case Assign(_, _, _, e) => Stable(e)
    case Block(stmts) => forall i :: 0 <= i < |stmts| ==> StableStmt(stmts[i])
    case If(c, thn, els) => Stable(c) && StableStmt(thn) && (els.Some? ==> StableStmt(els.value))
    case While(c, body) => Stable(c) && StableStmt(body)
    case Return(e) => e.Some? ==> Stable(e.value)
    case ExprStmt(e) => Stable(e)
  }

  predicate StableProgram(p: Program) {
    forall i :: 0 <= i < |p| && p[i].body.Some? ==> StableStmt(p[i].body.value)
  }

  // ---------------------------------------------------------------- evaluation changes only what it increments

  predicate SameExcept(env: Env, env': Env, changed: set<string>) {
    env.Keys == env'.Keys && forall x :: x in env && x !in changed ==> env'[x] == env[x]
  }

  lemma {:induction false} EvalChanges(p: Program, e: Expr, env: Env, fuel: Fuel)
    requires Eval(p, e, env, fuel).Value?
    ensures SameExcept(env, Eval(p, e, env, fuel).env, Increments(e))
    decreases e
  {
    match e
    case Literal(_, _) =>
    case Ident(_, _, _) =>
    case Binary(_, _, l, r) =>
      EvalChanges(p, l, env, fuel);
      EvalChanges(p, r, Eval(p, l, env, fuel).env, fuel);
    case Unary(_, _, a) => EvalChanges(p, a, env, fuel);
    case Increment(_, _, _, _, _) =>
    case Cast(_, a) => EvalChanges(p, a, env, fuel);
    case Call(_, _, args) => EvalArgsChanges(p, args, env, fuel);
  }

  lemma {:induction false} EvalArgsChanges(p: Program, args: seq<Expr>, env: Env, fuel: Fuel)
    requires EvalArgs(p, args, env, fuel).Args?
    ensures SameExcept(env, EvalArgs(p, args, env, fuel).env, IncrementsAll(args))
    decreases args
  {
    if |args| > 0 {
      EvalChanges(p, args[0], env, fuel);
      EvalArgsChanges(p, args[1..], Eval(p, args[0], env, fuel).env, fuel);
    }
  }

  // ---------------------------------------------------------------- values stay in range

  predicate EnvOk(g: Types, env: Env) {
    forall x :: x in env ==> x in g && IsScalar(g[x]) && InRange(g[x], env[x])
  }

  lemma LiteralInRange(t: ValueType, n: nat)
    requires LiteralFits(t, n)
    ensures InRange(t, LiteralValue(t, n))
  {}

  lemma ConvertInRange(t: ValueType, from: ValueType, v: int)
    requires IsScalar(t) && IsScalar(from) && InRange(from, v) && Castable(from, t)
    ensures InRange(t, Convert(t, v))
  {}

  lemma SameGroupCastable(from: ValueType, t: ValueType)
    requires IsScalar(from) && (from == t || SameGroup(from, t))
    ensures Castable(from, t)
  {}

  lemma EnvOkUpdate(g: Types, env: Env, x: string, v: int)
    requires EnvOk(g, env) && x in g && IsScalar(g[x]) && InRange(g[x], v)
    ensures EnvOk(g, env[x := v])
  {}

  lemma {:induction false} EvalTyped(p: Program, gs: Typings, g: Types, e: Expr, env: Env, fuel: Fuel)
    requires WfProgram(p, gs) && WfExpr(p, g, e) && EnvOk(g, env) && Eval(p, e, env, fuel).Value?
    ensures IsScalar(e.t) ==> InRange(e.t, Eval(p, e, env, fuel).v)
    ensures EnvOk(g, Eval(p, e, env, fuel).env)
    decreases fuel.calls, fuel.loops, e, 1
  {
    hide InRange, Wrap, Convert, Apply, ApplyUnary, WfProgram, Key;
    match e
    case Literal(t, n) => LiteralInRange(t, n);
    case Ident(_, _, _) =>
    case Binary(_, op, l, r) =>
      EvalTyped(p, gs, g, l, env, fuel);
      var L := Eval(p, l, env, fuel);
      EvalTyped(p, gs, g, r, L.env, fuel);
      ApplyInRange(op, l.t, L.v, Eval(p, r, L.env, fuel).v);
    case Unary(_, op, a) =>
      EvalTyped(p, gs, g, a, env, fuel);
      ApplyUnaryInRange(op, a.t, Eval(p, a, env, fuel).v);
    case Increment(t, up, _, name, id) =>
      var updated := Wrap(t, env[Key(name, id)] + Step(up));
      WrapInRange(t, env[Key(name, id)] + Step(up));
      EnvOkUpdate(g, env, Key(name, id), updated);
    case Cast(t, a) =>
      EvalTyped(p, gs, g, a, env, fuel);
      ConvertInRange(t, a.t, Eval(p, a, env, fuel).v);
    case Call(_, _, _) => CallTyped(p, gs, g, e, env, fuel);
  }

  lemma {:induction false} CallTyped(p: Program, gs: Typings, g: Types, e: Expr, env: Env, fuel: Fuel)
    requires e.Call? && WfProgram(p, gs) && WfExpr(p, g, e) && EnvOk(g, env) && Eval(p, e, env, fuel).Value?
    ensures IsScalar(e.t) ==> InRange(e.t, Eval(p, e, env, fuel).v)
    ensures EnvOk(g, Eval(p, e, env, fuel).env)
    decreases fuel.calls, fuel.loops, e, 0
  {
    hide InRange, EnvOk, WfProgram, WfExpr, Eval, EvalArgs, Invoke, ArgsInRange;
    CallWf(p, g, e);
    CallValue(p, e, env, fuel);
    var fn := Lookup(p, e.func).value;
    EvalArgsTyped(p, gs, g, e.args, fn.params, env, fuel);
    InvokeTyped(p, gs, e.func, EvalArgs(p, e.args, env, fuel).vs, fuel.(calls := fuel.calls - 1));
  }

  lemma CallWf(p: Program, g: Types, e: Expr)
    requires e.Call? && WfExpr(p, g, e)
    ensures Lookup(p, e.func).Some? && e.t == Lookup(p, e.func).value.ret
    ensures |e.args| == |Lookup(p, e.func).value.params|
    ensures forall i :: 0 <= i < |e.args| ==>
              WfExpr(p, g, e.args[i]) && IsScalar(e.args[i].t) && e.args[i].t == Lookup(p, e.func).value.params[i].t
  {}

  lemma CallValue(p: Program, e: Expr, env: Env, fuel: Fuel)
    requires e.Call? && Eval(p, e, env, fuel).Value?
    ensures EvalArgs(p, e.args, env, fuel).Args? && fuel.calls > 0
    ensures var r := Invoke(p, e.func, EvalArgs(p, e.args, env, fuel).vs, fuel.(calls := fuel.calls - 1));
            r.Value? && Eval(p, e, env, fuel) == Value(r.v, EvalArgs(p, e.args, env, fuel).env)
  {
    hide Invoke, EvalArgs;
  }

  lemma {:induction false} EvalArgsTyped(
    p: Program, gs: Typings, g: Types, args: seq<Expr>, params: seq<Param>, env: Env, fuel: Fuel)
    requires WfProgram(p, gs) && EnvOk(g, env) && EvalArgs(p, args, env, fuel).Args? && |args| == |params|
    requires forall i :: 0 <= i < |args| ==> WfExpr(p, g, args[i]) && args[i].t == params[i].t && IsScalar(args[i].t)
    ensures ArgsInRange(params, EvalArgs(p, args, env, fuel).vs)
    ensures EnvOk(g, EvalArgs(p, args, env, fuel).env)
    decreases fuel.calls, fuel.loops, args, 0
  {
    hide InRange, Wrap, Convert, Apply, ApplyUnary;
    if |args| > 0 {
      EvalTyped(p, gs, g, args[0], env, fuel);
      EvalArgsTyped(p, gs, g, args[1..], params[1..], Eval(p, args[0], env, fuel).env, fuel);
    }
  }

  predicate ArgsInRange(params: seq<Param>, vs: seq<int>) {
    |vs| == |params| && forall i :: 0 <= i < |vs| ==> InRange(params[i].t, vs[i])
  }

  lemma {:induction false} BindTyped(g: Types, params: seq<Param>, vs: seq<int>)
    requires WfParams(g, params) && ArgsInRange(params, vs)
    ensures EnvOk(g, Bind(params, vs))
  {
    hide InRange, Wrap, Convert, Apply, ApplyUnary;
    if |params| > 0 {
      var n := |params| - 1;
      BindTyped(g, params[..n], vs[..n]);
    }
  }

  lemma {:induction false} LookupIndex(p: Program, f: string) returns (i: nat)
    requires Lookup(p, f).Some?
    ensures i < |p| && p[i] == Lookup(p, f).value
  {
    if p[0].name == f && p[0].body.Some? {
      i := 0;
    } else {
      i := LookupIndex(p[1..], f);
      i := i + 1;
    }
  }

  lemma {:induction false} InvokeTyped(p: Program, gs: Typings, f: string, vs: seq<int>, fuel: Fuel)
    requires WfProgram(p, gs) && Lookup(p, f).Some? && ArgsInRange(Lookup(p, f).value.params, vs)
    requires Invoke(p, f, vs, fuel).Value?
    ensures IsScalar(Lookup(p, f).value.ret) ==> InRange(Lookup(p, f).value.ret, Invoke(p, f, vs, fuel).v)
    decreases fuel.calls, fuel.loops
  {
    hide InRange, Wrap, Convert, Apply, ApplyUnary, WfExpr, Eval, Assignable;
    var fn := Lookup(p, f).value;
    var i := LookupIndex(p, f);
    BindTyped(gs[i], fn.params, vs);
    ExecTyped(p, gs, gs[i], fn.ret, fn.body.value, Bind(fn.params, vs), fuel);
  }

  predicate ResultOk(g: Types, ret: ValueType, r: StmtResult) {
    match r
    case Next(env) => EnvOk(g, env)
    case Returned(v, env) => EnvOk(g, env) && (IsScalar(ret) ==> InRange(ret, v)) && (ret.Void? ==> v == 0)
    case _ => true
  }

  lemma {:induction false} StoreTyped(
    p: Program, gs: Typings, g: Types, ret: ValueType, t: ValueType, x: string, e: Expr, env: Env, fuel: Fuel)
    requires WfProgram(p, gs) && WfExpr(p, g, e) && EnvOk(g, env) && Assignable(t, e)
    requires x in g && g[x] == t
    ensures ResultOk(g, ret, Store(t, x, Eval(p, e, env, fuel)))
    decreases fuel.calls, fuel.loops, e, 2
  {
    hide InRange, Wrap, Convert, Apply, ApplyUnary;
    var r := Eval(p, e, env, fuel);
    if r.Value? {
      EvalTyped(p, gs, g, e, env, fuel);
      SameGroupCastable(e.t, t);
      ConvertInRange(t, e.t, r.v);
      EnvOkUpdate(g, r.env, x, Convert(t, r.v));
    }
  }

  lemma {:induction false} ExecTyped(
    p: Program, gs: Typings, g: Types, ret: ValueType, s: Stmt, env: Env, fuel: Fuel)
    requires WfProgram(p, gs) && WfStmt(p, g, ret, s) && EnvOk(g, env)
    ensures ResultOk(g, ret, Exec(p, s, env, fuel))
    decreases fuel.calls, fuel.loops, s, 1
  {
    hide InRange, Wrap, Convert, Apply, ApplyUnary, WfExpr, Eval, Assignable;
    match s
    case Decl(t, name, id, init) =>
      if init.Some? {
        StoreTyped(p, gs, g, ret, t, Key(name, id), init.value, env, fuel);
      }
    case Assign(t, name, id, e) => StoreTyped(p, gs, g, ret, t, Key(name, id), e, env, fuel);
    case Block(stmts) => ExecAllTyped(p, gs, g, ret, stmts, env, fuel);
    case If(c, thn, els) => IfTyped(p, gs, g, ret, s, env, fuel);
    case While(c, body) => WhileTyped(p, gs, g, ret, s, env, fuel);
    case Return(None) =>
    case Return(Some(e)) =>
      if Eval(p, e, env, fuel).Value? {
        EvalTyped(p, gs, g, e, env, fuel);
      }
    case ExprStmt(e) =>
      if Eval(p, e, env, fuel).Value? {
        EvalTyped(p, gs, g, e, env, fuel);
      }
  }

  lemma {:induction false} IfTyped(
    p: Program, gs: Typings, g: Types, ret: ValueType, s: Stmt, env: Env, fuel: Fuel)
    requires s.If? && WfProgram(p, gs) && WfStmt(p, g, ret, s) && EnvOk(g, env)
    ensures ResultOk(g, ret, Exec(p, s, env, fuel))
    decreases fuel.calls, fuel.loops, s, 0
  {
    hide InRange, EnvOk, WfExpr, WfProgram, Eval, Assignable, VarHasType, ExecAll;
    var r := Eval(p, s.cond, env, fuel);
    if r.Value? {
      EvalTyped(p, gs, g, s.cond, env, fuel);
      if r.v != 0 {
        ExecTyped(p, gs, g, ret, s.thn, r.env, fuel);
      } else if s.els.Some? {
        ExecTyped(p, gs, g, ret, s.els.value, r.env, fuel);
      }
    }
  }

  lemma {:induction false} WhileTyped(
    p: Program, gs: Typings, g: Types, ret: ValueType, s: Stmt, env: Env, fuel: Fuel)
    requires s.While? && WfProgram(p, gs) && WfStmt(p, g, ret, s) && EnvOk(g, env)
    ensures ResultOk(g, ret, Exec(p, s, env, fuel))
    decreases fuel.calls, fuel.loops, s, 0
  {
    hide InRange, EnvOk, WfExpr, WfProgram, Eval, Assignable, VarHasType, ExecAll;
    if fuel.loops > 0 {
      var r := Eval(p, s.cond, env, fuel);
      if r.Value? {
        EvalTyped(p, gs, g, s.cond, env, fuel);
        var b := Exec(p, s.body, r.env, fuel);
        ExecTyped(p, gs, g, ret, s.body, r.env, fuel);
        if r.v != 0 && b.Next? {
          ExecTyped(p, gs, g, ret, s, b.env, fuel.(loops := fuel.loops - 1));
        }
      }
    }
  }

  lemma {:induction false} ExecAllTyped(
    p: Program, gs: Typings, g: Types, ret: ValueType, stmts: seq<Stmt>, env: Env, fuel: Fuel)
    requires WfProgram(p, gs) && EnvOk(g, env)
    requires forall i :: 0 <= i < |stmts| ==> WfStmt(p, g, ret, stmts[i])
    ensures ResultOk(g, ret, ExecAll(p, stmts, env, fuel))
    decreases fuel.calls, fuel.loops, stmts, 0
  {
    hide InRange, Wrap, Convert, Apply, ApplyUnary, WfExpr, Eval, Assignable;
    if |stmts| > 0 {
      ExecTyped(p, gs, g, ret, stmts[0], env, fuel);
      var r := Exec(p, stmts[0], env, fuel);
      if r.Next? {
        ExecAllTyped(p, gs, g, ret, stmts[1..], r.env, fuel);
      }
    }
  }
}
