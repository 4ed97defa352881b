/** The tree the analyser hands to the back end, types and variable ids filled in, and what
  * running it means: one flat environment `name@id -> value` per function activation.
  * `&&` and `||` evaluate both operands, as the language's code generator does. */
module Checked {
  import opened Values
  import opened Arith
  import opened Names

  datatype Expr =
    | Literal(t: ValueType, number: nat)
    | Ident(t: ValueType, name: string, id: nat)
    | Binary(t: ValueType, op: BinaryOp, left: Expr, right: Expr)
    | Unary(t: ValueType, uop: UnaryOp, operand: Expr)
    | Increment(t: ValueType, up: bool, postfix: bool, name: string, id: nat)
    | Cast(t: ValueType, operand: Expr)
    | Call(t: ValueType, func: string, args: seq<Expr>)

  datatype Stmt =
    | Decl(t: ValueType, name: string, id: nat, init: Option<Expr>)
    | Assign(t: ValueType, name: string, id: nat, value: Expr)
    | Block(stmts: seq<Stmt>)
    | If(cond: Expr, thn: Stmt, els: Option<Stmt>)
    | While(cond: Expr, body: Stmt)
    | Return(result: Option<Expr>)
    | ExprStmt(e: Expr)

  datatype Param = Param(name: string, id: nat, t: ValueType)

  /** A function with no body is a declaration. */
  datatype Function = Function(name: string, params: seq<Param>, ret: ValueType, body: Option<Stmt>)

  type Program = seq<Function>

  function Lookup(p: Program, name: string): (f: Option<Function>)
    ensures f.Some? ==> f.value in p && f.value.name == name && f.value.body.Some?
  {
    if |p| == 0 then None
    else if p[0].name == name && p[0].body.Some? then Some(p[0])
    else Lookup(p[1..], name)
  }

  // ---------------------------------------------------------------- meaning

  type Env = map<string, int>

  /** What a run may still use: calls nested in the running function, and rounds of a loop. */
  datatype Fuel = Fuel(calls: nat, loops: nat)

  /** Why a run has no meaning. */
  datatype Reason = UnassignedRead(x: string) | Arithmetic | UnknownFunction | MissingReturn

  datatype ExprResult = Value(v: int, env: Env) | ExprFault(reason: Reason) | ExprTimeout
  datatype ArgsResult = Args(vs: seq<int>, env: Env) | ArgsFault(reason: Reason) | ArgsTimeout
  datatype StmtResult = Next(env: Env) | Returned(v: int, env: Env) | Fault(reason: Reason) | Timeout

  function Key(name: string, id: nat): string {
    MangleVariable(name, id)
  }

  function Step(up: bool): int {
    if up then 1 else -1
  }

  /** A literal's value. The literal 128 of a negated `i8` literal stands for -128. */
  function LiteralValue(t: ValueType, number: nat): int {
    Convert(t, number)
  }

  function Bind(params: seq<Param>, vs: seq<int>): Env
    requires |params| == |vs|
  {
    if |params| == 0 then map[]
    else
      var n := |params| - 1;
      Bind(params[..n], vs[..n])[Key(params[n].name, params[n].id) := vs[n]]
  }

  function Eval(p: Program, e: Expr, env: Env, fuel: Fuel): ExprResult
    decreases fuel.calls, fuel.loops, e, 1
  {
    match e
    case Literal(t, n) => Value(LiteralValue(t, n), env)
    case Ident(_, name, id) =>
      var x := Key(name, id);
      if x in env then Value(env[x], env) else ExprFault(UnassignedRead(x))
    case Binary(_, op, l, r) =>
      (match Eval(p, l, env, fuel)
       case Value(a, env1) =>
         (match Eval(p, r, env1, fuel)
          case Value(b, env2) =>
            var v := Apply(op, l.t, a, b);
            if v.Some? then Value(v.value, env2) else ExprFault(Arithmetic)
          case other => other)
       case other => other)
    case Unary(_, op, a) =>
      (match Eval(p, a, env, fuel)
       case Value(v, env1) => Value(ApplyUnary(op, a.t, v), env1)
       case other => other)
    case Increment(t, up, postfix, name, id) =>
      var x := Key(name, id);
      if x !in env then ExprFault(UnassignedRead(x))
      else
        var updated := Wrap(t, env[x] + Step(up));
        Value(if postfix then env[x] else updated, env[x := updated])
    case Cast(t, a) =>
      (match Eval(p, a, env, fuel)
       case Value(v, env1) => Value(Convert(t, v), env1)
       case other => other)
    case Call(t, f, args) =>
      (match EvalArgs(p, args, env, fuel)
       case Args(vs, env1) =>
         if fuel.calls == 0 then ExprTimeout
         else
           (match Invoke(p, f, vs, fuel.(calls := fuel.calls - 1))
            case Value(v, _) => Value(v, env1)
            case other => other)
       case ArgsFault(r) => ExprFault(r)
       case ArgsTimeout => ExprTimeout)
  }

  function EvalArgs(p: Program, args: seq<Expr>, env: Env, fuel: Fuel): (r: ArgsResult)
    ensures r.Args? ==> |r.vs| == |args|
    decreases fuel.calls, fuel.loops, args, 0
  {
    if |args| == 0 then Args([], env)
    else
      match Eval(p, args[0], env, fuel)
      case Value(v, env1) =>
        (match EvalArgs(p, args[1..], env1, fuel)
         case Args(vs, env2) => Args([v] + vs, env2)
         case other => other)
      case ExprFault(r) => ArgsFault(r)
      case ExprTimeout => ArgsTimeout
  }

  /** Run a function on argument values; a void function delivers 0. */
  function Invoke(p: Program, f: string, vs: seq<int>, fuel: Fuel): ExprResult
    decreases fuel.calls, fuel.loops
  {
    match Lookup(p, f)
    case None => ExprFault(UnknownFunction)
    case Some(fn) =>
      if |vs| != |fn.params| then ExprFault(UnknownFunction)
      else
        match Exec(p, fn.body.value, Bind(fn.params, vs), fuel)
        case Returned(v, env) => Value(v, env)
        case Next(env) => if fn.ret.Void? then Value(0, env) else ExprFault(MissingReturn)
        case Fault(r) => ExprFault(r)
        case Timeout => ExprTimeout
  }

  function Exec(p: Program, s: Stmt, env: Env, fuel: Fuel): StmtResult
    decreases fuel.calls, fuel.loops, s, 1
  {
    match s
    case Decl(t, name, id, init) =>
      (match init
       case None => Next(env)
       case Some(e) => Store(t, Key(name, id), Eval(p, e, env, fuel)))
    case Assign(t, name, id, e) => Store(t, Key(name, id), Eval(p, e, env, fuel))
    case Block(body) => ExecAll(p, body, env, fuel)
    case If(c, thn, els) =>
      (match Eval(p, c, env, fuel)
       case Value(v, env1) =>
         if v != 0 then Exec(p, thn, env1, fuel)
         else (match els
               case Some(b) => Exec(p, b, env1, fuel)
               case None => Next(env1))
       case ExprFault(r) => Fault(r)
       case ExprTimeout => Timeout)
    case While(c, body) =>
      if fuel.loops == 0 then Timeout
      else
        (match Eval(p, c, env, fuel)
         case Value(v, env1) =>
           if v == 0 then Next(env1)
           else
             (match Exec(p, body, env1, fuel)
              case Next(env2) => Exec(p, s, env2, fuel.(loops := fuel.loops - 1))
              case other => other)
         case ExprFault(r) => Fault(r)
         case ExprTimeout => Timeout)
    case Return(None) => Returned(0, env)
    case Return(Some(e)) =>
      (match Eval(p, e, env, fuel)
       case Value(v, env1) => Returned(v, env1)
       case ExprFault(r) => Fault(r)
       case ExprTimeout => Timeout)
    case ExprStmt(e) =>
      (match Eval(p, e, env, fuel)
       case Value(_, env1) => Next(env1)
       case ExprFault(r) => Fault(r)
       case ExprTimeout => Timeout)
  }

  function ExecAll(p: Program, body: seq<Stmt>, env: Env, fuel: Fuel): StmtResult
    decreases fuel.calls, fuel.loops, body, 0
  {
    if |body| == 0 then Next(env)
    else
      match Exec(p, body[0], env, fuel)
      case Next(env1) => ExecAll(p, body[1..], env1, fuel)
      case other => other
  }

  function Store(t: ValueType, x: string, r: ExprResult): StmtResult {
    match r
    case Value(v, env) => Next(env[x := Convert(t, v)])
    case ExprFault(reason) => Fault(reason)
    case ExprTimeout => Timeout
  }
}
