/** A run that does not run out of fuel does not depend on it: with more it ends in the same way. So what a
  * function returns is a property of the program and the arguments alone. */
module FuelMore {
  import opened Values
  import opened Arith
  import opened Checked

  predicate Within(a: Fuel, b: Fuel) {
    a.calls <= b.calls && a.loops <= b.loops
  }

  lemma {:induction false} EvalMore(p: Program, e: Expr, env: Env, fuel: Fuel, more: Fuel)
    requires Within(fuel, more) && !Eval(p, e, env, fuel).ExprTimeout?
    ensures Eval(p, e, env, more) == Eval(p, e, env, fuel)
    decreases fuel.calls, fuel.loops, e, 1
  {
    hide Key, Apply, ApplyUnary, Convert, Wrap, Invoke;
    match e
    case Binary(_, _, l, r) =>
      EvalMore(p, l, env, fuel, more);
      if Eval(p, l, env, fuel).Value? {
        EvalMore(p, r, Eval(p, l, env, fuel).env, fuel, more);
      }
    case Unary(_, _, a) => EvalMore(p, a, env, fuel, more);
    case Cast(_, a) => EvalMore(p, a, env, fuel, more);
    case Call(_, f, args) =>
      EvalArgsMore(p, args, env, fuel, more);
      if EvalArgs(p, args, env, fuel).Args? {
        CallMore(p, f, EvalArgs(p, args, env, fuel).vs, fuel, more);
      }
    case _ =>
  }

  lemma {:induction false} CallMore(p: Program, f: string, vs: seq<int>, fuel: Fuel, more: Fuel)
    requires Within(fuel, more) && fuel.calls > 0
    requires !Invoke(p, f, vs, fuel.(calls := fuel.calls - 1)).ExprTimeout?
    ensures Invoke(p, f, vs, more.(calls := more.calls - 1)) == Invoke(p, f, vs, fuel.(calls := fuel.calls - 1))
    decreases fuel.calls - 1, fuel.loops + 1
  {
    hide Invoke;
    InvokeMore(p, f, vs, fuel.(calls := fuel.calls - 1), more.(calls := more.calls - 1));
  }

  lemma {:induction false} EvalArgsMore(p: Program, args: seq<Expr>, env: Env, fuel: Fuel, more: Fuel)
    requires Within(fuel, more) && !EvalArgs(p, args, env, fuel).ArgsTimeout?
    ensures EvalArgs(p, args, env, more) == EvalArgs(p, args, env, fuel)
    decreases fuel.calls, fuel.loops, args, 0
  {
    hide Eval, Within;
    if |args| > 0 {
      EvalMore(p, args[0], env, fuel, more);
      if Eval(p, args[0], env, fuel).Value? {
        EvalArgsMore(p, args[1..], Eval(p, args[0], env, fuel).env, fuel, more);
      }
    }
  }

  /** A function returns the same value, or faults in the same way, however much more fuel there is. */
  lemma {:induction false} InvokeMore(p: Program, f: string, vs: seq<int>, fuel: Fuel, more: Fuel)
    requires Within(fuel, more) && !Invoke(p, f, vs, fuel).ExprTimeout?
    ensures Invoke(p, f, vs, more) == Invoke(p, f, vs, fuel)
    decreases fuel.calls, fuel.loops
  {
    hide Exec, Within, Bind;
    var found := Lookup(p, f);
    if found.Some? && |vs| == |found.value.params| {
      ExecMore(p, found.value.body.value, Bind(found.value.params, vs), fuel, more);
    }
  }

  lemma {:induction false} ExecMore(p: Program, s: Stmt, env: Env, fuel: Fuel, more: Fuel)
    requires Within(fuel, more) && !Exec(p, s, env, fuel).Timeout?
    ensures Exec(p, s, env, more) == Exec(p, s, env, fuel)
    decreases fuel.calls, fuel.loops, s, 2
  {
    hide Key, Convert, Eval, Within, ExecAll;
    match s
    case Decl(_, _, _, init) =>
      if init.Some? {
        EvalMore(p, init.value, env, fuel, more);
      }
    case Assign(_, _, _, e) => EvalMore(p, e, env, fuel, more);
    case Block(body) => ExecAllMore(p, body, env, fuel, more);
    case If(c, thn, els) =>
      EvalMore(p, c, env, fuel, more);
      var r := Eval(p, c, env, fuel);
      if r.Value? && r.v != 0 {
        ExecMore(p, thn, r.env, fuel, more);
      } else if r.Value? && els.Some? {
        ExecMore(p, els.value, r.env, fuel, more);
      }
    case While(_, _) => WhileMore(p, s, env, fuel, more);
    case Return(result) =>
      if result.Some? {
        EvalMore(p, result.value, env, fuel, more);
      }
    case ExprStmt(e) => EvalMore(p, e, env, fuel, more);
  }

  lemma {:induction false} WhileMore(p: Program, s: Stmt, env: Env, fuel: Fuel, more: Fuel)
    requires s.While? && Within(fuel, more) && !Exec(p, s, env, fuel).Timeout?
    ensures Exec(p, s, env, more) == Exec(p, s, env, fuel)
    decreases fuel.calls, fuel.loops, s, 1
  {
    hide Eval;
    EvalMore(p, s.cond, env, fuel, more);
    var r := Eval(p, s.cond, env, fuel);
    if r.Value? && r.v != 0 {
      ExecMore(p, s.body, r.env, fuel, more);
      var b := Exec(p, s.body, r.env, fuel);
      if b.Next? {
        ExecMore(p, s, b.env, fuel.(loops := fuel.loops - 1), more.(loops := more.loops - 1));
      }
    }
  }

  lemma {:induction false} ExecAllMore(p: Program, body: seq<Stmt>, env: Env, fuel: Fuel, more: Fuel)
    requires Within(fuel, more) && !ExecAll(p, body, env, fuel).Timeout?
    ensures ExecAll(p, body, env, more) == ExecAll(p, body, env, fuel)
    decreases fuel.calls, fuel.loops, body, 0
  {
    hide Exec, Within;
    if |body| > 0 {
      ExecMore(p, body[0], env, fuel, more);
      var r := Exec(p, body[0], env, fuel);
      if r.Next? {
        ExecAllMore(p, body[1..], r.env, fuel, more);
      }
    }
  }

  /** Two runs that both end, end in the same way. */
  lemma OneOutcome(p: Program, f: string, vs: seq<int>, a: Fuel, b: Fuel)
    requires !Invoke(p, f, vs, a).ExprTimeout? && !Invoke(p, f, vs, b).ExprTimeout?
    ensures Invoke(p, f, vs, a) == Invoke(p, f, vs, b)
  {
    hide Invoke;
    var most := Fuel(if a.calls < b.calls then b.calls else a.calls, if a.loops < b.loops then b.loops else a.loops);
    InvokeMore(p, f, vs, a, most);
    InvokeMore(p, f, vs, b, most);
  }
}
