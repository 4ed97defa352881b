/** Lowering preserves meaning: whenever a checked function returns a value, the intermediate
  * code generated for it returns the same value, and along the way every variable has the same
  * value in both. */
module LoweringProof {
  import opened Values
  import opened Arith
  import opened Names
  import opened Ir
  import opened Lowering
  import opened Labels
  import opened Typing
  import C = Checked

  // ---------------------------------------------------------------- runs of flat code

  /** The flat run goes from `a` to `b`, with at most `calls` calls nested in it. */
  ghost predicate Reaches(p: IrProgram, calls: nat, ops: seq<Operation>, a: Config, b: Config) {
    exists n: nat, k: nat :: Steps(p, ops, Bounds(calls, n), a, k) == Some(b)
  }

  /** The function returns `v`, with at most `calls` activations at a time. */
  ghost predicate Returns(p: IrProgram, calls: nat, f: string, vs: seq<int>, v: int) {
    exists n: nat :: RunFunction(p, f, vs, Bounds(calls, n)) == Some(v)
  }

  lemma ReachesSelf(p: IrProgram, calls: nat, ops: seq<Operation>, a: Config)
    ensures Reaches(p, calls, ops, a, a)
  {
    assert Steps(p, ops, Bounds(calls, 0), a, 0) == Some(a);
  }

  lemma ReachesStep(p: IrProgram, calls: nat, ops: seq<Operation>, bounds: Bounds, a: Config, b: Config)
    requires a.At? && bounds.calls <= calls && Step(p, ops, bounds, a) == Some(b)
    ensures Reaches(p, calls, ops, a, b)
  {
    var more := Bounds(calls, bounds.steps);
    StepMore(p, ops, bounds, more, a);
    assert Steps(p, ops, more, b, 0) == Some(b);
    assert Steps(p, ops, more, a, 1) == Some(b);
  }

  lemma ReachesJoin(p: IrProgram, calls: nat, ops: seq<Operation>, a: Config, b: Config, c: Config)
    requires Reaches(p, calls, ops, a, b) && Reaches(p, calls, ops, b, c)
    ensures Reaches(p, calls, ops, a, c)
  {
    var n: nat, j: nat :| Steps(p, ops, Bounds(calls, n), a, j) == Some(b);
    var m: nat, k: nat :| Steps(p, ops, Bounds(calls, m), b, k) == Some(c);
    var more := Bounds(calls, if n < m then m else n);
    StepsMore(p, ops, Bounds(calls, n), more, a, j);
    StepsMore(p, ops, Bounds(calls, m), more, b, k);
    StepsJoin(p, ops, more, a, j, k);
    assert Steps(p, ops, more, a, j + k) == Some(c);
  }

  lemma ReachesStepThen(
    p: IrProgram, calls: nat, ops: seq<Operation>, a: Config, bounds: Bounds, b: Config, c: Config)
    requires Reaches(p, calls, ops, a, b) && b.At? && bounds.calls <= calls && Step(p, ops, bounds, b) == Some(c)
    ensures Reaches(p, calls, ops, a, c)
  {
    ReachesStep(p, calls, ops, bounds, b, c);
    ReachesJoin(p, calls, ops, a, b, c);
  }

  lemma ReachesReturn(p: IrProgram, calls: nat, f: string, vs: seq<int>, v: int, st: Store)
    requires LookupIr(p, f).Some? && |vs| == |LookupIr(p, f).value.params|
    requires Reaches(p, calls, LookupIr(p, f).value.operations, At(0, BindIr(LookupIr(p, f).value.params, vs), []),
                     Done(v, st))
    ensures Returns(p, calls + 1, f, vs, v)
  {
    var fn := LookupIr(p, f).value;
    var start := At(0, BindIr(fn.params, vs), []);
    var n: nat, k: nat :| Steps(p, fn.operations, Bounds(calls, n), start, k) == Some(Done(v, st));
    var more := Bounds(calls, if n < k then k else n);
    StepsMore(p, fn.operations, Bounds(calls, n), more, start, k);
    StepsRun(p, fn.operations, more, start, k, more.steps);
    assert RunFunction(p, f, vs, Bounds(calls + 1, more.steps)) == Some(v);
  }

  // ---------------------------------------------------------------- code in its place

  ghost predicate CodeAt(ops: seq<Operation>, pc: nat, code: seq<Operation>) {
    pc + |code| <= |ops| && forall i :: 0 <= i < |code| ==> ops[pc + i] == code[i]
  }

  lemma CodeAtSplit(ops: seq<Operation>, pc: nat, a: seq<Operation>, b: seq<Operation>)
    requires CodeAt(ops, pc, a + b)
    ensures CodeAt(ops, pc, a) && CodeAt(ops, pc + |a|, b)
  {
    forall i | 0 <= i < |a| ensures ops[pc + i] == a[i] {
      assert (a + b)[i] == a[i];
    }
    forall i | 0 <= i < |b| ensures ops[pc + |a| + i] == b[i] {
      assert (a + b)[|a| + i] == b[i];
      assert ops[pc + (|a| + i)] == b[i];
    }
  }

  // ---------------------------------------------------------------- the relation

  /** The store holds the variables of the environment, but for those in `skip`. */
  ghost predicate Agrees(env: C.Env, st: Store, skip: set<string>) {
    forall x :: x in env && x !in skip ==> VarPlace(x) in st && st[VarPlace(x)] == env[x]
  }

  ghost predicate KeepsTemps(st: Store, st': Store, n: nat) {
    forall i: nat :: i < n && TempPlace(i) in st ==> TempPlace(i) in st' && st'[TempPlace(i)] == st[TempPlace(i)]
  }

  /** Only the variable of a hint that was used may run ahead of the source. */
  function Ahead(hint: Operand, result: Operand): set<string> {
    if hint.Variable? && result == hint then {hint.name} else {}
  }

  predicate IsHint(o: Operand) {
    o.NoOperand? || o.Variable?
  }

  /** What `LowerExpr` says of its result operand. */
  ghost predicate ResultShape(e: C.Expr, o: Operand, n: nat, temps: nat) {
    (o.NoOperand? ==> e.t.Void?) &&
    (!e.t.Void? ==> !o.NoOperand? && o.t == e.t) &&
    (o.Temporary? ==> n <= o.id < temps) &&
    (o.Variable? ==> e.Ident? && o.name == C.Key(e.name, e.id))
  }

  lemma ResultOfExpr(e: C.Expr, n: nat)
    ensures ResultShape(e, LowerExpr(e, NoOperand, n).result, n, LowerExpr(e, NoOperand, n).temps)
  {}

  /** An operand computed for one sibling still reads the same after the next is computed. */
  lemma OperandSurvives(
    e: C.Expr, o: Operand, n: nat, temps: nat, v: int, changed: set<string>,
    env: C.Env, env': C.Env, st: Store, st': Store)
    requires ResultShape(e, o, n, temps) && !o.NoOperand?
    requires Read(o, st) == Some(v) && Survives(e, changed)
    requires Agrees(env, st, {}) && Agrees(env', st', {}) && SameExcept(env, env', changed)
    requires KeepsTemps(st, st', temps) && (o.Variable? ==> o.name in env)
    ensures Read(o, st') == Some(v)
  {}

  // ---------------------------------------------------------------- calls

  lemma {:induction false} LookupLowered(p: C.Program, l0: nat, f: string) returns (l: nat)
    requires C.Lookup(p, f).Some?
    ensures LookupIr(LowerProgram(p, l0), f) == Some(LowerFunction(C.Lookup(p, f).value, l))
  {
    if p[0].name == f && p[0].body.Some? {
      l := l0;
    } else {
      l := LookupLowered(p[1..], LowerBody(p[0], l0).labels, f);
      assert LowerProgram(p, l0)[1..] == LowerProgram(p[1..], LowerBody(p[0], l0).labels);
    }
  }

  lemma {:induction false} BindAgrees(params: seq<C.Param>, vs: seq<int>)
    requires |params| == |vs|
    ensures Agrees(C.Bind(params, vs), BindIr(LowerParams(params), vs), {})
  {
    if |params| > 0 {
      var n := |params| - 1;
      BindAgrees(params[..n], vs[..n]);
      assert LowerParams(params)[..n] == LowerParams(params[..n]);
    }
  }

  lemma ParamStep(p: IrProgram, calls: nat, ops: seq<Operation>, pc: nat, o: Operand, v: int, st: Store, args: seq<int>)
    requires pc < |ops| && ops[pc] == Param(o) && Read(o, st) == Some(v)
    ensures Reaches(p, calls, ops, At(pc, st, args), At(pc + 1, st, args + [v]))
  {
    ReachesStep(p, calls, ops, NO_CALLS, At(pc, st, args), At(pc + 1, st, args + [v]));
  }

  /** PARAM operations collect the values of their operands in order. */
  lemma {:induction false} CollectParams(
    p: IrProgram, calls: nat, ops: seq<Operation>, pc: nat, operands: seq<Operand>, vs: seq<int>, st: Store,
    args: seq<int>)
    requires |operands| == |vs| && CodeAt(ops, pc, Params(operands))
    requires forall i :: 0 <= i < |vs| ==> Read(operands[i], st) == Some(vs[i])
    ensures Reaches(p, calls, ops, At(pc, st, args), At(pc + |operands|, st, args + vs))
    decreases |operands|
  {
    hide Reaches, Read;
    if |operands| == 0 {
      ReachesSelf(p, calls, ops, At(pc, st, args));
      assert args + vs == args;
    } else {
      assert ops[pc + 0] == Params(operands)[0];
      ParamStep(p, calls, ops, pc, operands[0], vs[0], st, args);
      forall i | 0 <= i < |operands| - 1 ensures ops[pc + 1 + i] == Params(operands[1..])[i] {
        assert ops[pc + (i + 1)] == Params(operands)[i + 1];
      }
      CollectParams(p, calls, ops, pc + 1, operands[1..], vs[1..], st, args + [vs[0]]);
      assert args + [vs[0]] + vs[1..] == args + vs;
      ReachesJoin(
        p, calls, ops, At(pc, st, args), At(pc + 1, st, args + [vs[0]]), At(pc + |operands|, st, args + vs));
    }
  }
}
