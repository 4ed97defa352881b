/** No run of generated code goes past its last operation. A body that always returns by the
  * analyser's rule is never left at its end, however its conditions turn out, and a void body ends
  * in a RETURN. The argument is a set of operations closed under every step a run can take. */
module Endings {
  import opened Values
  import opened Arith
  import opened Ir
  import opened Lowering
  import opened Labels
  import opened LoweringProof
  import opened LoweringSim
  import Names
  import C = Checked

  /** The analyser's rule for a statement that returns on every path. */
  predicate AlwaysReturns(s: C.Stmt) {
    match s
    case Return(_) => true
    case Block(body) => AnyReturns(body)
    case If(_, thn, els) => els.Some? && AlwaysReturns(thn) && AlwaysReturns(els.value)
    case _ => false
  }

  predicate AnyReturns(body: seq<C.Stmt>) {
    |body| > 0 && (AlwaysReturns(body[0]) || AnyReturns(body[1..]))
  }

  // ---------------------------------------------------------------- the source

  /** A statement that always returns never completes normally. */
  lemma {:induction false} NeverCompletes(p: C.Program, s: C.Stmt, env: C.Env, fuel: C.Fuel)
    requires AlwaysReturns(s)
    ensures !C.Exec(p, s, env, fuel).Next?
    decreases s
  {
    hide C.Eval;
    match s
    case Return(_) =>
    case Block(body) => NeverCompletesAll(p, body, env, fuel);
    case If(c, thn, els) =>
      var v := C.Eval(p, c, env, fuel);
      if v.Value? {
        NeverCompletes(p, thn, v.env, fuel);
        NeverCompletes(p, els.value, v.env, fuel);
      }
  }

  lemma {:induction false} NeverCompletesAll(p: C.Program, body: seq<C.Stmt>, env: C.Env, fuel: C.Fuel)
    requires AnyReturns(body)
    ensures !C.ExecAll(p, body, env, fuel).Next?
    decreases body
  {
    if AlwaysReturns(body[0]) {
      NeverCompletes(p, body[0], env, fuel);
    } else {
      var r := C.Exec(p, body[0], env, fuel);
      if r.Next? {
        NeverCompletesAll(p, body[1..], r.env, fuel);
      }
    }
  }

  // ---------------------------------------------------------------- steps of the code

  /** `q` may follow operation `pc` in some run. */
  predicate MayFollow(ops: seq<Operation>, pc: nat, q: nat)
    requires pc < |ops|
  {
    match ops[pc]
    case Jump(l) => FindLabel(ops, l) == Some(q)
    case JumpIfFalse(l, _) => q == pc + 1 || FindLabel(ops, l) == Some(q)
    case Return(_) => false
    case _ => q == pc + 1
  }

  lemma StepFollows(ip: IrProgram, ops: seq<Operation>, bounds: Bounds, a: Config)
    requires a.At? && Step(ip, ops, bounds, a).Some? && Step(ip, ops, bounds, a).value.At?
    ensures a.pc < |ops| && MayFollow(ops, a.pc, Step(ip, ops, bounds, a).value.pc)
  {
    hide Read, Write, RunFunction;
  }

  /** `live` holds the start of the fragment `[lo, hi)` and whatever follows a member; control leaves
    * the fragment only at `hi`, and only if `leaves`. */
  ghost predicate Closed(ops: seq<Operation>, lo: nat, hi: nat, leaves: bool, live: set<nat>) {
    lo <= hi <= |ops| && (lo in live || (lo == hi && leaves)) &&
    (forall pc :: pc in live ==> lo <= pc < hi) &&
    (forall pc, q :: pc in live && MayFollow(ops, pc, q) ==> q in live || (q == hi && leaves))
  }

  /** Two fragments in a row; the second is dead if the first is never left. */
  lemma Sequence(ops: seq<Operation>, lo: nat, mid: nat, hi: nat, a: bool, b: bool, first: set<nat>, second: set<nat>)
    requires Closed(ops, lo, mid, a, first) && Closed(ops, mid, hi, b, second)
    ensures Closed(ops, lo, hi, a && b, if a then first + second else first)
  {
    hide MayFollow;
  }

  function Range(lo: nat, n: nat): (r: set<nat>)
    ensures forall pc :: pc in r <==> lo <= pc < lo + n
  {
    if n == 0 then {} else Range(lo, n - 1) + {lo + n - 1}
  }

  lemma StraightClosed(ops: seq<Operation>, lo: nat, part: seq<Operation>) returns (live: set<nat>)
    requires CodeAt(ops, lo, part) && NoControl(part)
    ensures Closed(ops, lo, lo + |part|, true, live)
  {
    live := Range(lo, |part|);
    forall pc, q | pc in live && MayFollow(ops, pc, q) ensures q == pc + 1 {
      assert ops[lo + (pc - lo)] == part[pc - lo];
    }
  }

  lemma LabelClosed(ops: seq<Operation>, pc: nat)
    requires pc < |ops| && ops[pc].Label?
    ensures Closed(ops, pc, pc + 1, true, {pc})
  {}

  lemma ReturnClosed(ops: seq<Operation>, pc: nat)
    requires pc < |ops| && ops[pc].Return?
    ensures Closed(ops, pc, pc + 1, false, {pc})
  {}

  lemma {:induction false} StmtClosed(ops: seq<Operation>, lo: nat, s: C.Stmt, n: nat, l: nat) returns (live: set<nat>)
    requires CodeAt(ops, lo, LowerStmt(s, n, l).ops) && EachLabelOnce(ops)
    ensures Closed(ops, lo, lo + |LowerStmt(s, n, l).ops|, !AlwaysReturns(s), live)
    decreases s
  {
    hide LowerExpr, MayFollow, CodeAt, EachLabelOnce, LowerAssignment;
    match s
    case Decl(t, name, id, None) => live := StraightClosed(ops, lo, []);
    case Decl(t, name, id, Some(e)) => live := AssignmentClosed(ops, lo, s, t, name, id, e, n, l);
    case Assign(t, name, id, e) => live := AssignmentClosed(ops, lo, s, t, name, id, e, n, l);
    case Block(body) => live := AllClosed(ops, lo, body, n, l);
    case If(c, thn, els) =>
      if els.None? {
        live := IfClosed(ops, lo, s, n, l);
      } else {
        live := IfElseClosed(ops, lo, s, n, l);
      }
    case While(c, body) => live := WhileClosed(ops, lo, s, n, l);
    case Return(None) =>
      CodeAtOne(ops, lo, Return(NoOperand));
      ReturnClosed(ops, lo);
      live := {lo};
    case Return(Some(e)) =>
      var V := LowerExpr(e, NoOperand, n);
      CodeAtSplit(ops, lo, V.ops, [Return(V.result)]);
      ExprIsStraight(e, NoOperand, n);
      var first := StraightClosed(ops, lo, V.ops);
      CodeAtOne(ops, lo + |V.ops|, Return(V.result));
      ReturnClosed(ops, lo + |V.ops|);
      Sequence(ops, lo, lo + |V.ops|, lo + |V.ops| + 1, true, false, first, {lo + |V.ops|});
      live := first + {lo + |V.ops|};
    case ExprStmt(e) =>
      ExprIsStraight(e, NoOperand, n);
      live := StraightClosed(ops, lo, LowerExpr(e, NoOperand, n).ops);
  }

  lemma AssignmentClosed(
    ops: seq<Operation>, lo: nat, s: C.Stmt, t: ValueType, name: string, id: nat, e: C.Expr, n: nat, l: nat)
    returns (live: set<nat>)
    requires s == C.Assign(t, name, id, e) || s == C.Decl(t, name, id, Some(e))
    requires CodeAt(ops, lo, LowerStmt(s, n, l).ops)
    ensures Closed(ops, lo, lo + |LowerStmt(s, n, l).ops|, true, live)
  {
    hide LowerExpr, CodeAt, Closed;
    ExprIsStraight(e, Variable(C.Key(name, id), t), n);
    live := StraightClosed(ops, lo, LowerStmt(s, n, l).ops);
  }

  lemma {:induction false} AllClosed(ops: seq<Operation>, lo: nat, body: seq<C.Stmt>, n: nat, l: nat)
    returns (live: set<nat>)
    requires CodeAt(ops, lo, LowerAll(body, n, l).ops) && EachLabelOnce(ops)
    ensures Closed(ops, lo, lo + |LowerAll(body, n, l).ops|, !AnyReturns(body), live)
    decreases body
  {
    hide LowerStmt, CodeAt, EachLabelOnce, Closed;
    if |body| == 0 {
      live := StraightClosed(ops, lo, []);
    } else {
      var A := LowerStmt(body[0], n, l);
      var B := LowerAll(body[1..], A.temps, A.labels);
      CodeAtSplit(ops, lo, A.ops, B.ops);
      var first := StmtClosed(ops, lo, body[0], n, l);
      var second := AllClosed(ops, lo + |A.ops|, body[1..], A.temps, A.labels);
      var mid := lo + |A.ops|;
      Sequence(ops, lo, mid, mid + |B.ops|, !AlwaysReturns(body[0]), !AnyReturns(body[1..]), first, second);
      live := if AlwaysReturns(body[0]) then first else first + second;
    }
  }

  /** A test that falls through to a fragment or jumps to a label of its own. */
  lemma BranchClosed(ops: seq<Operation>, lo: nat, test: nat, hi: nat, target: nat, a: bool, b: bool,
                     cond: set<nat>, thn: set<nat>, rest: set<nat>)
    requires Closed(ops, lo, test, true, cond) && test < |ops| && ops[test].JumpIfFalse?
    requires Closed(ops, test + 1, target, a, thn) && Closed(ops, target, hi, b, rest) && target < hi
    requires FindLabel(ops, ops[test].target) == Some(target)
    ensures Closed(ops, lo, hi, b, cond + {test} + thn + rest)
  {}

  lemma FoundOnce(ops: seq<Operation>, i: nat)
    requires i < |ops| && ops[i].Label? && EachLabelOnce(ops)
    ensures FindLabel(ops, ops[i].target) == Some(i)
  {
    FindPlaced(ops, i);
  }

  lemma {:induction false} IfClosed(ops: seq<Operation>, lo: nat, s: C.Stmt, n: nat, l: nat) returns (live: set<nat>)
    requires s.If? && s.els.None? && CodeAt(ops, lo, LowerStmt(s, n, l).ops) && EachLabelOnce(ops)
    ensures Closed(ops, lo, lo + |LowerStmt(s, n, l).ops|, true, live)
    decreases s, 0
  {
    hide LowerExpr, CodeAt, EachLabelOnce, Closed, LowerStmt, MayFollow;
    IfPlaces(ops, lo, s, n, l);
    var V := LowerExpr(s.cond, NoOperand, n);
    var T := LowerStmt(s.thn, V.temps, l + 1);
    ExprIsStraight(s.cond, NoOperand, n);
    var test := lo + |V.ops|;
    var end := test + 1 + |T.ops|;
    var cond := StraightClosed(ops, lo, V.ops);
    var thn := StmtClosed(ops, test + 1, s.thn, V.temps, l + 1);
    LabelClosed(ops, end);
    FoundOnce(ops, end);
    BranchClosed(ops, lo, test, end + 1, end, !AlwaysReturns(s.thn), true, cond, thn, {end});
    live := cond + {test} + thn + {end};
  }

  /** `then` branch, jump over the `else`, and the two labels. */
  lemma TwoBranches(ops: seq<Operation>, lo: nat, test: nat, label1: nat, label2: nat, a: bool, b: bool,
                    cond: set<nat>, thn: set<nat>, els: set<nat>)
    requires Closed(ops, lo, test, true, cond) && test < |ops| && ops[test].JumpIfFalse?
    requires test + 1 < label1 && Closed(ops, test + 1, label1 - 1, a, thn) && label1 < label2 < |ops|
    requires ops[label1 - 1].Jump? && FindLabel(ops, ops[label1 - 1].target) == Some(label2)
    requires FindLabel(ops, ops[test].target) == Some(label1)
    requires ops[label1].Label? && ops[label2].Label? && Closed(ops, label1 + 1, label2, b, els)
    ensures Closed(ops, lo, label2 + 1, a || b,
                   cond + {test} + thn + (if a then {label1 - 1} else {}) + {label1} + els +
                     (if a || b then {label2} else {}))
  {
    hide FindLabel;
  }

  lemma {:induction false} IfElseClosed(ops: seq<Operation>, lo: nat, s: C.Stmt, n: nat, l: nat)
    returns (live: set<nat>)
    requires s.If? && s.els.Some? && CodeAt(ops, lo, LowerStmt(s, n, l).ops) && EachLabelOnce(ops)
    ensures Closed(ops, lo, lo + |LowerStmt(s, n, l).ops|, !AlwaysReturns(s), live)
    decreases s, 0
  {
    hide LowerExpr, CodeAt, EachLabelOnce, Closed, LowerStmt, MayFollow;
    IfElsePlaces(ops, lo, s, n, l);
    var V := LowerExpr(s.cond, NoOperand, n);
    var T := LowerStmt(s.thn, V.temps, l + 2);
    var E := LowerStmt(s.els.value, T.temps, T.labels);
    ExprIsStraight(s.cond, NoOperand, n);
    var test := lo + |V.ops|;
    var label1 := test + 2 + |T.ops|;
    var label2 := label1 + 1 + |E.ops|;
    var cond := StraightClosed(ops, lo, V.ops);
    var thn := StmtClosed(ops, test + 1, s.thn, V.temps, l + 2);
    var els := StmtClosed(ops, label1 + 1, s.els.value, T.temps, T.labels);
    FoundOnce(ops, label1);
    FoundOnce(ops, label2);
    var a, b := !AlwaysReturns(s.thn), !AlwaysReturns(s.els.value);
    TwoBranches(ops, lo, test, label1, label2, a, b, cond, thn, els);
    live := cond + {test} + thn + (if a then {label1 - 1} else {}) + {label1} + els + (if a || b then {label2} else {});
  }

  /** A loop: its body jumps back, its test jumps out. */
  lemma LoopClosed(ops: seq<Operation>, lo: nat, test: nat, back: nat, a: bool, cond: set<nat>, body: set<nat>)
    requires lo < test < back && back + 1 < |ops| && ops[lo].Label? && ops[test].JumpIfFalse? && ops[back].Jump? &&
             ops[back + 1].Label?
    requires Closed(ops, lo + 1, test, true, cond) && Closed(ops, test + 1, back, a, body)
    requires FindLabel(ops, ops[test].target) == Some(back + 1) && FindLabel(ops, ops[back].target) == Some(lo)
    ensures Closed(ops, lo, back + 2, true, {lo} + cond + {test} + body + {back} + {back + 1})
  {}

  lemma {:induction false} WhileClosed(ops: seq<Operation>, lo: nat, s: C.Stmt, n: nat, l: nat) returns (live: set<nat>)
    requires s.While? && CodeAt(ops, lo, LowerStmt(s, n, l).ops) && EachLabelOnce(ops)
    ensures Closed(ops, lo, lo + |LowerStmt(s, n, l).ops|, true, live)
    decreases s, 0
  {
    hide LowerExpr, CodeAt, EachLabelOnce, Closed, LowerStmt, MayFollow;
    WhilePlaces(ops, lo, s, n, l);
    var V := LowerExpr(s.cond, NoOperand, n);
    var B := LowerStmt(s.body, V.temps, l + 2);
    ExprIsStraight(s.cond, NoOperand, n);
    var test := lo + 1 + |V.ops|;
    var back := test + 1 + |B.ops|;
    var cond := StraightClosed(ops, lo + 1, V.ops);
    var body := StmtClosed(ops, test + 1, s.body, V.temps, l + 2);
    FoundOnce(ops, lo);
    FoundOnce(ops, back + 1);
    LoopClosed(ops, lo, test, back, !AlwaysReturns(s.body), cond, body);
    live := {lo} + cond + {test} + body + {back} + {back + 1};
  }

  // ---------------------------------------------------------------- runs

  /** A run that starts in a closed set which control never leaves stays in it. */
  lemma {:induction false} StaysInside(
    ip: IrProgram, ops: seq<Operation>, bounds: Bounds, hi: nat, live: set<nat>, a: Config, k: nat)
    requires Closed(ops, 0, hi, false, live) && a.At? && a.pc in live
    requires Steps(ip, ops, bounds, a, k).Some?
    ensures var b := Steps(ip, ops, bounds, a, k).value; b.At? ==> b.pc in live
    decreases k
  {
    hide MayFollow, Step;
    if k > 0 {
      var c := Step(ip, ops, bounds, a).value;
      if c.At? {
        StepFollows(ip, ops, bounds, a);
        StaysInside(ip, ops, bounds, hi, live, c, k - 1);
      }
    }
  }

  /** No run of a generated function, from any store and with any bounds, is ever past its last
    * operation: the body always returns, or the function is void. */
  lemma NeverPastTheEnd(f: C.Function, l: nat, ip: IrProgram, bounds: Bounds, st: Store, k: nat)
    requires f.body.Some? && (AlwaysReturns(f.body.value) || f.ret.Void?)
    requires Steps(ip, LowerBody(f, l).ops, bounds, At(0, st, []), k).Some?
    ensures var b := Steps(ip, LowerBody(f, l).ops, bounds, At(0, st, []), k).value;
            b.At? ==> b.pc < |LowerBody(f, l).ops|
  {
    hide EachLabelOnce, Step, LowerStmt, CodeAt;
    var ops := LowerBody(f, l).ops;
    if f.ret.Void? {
      NeverPastReturn(ip, ops, bounds, At(0, st, []), k);
    } else {
      BodyLabels(f, l);
      BodyCodeAt(f, l);
      var live := StmtClosed(ops, 0, f.body.value, 0, l);
      StaysInside(ip, ops, bounds, |ops|, live, At(0, st, []), k);
    }
  }

  /** `fn f(b: bool) -> i32 { if b return 1; }` */
  function OneSided(): C.Function {
    C.Function("f", [C.Param("b", 0, Bool)], I32,
               Some(C.If(C.Ident(Bool, "b", 0), C.Return(Some(C.Literal(I32, 1))), None)))
  }

  lemma OneSidedCode()
    ensures LowerBody(OneSided(), 0).ops == [JumpIfFalse(0, Variable(C.Key("b", 0), Bool)), Return(Immediate(1, I32)),
                                             Label(0)]
    ensures FindLabel(LowerBody(OneSided(), 0).ops, 0) == Some(2)
  {
    hide Names.MangleVariable;
    var ops := LowerBody(OneSided(), 0).ops;
    assert ops[1..][1..] == [Label(0)];
  }

  /** The condition is needed: a non-void body that returns on one path only runs off its end. */
  lemma PastTheEnd()
    ensures var ops := LowerBody(OneSided(), 0).ops; var st := map[VarPlace(C.Key("b", 0)) := 0];
            !AlwaysReturns(OneSided().body.value) && Steps([], ops, NO_CALLS, At(0, st, []), 2) ==
              Some(At(|ops|, st, []))
  {
    hide C.Key, FindLabel;
    var ops := LowerBody(OneSided(), 0).ops;
    var st: Store := map[VarPlace(C.Key("b", 0)) := 0];
    OneSidedCode();
    assert Step([], ops, NO_CALLS, At(0, st, [])) == Some(At(2, st, []));
    assert Steps([], ops, NO_CALLS, At(2, st, []), 1) == Some(At(3, st, []));
  }
}
