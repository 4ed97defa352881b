/** Labels of the generated code: every id a statement takes from the counter is placed exactly
  * once in its code, no other is placed, and every jump of the code goes to one of them. */
module Labels {
  import opened Values
  import opened Ir
  import opened Lowering
  import opened Arith
  import C = Checked

  /** How often label `x` is placed. */
  function Placed(ops: seq<Operation>, x: nat): nat {
    if |ops| == 0 then 0 else (if ops[0] == Label(x) then 1 else 0) + Placed(ops[1..], x)
  }

  lemma {:induction false} PlacedConcat(a: seq<Operation>, b: seq<Operation>, x: nat)
    ensures Placed(a + b, x) == Placed(a, x) + Placed(b, x)
  {
    if |a| == 0 {
      assert a + b == b;
    } else {
      assert (a + b)[1..] == a[1..] + b;
      PlacedConcat(a[1..], b, x);
    }
  }

  lemma {:induction false} PlacedOnce(ops: seq<Operation>, x: nat, i: nat)
    requires i < |ops| && ops[i] == Label(x)
    ensures Placed(ops, x) >= 1
    ensures forall j :: 0 <= j < |ops| && j != i && ops[j] == Label(x) ==> Placed(ops, x) >= 2
  {
    var rest := ops[1..];
    if i == 0 {
      forall j | 0 <= j < |ops| && j != i && ops[j] == Label(x) ensures Placed(ops, x) >= 2 {
        assert rest[j - 1] == Label(x);
        PlacedOnce(rest, x, j - 1);
      }
    } else {
      assert rest[i - 1] == Label(x);
      PlacedOnce(rest, x, i - 1);
      forall j | 0 <= j < |ops| && j != i && ops[j] == Label(x) ensures Placed(ops, x) >= 2 {
        if j > 0 {
          assert rest[j - 1] == Label(x);
        }
      }
    }
  }

  /** In code that places a label once, a jump to it lands on that place. */
  lemma FindPlaced(ops: seq<Operation>, i: nat)
    requires i < |ops| && ops[i].Label? && Placed(ops, ops[i].target) <= 1
    ensures FindLabel(ops, ops[i].target) == Some(i)
  {
    PlacedOnce(ops, ops[i].target, i);
  }

  predicate NoControl(ops: seq<Operation>) {
    forall i :: 0 <= i < |ops| ==> !ops[i].Label? && !ops[i].Jump? && !ops[i].JumpIfFalse? && !ops[i].Return?
  }

  lemma {:induction false} NoneplacedInStraightCode(ops: seq<Operation>, x: nat)
    requires NoControl(ops)
    ensures Placed(ops, x) == 0
  {
    if |ops| > 0 {
      NoneplacedInStraightCode(ops[1..], x);
    }
  }

  lemma {:induction false} ExprIsStraight(e: C.Expr, hint: Operand, n: nat)
    ensures NoControl(LowerExpr(e, hint, n).ops)
    decreases e, 1
  {
    match e
    case Literal(_, _) =>
    case Ident(_, _, _) =>
    case Binary(_, _, l, r) =>
      ExprIsStraight(l, NoOperand, n);
      ExprIsStraight(r, NoOperand, LowerExpr(l, NoOperand, n).temps);
    case Unary(_, _, a) => ExprIsStraight(a, NoOperand, n);
    case Increment(_, _, _, _, _) =>
    case Cast(_, a) => ExprIsStraight(a, NoOperand, n);
    case Call(_, _, args) => ArgsAreStraight(args, n);
  }

  lemma {:induction false} ArgsAreStraight(args: seq<C.Expr>, n: nat)
    ensures NoControl(LowerArgs(args, n).ops)
    decreases args, 0
  {
    if |args| > 0 {
      ExprIsStraight(args[0], NoOperand, n);
      ArgsAreStraight(args[1..], LowerExpr(args[0], NoOperand, n).temps);
    }
  }

  function Within(lo: nat, x: nat, hi: nat): nat {
    if lo <= x < hi then 1 else 0
  }

  lemma PlacedInExpr(e: C.Expr, hint: Operand, n: nat, x: nat)
    ensures Placed(LowerExpr(e, hint, n).ops, x) == 0
  {
    ExprIsStraight(e, hint, n);
    NoneplacedInStraightCode(LowerExpr(e, hint, n).ops, x);
  }

  lemma PlacedInAssignment(dst: Operand, e: C.Expr, n: nat, x: nat)
    ensures Placed(LowerAssignment(dst, e, n).ops, x) == 0
  {
    ExprIsStraight(e, dst, n);
    NoneplacedInStraightCode(LowerAssignment(dst, e, n).ops, x);
  }

  /** The labels a statement takes are placed exactly once each, and no others. */
  lemma {:induction false} PlacedInStmt(s: C.Stmt, n: nat, l: nat, x: nat)
    ensures Placed(LowerStmt(s, n, l).ops, x) == Within(l, x, LowerStmt(s, n, l).labels)
    decreases s, 1
  {
    match s
    case Decl(t, name, id, init) =>
      if init.Some? {
        PlacedInAssignment(Variable(C.Key(name, id), t), init.value, n, x);
      }
    case Assign(t, name, id, e) => PlacedInAssignment(Variable(C.Key(name, id), t), e, n, x);
    case Block(stmts) => PlacedInAll(stmts, n, l, x);
    case If(_, _, _) => PlacedInIf(s, n, l, x);
    case While(_, _) => PlacedInWhile(s, n, l, x);
    case Return(value) =>
      if value.Some? {
        PlacedInExpr(value.value, NoOperand, n, x);
        PlacedConcat(
          LowerExpr(value.value, NoOperand, n).ops, [Return(LowerExpr(value.value, NoOperand, n).result)], x);
      }
    case ExprStmt(e) => PlacedInExpr(e, NoOperand, n, x);
  }

  lemma {:induction false} PlacedInAll(stmts: seq<C.Stmt>, n: nat, l: nat, x: nat)
    ensures Placed(LowerAll(stmts, n, l).ops, x) == Within(l, x, LowerAll(stmts, n, l).labels)
    decreases stmts, 0
  {
    if |stmts| > 0 {
      var A := LowerStmt(stmts[0], n, l);
      var B := LowerAll(stmts[1..], A.temps, A.labels);
      PlacedInStmt(stmts[0], n, l, x);
      PlacedInAll(stmts[1..], A.temps, A.labels, x);
      PlacedConcat(A.ops, B.ops, x);
    }
  }

  lemma {:induction false} PlacedInIf(s: C.Stmt, n: nat, l: nat, x: nat)
    requires s.If?
    ensures Placed(LowerStmt(s, n, l).ops, x) == Within(l, x, LowerStmt(s, n, l).labels)
    decreases s, 0
  {
    hide LowerExpr, LowerAll;
    var V := LowerExpr(s.cond, NoOperand, n);
    PlacedInExpr(s.cond, NoOperand, n, x);
    if s.els.None? {
      var T := LowerStmt(s.thn, V.temps, l + 1);
      PlacedInStmt(s.thn, V.temps, l + 1, x);
      PlacedConcat(V.ops, [JumpIfFalse(l, V.result)], x);
      PlacedConcat(V.ops + [JumpIfFalse(l, V.result)], T.ops, x);
      PlacedConcat(V.ops + [JumpIfFalse(l, V.result)] + T.ops, [Label(l)], x);
    } else {
      var T := LowerStmt(s.thn, V.temps, l + 2);
      var E := LowerStmt(s.els.value, T.temps, T.labels);
      var head := [JumpIfFalse(l, V.result)];
      PlacedInStmt(s.thn, V.temps, l + 2, x);
      PlacedInStmt(s.els.value, T.temps, T.labels, x);
      PlacedConcat(head, T.ops, x);
      PlacedConcat(head + T.ops, [Jump(l + 1), Label(l)], x);
      PlacedConcat(head + T.ops + [Jump(l + 1), Label(l)], E.ops, x);
      PlacedConcat(head + T.ops + [Jump(l + 1), Label(l)] + E.ops, [Label(l + 1)], x);
      PlacedConcat(V.ops, BranchesCode(s, V.result, V.temps, l).ops, x);
      PlacedPair(Jump(l + 1), Label(l), x);
    }
  }

  lemma PlacedPair(a: Operation, b: Operation, x: nat)
    ensures Placed([a, b], x) == (if a == Label(x) then 1 else 0) + (if b == Label(x) then 1 else 0)
  {
    PlacedConcat([a], [b], x);
    assert [a, b] == [a] + [b];
  }

  lemma {:induction false} PlacedInWhile(s: C.Stmt, n: nat, l: nat, x: nat)
    requires s.While?
    ensures Placed(LowerStmt(s, n, l).ops, x) == Within(l, x, LowerStmt(s, n, l).labels)
    decreases s, 0
  {
    hide LowerExpr, LowerAll;
    var V := LowerExpr(s.cond, NoOperand, n);
    var B := LowerStmt(s.body, V.temps, l + 2);
    PlacedInExpr(s.cond, NoOperand, n, x);
    PlacedInStmt(s.body, V.temps, l + 2, x);
    var head := [Label(l)];
    var test := [JumpIfFalse(l + 1, V.result)];
    PlacedConcat(head, V.ops, x);
    PlacedConcat(head + V.ops, test, x);
    PlacedConcat(head + V.ops + test, B.ops, x);
    PlacedConcat(head + V.ops + test + B.ops, [Jump(l), Label(l + 1)], x);
    PlacedPair(Jump(l), Label(l + 1), x);
  }

  lemma PlacedInBody(f: C.Function, l: nat, x: nat)
    ensures Placed(LowerBody(f, l).ops, x) == Within(l, x, LowerBody(f, l).labels)
  {
    if f.body.Some? {
      PlacedInStmt(f.body.value, 0, l, x);
      PlacedConcat(LowerStmt(f.body.value, 0, l).ops, [Return(NoOperand)], x);
    }
  }

  // ---------------------------------------------------------------- jumps

  predicate Jumps(op: Operation) {
    op.Jump? || op.JumpIfFalse?
  }

  /** Every jump goes to one of the labels taken from the counter. */
  predicate JumpsWithin(ops: seq<Operation>, lo: nat, hi: nat) {
    forall i :: 0 <= i < |ops| && Jumps(ops[i]) ==> lo <= ops[i].target < hi
  }

  lemma JumpsConcat(a: seq<Operation>, b: seq<Operation>, lo: nat, hi: nat)
    requires JumpsWithin(a, lo, hi) && JumpsWithin(b, lo, hi)
    ensures JumpsWithin(a + b, lo, hi)
  {}

  lemma JumpsWider(ops: seq<Operation>, lo: nat, hi: nat, lo': nat, hi': nat)
    requires JumpsWithin(ops, lo, hi) && lo' <= lo && hi <= hi'
    ensures JumpsWithin(ops, lo', hi')
  {}

  lemma NoJumps(ops: seq<Operation>, lo: nat, hi: nat)
    requires NoControl(ops)
    ensures JumpsWithin(ops, lo, hi)
  {}

  /** Every jump of a statement goes to a label the statement took. */
  lemma {:induction false} JumpsOfStmt(s: C.Stmt, n: nat, l: nat)
    ensures JumpsWithin(LowerStmt(s, n, l).ops, l, LowerStmt(s, n, l).labels)
    decreases s, 1
  {
    hide JumpsWithin, NoControl, LowerExpr, LowerAll;
    match s
    case Decl(t, name, id, init) =>
      if init.Some? {
        JumpsOfAssignment(Variable(C.Key(name, id), t), init.value, n, l);
      } else {
        NoJumps([], l, l);
      }
    case Assign(t, name, id, e) => JumpsOfAssignment(Variable(C.Key(name, id), t), e, n, l);
    case Block(stmts) => JumpsOfAll(stmts, n, l);
    case If(_, _, _) => JumpsOfIf(s, n, l);
    case While(_, _) => JumpsOfWhile(s, n, l);
    case Return(value) =>
      if value.Some? {
        var V := LowerExpr(value.value, NoOperand, n);
        JumpsOfExpr(value.value, NoOperand, n, l, l);
        NotAJump(Return(V.result), l, l);
        JumpsConcat(V.ops, [Return(V.result)], l, l);
      } else {
        NotAJump(Return(NoOperand), l, l);
      }
    case ExprStmt(e) => JumpsOfExpr(e, NoOperand, n, l, l);
  }

  lemma NotAJump(op: Operation, lo: nat, hi: nat)
    requires !Jumps(op) || lo <= op.target < hi
    ensures JumpsWithin([op], lo, hi)
  {}

  lemma JumpsOfExpr(e: C.Expr, hint: Operand, n: nat, lo: nat, hi: nat)
    ensures JumpsWithin(LowerExpr(e, hint, n).ops, lo, hi)
  {
    ExprIsStraight(e, hint, n);
    NoJumps(LowerExpr(e, hint, n).ops, lo, hi);
  }

  lemma JumpsOfAssignment(dst: Operand, e: C.Expr, n: nat, l: nat)
    ensures JumpsWithin(LowerAssignment(dst, e, n).ops, l, l)
  {
    ExprIsStraight(e, dst, n);
    NoJumps(LowerAssignment(dst, e, n).ops, l, l);
  }

  lemma {:induction false} JumpsOfAll(stmts: seq<C.Stmt>, n: nat, l: nat)
    ensures JumpsWithin(LowerAll(stmts, n, l).ops, l, LowerAll(stmts, n, l).labels)
    decreases stmts, 0
  {
    hide JumpsWithin, LowerStmt;
    if |stmts| == 0 {
      NoJumps([], l, l);
    } else {
      var A := LowerStmt(stmts[0], n, l);
      var B := LowerAll(stmts[1..], A.temps, A.labels);
      JumpsOfStmt(stmts[0], n, l);
      JumpsOfAll(stmts[1..], A.temps, A.labels);
      JumpsWider(A.ops, l, A.labels, l, B.labels);
      JumpsWider(B.ops, A.labels, B.labels, l, B.labels);
      JumpsConcat(A.ops, B.ops, l, B.labels);
    }
  }

  lemma {:induction false} JumpsOfIf(s: C.Stmt, n: nat, l: nat)
    requires s.If?
    ensures JumpsWithin(LowerStmt(s, n, l).ops, l, LowerStmt(s, n, l).labels)
    decreases s, 0
  {
    hide LowerExpr, LowerAll, JumpsWithin;
    var V, hi := LowerExpr(s.cond, NoOperand, n), LowerStmt(s, n, l).labels;
    JumpsOfExpr(s.cond, NoOperand, n, l, hi);
    if s.els.None? {
      var T := LowerStmt(s.thn, V.temps, l + 1);
      JumpsOfStmt(s.thn, V.temps, l + 1);
      JumpsWider(T.ops, l + 1, T.labels, l, hi);
      NotAJump(JumpIfFalse(l, V.result), l, hi);
      NotAJump(Label(l), l, hi);
      JumpsConcat(V.ops, [JumpIfFalse(l, V.result)], l, hi);
      JumpsConcat(V.ops + [JumpIfFalse(l, V.result)], T.ops, l, hi);
      JumpsConcat(V.ops + [JumpIfFalse(l, V.result)] + T.ops, [Label(l)], l, hi);
    } else {
      var T := LowerStmt(s.thn, V.temps, l + 2);
      var E := LowerStmt(s.els.value, T.temps, T.labels);
      var head, mid := [JumpIfFalse(l, V.result)], [Jump(l + 1), Label(l)];
      var both := BranchesCode(s, V.result, V.temps, l);
      assert LowerStmt(s, n, l).ops == V.ops + both.ops && hi == both.labels;
      assert both.ops == head + T.ops + mid + E.ops + [Label(l + 1)] && both.labels == E.labels;
      JumpsOfStmt(s.thn, V.temps, l + 2);
      JumpsOfStmt(s.els.value, T.temps, T.labels);
      JumpsWider(T.ops, l + 2, T.labels, l, hi);
      JumpsWider(E.ops, T.labels, E.labels, l, hi);
      NotAJump(head[0], l, hi);
      TwoJumps(mid[0], mid[1], l, hi);
      NotAJump(Label(l + 1), l, hi);
      JumpsConcat(head, T.ops, l, hi);
      JumpsConcat(head + T.ops, mid, l, hi);
      JumpsConcat(head + T.ops + mid, E.ops, l, hi);
      JumpsConcat(head + T.ops + mid + E.ops, [Label(l + 1)], l, hi);
      JumpsConcat(V.ops, both.ops, l, hi);
    }
  }

  lemma TwoJumps(a: Operation, b: Operation, lo: nat, hi: nat)
    requires (!Jumps(a) || lo <= a.target < hi) && (!Jumps(b) || lo <= b.target < hi)
    ensures JumpsWithin([a, b], lo, hi)
  {}

  lemma {:induction false} JumpsOfWhile(s: C.Stmt, n: nat, l: nat)
    requires s.While?
    ensures JumpsWithin(LowerStmt(s, n, l).ops, l, LowerStmt(s, n, l).labels)
    decreases s, 0
  {
    hide LowerExpr, LowerAll, JumpsWithin;
    var V := LowerExpr(s.cond, NoOperand, n);
    var B := LowerStmt(s.body, V.temps, l + 2);
    var hi := B.labels;
    JumpsOfExpr(s.cond, NoOperand, n, l, hi);
    JumpsOfStmt(s.body, V.temps, l + 2);
    JumpsWider(B.ops, l + 2, hi, l, hi);
    var head, test, tail := [Label(l)], [JumpIfFalse(l + 1, V.result)], [Jump(l), Label(l + 1)];
    NotAJump(head[0], l, hi);
    NotAJump(test[0], l, hi);
    TwoJumps(tail[0], tail[1], l, hi);
    JumpsConcat(head, V.ops, l, hi);
    JumpsConcat(head + V.ops, test, l, hi);
    JumpsConcat(head + V.ops + test, B.ops, l, hi);
    JumpsConcat(head + V.ops + test + B.ops, tail, l, hi);
  }

  // ---------------------------------------------------------------- functions and programs

  /** No label is placed twice, and the target of every jump is placed once. */
  ghost predicate LabelsSound(ops: seq<Operation>) {
    (forall x: nat :: Placed(ops, x) <= 1) &&
    forall i :: 0 <= i < |ops| && Jumps(ops[i]) ==> Placed(ops, ops[i].target) == 1
  }

  lemma JumpsOfBody(f: C.Function, l: nat)
    ensures JumpsWithin(LowerBody(f, l).ops, l, LowerBody(f, l).labels)
  {
    hide JumpsWithin, LowerStmt;
    if f.body.Some? {
      var B := LowerStmt(f.body.value, 0, l);
      JumpsOfStmt(f.body.value, 0, l);
      NotAJump(Return(NoOperand), l, B.labels);
      JumpsConcat(B.ops, [Return(NoOperand)], l, B.labels);
    } else {
      NoJumps([], l, l);
    }
  }

  lemma BodyLabelsSound(f: C.Function, l: nat)
    ensures LabelsSound(LowerBody(f, l).ops)
  {
    hide LowerBody, Placed;
    var ops := LowerBody(f, l).ops;
    JumpsOfBody(f, l);
    forall x: nat ensures Placed(ops, x) == Within(l, x, LowerBody(f, l).labels) {
      PlacedInBody(f, l, x);
    }
  }

  function PlacedInProgram(ip: IrProgram, x: nat): nat {
    if |ip| == 0 then 0 else Placed(ip[0].operations, x) + PlacedInProgram(ip[1..], x)
  }

  /** The label counter after a whole program. */
  function LabelsAfter(p: C.Program, l: nat): nat {
    if |p| == 0 then l else LabelsAfter(p[1..], LowerBody(p[0], l).labels)
  }

  lemma {:induction false} CounterGrows(p: C.Program, l: nat)
    ensures LabelsAfter(p, l) >= l
  {
    if |p| > 0 {
      CounterGrows(p[1..], LowerBody(p[0], l).labels);
    }
  }

  /** Over a whole program every label id taken is placed exactly once, and no other is placed at all. */
  lemma {:induction false} ProgramLabels(p: C.Program, l: nat, x: nat)
    ensures PlacedInProgram(LowerProgram(p, l), x) == Within(l, x, LabelsAfter(p, l))
    decreases |p|
  {
    hide LowerBody, Placed;
    if |p| > 0 {
      var m := LowerBody(p[0], l).labels;
      BodyCounter(p[0], l);
      PlacedInBody(p[0], l, x);
      ProgramLabels(p[1..], m, x);
      CounterGrows(p[1..], m);
      assert LowerProgram(p, l)[1..] == LowerProgram(p[1..], m);
    }
  }

  lemma BodyCounter(f: C.Function, l: nat)
    ensures LowerBody(f, l).labels >= l
  {}
}
