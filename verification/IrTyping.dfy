/** The shape of generated intermediate code: every variable and temporary has one type, operands
  * fit their operation, and the PARAM operations before a CALL are exactly its arguments. */
module IrTyping {
  import opened Values
  import opened Arith
  import opened Names
  import opened Ir
  import opened Lowering
  import opened Typing
  import opened LoweringProof
  import C = Checked

  /** The type of every place of one function. */
  type Places = map<Place, ValueType>

  /** An operand of type `g` whose temporary, if it is one, is below `k`. */
  predicate OperandTyped(g: Places, k: nat, o: Operand) {
    match o
    case NoOperand => true
    case Immediate(n, t) => LiteralFits(t, n)
    case Temporary(id, t) => id < k && PlaceOf(o) in g && g[PlaceOf(o)] == t && IsScalar(t)
    case Variable(_, t) => PlaceOf(o) in g && g[PlaceOf(o)] == t && IsScalar(t)
  }

  predicate Present(g: Places, k: nat, o: Operand) {
    !o.NoOperand? && OperandTyped(g, k, o)
  }

  predicate Writable(g: Places, k: nat, o: Operand) {
    IsPlace(o) && OperandTyped(g, k, o)
  }

  predicate PlainImmediate(o: Operand) {
    o.Immediate? ==> InRange(o.t, o.number)
  }

  predicate Widens(from: ValueType, to: ValueType) {
    from == to || (SameGroup(from, to) && WidthBits(from) <= WidthBits(to))
  }

  predicate OpTyped(g: Places, k: nat, ret: ValueType, op: Operation) {
    match op
    case Bin(b, dst, x, y) =>
      Writable(g, k, dst) && Present(g, k, x) && Present(g, k, y) &&
      OperandTypes(b, x.t, y.t) && dst.t == ResultType(b, x.t)
    case Un(u, dst, x) => Writable(g, k, dst) && Present(g, k, x) && UnaryType(u, x.t) && dst.t == x.t
    case Assign(dst, x) =>
      Writable(g, k, dst) && Present(g, k, x) && Widens(x.t, dst.t) && (x.t == dst.t || PlainImmediate(x))
    case CastTo(dst, x) => Writable(g, k, dst) && Present(g, k, x) && Castable(x.t, dst.t) && PlainImmediate(x)
    case JumpIfFalse(_, cond) => Present(g, k, cond) && cond.t.Bool?
    case Return(x) => if ret.Void? then x.NoOperand? else Present(g, k, x) && x.t == ret
    case Param(x) => Present(g, k, x)
    case Call(dst, _) => dst.NoOperand? || Writable(g, k, dst)
    case _ => true
  }

  predicate OpsTyped(g: Places, k: nat, ret: ValueType, ops: seq<Operation>) {
    forall i :: 0 <= i < |ops| ==> OpTyped(g, k, ret, ops[i])
  }

  /** Pending arguments match the callee and the result goes where there is one. */
  predicate CallFits(ip: IrProgram, pending: seq<Operand>, dst: Operand, f: string) {
    match LookupIr(ip, f)
    case None => false
    case Some(fn) =>
      |pending| == |fn.params| &&
      (forall i :: 0 <= i < |pending| ==> !pending[i].NoOperand? && pending[i].t == fn.params[i].t) &&
      (if fn.ret.Void? then dst.NoOperand? else IsPlace(dst) && dst.t == fn.ret)
  }

  /** Arguments collected after `op`; none if it breaks the grouping of PARAMs before their CALL. */
  function Collect(ip: IrProgram, pending: seq<Operand>, op: Operation): Option<seq<Operand>> {
    match op
    case Param(a) => Some(pending + [a])
    case Call(dst, f) => if CallFits(ip, pending, dst, f) then Some([]) else None
    case _ => if |pending| == 0 then Some([]) else None
  }

  function CollectAll(ip: IrProgram, pending: seq<Operand>, ops: seq<Operation>): Option<seq<Operand>>
    decreases |ops|
  {
    if |ops| == 0 then Some(pending)
    else
      match Collect(ip, pending, ops[0])
      case Some(next) => CollectAll(ip, next, ops[1..])
      case None => None
  }

  predicate ParamsTyped(g: Places, params: seq<IrParam>) {
    forall i :: 0 <= i < |params| ==>
      IsScalar(params[i].t) && VarPlace(params[i].name) in g && g[VarPlace(params[i].name)] == params[i].t
  }

  /** Variables are named `name@id`; temporaries are below `k`. */
  predicate NamesOk(g: Places, k: nat) {
    forall q :: q in g ==> IsScalar(g[q]) && match q case VarPlace(x) => '@' in x case TempPlace(id) => id < k
  }

  predicate FunctionTyped(ip: IrProgram, g: Places, k: nat, f: IrFunction) {
    ParamsTyped(g, f.params) && OpsTyped(g, k, f.ret, f.operations) && NamesOk(g, k) &&
    (f.ret.Void? || IsScalar(f.ret)) && CollectAll(ip, [], f.operations) == Some([])
  }

  // ---------------------------------------------------------------- typings grow with the code

  /** `g'` gives the places below `k` the types `g` does; what it adds are temporaries in [k, k'). */
  ghost predicate Grows(g: Places, g': Places, k: nat, k': nat) {
    k <= k' &&
    (forall q :: q in g ==> q in g' && g'[q] == g[q]) &&
    (forall q :: q in g' && q !in g ==> q.TempPlace? && k <= q.id < k' && IsScalar(g'[q]))
  }

  ghost predicate Below(g: Places, k: nat) {
    forall q :: q in g && q.TempPlace? ==> q.id < k
  }

  lemma GrowsJoin(a: Places, b: Places, c: Places, i: nat, j: nat, k: nat)
    requires Grows(a, b, i, j) && Grows(b, c, j, k)
    ensures Grows(a, c, i, k)
  {}

  lemma OperandStaysTyped(g: Places, g': Places, k: nat, k': nat, o: Operand)
    requires Grows(g, g', k, k') && OperandTyped(g, k, o)
    ensures OperandTyped(g', k', o)
  {}

  lemma OpStaysTyped(g: Places, g': Places, k: nat, k': nat, ret: ValueType, op: Operation)
    requires Grows(g, g', k, k') && OpTyped(g, k, ret, op)
    ensures OpTyped(g', k', ret, op)
  {
    hide OperandTyped, Grows;
    match op
    case Bin(_, dst, x, y) =>
      OperandStaysTyped(g, g', k, k', dst);
      OperandStaysTyped(g, g', k, k', x);
      OperandStaysTyped(g, g', k, k', y);
    case Un(_, dst, x) =>
      OperandStaysTyped(g, g', k, k', dst);
      OperandStaysTyped(g, g', k, k', x);
    case Assign(dst, x) =>
      OperandStaysTyped(g, g', k, k', dst);
      OperandStaysTyped(g, g', k, k', x);
    case CastTo(dst, x) =>
      OperandStaysTyped(g, g', k, k', dst);
      OperandStaysTyped(g, g', k, k', x);
    case JumpIfFalse(_, x) => OperandStaysTyped(g, g', k, k', x);
    case Return(x) =>
      if !ret.Void? {
        OperandStaysTyped(g, g', k, k', x);
      }
    case Param(x) => OperandStaysTyped(g, g', k, k', x);
    case Call(dst, _) =>
      if !dst.NoOperand? {
        OperandStaysTyped(g, g', k, k', dst);
      }
    case _ =>
  }

  lemma OpsStayTyped(g: Places, g': Places, k: nat, k': nat, ret: ValueType, ops: seq<Operation>)
    requires Grows(g, g', k, k') && OpsTyped(g, k, ret, ops)
    ensures OpsTyped(g', k', ret, ops)
  {
    hide OpTyped, Grows;
    forall i | 0 <= i < |ops| ensures OpTyped(g', k', ret, ops[i]) {
      OpStaysTyped(g, g', k, k', ret, ops[i]);
    }
  }

  lemma OpsTypedConcat(g: Places, k: nat, ret: ValueType, a: seq<Operation>, b: seq<Operation>)
    requires OpsTyped(g, k, ret, a) && OpsTyped(g, k, ret, b)
    ensures OpsTyped(g, k, ret, a + b)
  {
    hide OpTyped;
  }

  /** The variables of the source function keep their types. */
  ghost predicate HoldsVars(g: Places, types: Types) {
    forall x :: x in types && '@' in x && IsScalar(types[x]) ==> VarPlace(x) in g && g[VarPlace(x)] == types[x]
  }

  lemma HoldsVarsGrows(g: Places, g': Places, k: nat, k': nat, types: Types)
    requires Grows(g, g', k, k') && HoldsVars(g, types)
    ensures HoldsVars(g', types)
  {}

  lemma VariableTyped(g: Places, k: nat, types: Types, name: string, id: nat, t: ValueType)
    requires HoldsVars(g, types) && VarHasType(types, name, id, t)
    ensures OperandTyped(g, k, Variable(C.Key(name, id), t))
  {
    LastAt(name, id);
  }

  ghost function AddTemp(g: Places, k: nat, t: ValueType): Places {
    g[TempPlace(k) := t]
  }

  lemma AddTempGrows(g: Places, k: nat, t: ValueType)
    requires Below(g, k) && IsScalar(t)
    ensures Grows(g, AddTemp(g, k, t), k, k + 1)
  {}

  // ---------------------------------------------------------------- expressions

  ghost predicate HintTyped(g: Places, hint: Operand, e: C.Expr) {
    IsHint(hint) && OperandTyped(g, 0, hint) && (hint.Variable? && !e.Ident? && !e.Literal? && !e.Increment? ==>
                                                 hint.t == e.t)
  }

  /** What typing the code of an expression delivers. */
  ghost predicate ExprTyped(g: Places, g': Places, ret: ValueType, e: C.Expr, hint: Operand, n: nat) {
    var c := LowerExpr(e, hint, n);
    Grows(g, g', n, c.temps) && Below(g', c.temps) && OpsTyped(g', c.temps, ret, c.ops) &&
    OperandTyped(g', c.temps, c.result) && (c.result.NoOperand? <==> e.t.Void?) &&
    (!e.t.Void? && (hint.NoOperand? || !e.Ident?) ==> c.result.t == e.t) &&
    (c.result.Immediate? ==> e.Literal? && c.result == Immediate(e.number, e.t))
  }

  /** A destination for a result of type `t`: the hint or a new temporary. */
  lemma TypeDestination(g: Places, hint: Operand, e: C.Expr, k: nat) returns (g': Places)
    requires HintTyped(g, hint, e) && IsScalar(e.t) && Below(g, k) && !e.Ident? && !e.Literal? && !e.Increment?
    ensures Grows(g, g', k, AfterDestination(hint, k)) && Below(g', AfterDestination(hint, k))
    ensures Writable(g', AfterDestination(hint, k), Destination(hint, e.t, k)) && Destination(hint, e.t, k).t == e.t
  {
    if hint.NoOperand? {
      g' := AddTemp(g, k, e.t);
      AddTempGrows(g, k, e.t);
    } else {
      g' := g;
    }
  }

  lemma HintGrows(g: Places, g': Places, k: nat, k': nat, hint: Operand, e: C.Expr)
    requires Grows(g, g', k, k') && HintTyped(g, hint, e)
    ensures HintTyped(g', hint, e)
  {}

  lemma {:induction false} TypeExpr(
    p: C.Program, types: Types, ret: ValueType, g: Places, e: C.Expr, hint: Operand, n: nat)
    returns (g': Places)
    requires WfExpr(p, types, e) && HoldsVars(g, types) && Below(g, n) && HintTyped(g, hint, e)
    requires forall i :: 0 <= i < |p| ==> p[i].ret.Void? || IsScalar(p[i].ret)
    ensures ExprTyped(g, g', ret, e, hint, n)
    decreases e, 1
  {
    hide Grows, HoldsVars, OpsTyped;
    match e
    case Literal(_, _) => g' := g; GrowsSelf(g, n); NoOpsTyped(g, n, ret);
    case Ident(t, name, id) =>
      g' := g;
      GrowsSelf(g, n);
      NoOpsTyped(g, n, ret);
      VariableTyped(g, n, types, name, id, t);
    case Binary(_, _, _, _) => g' := TypeBinary(p, types, ret, g, e, hint, n);
    case Unary(_, _, _) => g' := TypeUnary(p, types, ret, g, e, hint, n);
    case Increment(_, _, _, _, _) => g' := TypeIncrement(p, types, ret, g, e, hint, n);
    case Cast(_, _) => g' := TypeUnary(p, types, ret, g, e, hint, n);
    case Call(_, _, _) => g' := TypeCall(p, types, ret, g, e, hint, n);
  }

  lemma GrowsSelf(g: Places, k: nat)
    ensures Grows(g, g, k, k)
  {}

  lemma NoOpsTyped(g: Places, k: nat, ret: ValueType)
    ensures OpsTyped(g, k, ret, [])
  {}

  lemma OneOpTyped(g: Places, k: nat, ret: ValueType, op: Operation)
    requires OpTyped(g, k, ret, op)
    ensures OpsTyped(g, k, ret, [op])
  {}

  lemma {:induction false} TypeBinary(
    p: C.Program, types: Types, ret: ValueType, g: Places, e: C.Expr, hint: Operand, n: nat)
    returns (g': Places)
    requires e.Binary? && WfExpr(p, types, e) && HoldsVars(g, types) && Below(g, n) && HintTyped(g, hint, e)
    requires forall i :: 0 <= i < |p| ==> p[i].ret.Void? || IsScalar(p[i].ret)
    ensures ExprTyped(g, g', ret, e, hint, n)
    decreases e, 0
  {
    hide Grows, HoldsVars, Below, OpsTyped, HintTyped, OperandTyped;
    var L := LowerExpr(e.left, NoOperand, n);
    var R := LowerExpr(e.right, NoOperand, L.temps);
    var dst := Destination(hint, e.t, R.temps);
    var k := AfterDestination(hint, R.temps);
    NoHintTyped(g, e.left);
    var g1 := TypeExpr(p, types, ret, g, e.left, NoOperand, n);
    HoldsVarsGrows(g, g1, n, L.temps, types);
    NoHintTyped(g1, e.right);
    var g2 := TypeExpr(p, types, ret, g1, e.right, NoOperand, L.temps);
    GrowsJoin(g, g1, g2, n, L.temps, R.temps);
    HintGrows(g, g2, n, R.temps, hint, e);
    g' := TypeDestination(g2, hint, e, R.temps);
    GrowsJoin(g, g2, g', n, R.temps, k);
    GrowsJoin(g1, g2, g', L.temps, R.temps, k);
    OpsStayTyped(g1, g', L.temps, k, ret, L.ops);
    OperandStaysTyped(g1, g', L.temps, k, L.result);
    OpsStayTyped(g2, g', R.temps, k, ret, R.ops);
    OperandStaysTyped(g2, g', R.temps, k, R.result);
    OneOpTyped(g', k, ret, Bin(e.op, dst, L.result, R.result));
    OpsTypedConcat(g', k, ret, L.ops, R.ops);
    OpsTypedConcat(g', k, ret, L.ops + R.ops, [Bin(e.op, dst, L.result, R.result)]);
  }

  lemma NoHintTyped(g: Places, e: C.Expr)
    ensures HintTyped(g, NoOperand, e)
  {}

  lemma {:induction false} TypeUnary(
    p: C.Program, types: Types, ret: ValueType, g: Places, e: C.Expr, hint: Operand, n: nat)
    returns (g': Places)
    requires (e.Unary? || e.Cast?) && WfExpr(p, types, e) && HoldsVars(g, types) && Below(g, n) && HintTyped(g, hint, e)
    requires forall i :: 0 <= i < |p| ==> p[i].ret.Void? || IsScalar(p[i].ret)
    ensures ExprTyped(g, g', ret, e, hint, n)
    decreases e, 0
  {
    hide Grows, HoldsVars, Below, OpsTyped, HintTyped, OperandTyped, InRange;
    var A := LowerExpr(e.operand, NoOperand, n);
    var dst := Destination(hint, e.t, A.temps);
    var k := AfterDestination(hint, A.temps);
    NoHintTyped(g, e.operand);
    var g1 := TypeExpr(p, types, ret, g, e.operand, NoOperand, n);
    HintGrows(g, g1, n, A.temps, hint, e);
    g' := TypeDestination(g1, hint, e, A.temps);
    GrowsJoin(g, g1, g', n, A.temps, k);
    OpsStayTyped(g1, g', A.temps, k, ret, A.ops);
    OperandStaysTyped(g1, g', A.temps, k, A.result);
    var last := if e.Unary? then Un(e.uop, dst, A.result) else CastTo(dst, A.result);
    OneOpTyped(g', k, ret, last);
    OpsTypedConcat(g', k, ret, A.ops, [last]);
  }

  lemma TypePostfix(types: Types, ret: ValueType, g: Places, e: C.Expr, hint: Operand, n: nat)
    returns (g': Places)
    requires e.Increment? && e.postfix && IsInteger(e.t) && VarHasType(types, e.name, e.id, e.t) &&
             HoldsVars(g, types) && Below(g, n)
    ensures ExprTyped(g, g', ret, e, hint, n)
  {
    hide HoldsVars, OpsTyped, VarHasType;
    var variable := Variable(C.Key(e.name, e.id), e.t);
    g' := AddTemp(AddTemp(g, n, e.t), n + 1, e.t);
    VariableTyped(g, n + 2, types, e.name, e.id, e.t);
    PostfixTyped(g', n + 2, ret, e.t, e.up, Temporary(n + 1, e.t), Temporary(n, e.t), variable);
  }

  lemma TypePrefix(types: Types, ret: ValueType, g: Places, e: C.Expr, hint: Operand, n: nat)
    returns (g': Places)
    requires e.Increment? && !e.postfix && IsInteger(e.t) && VarHasType(types, e.name, e.id, e.t) &&
             HoldsVars(g, types) && Below(g, n)
    ensures ExprTyped(g, g', ret, e, hint, n)
  {
    hide HoldsVars, OpsTyped, VarHasType;
    var variable := Variable(C.Key(e.name, e.id), e.t);
    g' := AddTemp(g, n, e.t);
    VariableTyped(g, n + 1, types, e.name, e.id, e.t);
    BumpTyped(g', n + 1, ret, e.t, e.up, Temporary(n, e.t), variable);
  }

  lemma TypeIncrement(
    p: C.Program, types: Types, ret: ValueType, g: Places, e: C.Expr, hint: Operand, n: nat)
    returns (g': Places)
    requires e.Increment? && WfExpr(p, types, e) && HoldsVars(g, types) && Below(g, n)
    ensures ExprTyped(g, g', ret, e, hint, n)
  {
    hide HoldsVars, Below, ExprTyped, VarHasType;
    if e.postfix {
      g' := TypePostfix(types, ret, g, e, hint, n);
    } else {
      g' := TypePrefix(types, ret, g, e, hint, n);
    }
  }

  lemma OneFits(t: ValueType)
    requires IsInteger(t)
    ensures LiteralFits(t, 1)
  {}

  lemma BumpTyped(g: Places, k: nat, ret: ValueType, t: ValueType, up: bool, updated: Operand, variable: Operand)
    requires IsInteger(t) && Writable(g, k, variable) && Writable(g, k, updated) && updated.t == t && variable.t == t
    ensures OpsTyped(g, k, ret, [Bin(if up then Add else Sub, updated, variable, Immediate(1, t)),
                                 Assign(variable, updated)])
  {
    OneFits(t);
  }

  lemma PostfixTyped(
    g: Places, k: nat, ret: ValueType, t: ValueType, up: bool, saved: Operand, updated: Operand, variable: Operand)
    requires IsInteger(t) && Writable(g, k, variable) && Writable(g, k, updated) && Writable(g, k, saved)
    requires updated.t == t && variable.t == t && saved.t == t
    ensures OpsTyped(g, k, ret, [Assign(saved, variable),
                                 Bin(if up then Add else Sub, updated, variable, Immediate(1, t)),
                                 Assign(variable, updated)])
  {
    hide OperandTyped;
    BumpTyped(g, k, ret, t, up, updated, variable);
    var bump := Bin(if up then Add else Sub, updated, variable, Immediate(1, t));
    OneOpTyped(g, k, ret, Assign(saved, variable));
    OpsTypedConcat(g, k, ret, [Assign(saved, variable)], [bump, Assign(variable, updated)]);
    assert [Assign(saved, variable), bump, Assign(variable, updated)] ==
           [Assign(saved, variable)] + [bump, Assign(variable, updated)];
  }

  lemma {:induction false} TypeCall(
    p: C.Program, types: Types, ret: ValueType, g: Places, e: C.Expr, hint: Operand, n: nat)
    returns (g': Places)
    requires e.Call? && WfExpr(p, types, e) && HoldsVars(g, types) && Below(g, n) && HintTyped(g, hint, e)
    requires forall i :: 0 <= i < |p| ==> p[i].ret.Void? || IsScalar(p[i].ret)
    ensures ExprTyped(g, g', ret, e, hint, n)
    decreases e, 0
  {
    hide Grows, HoldsVars, Below, OpsTyped, HintTyped, OperandTyped;
    var A := LowerArgs(e.args, n);
    var g1 := TypeArgs(p, types, ret, g, e.args, n);
    HintGrows(g, g1, n, A.temps, hint, e);
    var dst, k;
    if e.t.Void? {
      g', dst, k := g1, NoOperand, A.temps;
      GrowsSelf(g1, k);
      NoneTyped(g1, k);
    } else {
      g' := TypeDestination(g1, hint, e, A.temps);
      dst, k := Destination(hint, e.t, A.temps), AfterDestination(hint, A.temps);
    }
    GrowsJoin(g, g1, g', n, A.temps, k);
    OpsStayTyped(g1, g', A.temps, k, ret, A.ops + Params(A.results));
    OneOpTyped(g', k, ret, Call(dst, e.func));
    OpsTypedConcat(g', k, ret, A.ops + Params(A.results), [Call(dst, e.func)]);
  }

  lemma NoneTyped(g: Places, k: nat)
    ensures OperandTyped(g, k, NoOperand)
  {}

  lemma LowerArgsShape(args: seq<C.Expr>, n: nat)
    ensures |args| == 0 ==> LowerArgs(args, n) == ArgsCode([], [], n)
    ensures |args| > 0 ==>
              var A := LowerExpr(args[0], NoOperand, n);
              var B := LowerArgs(args[1..], A.temps);
              LowerArgs(args, n) == ArgsCode(A.ops + B.ops, [A.result] + B.results, B.temps) &&
              Params([A.result] + B.results) == [Param(A.result)] + Params(B.results)
  {
    hide LowerExpr;
  }

  ghost predicate ResultsFit(results: seq<Operand>, args: seq<C.Expr>) {
    |results| == |args| && forall i :: 0 <= i < |args| ==> !results[i].NoOperand? && results[i].t == args[i].t
  }

  lemma NoResults()
    ensures ResultsFit([], []) && Params([]) == []
  {}

  lemma OneMoreResult(o: Operand, e: C.Expr, results: seq<Operand>, args: seq<C.Expr>)
    requires ResultsFit(results, args) && !o.NoOperand? && o.t == e.t
    ensures ResultsFit([o] + results, [e] + args)
  {}

  lemma ExprParts(g: Places, g': Places, ret: ValueType, e: C.Expr, n: nat)
    requires ExprTyped(g, g', ret, e, NoOperand, n) && IsScalar(e.t)
    ensures var c := LowerExpr(e, NoOperand, n);
            Grows(g, g', n, c.temps) && Below(g', c.temps) && OpsTyped(g', c.temps, ret, c.ops) &&
            OperandTyped(g', c.temps, c.result) && !c.result.NoOperand? && c.result.t == e.t
  {
    hide Grows, Below, OpsTyped, OperandTyped, LowerExpr;
  }

  lemma {:induction false} TypeArgs(
    p: C.Program, types: Types, ret: ValueType, g: Places, args: seq<C.Expr>, n: nat)
    returns (g': Places)
    requires HoldsVars(g, types) && Below(g, n)
    requires forall i :: 0 <= i < |args| ==> WfExpr(p, types, args[i]) && IsScalar(args[i].t)
    requires forall i :: 0 <= i < |p| ==> p[i].ret.Void? || IsScalar(p[i].ret)
    ensures var c := LowerArgs(args, n);
            Grows(g, g', n, c.temps) && Below(g', c.temps) &&
            OpsTyped(g', c.temps, ret, c.ops) && OpsTyped(g', c.temps, ret, Params(c.results)) &&
            OpsTyped(g', c.temps, ret, c.ops + Params(c.results)) &&
            ResultsFit(c.results, args)
    decreases args, 0
  {
    hide Grows, HoldsVars, Below, OpsTyped, HintTyped, OperandTyped, WfExpr, LowerExpr, LowerArgs, Params, ResultsFit,
         ExprTyped;
    LowerArgsShape(args, n);
    NoResults();
    if |args| == 0 {
      g' := g;
      GrowsSelf(g, n);
      NoOpsTyped(g, n, ret);
      assert [] + Params([]) == [];
    } else {
      var A := LowerExpr(args[0], NoOperand, n);
      var B := LowerArgs(args[1..], A.temps);
      NoHintTyped(g, args[0]);
      var g1 := TypeExpr(p, types, ret, g, args[0], NoOperand, n);
      ExprParts(g, g1, ret, args[0], n);
      HoldsVarsGrows(g, g1, n, A.temps, types);
      g' := TypeArgs(p, types, ret, g1, args[1..], A.temps);
      OneMoreResult(A.result, args[0], B.results, args[1..]);
      assert args == [args[0]] + args[1..];
      GrowsJoin(g, g1, g', n, A.temps, B.temps);
      OpsStayTyped(g1, g', A.temps, B.temps, ret, A.ops);
      OpsTypedConcat(g', B.temps, ret, A.ops, B.ops);
      OperandStaysTyped(g1, g', A.temps, B.temps, A.result);
      OneOpTyped(g', B.temps, ret, Param(A.result));
      OpsTypedConcat(g', B.temps, ret, [Param(A.result)], Params(B.results));
      OpsTypedConcat(g', B.temps, ret, A.ops + B.ops, Params(LowerArgs(args, n).results));
    }
  }

  // ---------------------------------------------------------------- statements

  ghost predicate CodeTyped(g: Places, g': Places, ret: ValueType, ops: seq<Operation>, n: nat, temps: nat) {
    Grows(g, g', n, temps) && Below(g', temps) && OpsTyped(g', temps, ret, ops)
  }

  ghost predicate ReturnsScalars(p: C.Program) {
    forall i :: 0 <= i < |p| ==> p[i].ret.Void? || IsScalar(p[i].ret)
  }

  /** Code typed one piece after the other. */
  lemma CodeTypedJoin(
    g: Places, g1: Places, g2: Places, ret: ValueType, a: seq<Operation>, b: seq<Operation>, n: nat, k: nat, m: nat)
    requires CodeTyped(g, g1, ret, a, n, k) && CodeTyped(g1, g2, ret, b, k, m)
    ensures CodeTyped(g, g2, ret, a + b, n, m)
  {
    hide Grows, OpsTyped, Below;
    GrowsJoin(g, g1, g2, n, k, m);
    OpsStayTyped(g1, g2, k, m, ret, a);
    OpsTypedConcat(g2, m, ret, a, b);
  }

  lemma CodeTypedAppend(g: Places, g': Places, ret: ValueType, a: seq<Operation>, b: seq<Operation>, n: nat, k: nat)
    requires CodeTyped(g, g', ret, a, n, k) && OpsTyped(g', k, ret, b)
    ensures CodeTyped(g, g', ret, a + b, n, k)
  {
    hide Grows, OpsTyped, Below;
    OpsTypedConcat(g', k, ret, a, b);
  }

  predicate OnlyLabels(ops: seq<Operation>) {
    forall i :: 0 <= i < |ops| ==> ops[i].Label? || ops[i].Jump?
  }

  lemma LabelsTyped(g: Places, k: nat, ret: ValueType, ops: seq<Operation>)
    requires OnlyLabels(ops)
    ensures OpsTyped(g, k, ret, ops)
  {}

  lemma {:induction false} TypeStmt(
    p: C.Program, types: Types, ret: ValueType, g: Places, s: C.Stmt, n: nat, l: nat) returns (g': Places)
    requires WfStmt(p, types, ret, s) && HoldsVars(g, types) && Below(g, n) && ReturnsScalars(p)
    ensures CodeTyped(g, g', ret, LowerStmt(s, n, l).ops, n, LowerStmt(s, n, l).temps)
    decreases s, 1
  {
    hide Grows, HoldsVars, Below, OpsTyped, HintTyped, OperandTyped, WfExpr, LowerExpr, LowerAll, OpTyped, CodeTyped;
    match s
    case Decl(t, name, id, init) =>
      if init.Some? {
        g' := TypeAssignment(p, types, ret, g, name, id, t, init.value, n);
      } else {
        g' := g;
        NoCodeTyped(g, ret, n);
      }
    case Assign(t, name, id, e) => g' := TypeAssignment(p, types, ret, g, name, id, t, e, n);
    case Block(stmts) => g' := TypeAll(p, types, ret, g, stmts, n, l);
    case If(_, _, _) => g' := TypeIf(p, types, ret, g, s, n, l);
    case While(_, _) => g' := TypeWhile(p, types, ret, g, s, n, l);
    case Return(None) =>
      g' := g;
      NoCodeTyped(g, ret, n);
      ReturnTyped(g, n, ret, NoOperand);
      CodeTypedAppend(g, g, ret, [], [Return(NoOperand)], n, n);
      assert [] + [Return(NoOperand)] == [Return(NoOperand)];
    case Return(Some(e)) =>
      g' := TypeValue(p, types, ret, g, e, n);
      var V := LowerExpr(e, NoOperand, n);
      ReturnTyped(g', V.temps, ret, V.result);
      CodeTypedAppend(g, g', ret, V.ops, [Return(V.result)], n, V.temps);
    case ExprStmt(e) =>
      g' := TypeValue(p, types, ret, g, e, n);
  }

  lemma NoCodeTyped(g: Places, ret: ValueType, n: nat)
    requires Below(g, n)
    ensures CodeTyped(g, g, ret, [], n, n)
  {}

  lemma ReturnTyped(g: Places, k: nat, ret: ValueType, o: Operand)
    requires if ret.Void? then o.NoOperand? else Present(g, k, o) && o.t == ret
    ensures OpsTyped(g, k, ret, [Return(o)])
  {}

  lemma TypeValue(p: C.Program, types: Types, ret: ValueType, g: Places, e: C.Expr, n: nat) returns (g': Places)
    requires WfExpr(p, types, e) && HoldsVars(g, types) && Below(g, n) && ReturnsScalars(p)
    ensures var V := LowerExpr(e, NoOperand, n);
            CodeTyped(g, g', ret, V.ops, n, V.temps) && OperandTyped(g', V.temps, V.result) &&
            (!e.t.Void? ==> !V.result.NoOperand? && V.result.t == e.t)
  {
    hide Grows, HoldsVars, Below, OpsTyped, HintTyped, OperandTyped, WfExpr, LowerExpr;
    NoHintTyped(g, e);
    g' := TypeExpr(p, types, ret, g, e, NoOperand, n);
  }

  lemma TypeAssignment(
    p: C.Program, types: Types, ret: ValueType, g: Places, name: string, id: nat, t: ValueType, e: C.Expr, n: nat)
    returns (g': Places)
    requires WfExpr(p, types, e) && Assignable(t, e) && VarHasType(types, name, id, t)
    requires HoldsVars(g, types) && Below(g, n) && ReturnsScalars(p)
    ensures var V := LowerAssignment(Variable(C.Key(name, id), t), e, n); CodeTyped(g, g', ret, V.ops, n, V.temps)
  {
    hide Grows, HoldsVars, Below, OpsTyped, OperandTyped, WfExpr, InRange;
    var dst := Variable(C.Key(name, id), t);
    var V := LowerExpr(e, dst, n);
    VariableTyped(g, 0, types, name, id, t);
    g' := TypeExpr(p, types, ret, g, e, dst, n);
    if !WroteDirectly(dst, V.result) {
      HoldsVarsGrows(g, g', n, V.temps, types);
      VariableTyped(g', V.temps, types, name, id, t);
      AssignResultShape(e, dst, n);
      OneOpTyped(g', V.temps, ret, Assign(dst, V.result));
      OpsTypedConcat(g', V.temps, ret, V.ops, [Assign(dst, V.result)]);
    }
  }

  /** When a value is copied to its variable, it is a literal, a variable or a temporary of the
    * expression's type. */
  lemma AssignResultShape(e: C.Expr, dst: Operand, n: nat)
    requires dst.Variable? && !WroteDirectly(dst, LowerExpr(e, dst, n).result) && !e.t.Void?
    ensures LowerExpr(e, dst, n).result.t == e.t
    ensures LowerExpr(e, dst, n).result.Immediate? ==> e.Literal? && e.number == LowerExpr(e, dst, n).result.number
  {}

  lemma {:induction false} TypeAll(
    p: C.Program, types: Types, ret: ValueType, g: Places, stmts: seq<C.Stmt>, n: nat, l: nat) returns (g': Places)
    requires forall i :: 0 <= i < |stmts| ==> WfStmt(p, types, ret, stmts[i])
    requires HoldsVars(g, types) && Below(g, n) && ReturnsScalars(p)
    ensures CodeTyped(g, g', ret, LowerAll(stmts, n, l).ops, n, LowerAll(stmts, n, l).temps)
    decreases stmts, 0
  {
    hide HoldsVars, OpsTyped, WfStmt, LowerStmt, Grows;
    if |stmts| == 0 {
      g' := g;
      NoCodeTyped(g, ret, n);
    } else {
      var S := LowerStmt(stmts[0], n, l);
      var g1 := TypeStmt(p, types, ret, g, stmts[0], n, l);
      HoldsVarsGrows(g, g1, n, S.temps, types);
      g' := TypeAll(p, types, ret, g1, stmts[1..], S.temps, S.labels);
      CodeTypedJoin(g, g1, g', ret, S.ops, LowerAll(stmts[1..], S.temps, S.labels).ops,
                    n, S.temps, LowerAll(stmts[1..], S.temps, S.labels).temps);
    }
  }

  lemma TestTyped(g: Places, k: nat, ret: ValueType, l: nat, o: Operand)
    requires Present(g, k, o) && o.t.Bool?
    ensures OpsTyped(g, k, ret, [JumpIfFalse(l, o)])
  {}

  lemma CodeTypedBelow(g: Places, g': Places, ret: ValueType, ops: seq<Operation>, n: nat, k: nat, types: Types)
    requires CodeTyped(g, g', ret, ops, n, k) && HoldsVars(g, types)
    ensures Below(g', k) && HoldsVars(g', types)
  {
    HoldsVarsGrows(g, g', n, k, types);
  }

  lemma {:induction false} TypeIf(
    p: C.Program, types: Types, ret: ValueType, g: Places, s: C.Stmt, n: nat, l: nat) returns (g': Places)
    requires s.If? && WfStmt(p, types, ret, s) && HoldsVars(g, types) && Below(g, n) && ReturnsScalars(p)
    ensures CodeTyped(g, g', ret, LowerStmt(s, n, l).ops, n, LowerStmt(s, n, l).temps)
    decreases s, 0
  {
    hide Grows, HoldsVars, Below, OpsTyped, OperandTyped, WfExpr, LowerExpr, CodeTyped, LowerAll;
    var V := LowerExpr(s.cond, NoOperand, n);
    var test := [JumpIfFalse(l, V.result)];
    var g1 := TypeValue(p, types, ret, g, s.cond, n);
    TestTyped(g1, V.temps, ret, l, V.result);
    CodeTypedAppend(g, g1, ret, V.ops, test, n, V.temps);
    CodeTypedBelow(g, g1, ret, V.ops + test, n, V.temps, types);
    if s.els.None? {
      var T := LowerStmt(s.thn, V.temps, l + 1);
      g' := TypeStmt(p, types, ret, g1, s.thn, V.temps, l + 1);
      CodeTypedJoin(g, g1, g', ret, V.ops + test, T.ops, n, V.temps, T.temps);
      LabelsTyped(g', T.temps, ret, [Label(l)]);
      CodeTypedAppend(g, g', ret, V.ops + test + T.ops, [Label(l)], n, T.temps);
    } else {
      var T := LowerStmt(s.thn, V.temps, l + 2);
      var E := LowerStmt(s.els.value, T.temps, T.labels);
      var mid := [Jump(l + 1), Label(l)];
      var g2 := TypeStmt(p, types, ret, g1, s.thn, V.temps, l + 2);
      CodeTypedJoin(g, g1, g2, ret, V.ops + test, T.ops, n, V.temps, T.temps);
      LabelsTyped(g2, T.temps, ret, mid);
      CodeTypedAppend(g, g2, ret, V.ops + test + T.ops, mid, n, T.temps);
      CodeTypedBelow(g, g2, ret, V.ops + test + T.ops + mid, n, T.temps, types);
      g' := TypeStmt(p, types, ret, g2, s.els.value, T.temps, T.labels);
      CodeTypedJoin(g, g2, g', ret, V.ops + test + T.ops + mid, E.ops, n, T.temps, E.temps);
      LabelsTyped(g', E.temps, ret, [Label(l + 1)]);
      CodeTypedAppend(g, g', ret, V.ops + test + T.ops + mid + E.ops, [Label(l + 1)], n, E.temps);
      assert LowerStmt(s, n, l).ops == V.ops + (test + T.ops + mid + E.ops + [Label(l + 1)]);
      assert V.ops + (test + T.ops + mid + E.ops + [Label(l + 1)]) ==
        V.ops + test + T.ops + mid + E.ops + [Label(l + 1)];
    }
  }

  lemma {:induction false} TypeWhile(
    p: C.Program, types: Types, ret: ValueType, g: Places, s: C.Stmt, n: nat, l: nat) returns (g': Places)
    requires s.While? && WfStmt(p, types, ret, s) && HoldsVars(g, types) && Below(g, n) && ReturnsScalars(p)
    ensures CodeTyped(g, g', ret, LowerStmt(s, n, l).ops, n, LowerStmt(s, n, l).temps)
    decreases s, 0
  {
    hide Grows, HoldsVars, Below, OpsTyped, OperandTyped, WfExpr, LowerExpr, CodeTyped, LowerAll;
    var V := LowerExpr(s.cond, NoOperand, n);
    var B := LowerStmt(s.body, V.temps, l + 2);
    var head, test, tail := [Label(l)], [JumpIfFalse(l + 1, V.result)], [Jump(l), Label(l + 1)];
    NoCodeTyped(g, ret, n);
    LabelsTyped(g, n, ret, head);
    CodeTypedAppend(g, g, ret, [], head, n, n);
    assert [] + head == head;
    var g1 := TypeValue(p, types, ret, g, s.cond, n);
    CodeTypedJoin(g, g, g1, ret, head, V.ops, n, n, V.temps);
    TestTyped(g1, V.temps, ret, l + 1, V.result);
    CodeTypedAppend(g, g1, ret, head + V.ops, test, n, V.temps);
    CodeTypedBelow(g, g1, ret, head + V.ops + test, n, V.temps, types);
    g' := TypeStmt(p, types, ret, g1, s.body, V.temps, l + 2);
    CodeTypedJoin(g, g1, g', ret, head + V.ops + test, B.ops, n, V.temps, B.temps);
    LabelsTyped(g', B.temps, ret, tail);
    CodeTypedAppend(g, g', ret, head + V.ops + test + B.ops, tail, n, B.temps);
  }
}
