/** Two programs that the analyser accepts and the back end does not compile as they mean: operands of
  * different widths, and a result of another width. */
module Accepted {
  import opened Values
  import opened Arith
  import opened Names
  import Machine
  import opened MachineRun
  import opened Frame
  import opened Codegen
  import opened CodegenOps
  import opened Scopes
  import opened Analysis
  import opened Constants
  import Lowering
  import opened MachineArith
  import opened CodegenSim
  import opened NarrowDivision
  import opened OperandWidths
  import Endings
  import Mangling
  import LoweringSim
  import Widening
  import I = Ir
  import C = Checked
  import S = Syntax

  const PLAIN := S.Qualifiers(false, false, false)

  /** The flow state in which parameter `name` alone is declared. */
  function OneParam(name: string, t: ValueType): State {
    State([[], [Symbol(name, t, false, 0, 1, true)]], 1)
  }

  lemma DeclaresNext(st: State, p: S.Param, ps: seq<S.Param>, stack: Stack, end: State, rest: seq<C.Param>)
    requires Insert(st.stack, Symbol(p.name, p.t, p.quals.isMutable, 0, 0, true), st.nextId) == Some(stack)
    requires DeclareParams(State(stack, st.nextId + 1), ps) == Some(Done(end, rest))
    ensures DeclareParams(st, [p] + ps) == Some(Done(end, [C.Param(p.name, st.nextId, p.t)] + rest))
  {
    hide Insert;
    assert ([p] + ps)[0] == p && ([p] + ps)[1..] == ps;
  }

  lemma DeclaresOne(name: string, t: ValueType)
    ensures DeclareParams(State([[], []], 0), [S.Param(PLAIN, t, name)]) ==
            Some(Done(OneParam(name, t), [C.Param(name, 0, t)]))
  {
    var stack: Stack := [[], []];
    var sym := Symbol(name, t, false, 0, 0, true);
    var placed := sym.(id := 0, depth := 1);
    assert stack[1] + [placed] == [placed];
    assert stack[1 := [placed]] == [[], [placed]];
    assert Insert(stack, sym, 0) == Some(OneParam(name, t).stack);
    DeclaresNext(State(stack, 0), S.Param(PLAIN, t, name), [], OneParam(name, t).stack, OneParam(name, t), []);
    assert [S.Param(PLAIN, t, name)] + [] == [S.Param(PLAIN, t, name)] &&
      [C.Param(name, 0, t)] + [] == [C.Param(name, 0, t)];
  }

  // ---------------------------------------------------------------- a result of another width

  function WidenSource(from: ValueType, to: ValueType): S.Stmt {
    S.FuncDecl(PLAIN, "widen", [S.Param(PLAIN, from, "x")], to, Some(S.Block([S.Return(Some(S.Identifier("x")))])))
  }

  lemma FindsOne(name: string, t: ValueType, rest: Stack)
    ensures var stack := rest + [[Symbol(name, t, false, 0, 1, true)], []];
            Lookup(stack, name) == Some(Symbol(name, t, false, 0, 1, true))
  {
    var table := [Symbol(name, t, false, 0, 1, true)];
    var stack := rest + [table, []];
    assert stack[|stack| - 1] == [] && FindIn([], name).None?;
    assert stack[..|stack| - 1] == rest + [table];
    var below := rest + [table];
    assert below[|below| - 1] == table && FindIn(table, name) == Some(0);
  }

  /** The body `{ return e; }` once the analyser has typed `e`. */
  lemma ReturnsBody(cx: Context, st: State, e: S.Expr, c: C.Expr)
    requires !cx.ret.Void? && Converts(c.t, cx.ret)
    requires ResolveExpr(cx.funcs, st.stack + [[]], e, cx.ret) == Some(c)
    ensures ResolveStmt(cx, st, S.Block([S.Return(Some(e))])) == Some(Done(st, C.Block([C.Return(Some(c))])))
    ensures Endings.AlwaysReturns(C.Block([C.Return(Some(c))]))
  {
    hide ResolveExpr, Converts;
    var st1 := st.(stack := st.stack + [[]]);
    var rs := [S.Return(Some(e))];
    assert rs[1..] == [];
    assert ResolveStmt(cx, st1, rs[0]) == Some(Done(st1, C.Return(Some(c))));
    assert ResolveAll(cx, st1, []) == Some(Done(st1, []));
    assert [C.Return(Some(c))] + [] == [C.Return(Some(c))];
    assert ResolveAll(cx, st1, rs) == Some(Done(st1, [C.Return(Some(c))]));
    assert (st.stack + [[]])[..|st.stack|] == st.stack;
    assert PopStack(st1.stack) == st.stack;
    assert Endings.AnyReturns([C.Return(Some(c))]);
  }

  /** A file with one function, given the analysis of its parameters and body. */
  lemma OneFunction(f: S.Stmt, st: State, params: seq<C.Param>, body: C.Stmt)
    requires f.FuncDecl? && f.quals == PLAIN && f.definition.Some? && !f.ret.Void? && DistinctNames(f.params)
    requires forall i :: 0 <= i < |f.params| ==> !f.params[i].t.Void?
    requires DeclareParams(State([[], []], 0), f.params) == Some(Done(st, params))
    requires var symbol := FuncSymbol(f.name, f.name, f.ret, ParamTypes(f.params), true);
             ResolveStmt(Context([symbol], ParamNames(f.params), f.ret), st, f.definition.value) == Some(Done(st, body))
    requires Endings.AlwaysReturns(body)
    ensures Analyze(None, [], [f]) == Some([C.Function(f.name, params, f.ret, Some(body))])
  {
    hide DeclareParams, ResolveStmt, Endings.AlwaysReturns, DistinctNames, ParamTypes, ParamNames;
    var symbol := FuncSymbol(f.name, f.name, f.ret, ParamTypes(f.params), true);
    var start := State([[]], 0);
    assert start.stack + [[]] == [[], []];
    assert InsertFunc([], symbol, false) == Some([symbol]) by {
      assert [] + [symbol] == [symbol];
    }
    assert ResolveBody([symbol], f.name, start, f).Some?;
    var done := ResolveFunction(None, [], start, f);
    assert done.Some? && done.value.node == C.Function(f.name, params, f.ret, Some(body));
    assert [f][1..] == [];
    assert ResolveProgram(None, done.value.funcs, done.value.st, []) == Some([]);
    assert [done.value.node] + [] == [done.value.node];
  }

  lemma WidenAccepted(from: ValueType, to: ValueType)
    requires IsScalar(from) && IsScalar(to) && Converts(from, to)
    ensures Analyze(None, [], [WidenSource(from, to)]) == Some([Widening.Widen(from, to)])
  {
    hide DeclareParams, ResolveStmt, ResolveExpr, Analyze, Converts, Lookup;
    var f := WidenSource(from, to);
    var cx := Context([FuncSymbol("widen", "widen", to, ParamTypes(f.params), true)], ParamNames(f.params), to);
    var st, c := OneParam("x", from), C.Ident(from, "x", 0);
    DeclaresOne("x", from);
    FindsOne("x", from, [[]]);
    assert st.stack + [[]] == [[]] + [[Symbol("x", from, false, 0, 1, true)], []];
    ResolvesIdentifier(cx.funcs, st.stack + [[]], "x", Symbol("x", from, false, 0, 1, true), to);
    ReturnsBody(cx, st, S.Identifier("x"), c);
    OneFunction(f, st, [C.Param("x", 0, from)], C.Block([C.Return(Some(c))]));
  }

  lemma ResolvesIdentifier(funcs: Funcs, stack: Stack, name: string, sym: Symbol, expected: ValueType)
    requires Lookup(stack, name) == Some(sym) && sym.initialized
    ensures ResolveExpr(funcs, stack, S.Identifier(name), expected) == Some(C.Ident(sym.t, name, sym.id))
  {}

  // ---------------------------------------------------------------- operands of different widths

  predicate Mixes(left: ValueType, right: ValueType) {
    IsInteger(left) && SameGroup(left, right) && left != right
  }

  function MixedSource(op: BinaryOp, left: ValueType, right: ValueType): S.Stmt {
    S.FuncDecl(PLAIN, "mixed", [S.Param(PLAIN, left, "x"), S.Param(PLAIN, right, "y")], Promote(left, right),
               Some(S.Block([S.Return(Some(S.Binary(op, S.Identifier("x"), S.Identifier("y"))))])))
  }

  function MixedValue(op: BinaryOp, left: ValueType, right: ValueType): C.Expr {
    C.Binary(Promote(left, right), op, C.Ident(left, "x", 0), C.Ident(right, "y", 1))
  }

  function Mixed(op: BinaryOp, left: ValueType, right: ValueType): C.Function {
    C.Function("mixed", [C.Param("x", 0, left), C.Param("y", 1, right)], Promote(left, right),
               Some(C.Block([C.Return(Some(MixedValue(op, left, right)))])))
  }

  function TwoParams(left: ValueType, right: ValueType): State {
    State([[], [Symbol("x", left, false, 0, 1, true), Symbol("y", right, false, 1, 1, true)]], 2)
  }

  lemma DeclaresTwo(left: ValueType, right: ValueType)
    ensures DeclareParams(State([[], []], 0), [S.Param(PLAIN, left, "x"), S.Param(PLAIN, right, "y")]) ==
            Some(Done(TwoParams(left, right), [C.Param("x", 0, left), C.Param("y", 1, right)]))
  {
    hide FindIn;
    var x, y := Symbol("x", left, false, 0, 1, true), Symbol("y", right, false, 1, 1, true);
    var p, q := S.Param(PLAIN, left, "x"), S.Param(PLAIN, right, "y");
    assert Insert([[], []], Symbol("x", left, false, 0, 0, true), 0) == Some([[], [x]]) by {
      var stack: Stack := [[], []];
      assert FindIn([], "x").None?;
      assert stack[1] + [x] == [x] && stack[1 := [x]] == [[], [x]];
    }
    assert Insert([[], [x]], Symbol("y", right, false, 0, 0, true), 1) == Some([[], [x, y]]) by {
      var stack: Stack := [[], [x]];
      assert FindIn([x], "y").None?;
      assert stack[1] + [y] == [x, y] && stack[1 := [x, y]] == [[], [x, y]];
    }
    DeclaresNext(State([[], [x]], 1), q, [], [[], [x, y]], TwoParams(left, right), []);
    assert [q] + [] == [q] && [C.Param("y", 1, right)] + [] == [C.Param("y", 1, right)];
    DeclaresNext(State([[], []], 0), p, [q], [[], [x]], TwoParams(left, right), [C.Param("y", 1, right)]);
    assert [p] + [q] == [p, q];
    assert [C.Param("x", 0, left)] + [C.Param("y", 1, right)] == [C.Param("x", 0, left), C.Param("y", 1, right)];
  }

  lemma FindsTwo(left: ValueType, right: ValueType)
    ensures var stack := TwoParams(left, right).stack + [[]];
            Lookup(stack, "x") == Some(Symbol("x", left, false, 0, 1, true)) &&
            Lookup(stack, "y") == Some(Symbol("y", right, false, 1, 1, true))
  {
    var stack := TwoParams(left, right).stack + [[]];
    var table := stack[1];
    assert stack[2] == [] && stack[..2] == [[], table];
    assert FindIn(table, "x") == Some(0);
    assert FindIn(table[1..], "y") == Some(0) && table[0].name != "y";
    assert FindIn(table, "y") == Some(1);
    assert FindScope([[], table], "x") == Some(1) && FindScope([[], table], "y") == Some(1);
  }

  lemma TypesMixed(funcs: Funcs, op: BinaryOp, left: ValueType, right: ValueType)
    requires IsPromoting(op) && Mixes(left, right)
    ensures ResolveExpr(funcs, TwoParams(left, right).stack + [[]], S.Binary(op, S.Identifier("x"), S.Identifier("y")),
                        Promote(left, right)) == Some(MixedValue(op, left, right))
  {
    hide Lookup;
    var stack, wide := TwoParams(left, right).stack + [[]], Promote(left, right);
    FindsTwo(left, right);
    ResolvesIdentifier(funcs, stack, "x", Symbol("x", left, false, 0, 1, true), wide);
    ResolvesIdentifier(funcs, stack, "y", Symbol("y", right, false, 1, 1, true), left);
    var l, r := C.Ident(left, "x", 0), C.Ident(right, "y", 1);
    assert EvalInt(r).None? && EvalUint(r).None? && EvalInt(l).None? && EvalUint(l).None?;
    assert FinishBinary(op, l, r) == Some(MixedValue(op, left, right));
  }

  /** Every such program is accepted. */
  lemma MixedAccepted(op: BinaryOp, left: ValueType, right: ValueType)
    requires IsPromoting(op) && Mixes(left, right)
    ensures Analyze(None, [], [MixedSource(op, left, right)]) == Some([Mixed(op, left, right)])
  {
    hide DeclareParams, ResolveStmt, ResolveExpr, Analyze, Lookup;
    var f, wide := MixedSource(op, left, right), Promote(left, right);
    var cx := Context([FuncSymbol("mixed", "mixed", wide, ParamTypes(f.params), true)], ParamNames(f.params), wide);
    var st := TwoParams(left, right);
    DeclaresTwo(left, right);
    TypesMixed(cx.funcs, op, left, right);
    ReturnsBody(cx, st, S.Binary(op, S.Identifier("x"), S.Identifier("y")), MixedValue(op, left, right));
    OneFunction(f, st, Mixed(op, left, right).params, Mixed(op, left, right).body.value);
  }

  // ---------------------------------------------------------------- what it is compiled to

  function X(left: ValueType): I.Operand {
    I.Variable(C.Key("x", 0), left)
  }

  function Y(right: ValueType): I.Operand {
    I.Variable(C.Key("y", 1), right)
  }

  function T(left: ValueType, right: ValueType): I.Operand {
    I.Temporary(0, Promote(left, right))
  }

  function Lowered(op: BinaryOp, left: ValueType, right: ValueType): I.IrFunction {
    Lowering.LowerFunction(Mixed(op, left, right), 0)
  }

  lemma MixedLowered(op: BinaryOp, left: ValueType, right: ValueType)
    ensures var f := Lowered(op, left, right); var t := T(left, right);
            f.operations == [I.Bin(op, t, X(left), Y(right)), I.Return(t)] &&
            f.params == [I.IrParam(C.Key("x", 0), left), I.IrParam(C.Key("y", 1), right)]
  {
    hide MangleVariable;
    var x, y, t := X(left), Y(right), T(left, right);
    var e, bin := MixedValue(op, left, right), I.Bin(op, t, x, y);
    assert Lowering.LowerExpr(e.left, I.NoOperand, 0) == Lowering.ExprCode([], x, 0);
    assert Lowering.LowerExpr(e.right, I.NoOperand, 0) == Lowering.ExprCode([], y, 0);
    assert Lowering.LowerExpr(e, I.NoOperand, 0).ops == [bin] by {
      assert [] + [] + [bin] == [bin];
    }
    var r := C.Return(Some(e));
    assert Lowering.LowerStmt(r, 0, 0).ops == [bin, I.Return(t)];
    assert Lowering.LowerAll([r], 0, 0).ops == [bin, I.Return(t)] by {
      assert [r][1..] == [];
    }
  }

  function Slots(op: BinaryOp, left: ValueType, right: ValueType): seq<Entry> {
    Layout(Lowered(op, left, right).params, Lowered(op, left, right).operations).entries
  }

  /** With another operator than division, or the narrower operand on the left, the code of the operation stops
    * in every state. */
  lemma MixedStops(op: BinaryOp, left: ValueType, right: ValueType, s: Machine.State)
    requires IsPromoting(op) && Mixes(left, right) && (op.Div? ==> WidthBytes(left) < WidthBytes(right))
    ensures ExecBlock(BinCode(Slots(op, left, right), op, T(left, right), X(left), Y(right)), s).None?
  {
    hide ExecBlock, BinCode, Slots;
    MixedOperands(op, left, right);
    MismatchFaults(Slots(op, left, right), op, T(left, right), X(left), Y(right), s);
  }

  lemma MixedOperands(op: BinaryOp, left: ValueType, right: ValueType)
    requires IsPromoting(op) && Mixes(left, right)
    ensures Operands(op, T(left, right), X(left), Y(right))
    ensures SameWidth(T(left, right), X(left)) <==> WidthBytes(right) < WidthBytes(left)
    ensures SameWidth(T(left, right), Y(right)) <==> WidthBytes(left) < WidthBytes(right)
  {}

  // ---------------------------------------------------------------- division by a narrower variable

  lemma FindFirstTwo(es: seq<Entry>)
    requires |es| >= 2 && es[0].name != es[1].name
    ensures FindEntry(es, es[0].name) == Some(0) && FindEntry(es, es[1].name) == Some(1)
  {
    assert es[1..][0] == es[1];
  }

  lemma FirstTwo(x: I.Operand, y: I.Operand) returns (s: Frame.Slots)
    requires x.Variable? && y.Variable? && x.name != y.name && IsInteger(x.t) && IsInteger(y.t)
    ensures s == Register(Register(Frame.Slots([], 0), x), y)
    ensures |s.entries| == 2 && s.entries[0].name == x.name && s.entries[1].name == y.name
    ensures s.entries[0].offset + WidthBytes(x.t) == 0
    ensures -24 <= s.entries[1].offset <= s.entries[0].offset - WidthBytes(y.t)
  {
    hide NextAlignedOffset, FindEntry;
    FirstSlot(WidthBytes(x.t));
    var first := NextAlignedOffset(0, WidthBytes(x.t));
    NextSlot(first, WidthBytes(y.t));
    var s1 := Register(Frame.Slots([], 0), x);
    assert s1.entries == [Entry(x.name, first, x.t)] by {
      assert FindEntry([], x.name).None?;
    }
    assert FindEntry(s1.entries, y.name).None?;
    s := Register(s1, y);
  }

  lemma FirstSlot(size: nat)
    requires IsSize(size)
    ensures NextAlignedOffset(0, size) + size == 0
  {}

  lemma TwoEntries(left: ValueType, right: ValueType, os: seq<I.Operand>)
    requires IsInteger(left) && IsInteger(right)
    ensures var es := RegisterAll(Frame.Slots([], 0), [X(left), Y(right)] + os).entries;
            SlotOffset(es, X(left)) + WidthBytes(left) == 0 &&
            -24 <= SlotOffset(es, Y(right)) <= SlotOffset(es, X(left)) - WidthBytes(right)
  {
    hide MangleVariable, Register, FindEntry, IsInteger;
    if C.Key("x", 0) == C.Key("y", 1) {
      MangleInjective("x", 0, "y", 1);
    }
    var x, y := X(left), Y(right);
    var s2 := FirstTwo(x, y);
    assert ([x, y] + os)[1..] == [y] + os && ([y] + os)[1..] == os;
    RegisterAllKeeps(s2, os);
    var es := RegisterAll(s2, os).entries;
    assert es[0] == s2.entries[0] && es[1] == s2.entries[1];
    FindFirstTwo(es);
  }

  lemma NextSlot(offset: int, size: nat)
    requires -8 <= offset <= 0 && IsSize(size)
    ensures offset - 2 * size <= NextAlignedOffset(offset, size) <= offset - size
  {}

  lemma MixedSlots(op: BinaryOp, left: ValueType, right: ValueType)
    requires Mixes(left, right)
    ensures SlotsApart(Slots(op, left, right), X(left), Y(right))
  {
    hide SlotOffset, RegisterAll, MangleVariable;
    MixedLowered(op, left, right);
    var f := Lowered(op, left, right);
    TwoEntries(left, right, AllOperands(f.operations));
    assert ParamOperands(f.params) == [X(left), Y(right)];
  }

  /** An accepted division by a narrower variable: whatever the value of `x`, the quotient is right for every
    * `y` if and only if that value is small. */
  lemma DivisionAccepted(left: ValueType, right: ValueType, v: int)
    requires Mixes(left, right) && WidthBytes(right) < WidthBytes(left) && InRange(left, v)
    ensures Analyze(None, [], [MixedSource(Div, left, right)]) == Some([Mixed(Div, left, right)])
    ensures var es := Slots(Div, left, right); var t := T(left, right);
            (forall s: Machine.State, y: int ::
              OperandHolds(es, X(left), s, v) && OperandHolds(es, Y(right), s, y) && Apply(Div, left, v, y).Some? ==>
                Computes(es, Div, t, X(left), Y(right), s, v, y)) <==>
                  SmallDividend(IsSigned(left), WidthBytes(right), v)
  {
    hide OperandHolds, Apply, Computes, SlotsApart, SmallDividend, InRange, Slots, Analyze;
    MixedAccepted(Div, left, right);
    MixedOperands(Div, left, right);
    MixedSlots(Div, left, right);
    SizeOfScalar(right);
    NarrowDivisor(Slots(Div, left, right), T(left, right), X(left), Y(right), v);
  }

  /** `x / y` for an `i64` and an `i32`: -5 by 1 is 2^32 - 5, in every state that holds the two. */
  lemma MinusFiveByOne(s: Machine.State)
    requires OperandHolds(Slots(Div, I64, I32), X(I64), s, -5) && OperandHolds(Slots(Div, I64, I32), Y(I32), s, 1)
    ensures var es := Slots(Div, I64, I32);
            exists s' :: Stores(BinCode(es, Div, T(I64, I32), X(I64), Y(I32)), s, s', SlotOffset(es, T(I64, I32)), 8,
                                0xFFFF_FFFB)
  {
    hide Slots, Stores, DivCode, SlotOffset, Stored, Machine.ReadArg, Operand, InRange;
    var es, t, x, y := Slots(Div, I64, I32), T(I64, I32), X(I64), Y(I32);
    MixedOperands(Div, I64, I32);
    MinusFive();
    HeldPattern(es, y, s, 1);
    NarrowCode(es, t, x, y, s, -5);
    assert BinCode(es, Div, t, x, y) == DivCode(es, t, x, y);
  }

  lemma MinusFive()
    ensures Encode(I64, -5) == 0xFFFF_FFFF_FFFF_FFFB && InRange(I64, -5) && 1 % Modulus(4) == 1
    ensures Stored(true, 4, true, 0xFFFF_FFFF_FFFF_FFFB, 1) == Some(0xFFFF_FFFB)
  {
    assert LowDivision(true, 4, true, 0xFFFF_FFFF_FFFF_FFFB, 1) == Some((0xFFFF_FFFB, 0));
  }
}
