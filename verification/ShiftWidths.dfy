/** Shifts and unary operators take the width of their left operand, whose type may still be narrower than
  * the destination. Exactly when their instructions compute the operation. */
module ShiftWidths {
  import opened Values
  import opened Arith
  import opened Memory
  import opened Machine
  import opened MachineArith
  import opened MachineRun
  import opened Frame
  import opened Codegen
  import opened CodegenOps
  import opened CodegenSim
  import opened NarrowDivision
  import opened OperandWidths
  import opened Lowering
  import opened Widths
  import LoweringProof
  import LoweringSim
  import Typing
  import I = Ir
  import C = Checked

  /** A shift as the analyser accepts it: the count has a type of its own, and a literal count is in the
    * width. */
  predicate ShiftOperands(op: BinaryOp, dst: I.Operand, a: I.Operand, b: I.Operand) {
    IsShift(op) && I.IsPlace(dst) && IsInteger(dst.t) && Narrow(dst.t, a) &&
    !b.NoOperand? && Narrow(b.t, b) &&
    (b.Immediate? ==> b.number < WidthBits(dst.t))
  }

  function ShiftKind(op: BinaryOp, t: ValueType): ShiftOp {
    if op.Shl? then SHL else if IsSigned(t) then SAR else SHR
  }

  lemma RetypedShift(es: seq<Entry>, op: BinaryOp, dst: I.Operand, a: I.Operand, b: I.Operand)
    requires ShiftOperands(op, dst, a, b)
    ensures BinCode(es, op, dst, a, b) == BinCode(es, op, dst, Retyped(dst.t, a), b)
  {
    hide Operand, InRange, Acc, Counter;
    RetypedArg(es, dst.t, a, SizeOf(dst));
  }

  lemma ShiftFaults(es: seq<Entry>, op: BinaryOp, dst: I.Operand, a: I.Operand, b: I.Operand, s: State)
    requires ShiftOperands(op, dst, a, b) && !SameWidth(dst, a)
    ensures ExecBlock(BinCode(es, op, dst, a, b), s).None?
  {
    hide Exec, Operand, InRange, Counter;
    SizeOfScalar(dst.t);
    SizeOfScalar(a.t);
    OtherBytes(dst, a);
    var size, kind := SizeOf(dst), ShiftKind(op, dst.t);
    var load := Mov(Acc(size), Operand(es, a));
    var rest := (if b.Immediate? then [ShiftImm(kind, Acc(size), b.number)]
                 else [Mov(Counter(SizeOf(b)), Operand(es, b)), ShiftCl(kind, Acc(size))]) +
                   [Mov(Operand(es, dst), Acc(size))];
    assert BinCode(es, op, dst, a, b) == [load] + rest;
    MovFaults(es, a, size, s);
    FirstFaults(load, rest, s);
  }

  lemma OneShifts(op: BinaryOp, t: ValueType, x: int, y: int)
    requires IsShift(op) && 0 <= y < WidthBits(t)
    ensures Apply(op, t, x, y).Some?
  {
    hide Wrap;
  }

  lemma ShiftComputes(es: seq<Entry>, op: BinaryOp, dst: I.Operand, a: I.Operand, b: I.Operand, s: State, x: int,
      y: int)
    requires ShiftOperands(op, dst, a, b) && SameWidth(dst, a)
    requires OperandHolds(es, a, s, x) && OperandHolds(es, b, s, y) && Apply(op, dst.t, x, y).Some?
    ensures Computes(es, op, dst, a, b, s, x, y)
  {
    hide OperandHolds, Apply, BinCode, Stores, InRange, Encode, SlotOffset;
    RetypedHolds(es, dst.t, a, s, x);
    RetypedShift(es, op, dst, a, b);
    SizeOfScalar(dst.t);
    var s' := BinStores(es, op, dst, Retyped(dst.t, a), b, s, x, y);
  }

  /** A shift is computed for all values and states if and only if the shifted operand is a literal or as
    * wide as the destination, whatever the width of the count. */
  lemma ShiftWidths(es: seq<Entry>, op: BinaryOp, dst: I.Operand, a: I.Operand, b: I.Operand)
    requires ShiftOperands(op, dst, a, b) && SlotsApart(es, a, b)
    ensures (forall s: State, x: int, y: int ::
              OperandHolds(es, a, s, x) && OperandHolds(es, b, s, y) && Apply(op, dst.t, x, y).Some? ==>
                Computes(es, op, dst, a, b, s, x, y)) <==> SameWidth(dst, a)
  {
    hide OperandHolds, Apply, SlotsApart, InRange, BinCode, SlotOffset;
    if SameWidth(dst, a) {
      forall s: State, x: int, y: int | OperandHolds(es, a, s, x) && OperandHolds(es, b, s, y) &&
        Apply(op, dst.t, x, y).Some?
        ensures Computes(es, op, dst, a, b, s, x, y)
      {
        ShiftComputes(es, op, dst, a, b, s, x, y);
      }
    } else {
      var s, x, y := UnsuitedShift(es, op, dst, a, b);
    }
  }

  lemma UnsuitedShift(es: seq<Entry>, op: BinaryOp, dst: I.Operand, a: I.Operand, b: I.Operand)
    returns (s: State, x: int, y: int)
    requires ShiftOperands(op, dst, a, b) && SlotsApart(es, a, b) && !SameWidth(dst, a)
    ensures OperandHolds(es, a, s, x) && OperandHolds(es, b, s, y) && Apply(op, dst.t, x, y).Some?
    ensures !Computes(es, op, dst, a, b, s, x, y)
  {
    hide OperandHolds, Apply, SlotsApart, InRange, BinCode, SlotOffset;
    OneFits(a.t);
    OneFits(b.t);
    x, y := Chosen(a, 1), Chosen(b, 1);
    s := SomeState(es, a, b, x, y);
    OneShifts(op, dst.t, x, y);
    ShiftFaults(es, op, dst, a, b, s);
  }

  /** The shift an accepted expression becomes. */
  lemma ShiftExpression(p: C.Program, g: Typing.Types, e: C.Expr, hint: I.Operand, n: nat)
    requires e.Binary? && IsShift(e.op) && IsInteger(e.left.t) && IsInteger(e.right.t) && Checks(p, g, e)
    requires LoweringProof.IsHint(hint) &&
             (hint.Variable? ==> SameGroup(e.t, hint.t) && WidthBytes(e.t) <= WidthBytes(hint.t))
    requires (e.left.Literal? ==> InRange(e.left.t, e.left.number)) &&
             (e.right.Literal? ==> InRange(e.right.t, e.right.number))
    requires e.right.Literal? ==> e.right.number < WidthBits(e.left.t)
    ensures var L := LowerExpr(e.left, I.NoOperand, n); var R := LowerExpr(e.right, I.NoOperand, L.temps);
            var dst := Destination(hint, e.t, R.temps);
            LowerExpr(e, hint, n).ops == L.ops + R.ops + [I.Bin(e.op, dst, L.result, R.result)] &&
            ShiftOperands(e.op, dst, L.result, R.result) &&
            (SameWidth(dst, L.result) <==> e.left.Literal? || WidthBytes(e.left.t) == WidthBytes(dst.t))
  {
    hide LowerExpr, InRange, Checks;
    var L := LowerExpr(e.left, I.NoOperand, n);
    LoweringSim.BinaryCode(e, hint, n);
    LoweringProof.ResultOfExpr(e.left, n);
    LoweringProof.ResultOfExpr(e.right, L.temps);
    LiteralResult(e.left, n);
    LiteralResult(e.right, L.temps);
    ShiftTypes(p, g, e);
  }

  lemma ShiftTypes(p: C.Program, g: Typing.Types, e: C.Expr)
    requires e.Binary? && IsShift(e.op) && Checks(p, g, e)
    ensures e.t == e.left.t
  {}

  // ---------------------------------------------------------------- one operand

  function UnaryCode(es: seq<Entry>, op: UnaryOp, dst: I.Operand, a: I.Operand): seq<Instr>
    requires !dst.NoOperand?
  {
    if op.Negate? then NegCode(es, dst, a) else NotCode(es, op, dst, a)
  }

  ghost predicate ComputesUnary(es: seq<Entry>, op: UnaryOp, dst: I.Operand, a: I.Operand, s: State, x: int)
    requires I.IsPlace(dst)
  {
    exists s' :: Stores(UnaryCode(es, op, dst, a), s, s', SlotOffset(es, dst), WidthBytes(dst.t),
                        Encode(dst.t, ApplyUnary(op, dst.t, x)))
  }

  lemma UnaryComputes(es: seq<Entry>, op: UnaryOp, dst: I.Operand, a: I.Operand, s: State, x: int)
    requires I.IsPlace(dst) && IsInteger(dst.t) && UnaryType(op, dst.t) && Narrow(dst.t, a) && SameWidth(dst, a)
    requires OperandHolds(es, a, s, x)
    ensures ComputesUnary(es, op, dst, a, s, x)
  {
    hide NegCode, NotCode, Stores, InRange, Encode, SlotOffset, ReadArg, Operand, ApplyUnary, Convert;
    var a' := Retyped(dst.t, a);
    RetypedHolds(es, dst.t, a, s, x);
    RetypedArg(es, dst.t, a, SizeOf(dst));
    SizeOfScalar(dst.t);
    SameUnary(es, op, dst, a);
    var s' := UnaryStores(es, op, dst, a', dst.t, s, x);
  }

  lemma SameUnary(es: seq<Entry>, op: UnaryOp, dst: I.Operand, a: I.Operand)
    requires I.IsPlace(dst) && !a.NoOperand?
    ensures UnaryCode(es, op, dst, a) == UnaryCode(es, op, dst, Retyped(dst.t, a))
  {
    hide Operand;
    RetypedArg(es, dst.t, a, SizeOf(dst));
  }

  lemma UnaryFaults(es: seq<Entry>, op: UnaryOp, dst: I.Operand, a: I.Operand, s: State)
    requires I.IsPlace(dst) && IsInteger(dst.t) && Narrow(dst.t, a) && !SameWidth(dst, a)
    ensures ExecBlock(UnaryCode(es, op, dst, a), s).None?
  {
    hide Exec, InRange;
    SizeOfScalar(dst.t);
    SizeOfScalar(a.t);
    OtherBytes(dst, a);
    var size := SizeOf(dst);
    SlotArg(es, dst);
    SlotArg(es, a);
    MovFaults(es, a, size, s);
    var load := Mov(Acc(size), Operand(es, a));
    var rest := [if op.Negate? then Neg(Acc(size)) else NotOn(op, Acc(size)), Mov(Operand(es, dst), Acc(size))];
    assert UnaryCode(es, op, dst, a) == [load] + rest;
    FirstFaults(load, rest, s);
  }

  /** `-` and `~`, likewise. */
  lemma UnaryWidths(es: seq<Entry>, op: UnaryOp, dst: I.Operand, a: I.Operand)
    requires I.IsPlace(dst) && IsInteger(dst.t) && UnaryType(op, dst.t) && Narrow(dst.t, a) && SlotsApart(es, a, a)
    ensures (forall s: State, x: int :: OperandHolds(es, a, s, x) ==> ComputesUnary(es, op, dst, a, s, x)) <==>
            SameWidth(dst, a)
  {
    hide OperandHolds, ApplyUnary, SlotsApart, InRange, UnaryCode, SlotOffset;
    if SameWidth(dst, a) {
      forall s: State, x: int | OperandHolds(es, a, s, x) ensures ComputesUnary(es, op, dst, a, s, x) {
        UnaryComputes(es, op, dst, a, s, x);
      }
    } else {
      OneFits(a.t);
      var x := Chosen(a, 1);
      var s := SomeState(es, a, a, x, x);
      UnaryFaults(es, op, dst, a, s);
    }
  }
}
