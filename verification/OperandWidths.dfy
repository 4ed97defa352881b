/** Operands of different widths. The analyser accepts `i64 + i32` and gives the operation the wider type,
  * without a cast of the narrower operand; a destination hint can be wider than both. Exactly when the
  * instructions then compute the operation. */
module OperandWidths {
  import opened Values
  import opened Arith
  import opened Memory
  import opened Machine
  import opened MachineArith
  import opened MachineRun
  import opened Frame
  import opened Codegen
  import opened CodegenOps
  import opened CodegenSim
  import opened Slots
  import opened NarrowDivision
  import opened Lowering
  import opened Widths
  import LoweringProof
  import LoweringSim
  import Typing
  import I = Ir
  import C = Checked

  // ---------------------------------------------------------------- the condition

  /** The operators whose operands the analyser promotes without casting them. */
  predicate IsPromoting(op: BinaryOp) {
    !IsRelational(op) && !IsLogical(op) && !IsShift(op)
  }

  predicate SameWidth(dst: I.Operand, o: I.Operand)
    requires !dst.NoOperand? && !o.NoOperand?
  {
    o.Immediate? || SizeOf(o) == SizeOf(dst)
  }

  /** Operands in slots are as wide as the destination; a narrower divisor does no harm to a literal
    * dividend that is small enough. */
  predicate Suits(op: BinaryOp, dst: I.Operand, a: I.Operand, b: I.Operand)
    requires !dst.NoOperand? && !a.NoOperand? && !b.NoOperand?
  {
    SameWidth(dst, a) &&
    (SameWidth(dst, b) || (op.Div? && a.Immediate? && SmallDividend(IsSigned(dst.t), SizeOf(b), a.number)))
  }

  /** An operand of the operation: a place, or a literal that denotes itself, no wider than `t`. */
  predicate Narrow(t: ValueType, o: I.Operand) {
    !o.NoOperand? && IsInteger(o.t) && SameGroup(o.t, t) && WidthBytes(o.t) <= WidthBytes(t) &&
    (o.Immediate? ==> InRange(o.t, o.number))
  }

  predicate Operands(op: BinaryOp, dst: I.Operand, a: I.Operand, b: I.Operand) {
    IsPromoting(op) && I.IsPlace(dst) && IsInteger(dst.t) && Narrow(dst.t, a) && Narrow(dst.t, b) &&
    (op.Div? && b.Immediate? ==> b.number > 0)
  }

  /** The operands' slots are in a frame, one and the same or apart. */
  predicate SlotsApart(es: seq<Entry>, a: I.Operand, b: I.Operand) {
    (I.IsPlace(a) ==> -0x8000_0000 <= SlotOffset(es, a) < 0) &&
      (I.IsPlace(b) ==> -0x8000_0000 <= SlotOffset(es, b) < 0) &&
    (I.IsPlace(a) && I.IsPlace(b) ==>
       (SlotOffset(es, a) == SlotOffset(es, b) && a.t == b.t) ||
       Apart(SlotOffset(es, a), WidthBytes(a.t), SlotOffset(es, b), WidthBytes(b.t)))
  }

  /** The instructions store the value of the operation. */
  ghost predicate Computes(es: seq<Entry>, op: BinaryOp, dst: I.Operand, a: I.Operand, b: I.Operand, s: State, x: int,
      y: int)
    requires I.IsPlace(dst) && !a.NoOperand? && !b.NoOperand?
  {
    Apply(op, dst.t, x, y).Some? &&
    exists s' :: Stores(BinCode(es, op, dst, a, b), s, s', SlotOffset(es, dst), WidthBytes(dst.t),
                        Encode(dst.t, Apply(op, dst.t, x, y).value))
  }

  // ---------------------------------------------------------------- operands that suit

  /** A literal taken at the width of the destination. */
  function Retyped(t: ValueType, o: I.Operand): I.Operand {
    if o.Immediate? then I.Immediate(o.number, t) else o
  }

  lemma RetypedArg(es: seq<Entry>, t: ValueType, o: I.Operand, size: nat)
    requires !o.NoOperand?
    ensures var o' := Retyped(t, o);
            !o'.NoOperand? && Operand(es, o') == Operand(es, o) && Loaded(es, o', size) == Loaded(es, o, size) &&
            LoadLarge(es, o', size) == LoadLarge(es, o, size) && InMemory(o') == InMemory(o) &&
              o'.Immediate? == o.Immediate?
  {}

  lemma RetypedCode(es: seq<Entry>, op: BinaryOp, dst: I.Operand, a: I.Operand, b: I.Operand)
    requires Operands(op, dst, a, b)
    ensures BinCode(es, op, dst, a, b) == BinCode(es, op, dst, Retyped(dst.t, a), Retyped(dst.t, b))
  {
    hide Operand, Loaded, LoadLarge, InMemory, Retyped, DividendExtension, InRange, Acc, Counter;
    RetypedArg(es, dst.t, a, SizeOf(dst));
    RetypedArg(es, dst.t, b, SizeOf(dst));
  }

  lemma WiderRange(from: ValueType, to: ValueType, v: int)
    requires IsInteger(from) && SameGroup(from, to) && WidthBytes(from) <= WidthBytes(to) && InRange(from, v)
    ensures InRange(to, v) && (WidthBytes(from) == WidthBytes(to) ==> from == to)
  {}

  lemma RetypedHolds(es: seq<Entry>, t: ValueType, o: I.Operand, s: State, v: int)
    requires IsInteger(t) && Narrow(t, o) && OperandHolds(es, o, s, v) &&
             (o.Immediate? || WidthBytes(o.t) == WidthBytes(t))
    ensures OperandHolds(es, Retyped(t, o), s, v) && Retyped(t, o).t == t && InRange(t, v)
  {
    hide InRange;
    WiderRange(o.t, t, v);
    SizeOfScalar(t);
    if o.Immediate? {
      WrapOfInRange(o.t, o.number);
      LiteralAt(es, t, o.number, s);
    }
  }

  lemma LiteralAt(es: seq<Entry>, t: ValueType, n: nat, s: State)
    requires IsInteger(t) && InRange(t, n)
    ensures OperandHolds(es, I.Immediate(n, t), s, n)
  {
    SizeOfScalar(t);
    WrapOfInRange(t, n);
  }

  lemma SuitedComputes(es: seq<Entry>, op: BinaryOp, dst: I.Operand, a: I.Operand, b: I.Operand, s: State, x: int,
      y: int)
    requires Operands(op, dst, a, b) && SameWidth(dst, a) && SameWidth(dst, b)
    requires OperandHolds(es, a, s, x) && OperandHolds(es, b, s, y) && Apply(op, dst.t, x, y).Some?
    ensures Computes(es, op, dst, a, b, s, x, y)
  {
    hide OperandHolds, Apply, BinCode, Stores, InRange, Encode, SlotOffset;
    var a', b' := Retyped(dst.t, a), Retyped(dst.t, b);
    RetypedHolds(es, dst.t, a, s, x);
    RetypedHolds(es, dst.t, b, s, y);
    RetypedCode(es, op, dst, a, b);
    SizeOfScalar(dst.t);
    OneResult(op, dst.t);
    var s' := BinStores(es, op, dst, a', b', s, x, y);
  }

  lemma OneResult(op: BinaryOp, t: ValueType)
    requires IsPromoting(op) && IsInteger(t)
    ensures OperandTypes(op, t, t) && ResultType(op, t) == t
  {}

  /** A small dividend and a narrower divisor. */
  lemma SmallComputes(es: seq<Entry>, dst: I.Operand, a: I.Operand, b: I.Operand, s: State, x: int, y: int)
    requires Operands(Div, dst, a, b) && SameWidth(dst, a) && !SameWidth(dst, b)
    requires SmallDividend(IsSigned(dst.t), SizeOf(b), x)
    requires OperandHolds(es, a, s, x) && OperandHolds(es, b, s, y) && Apply(Div, dst.t, x, y).Some?
    ensures Computes(es, Div, dst, a, b, s, x, y)
  {
    hide DivCode, Stores, InRange, SlotOffset, ReadArg, Operand, Stored, Wrap, OperandHolds, Apply, Encode, Modulus,
         Quotient, Retyped;
    OtherBytes(dst, b);
    SizeOfScalar(dst.t);
    SizeOfScalar(b.t);
    RetypedHolds(es, dst.t, a, s, x);
    SmallNotNegative(dst.t, SizeOf(b), x);
    ReadsDividend(es, dst.t, a, s, x);
    EncodeSmall(dst.t, x);
    NarrowCode(es, dst, a, b, s, x);
    HeldPattern(es, b, s, y);
    DivisorRange(dst.t, b.t, x, y);
    SmallIsRight(IsSigned(dst.t), SizeOf(b), SizeOf(dst), x, y);
    QuotientIs(dst.t, x, y);
    var w := Encode(dst.t, Apply(Div, dst.t, x, y).value);
    assert w == Quotient(SizeOf(dst), x, y);
    assert Stored(IsSigned(dst.t), SizeOf(b), false, x, ReadArg(s, Operand(es, b), SizeOf(b))) == Some(w);
    assert exists s' :: Stores(DivCode(es, dst, a, b), s, s', SlotOffset(es, dst), WidthBytes(dst.t), w);
    assert BinCode(es, Div, dst, a, b) == DivCode(es, dst, a, b);
  }

  lemma SmallNotNegative(t: ValueType, size: nat, x: int)
    requires IsInteger(t) && InRange(t, x) && SmallDividend(IsSigned(t), size, x)
    ensures x >= 0
  {}

  lemma LiteralValue(es: seq<Entry>, a: I.Operand, s: State, x: int)
    requires a.Immediate? && IsInteger(a.t) && InRange(a.t, a.number) && OperandHolds(es, a, s, x)
    ensures x == a.number
  {
    hide InRange, Wrap, ReadArg;
    WrapOfInRange(a.t, a.number);
  }

  lemma DivisorRange(t: ValueType, u: ValueType, x: int, y: int)
    requires IsInteger(t) && IsInteger(u) && SameGroup(u, t) && InRange(u, y) && Apply(Div, t, x, y).Some?
    ensures y != 0 && (IsSigned(t) || y > 0)
    ensures AtWidth(IsSigned(t), WidthBytes(u), y)
  {}

  lemma ReadsDividend(es: seq<Entry>, t: ValueType, a: I.Operand, s: State, n: nat)
    requires IsInteger(t) && !a.NoOperand? && OperandHolds(es, Retyped(t, a), s, n) && Retyped(t, a).t == t
    ensures ReadArg(s, Operand(es, a), WidthBytes(t)) == n && InRange(t, n)
  {
    hide InRange, ReadArg;
    EncodeSmall(t, n);
  }

  // ---------------------------------------------------------------- operands that do not

  /** Nothing is computed when an operand of another size meets `mov`, `imul` or an ALU instruction. */
  lemma MismatchFaults(es: seq<Entry>, op: BinaryOp, dst: I.Operand, a: I.Operand, b: I.Operand, s: State)
    requires Operands(op, dst, a, b)
    requires !SameWidth(dst, a) || (!op.Div? && !SameWidth(dst, b))
    ensures ExecBlock(BinCode(es, op, dst, a, b), s).None?
  {
    hide Exec, Operand, LoadLarge, DividendExtension, InRange;
    SizeOfScalar(dst.t);
    SizeOfScalar(a.t);
    SizeOfScalar(b.t);
    var size := SizeOf(dst);
    var load := Mov(R(RAX, size), Operand(es, a));
    if !SameWidth(dst, a) {
      OtherBytes(dst, a);
    } else {
      OtherBytes(dst, b);
    }
    if op.Div? {
      MovFaults(es, a, size, s);
      FirstFaults(load, DividendExtension(size, IsSigned(dst.t)) +
        (if b.Immediate? then [Mov(Counter(size), Operand(es, b)), DivA(IsSigned(dst.t), Counter(size))]
         else [DivA(IsSigned(dst.t), Operand(es, b))]) +
        [Mov(Operand(es, dst), Acc(size))], s);
      DivFirst(es, dst, a, b);
    } else {
      LoadedOrNot(es, b, size, s);
      var s1 := ExecBlock(LoadLarge(es, b, size), s).value;
      var middle := if op.Mul? then Imul(R(RAX, size), Loaded(es, b, size))
        else Alu(AluOf(op), R(RAX, size), Loaded(es, b, size));
      MiddleCode(es, op, dst, a, b);
      TwoFaults(es, op, dst, a, b, size, s1, middle);
      ExecBlockConcat(LoadLarge(es, b, size), [load, middle, Mov(Operand(es, dst), R(RAX, size))], s);
    }
  }

  /** A different width is a different number of bytes, and no destination of one byte has it. */
  lemma OtherBytes(dst: I.Operand, o: I.Operand)
    requires I.IsPlace(dst) && IsInteger(dst.t) && Narrow(dst.t, o) && !SameWidth(dst, o)
    ensures I.IsPlace(o) && SizeOf(o) < SizeOf(dst) && SizeOf(dst) > 1
  {}

  function AluOf(op: BinaryOp): AluOp {
    match op
    case Add => ADD
    case Sub => SUB
    case BitAnd => AND
    case BitOr => OR
    case _ => XOR
  }

  lemma MovFaults(es: seq<Entry>, o: I.Operand, size: nat, s: State)
    requires I.IsPlace(o) && IsSize(size) && IsSize(SizeOf(o)) && SizeOf(o) != size
    ensures Exec(Mov(R(RAX, size), Operand(es, o)), s).None?
  {
    SlotArg(es, o);
  }

  lemma FirstFaults(i: Instr, rest: seq<Instr>, s: State)
    requires Exec(i, s).None?
    ensures ExecBlock([i] + rest, s).None?
  {
    hide Exec;
  }

  lemma DivFirst(es: seq<Entry>, dst: I.Operand, a: I.Operand, b: I.Operand)
    requires !dst.NoOperand? && IsSize(SizeOf(dst))
    ensures var size := SizeOf(dst);
            DivCode(es, dst, a, b) == [Mov(R(RAX, size), Operand(es, a))] + (DividendExtension(size, IsSigned(dst.t)) +
              (if b.Immediate? then [Mov(Counter(size), Operand(es, b)), DivA(IsSigned(dst.t), Counter(size))]
               else [DivA(IsSigned(dst.t), Operand(es, b))]) +
              [Mov(Operand(es, dst), Acc(size))])
  {
    hide Operand, DividendExtension;
  }

  lemma LoadedOrNot(es: seq<Entry>, b: I.Operand, size: nat, s: State)
    requires !b.NoOperand? && IsInteger(b.t) && IsSize(size)
    ensures ExecBlock(LoadLarge(es, b, size), s).Some?
  {
    hide WriteBack;
    if IsLarge(b, size) {
      MovRegister(s, RCX, 8, Operand(es, b));
      Exec1(Mov(R(RCX, 8), Operand(es, b)), s);
    }
  }

  /** With an operand of another size the operation always goes through `rax`. */
  lemma MiddleCode(es: seq<Entry>, op: BinaryOp, dst: I.Operand, a: I.Operand, b: I.Operand)
    requires Operands(op, dst, a, b) && !op.Div? && (!SameWidth(dst, a) || !SameWidth(dst, b)) && IsSize(SizeOf(dst))
    requires IsSize(SizeOf(a)) && IsSize(SizeOf(b)) && SizeOf(dst) > 1
    ensures var size := SizeOf(dst);
            var middle := if op.Mul? then Imul(R(RAX, size), Loaded(es, b, size))
              else Alu(AluOf(op), R(RAX, size), Loaded(es, b, size));
            BinCode(es, op, dst, a, b) ==
            LoadLarge(es, b, size) + [Mov(R(RAX, size), Operand(es, a)), middle, Mov(Operand(es, dst), R(RAX, size))]
  {
    hide InRange, LoadLarge, Loaded;
    SlotArg(es, dst);
    if I.IsPlace(a) {
      SlotArg(es, a);
    }
  }

  lemma TwoFaults(es: seq<Entry>, op: BinaryOp, dst: I.Operand, a: I.Operand, b: I.Operand, size: nat, s: State,
      middle: Instr)
    requires Operands(op, dst, a, b) && !op.Div? && size == SizeOf(dst) && IsSize(size) && IsSize(SizeOf(a)) &&
             IsSize(SizeOf(b))
    requires (I.IsPlace(a) && SizeOf(a) != size) || (I.IsPlace(b) && SizeOf(b) != size)
    requires middle == if op.Mul? then Imul(R(RAX, size), Loaded(es, b, size))
             else Alu(AluOf(op), R(RAX, size), Loaded(es, b, size))
    ensures ExecBlock([Mov(R(RAX, size), Operand(es, a)), middle, Mov(Operand(es, dst), R(RAX, size))], s).None?
  {
    hide Operand, InRange, WriteBack, ReadArg, AluValue;
    var load, put := Mov(R(RAX, size), Operand(es, a)), Mov(Operand(es, dst), R(RAX, size));
    assert [load, middle, put][1..] == [middle, put];
    if I.IsPlace(a) && SizeOf(a) != size {
      MovFaults(es, a, size, s);
    } else {
      SlotArg(es, b);
      assert Loaded(es, b, size) == Operand(es, b);
    }
  }

  // ---------------------------------------------------------------- states that show it

  /** The value an operand has in the state: a literal's own, or one to choose. */
  function Chosen(o: I.Operand, v: int): int
    requires !o.NoOperand?
  {
    if o.Immediate? then o.number else v
  }

  lemma SomeState(es: seq<Entry>, a: I.Operand, b: I.Operand, x: int, y: int) returns (s: State)
    requires !a.NoOperand? && !b.NoOperand? && IsInteger(a.t) && IsInteger(b.t) && SlotsApart(es, a, b)
    requires (a.Immediate? ==> InRange(a.t, a.number)) && (b.Immediate? ==> InRange(b.t, b.number))
    requires InRange(a.t, x) && InRange(b.t, y) && x == Chosen(a, x) && y == Chosen(b, y)
    requires I.IsPlace(a) && I.IsPlace(b) && SlotOffset(es, a) == SlotOffset(es, b) && a.t == b.t ==> x == y
    ensures OperandHolds(es, a, s, x) && OperandHolds(es, b, s, y)
  {
    hide InRange, SlotOffset, Load, Memory.Store, Operand, OperandHolds;
    var bp: Word := 0x8000_0000;
    var m0: Mem := map[];
    var m1 := if I.IsPlace(a) then Memory.Store(m0, bp + SlotOffset(es, a), WidthBytes(a.t), Encode(a.t, x)) else m0;
    var m2 := if I.IsPlace(b) then Memory.Store(m1, bp + SlotOffset(es, b), WidthBytes(b.t), Encode(b.t, y)) else m1;
    s := State(0, 0, 0, 0, 0, 0, 0, 0x7000_0000, bp, NoFlags, m2);
    SizeOfScalar(a.t);
    SizeOfScalar(b.t);
    if I.IsPlace(a) {
      ReadBackSlot(m0, bp + SlotOffset(es, a), a.t, x);
    }
    if I.IsPlace(b) {
      ReadBackSlot(m1, bp + SlotOffset(es, b), b.t, y);
    }
    if I.IsPlace(a) && I.IsPlace(b) && !(SlotOffset(es, a) == SlotOffset(es, b) && a.t == b.t) {
      LoadElsewhere(m1, bp + SlotOffset(es, b), WidthBytes(b.t), Encode(b.t, y), bp + SlotOffset(es, a),
                    WidthBytes(a.t));
    }
    HeldBy(es, a, s, x);
    HeldBy(es, b, s, y);
  }

  lemma HeldBy(es: seq<Entry>, o: I.Operand, s: State, v: int)
    requires !o.NoOperand? && IsInteger(o.t) && InRange(o.t, v)
    requires if o.Immediate? then v == o.number
             else Load(s.mem, s.rbp + SlotOffset(es, o), WidthBytes(o.t)) == Encode(o.t, v)
    ensures OperandHolds(es, o, s, v)
  {
    hide InRange, Load, SlotOffset;
    SizeOfScalar(o.t);
    if o.Immediate? {
      LiteralAt(es, o.t, o.number, s);
    } else {
      SlotArg(es, o);
    }
  }

  lemma OneFits(t: ValueType)
    requires IsInteger(t)
    ensures InRange(t, 1)
  {}

  /** With small values every promoting operator has a value. */
  lemma HasValue(op: BinaryOp, t: ValueType, x: int, y: int)
    requires IsPromoting(op) && IsInteger(t) && InRange(t, x) && x >= 0 && (op.Div? ==> y > 0)
    ensures Apply(op, t, x, y).Some?
  {
    if op.Div? {
      DividesDown(x, y);
    }
  }

  lemma Unsuited(es: seq<Entry>, op: BinaryOp, dst: I.Operand, a: I.Operand, b: I.Operand)
    returns (s: State, x: int, y: int)
    requires Operands(op, dst, a, b) && SlotsApart(es, a, b) && !Suits(op, dst, a, b)
    ensures OperandHolds(es, a, s, x) && OperandHolds(es, b, s, y) && Apply(op, dst.t, x, y).Some?
    ensures !Computes(es, op, dst, a, b, s, x, y)
  {
    hide OperandHolds, Apply, BinCode, InRange, SlotOffset, SmallDividend;
    OneFits(a.t);
    OneFits(b.t);
    if !SameWidth(dst, a) || !op.Div? {
      x, y := Chosen(a, 1), Chosen(b, 1);
      s := SomeState(es, a, b, x, y);
      WiderRange(a.t, dst.t, x);
      HasValue(op, dst.t, x, y);
      MismatchFaults(es, op, dst, a, b, s);
    } else {
      s, x, y := UnsuitedDivision(es, dst, a, b);
    }
  }

  /** The dividend that a narrower divisor breaks. */
  function BrokenDividend(t: ValueType, size: nat): nat {
    if IsSigned(t) || size == 1 then 1 else Modulus(size)
  }

  lemma BrokenFits(t: ValueType, u: ValueType)
    requires IsInteger(t) && IsInteger(u) && SameGroup(u, t) && WidthBytes(u) < WidthBytes(t)
    ensures InRange(t, BrokenDividend(t, WidthBytes(u))) &&
            !SmallDividend(IsSigned(t), WidthBytes(u), BrokenDividend(t, WidthBytes(u)))
  {}

  lemma UnsuitedDivision(es: seq<Entry>, dst: I.Operand, a: I.Operand, b: I.Operand) returns (s: State, x: int, y: int)
    requires Operands(Div, dst, a, b) && SlotsApart(es, a, b) && !Suits(Div, dst, a, b) && SameWidth(dst, a)
    ensures OperandHolds(es, a, s, x) && OperandHolds(es, b, s, y) && Apply(Div, dst.t, x, y).Some?
    ensures !Computes(es, Div, dst, a, b, s, x, y)
  {
    hide OperandHolds, InRange, SlotOffset, SmallDividend, BrokenDividend, Apply, Computes;
    OtherBytes(dst, b);
    BrokenFits(dst.t, b.t);
    x := if a.Immediate? then a.number else BrokenDividend(dst.t, SizeOf(b));
    if a.Immediate? {
      WiderRange(a.t, dst.t, x);
    }
    s, y := BrokenDivision(es, dst, a, b, x);
  }

  /** Every dividend that is not small is divided wrong by some narrower divisor. */
  lemma BrokenDivision(es: seq<Entry>, dst: I.Operand, a: I.Operand, b: I.Operand, x: int) returns (s: State, y: int)
    requires Operands(Div, dst, a, b) && SlotsApart(es, a, b) && SameWidth(dst, a) && !SameWidth(dst, b)
    requires InRange(dst.t, x) && (a.Immediate? ==> x == a.number) && !SmallDividend(IsSigned(dst.t), SizeOf(b), x)
    ensures OperandHolds(es, a, s, x) && OperandHolds(es, b, s, y) && Apply(Div, dst.t, x, y).Some?
    ensures !Computes(es, Div, dst, a, b, s, x, y)
  {
    hide OperandHolds, InRange, SlotOffset, SmallDividend, Stored, Breaker, Quotient, Encode, Apply, Computes, AtWidth;
    OtherBytes(dst, b);
    SizeOfScalar(dst.t);
    SizeOfScalar(b.t);
    RangeAtWidth(dst.t, x);
    LargeIsWrong(IsSigned(dst.t), SizeOf(b), SizeOf(dst), x);
    y := Breaker(IsSigned(dst.t), SizeOf(b), SizeOf(dst), x);
    BackInRange(b.t, dst.t, y);
    SameRange(dst.t, a, x);
    s := SomeState(es, a, b, x, y);
    QuotientFits(dst.t, x, y);
    WrongQuotient(es, dst, a, b, s, x, y);
  }

  /** One dividend and every narrower divisor: the code divides right, whatever the divisor is, if and only if
    * the dividend is small. */
  lemma NarrowDivisor(es: seq<Entry>, dst: I.Operand, a: I.Operand, b: I.Operand, x: int)
    requires Operands(Div, dst, a, b) && SlotsApart(es, a, b) && SameWidth(dst, a) && !SameWidth(dst, b)
    requires InRange(dst.t, x) && (a.Immediate? ==> x == a.number)
    ensures (forall s: State, y: int ::
              OperandHolds(es, a, s, x) && OperandHolds(es, b, s, y) && Apply(Div, dst.t, x, y).Some? ==>
                Computes(es, Div, dst, a, b, s, x, y)) <==> SmallDividend(IsSigned(dst.t), SizeOf(b), x)
  {
    hide OperandHolds, Apply, Computes, SlotsApart, SmallDividend, InRange;
    if SmallDividend(IsSigned(dst.t), SizeOf(b), x) {
      forall s: State, y: int | OperandHolds(es, a, s, x) && OperandHolds(es, b, s, y) && Apply(Div, dst.t, x, y).Some?
        ensures Computes(es, Div, dst, a, b, s, x, y)
      {
        SmallComputes(es, dst, a, b, s, x, y);
      }
    } else {
      var s, y := BrokenDivision(es, dst, a, b, x);
    }
  }

  lemma SameRange(t: ValueType, a: I.Operand, n: int)
    requires IsInteger(t) && Narrow(t, a) && InRange(t, n) && (a.Immediate? ==> n == a.number) &&
             (I.IsPlace(a) ==> WidthBytes(a.t) == WidthBytes(t))
    ensures InRange(a.t, n)
  {}

  lemma WrongQuotient(es: seq<Entry>, dst: I.Operand, a: I.Operand, b: I.Operand, s: State, x: int, y: int)
    requires Operands(Div, dst, a, b) && SameWidth(dst, a) && I.IsPlace(b) && SizeOf(b) < SizeOf(dst)
    requires OperandHolds(es, a, s, x) && OperandHolds(es, b, s, y) && InRange(dst.t, x) &&
             Apply(Div, dst.t, x, y).Some? && y != 0
    requires Encode(dst.t, Apply(Div, dst.t, x, y).value) == Quotient(SizeOf(dst), x, y)
    requires Stored(IsSigned(dst.t), SizeOf(b), x < 0, x % Modulus(SizeOf(dst)), y % Modulus(SizeOf(b))) !=
             Some(Quotient(SizeOf(dst), x, y))
    ensures !Computes(es, Div, dst, a, b, s, x, y)
  {
    hide OperandHolds, InRange, SlotOffset, Stored, ReadArg, Operand, DivCode, ExecBlock, Memory.Store, Quotient,
         Apply, Stores;
    SizeOfScalar(dst.t);
    SizeOfScalar(b.t);
    RetypedHolds(es, dst.t, a, s, x);
    ReadsPattern(es, dst.t, a, s, x);
    NarrowCode(es, dst, a, b, s, x);
    HeldPattern(es, b, s, y);
    var n, w := Encode(dst.t, x), Encode(dst.t, Apply(Div, dst.t, x, y).value);
    EncodeBound(dst.t, x);
    StoredBound(IsSigned(dst.t), SizeOf(b), SizeOf(dst), x < 0, n, y % Modulus(SizeOf(b)));
    EncodeBound(dst.t, Apply(Div, dst.t, x, y).value);
    forall s': State ensures !Stores(DivCode(es, dst, a, b), s, s', SlotOffset(es, dst), WidthBytes(dst.t), w) {
      TwoPatterns(es, dst, a, b, s, s', Stored(IsSigned(dst.t), SizeOf(b), x < 0, n, y % Modulus(SizeOf(b))), w);
    }
  }

  lemma ReadsPattern(es: seq<Entry>, t: ValueType, a: I.Operand, s: State, x: int)
    requires IsInteger(t) && !a.NoOperand? && OperandHolds(es, Retyped(t, a), s, x) && Retyped(t, a).t == t
    ensures ReadArg(s, Operand(es, a), WidthBytes(t)) == Encode(t, x)
  {
    hide InRange, ReadArg, Encode;
  }

  lemma EncodeBound(t: ValueType, v: int)
    ensures 0 <= Encode(t, v) < Modulus(WidthBytes(t))
  {}

  lemma HeldPattern(es: seq<Entry>, o: I.Operand, s: State, v: int)
    requires OperandHolds(es, o, s, v) && IsInteger(o.t)
    ensures ReadArg(s, Operand(es, o), SizeOf(o)) == v % Modulus(SizeOf(o)) && InRange(o.t, v) &&
            OperandSize(o, SizeOf(o))
  {
    hide ReadArg, Operand, InRange;
  }

  lemma RangeAtWidth(t: ValueType, x: int)
    requires IsInteger(t)
    ensures InRange(t, x) <==> AtWidth(IsSigned(t), WidthBytes(t), x)
  {}

  lemma BackInRange(t: ValueType, wide: ValueType, y: int)
    requires IsInteger(t) && SameGroup(t, wide) && AtWidth(IsSigned(wide), WidthBytes(t), y)
    ensures InRange(t, y)
  {}

  lemma QuotientFits(t: ValueType, x: int, y: int)
    requires IsInteger(t) && y != 0 && AtWidth(IsSigned(t), WidthBytes(t), TruncDiv(x, y))
    ensures Apply(Div, t, x, y).Some? && Encode(t, Apply(Div, t, x, y).value) == Quotient(WidthBytes(t), x, y)
  {
    hide TruncDiv;
    RangeAtWidth(t, TruncDiv(x, y));
  }

  lemma QuotientIs(t: ValueType, n: nat, y: int)
    requires IsInteger(t) && InRange(t, n) && y != 0 && (IsSigned(t) || y > 0)
    ensures Apply(Div, t, n, y).Some? && Encode(t, Apply(Div, t, n, y).value) == Quotient(WidthBytes(t), n, y)
  {
    AbsQuotient(n, y);
  }

  lemma AbsQuotient(n: int, y: int)
    requires y != 0 && n >= 0
    ensures -n <= TruncDiv(n, y) <= n && (y > 0 ==> TruncDiv(n, y) >= 0)
  {
    DividesDown(n, Abs(y));
  }

  /** One run stores one pattern. */
  lemma TwoPatterns(es: seq<Entry>, dst: I.Operand, a: I.Operand, b: I.Operand, s: State, s': State, r: Option<int>,
      w: int)
    requires !dst.NoOperand? && I.IsPlace(dst) && IsInteger(dst.t) && r != Some(w)
    requires 0 <= w < Modulus(WidthBytes(dst.t)) && (r.Some? ==> 0 <= r.value < Modulus(WidthBytes(dst.t)))
    requires if r.None? then ExecBlock(DivCode(es, dst, a, b), s).None?
             else exists s' :: Stores(DivCode(es, dst, a, b), s, s', SlotOffset(es, dst), SizeOf(dst), r.value)
    ensures !Stores(DivCode(es, dst, a, b), s, s', SlotOffset(es, dst), WidthBytes(dst.t), w)
  {
    hide DivCode, ExecBlock, SlotOffset, Memory.Store, Load;
    if r.Some? && Stores(DivCode(es, dst, a, b), s, s', SlotOffset(es, dst), WidthBytes(dst.t), w) {
      SizeOfScalar(dst.t);
      var size, at := WidthBytes(dst.t), s.rbp + SlotOffset(es, dst);
      LoadStored(s.mem, at, size, w, size);
      LoadStored(s.mem, at, size, r.value, size);
      Pow256Sizes(size);
      ModSmall(w, Modulus(size));
      ModSmall(r.value, Modulus(size));
    }
  }

  // ---------------------------------------------------------------- the exact condition

  /** For every operator whose operands are promoted and every kind of operand: the instructions compute
    * the operation for all values of the operands, from all states, if and only if the widths suit. */
  lemma MixedWidths(es: seq<Entry>, op: BinaryOp, dst: I.Operand, a: I.Operand, b: I.Operand)
    requires Operands(op, dst, a, b) && SlotsApart(es, a, b)
    ensures (forall s: State, x: int, y: int ::
              OperandHolds(es, a, s, x) && OperandHolds(es, b, s, y) && Apply(op, dst.t, x, y).Some? ==>
                Computes(es, op, dst, a, b, s, x, y)) <==> Suits(op, dst, a, b)
  {
    hide OperandHolds, Apply, Computes, SlotsApart, SmallDividend, InRange;
    if Suits(op, dst, a, b) {
      forall s: State, x: int, y: int | OperandHolds(es, a, s, x) && OperandHolds(es, b, s, y) &&
        Apply(op, dst.t, x, y).Some?
        ensures Computes(es, op, dst, a, b, s, x, y)
      {
        if SameWidth(dst, b) {
          SuitedComputes(es, op, dst, a, b, s, x, y);
        } else {
          LiteralValue(es, a, s, x);
          SmallComputes(es, dst, a, b, s, x, y);
        }
      }
    } else {
      var s, x, y := Unsuited(es, op, dst, a, b);
    }
  }

  // ---------------------------------------------------------------- in an accepted program

  /** The operation an accepted expression becomes: its operands have the types of the subexpressions, its
    * destination that of the hint or the promoted one. */
  lemma MixedExpression(p: C.Program, g: Typing.Types, e: C.Expr, hint: I.Operand, n: nat)
    requires e.Binary? && IsPromoting(e.op) && Checks(p, g, e)
    requires LoweringProof.IsHint(hint) &&
             (hint.Variable? ==> SameGroup(e.t, hint.t) && WidthBytes(e.t) <= WidthBytes(hint.t))
    requires (e.left.Literal? ==> InRange(e.left.t, e.left.number)) &&
             (e.right.Literal? ==> InRange(e.right.t, e.right.number))
    requires e.op.Div? && e.right.Literal? ==> e.right.number > 0
    ensures var L := LowerExpr(e.left, I.NoOperand, n); var R := LowerExpr(e.right, I.NoOperand, L.temps);
            var dst := Destination(hint, e.t, R.temps);
            LowerExpr(e, hint, n).ops == L.ops + R.ops + [I.Bin(e.op, dst, L.result, R.result)] &&
              Operands(e.op, dst, L.result, R.result) &&
            (L.result.Immediate? <==> e.left.Literal?) && (R.result.Immediate? <==> e.right.Literal?) &&
            (!e.left.Literal? && !e.right.Literal? ==>
               (Suits(e.op, dst, L.result, R.result) <==>
                WidthBytes(e.left.t) == WidthBytes(e.right.t) == WidthBytes(dst.t)))
  {
    hide LowerExpr, InRange, Checks, SmallDividend;
    var L := LowerExpr(e.left, I.NoOperand, n);
    LoweringSim.BinaryCode(e, hint, n);
    LoweringProof.ResultOfExpr(e.left, n);
    LoweringProof.ResultOfExpr(e.right, L.temps);
    LiteralResult(e.left, n);
    LiteralResult(e.right, L.temps);
    PromotedTypes(p, g, e);
  }

  lemma LiteralResult(e: C.Expr, n: nat)
    ensures var o := LowerExpr(e, I.NoOperand, n).result;
            (o.Immediate? <==> e.Literal?) && (e.Literal? ==> o == I.Immediate(e.number, e.t))
  {}

  lemma PromotedTypes(p: C.Program, g: Typing.Types, e: C.Expr)
    requires e.Binary? && IsPromoting(e.op) && Checks(p, g, e)
    ensures SameGroup(e.left.t, e.right.t) && IsInteger(e.left.t) && IsInteger(e.right.t) &&
            e.t == Promote(e.left.t, e.right.t)
    ensures SameGroup(e.left.t, e.t) && SameGroup(e.right.t, e.t) && WidthBytes(e.left.t) <= WidthBytes(e.t) &&
            WidthBytes(e.right.t) <= WidthBytes(e.t)
  {}
}
