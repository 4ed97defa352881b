/** One operation of the intermediate code at a time: its instructions take a frame that holds the
  * store before it to a frame that holds the store after it. */
module CodegenSim {
  import opened Values
  import opened Arith
  import opened Memory
  import opened Machine
  import opened MachineArith
  import opened MachineRun
  import opened Frame
  import opened Codegen
  import opened CodegenOps
  import opened IrTyping
  import opened Slots
  import I = Ir

  /** A running function: its layout and the machine state at its first instruction. */
  datatype Activation = Activation(es: seq<Entry>, g: Places, frame: nat, entry: State)

  ghost predicate SameAbove(m: Mem, m': Mem, from: int) {
    forall b :: b >= from ==> ByteAt(m', b) == ByteAt(m, b)
  }

  /** Between operations: the frame holds the store, the caller's `rbp` is saved at `[rbp]`, and
    * everything from the return address up is as it was on entry. */
  ghost predicate Framed(a: Activation, st: I.Store, s: State) {
    LayoutOk(a.es, a.g, a.frame) &&
    s.rbp == a.entry.rsp - 8 && s.rsp == s.rbp - a.frame &&
    InFrame(a.es, a.g, st, s.mem, s.rbp) &&
    Load(s.mem, s.rbp, 8) == a.entry.rbp && SameAbove(a.entry.mem, s.mem, a.entry.rsp)
  }

  lemma FramedSame(a: Activation, st: I.Store, s: State, s': State)
    requires Framed(a, st, s) && SameMemory(s, s')
    ensures Framed(a, st, s')
  {
    hide LayoutOk, InFrame, SameAbove;
  }

  lemma FramedStored(a: Activation, st: I.Store, s: State, code: seq<Instr>, s': State, dst: I.Operand, v: int)
    requires Framed(a, st, s) && I.IsPlace(dst) && I.PlaceOf(dst) in a.g && a.g[I.PlaceOf(dst)] == dst.t &&
             InRange(dst.t, v)
    requires Stores(code, s, s', SlotOffset(a.es, dst), WidthBytes(dst.t), Encode(dst.t, v))
    ensures Framed(a, I.Write(dst, v, st), s')
  {
    hide InFrame, InRange, Encode, ExecBlock, Load, Memory.Store, LayoutOk, PlaceSlot, SlotOffset;
    var q := I.PlaceOf(dst);
    SlotOfOperand(a.es, dst);
    WriteSlot(a.es, a.g, a.frame, st, s.mem, s.rbp, q, v);
    PlaceInside(a.es, a.g, a.frame, q);
    var at, size, w := s.rbp + PlaceSlot(a.es, q), WidthBytes(dst.t), Encode(dst.t, v);
    LoadElsewhere(s.mem, at, size, w, s.rbp, 8);
    SameAboveStored(a.entry.mem, s.mem, a.entry.rsp, at, size, w);
  }

  lemma PlaceInside(es: seq<Entry>, g: Places, frame: int, q: I.Place)
    requires LayoutOk(es, g, frame) && q in g
    ensures IsScalar(g[q]) && -frame <= PlaceSlot(es, q) && PlaceSlot(es, q) + WidthBytes(g[q]) <= 0
  {}

  lemma SameAboveStored(m0: Mem, m: Mem, from: int, at: int, n: nat, w: int)
    requires SameAbove(m0, m, from) && at + n <= from
    ensures SameAbove(m0, Memory.Store(m, at, n, w), from)
  {
    hide ByteAt, Memory.Store;
    forall b | b >= from ensures ByteAt(Memory.Store(m, at, n, w), b) == ByteAt(m0, b) {
      StoreElsewhere(m, at, n, w, b);
      assert ByteAt(m, b) == ByteAt(m0, b);
    }
  }

  // ---------------------------------------------------------------- operators

  /** The operands of an operation are where the instructions look for them. */
  predicate OperandHolds(es: seq<Entry>, o: I.Operand, s: State, v: int) {
    !o.NoOperand? && IsScalar(o.t) && OperandSize(o, WidthBytes(o.t)) && InRange(o.t, v) &&
    ReadArg(s, Operand(es, o), WidthBytes(o.t)) == Encode(o.t, v) &&
    (o.Immediate? ==> v == Convert(o.t, o.number) && Typing.LiteralFits(o.t, o.number))
  }

  lemma OperandRead(a: Activation, k: nat, o: I.Operand, st: I.Store, s: State)
    requires Framed(a, st, s) && Present(a.g, k, o) && I.Read(o, st).Some?
    ensures OperandHolds(a.es, o, s, I.Read(o, st).value)
  {
    hide LayoutOk, InFrame, SameAbove, InRange, Encode, Convert, ReadArg, Operand;
    ReadOperand(a.es, a.g, k, o, st, s);
  }

  ghost predicate BinReady(es: seq<Entry>, op: BinaryOp, dst: I.Operand, a: I.Operand, b: I.Operand, s: State, x: int,
      y: int) {
    I.IsPlace(dst) && IsScalar(dst.t) && OperandSize(dst, WidthBytes(dst.t)) && OperandHolds(es, a, s, x) &&
      OperandHolds(es, b, s, y) &&
    OperandTypes(op, a.t, b.t) && dst.t == ResultType(op, a.t) && Apply(op, a.t, x, y).Some?
  }

  lemma AluStores(es: seq<Entry>, alu: AluOp, op: BinaryOp, dst: I.Operand, a: I.Operand, b: I.Operand, s: State,
      x: int, y: int)
    returns (s': State)
    requires BinReady(es, op, dst, a, b, s, x, y) && a.t == b.t == dst.t
    requires AluValueOf(alu, a.t, x, y) == Encode(a.t, Apply(op, a.t, x, y).value)
    ensures Stores(BinaryCode(es, alu, dst, a, b), s, s', SlotOffset(es, dst), WidthBytes(dst.t),
                   Encode(dst.t, Apply(op, a.t, x, y).value))
  {
    hide Stores, AluValue, Apply, Encode, InRange, Convert, ReadArg, Operand, BinaryCode;
    s' := BinaryStores(es, alu, dst, a, b, WidthBytes(dst.t), s);
  }

  lemma BinStores(es: seq<Entry>, op: BinaryOp, dst: I.Operand, a: I.Operand, b: I.Operand, s: State, x: int, y: int)
    returns (s': State)
    requires BinReady(es, op, dst, a, b, s, x, y)
    ensures Stores(BinCode(es, op, dst, a, b), s, s', SlotOffset(es, dst), WidthBytes(dst.t),
                   Encode(dst.t, Apply(op, a.t, x, y).value))
  {
    hide Stores, AluValue, Encode, InRange, Convert, ReadArg, Operand, AluValueOf, BinaryCode, MultCode, DivCode,
         ShiftCode, RelationalCode, Wrap, BitwiseOp, Holds, TruncDiv, SlotOffset, OperandSize;
    var t := a.t;
    match op
    case Add =>
      AddSub(t, x, y);
      s' := AluStores(es, ADD, op, dst, a, b, s, x, y);
    case Sub =>
      AddSub(t, x, y);
      s' := AluStores(es, SUB, op, dst, a, b, s, x, y);
    case Mul => s' := MultStores(es, dst, a, b, WidthBytes(t), s, t, x, y);
    case Div => s' := DivStores(es, dst, a, b, t, s, x, y);
    case BitAnd =>
      Bitwise(t, x, y);
      s' := AluStores(es, AND, op, dst, a, b, s, x, y);
    case BitOr =>
      Bitwise(t, x, y);
      s' := AluStores(es, OR, op, dst, a, b, s, x, y);
    case BitXor =>
      Bitwise(t, x, y);
      s' := AluStores(es, XOR, op, dst, a, b, s, x, y);
    case LogAnd => s' := LogicalStores(es, AND, op, dst, a, b, s, x, y);
    case LogOr => s' := LogicalStores(es, OR, op, dst, a, b, s, x, y);
    case Shr => s' := ShiftedStores(es, op, dst, a, b, s, x, y);
    case Shl => s' := ShiftedStores(es, op, dst, a, b, s, x, y);
    case _ => s' := ComparedStores(es, op, dst, a, b, s, x, y);
  }

  lemma LogicalStores(es: seq<Entry>, alu: AluOp, op: BinaryOp, dst: I.Operand, a: I.Operand, b: I.Operand, s: State,
      x: int, y: int)
    returns (s': State)
    requires BinReady(es, op, dst, a, b, s, x, y) && IsLogical(op) && alu == if op.LogAnd? then AND else OR
    ensures Stores(BinaryCode(es, alu, dst, a, b), s, s', SlotOffset(es, dst), WidthBytes(dst.t),
                   Encode(dst.t, Apply(op, a.t, x, y).value))
  {
    hide Stores, AluValue, Encode, Convert, ReadArg, Operand, AluValueOf, BinaryCode, SlotOffset, OperandSize;
    Logical(x, y);
    s' := AluStores(es, alu, op, dst, a, b, s, x, y);
  }

  lemma ComparedStores(es: seq<Entry>, op: BinaryOp, dst: I.Operand, a: I.Operand, b: I.Operand, s: State, x: int,
      y: int)
    returns (s': State)
    requires BinReady(es, op, dst, a, b, s, x, y) && IsRelational(op)
    ensures Stores(RelationalCode(es, op, dst, a, b), s, s', SlotOffset(es, dst), WidthBytes(dst.t),
                   Encode(dst.t, Apply(op, a.t, x, y).value))
  {
    hide Stores, Convert, ReadArg, Operand, RelationalCode, SlotOffset, Holds, InRange;
    s' := RelationalStores(es, op, dst, a, b, a.t, s, x, y);
    FlagInRange(Holds(op, x, y));
    EncodeSmall(Bool, Flag(Holds(op, x, y)));
  }

  /** A literal count that is not negative spells itself. */
  lemma LiteralCount(t: ValueType, n: nat, y: int)
    requires IsInteger(t) && n < Modulus(WidthBytes(t)) && InRange(t, y) && y == Wrap(t, n) && y >= 0
    ensures y == n
  {
    hide WidthBytes, Modulus;
    WrapInRange(t, n);
    ModSmall(n, Modulus(WidthBytes(t)));
    ModSmall(y, Modulus(WidthBytes(t)));
  }

  lemma ShiftedStores(es: seq<Entry>, op: BinaryOp, dst: I.Operand, a: I.Operand, b: I.Operand, s: State, x: int,
      y: int)
    returns (s': State)
    requires BinReady(es, op, dst, a, b, s, x, y) && IsShift(op)
    ensures Stores(ShiftCode(es, if op.Shl? then SHL else if IsSigned(dst.t) then SAR else SHR, dst, a, b), s, s',
                   SlotOffset(es, dst), WidthBytes(dst.t), Encode(dst.t, Apply(op, a.t, x, y).value))
  {
    hide Stores, ReadArg, Operand, ShiftCode, SlotOffset, InRange, Encode, ShiftValue, Wrap, Pow2;
    var t := a.t;
    SizeOfScalar(t);
    if b.Immediate? {
      LiteralCount(b.t, b.number, y);
    }
    if op.Shl? {
      ShiftLeft(t, x, y);
    } else {
      ShiftRight(t, x, y);
    }
    var kind := if op.Shl? then SHL else if IsSigned(dst.t) then SAR else SHR;
    s' := ShiftStores(es, kind, dst, a, b, WidthBytes(t), b.t, s, y);
  }

  // ---------------------------------------------------------------- operations

  lemma ConvertedStores(es: seq<Entry>, dst: I.Operand, a: I.Operand, s: State, x: int) returns (s': State)
    requires I.IsPlace(dst) && IsScalar(dst.t) && OperandSize(dst, WidthBytes(dst.t)) && OperandHolds(es, a, s, x)
    requires Castable(a.t, dst.t) && (a.t == dst.t || PlainImmediate(a))
    ensures Stores(ConvertCode(es, dst, a), s, s', SlotOffset(es, dst), WidthBytes(dst.t),
                   Encode(dst.t, Convert(dst.t, x)))
    ensures InRange(dst.t, Convert(dst.t, x))
  {
    hide Stores, ReadArg, Operand, ConvertCode, SlotOffset, Modulus;
    Typing.ConvertInRange(dst.t, a.t, x);
    Reencode(dst.t, a.t, x);
    if a.Immediate? {
      LiteralConverted(a, dst.t, x);
    }
    s' := ConvertStores(es, dst, a, dst.t, a.t, s, x);
  }

  lemma LiteralConverted(a: I.Operand, t: ValueType, x: int)
    requires a.Immediate? && Typing.LiteralFits(a.t, a.number) && x == Convert(a.t, a.number)
    requires a.t == t || PlainImmediate(a)
    ensures a.number % Modulus(WidthBytes(t)) == x % Modulus(WidthBytes(t))
  {
    hide WidthBytes, Modulus;
    if !a.t.Bool? {
      WrapInRange(a.t, a.number);
      if a.t != t {
        WrapOfInRange(a.t, a.number);
      }
    }
  }

  /** A copy of a slot to itself emits nothing and changes nothing. */
  lemma SelfAssign(act: Activation, k: nat, st: I.Store, s: State, dst: I.Operand, a: I.Operand)
    requires Framed(act, st, s) && Writable(act.g, k, dst) && Present(act.g, k, a) && I.Read(a, st).Some?
    requires Operand(act.es, a) == Operand(act.es, dst)
    ensures I.Write(dst, Convert(dst.t, I.Read(a, st).value), st) == st
  {
    hide Framed, InRange, Convert;
    OperandRead(act, k, a, st, s);
    SameSlotSamePlace(act, k, st, s, dst, a);
    ConvertOfInRange(dst.t, I.Read(a, st).value);
  }

  lemma ConvertOfInRange(t: ValueType, v: int)
    requires IsScalar(t) && InRange(t, v)
    ensures Convert(t, v) == v
  {
    if !t.Bool? {
      WrapOfInRange(t, v);
    }
  }

  lemma SameSlotSamePlace(act: Activation, k: nat, st: I.Store, s: State, dst: I.Operand, a: I.Operand)
    requires Framed(act, st, s) && Writable(act.g, k, dst) && Present(act.g, k, a)
    requires Operand(act.es, a) == Operand(act.es, dst)
    ensures I.IsPlace(a) && I.PlaceOf(a) == I.PlaceOf(dst) && a.t == dst.t
  {
    hide InFrame, SameAbove, SlotOffset, PlaceSlot;
    assert I.IsPlace(a);
    SlotOfOperand(act.es, a);
    SlotOfOperand(act.es, dst);
    var q, r := I.PlaceOf(a), I.PlaceOf(dst);
    assert WidthBytes(a.t) > 0 && WidthBytes(dst.t) > 0;
    assert q != r ==> Apart(PlaceSlot(act.es, q), WidthBytes(act.g[q]), PlaceSlot(act.es, r), WidthBytes(act.g[r]));
  }

  /** Operations without control flow. */
  predicate IsCompute(op: I.Operation) {
    op.Bin? || op.Un? || op.Assign? || op.CastTo?
  }

  lemma BinSim(a: Activation, k: nat, ret: ValueType, st: I.Store, s: State, op: I.Operation) returns (s': State)
    requires Framed(a, st, s) && op.Bin? && OpTyped(a.g, k, ret, op)
    requires I.Read(op.a, st).Some? && I.Read(op.b, st).Some?
    requires Apply(op.op, op.a.t, I.Read(op.a, st).value, I.Read(op.b, st).value).Some?
    ensures ExecBlock(BinCode(a.es, op.op, op.dst, op.a, op.b), s) == Some(s')
    ensures Framed(a, I.Write(op.dst, Apply(op.op, op.a.t, I.Read(op.a, st).value, I.Read(op.b, st).value).value, st),
                   s')
  {
    hide Framed, Apply, BinCode, ExecBlock, InRange, I.Read;
    var x, y := I.Read(op.a, st).value, I.Read(op.b, st).value;
    OperandRead(a, k, op.a, st, s);
    OperandRead(a, k, op.b, st, s);
    SizeOfScalar(op.dst.t);
    s' := BinStores(a.es, op.op, op.dst, op.a, op.b, s, x, y);
    ApplyInRange(op.op, op.a.t, x, y);
    FramedStored(a, st, s, BinCode(a.es, op.op, op.dst, op.a, op.b), s', op.dst, Apply(op.op, op.a.t, x, y).value);
  }

  lemma UnSim(a: Activation, k: nat, ret: ValueType, st: I.Store, s: State, op: I.Operation) returns (s': State)
    requires Framed(a, st, s) && op.Un? && OpTyped(a.g, k, ret, op) && I.Read(op.a, st).Some?
    ensures ExecBlock(if op.uop.Negate? then NegCode(a.es, op.dst, op.a) else NotCode(a.es, op.uop, op.dst, op.a), s) ==
            Some(s')
    ensures Framed(a, I.Write(op.dst, ApplyUnary(op.uop, op.a.t, I.Read(op.a, st).value), st), s')
  {
    hide Framed, ApplyUnary, NegCode, NotCode, ExecBlock, InRange, I.Read;
    var x := I.Read(op.a, st).value;
    OperandRead(a, k, op.a, st, s);
    SizeOfScalar(op.dst.t);
    s' := UnaryStores(a.es, op.uop, op.dst, op.a, op.a.t, s, x);
    ApplyUnaryInRange(op.uop, op.a.t, x);
    FramedStored(a, st, s, if op.uop.Negate? then NegCode(a.es, op.dst, op.a)
                 else NotCode(a.es, op.uop, op.dst, op.a), s',
                 op.dst, ApplyUnary(op.uop, op.a.t, x));
  }

  lemma ConvertSim(a: Activation, k: nat, st: I.Store, s: State, dst: I.Operand, o: I.Operand) returns (s': State)
    requires Framed(a, st, s) && Writable(a.g, k, dst) && Present(a.g, k, o) && I.Read(o, st).Some?
    requires Castable(o.t, dst.t) && (o.t == dst.t || PlainImmediate(o))
    ensures ExecBlock(ConvertCode(a.es, dst, o), s) == Some(s')
    ensures Framed(a, I.Write(dst, Convert(dst.t, I.Read(o, st).value), st), s')
  {
    hide Framed, ConvertCode, ExecBlock, InRange, I.Read, Convert;
    var x := I.Read(o, st).value;
    OperandRead(a, k, o, st, s);
    SizeOfScalar(dst.t);
    s' := ConvertedStores(a.es, dst, o, s, x);
    FramedStored(a, st, s, ConvertCode(a.es, dst, o), s', dst, Convert(dst.t, x));
  }

  lemma AssignSim(a: Activation, k: nat, st: I.Store, s: State, dst: I.Operand, o: I.Operand) returns (s': State)
    requires Framed(a, st, s) && Writable(a.g, k, dst) && Present(a.g, k, o) && I.Read(o, st).Some?
    requires Castable(o.t, dst.t) && (o.t == dst.t || PlainImmediate(o))
    ensures ExecBlock(AssignCode(a.es, dst, o), s) == Some(s')
    ensures Framed(a, I.Write(dst, Convert(dst.t, I.Read(o, st).value), st), s')
  {
    hide Framed, ConvertCode, InRange, I.Read, Convert, Operand, I.Write;
    if Operand(a.es, o) == Operand(a.es, dst) {
      SelfAssign(a, k, st, s, dst, o);
      s' := s;
    } else {
      s' := ConvertSim(a, k, st, s, dst, o);
    }
  }
}
