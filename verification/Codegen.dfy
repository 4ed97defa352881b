/** Code generation: the instructions each intermediate operation becomes, as functions; the emitter that
  * appends them one operation at a time is in `CodeEmitter`. Operands live in the frame and are brought
  * through `rax`; `rcx` carries shift counts, divisors and large immediates. */
module Codegen {
  import opened Values
  import opened Arith
  import opened Names
  import opened Machine
  import opened Frame
  import I = Ir

  // ---------------------------------------------------------------- operands

  /** The name a slot is looked up under. */
  function CodeName(o: I.Operand): string
    requires I.IsPlace(o)
  {
    if o.Temporary? then Truncate(TemporaryName(o.id), 31) else o.name
  }

  /** The offset of an operand's slot; 0, which no slot has, makes the compiler abort. */
  function SlotOffset(es: seq<Entry>, o: I.Operand): int
    requires I.IsPlace(o)
  {
    match FindEntry(es, CodeName(o))
    case Some(i) => es[i].offset
    case None => 0
  }

  function RegisterSize(size: nat): nat {
    if size <= 1 then 1 else if size <= 2 then 2 else if size <= 4 then 4 else 8
  }

  function Acc(size: nat): Arg {
    R(RAX, RegisterSize(size))
  }

  function Counter(size: nat): Arg {
    R(RCX, RegisterSize(size))
  }

  function Operand(es: seq<Entry>, o: I.Operand): Arg {
    match o
    case Immediate(n, _) => Imm(n)
    case NoOperand => Imm(0)
    case _ => M(RegisterSize(WidthBytes(o.t)), SlotOffset(es, o))
  }

  function SizeOf(o: I.Operand): nat
    requires !o.NoOperand?
  {
    WidthBytes(o.t)
  }

  predicate InMemory(o: I.Operand) {
    I.IsPlace(o)
  }

  /** A 64-bit immediate beyond the signed 32 bits goes through `rcx`. The number is read with
    * `strtoll`, which saturates, so every such number is seen as too large. */
  predicate IsLarge(o: I.Operand, size: nat) {
    o.Immediate? && size >= 8 && o.number > 0x7FFF_FFFF
  }

  function LoadLarge(es: seq<Entry>, o: I.Operand, size: nat): seq<Instr> {
    if IsLarge(o, size) then [Mov(R(RCX, 8), Operand(es, o))] else []
  }

  function Loaded(es: seq<Entry>, o: I.Operand, size: nat): Arg {
    if IsLarge(o, size) then R(RCX, 8) else Operand(es, o)
  }

  // ---------------------------------------------------------------- operations

  function BinaryCode(es: seq<Entry>, op: AluOp, dst: I.Operand, a: I.Operand, b: I.Operand): seq<Instr>
    requires !dst.NoOperand?
  {
    var size := SizeOf(dst);
    var d, src := Operand(es, dst), Loaded(es, b, size);
    LoadLarge(es, b, size) +
    if d == Operand(es, a) && !InMemory(b) then [Alu(op, d, src)]
    else [Mov(Acc(size), Operand(es, a)), Alu(op, Acc(size), src), Mov(d, Acc(size))]
  }

  function MultCode(es: seq<Entry>, dst: I.Operand, a: I.Operand, b: I.Operand): seq<Instr>
    requires !dst.NoOperand?
  {
    var size := SizeOf(dst);
    var d, s1 := Operand(es, dst), Operand(es, a);
    if size == 1 then
      [Mov(R(RAX, 1), s1)] +
      (if b.Immediate? then [Mov(R(RCX, 1), Operand(es, b)), MulByte(IsSigned(dst.t), R(RCX, 1))]
       else [MulByte(IsSigned(dst.t), Operand(es, b))]) +
      [Mov(d, R(RAX, 1))]
    else
      LoadLarge(es, b, size) + [Mov(Acc(size), s1), Imul(Acc(size), Loaded(es, b, size)), Mov(d, Acc(size))]
  }

  function DividendExtension(size: nat, signed: bool): seq<Instr> {
    if size == 8 || size == 4 || size == 2 then
      [if signed then ExtendA(size) else Alu(XOR, R(RDX, size), R(RDX, size))]
    else if size == 1 then [if signed then ExtendA(1) else ClearAh]
    else []
  }

  function DivCode(es: seq<Entry>, dst: I.Operand, a: I.Operand, b: I.Operand): seq<Instr>
    requires !dst.NoOperand?
  {
    var size, signed := SizeOf(dst), IsSigned(dst.t);
    [Mov(Acc(size), Operand(es, a))] + DividendExtension(size, signed) +
    (if b.Immediate? then [Mov(Counter(size), Operand(es, b)), DivA(signed, Counter(size))]
     else [DivA(signed, Operand(es, b))]) +
    [Mov(Operand(es, dst), Acc(size))]
  }

  function NegCode(es: seq<Entry>, dst: I.Operand, a: I.Operand): seq<Instr>
    requires !dst.NoOperand?
  {
    var size, d := SizeOf(dst), Operand(es, dst);
    if d == Operand(es, a) then [Neg(d)] else [Mov(Acc(size), Operand(es, a)), Neg(Acc(size)), Mov(d, Acc(size))]
  }

  function NotOn(op: UnaryOp, target: Arg): Instr {
    if op.BitNot? then Not(target) else Alu(XOR, target, Imm(1))
  }

  function NotCode(es: seq<Entry>, op: UnaryOp, dst: I.Operand, a: I.Operand): seq<Instr>
    requires !dst.NoOperand?
  {
    var size, d := SizeOf(dst), Operand(es, dst);
    if d == Operand(es, a) then [NotOn(op, d)]
    else [Mov(Acc(size), Operand(es, a)), NotOn(op, Acc(size)), Mov(d, Acc(size))]
  }

  function ShiftCode(es: seq<Entry>, op: ShiftOp, dst: I.Operand, a: I.Operand, b: I.Operand): seq<Instr>
    requires !dst.NoOperand? && !b.NoOperand?
  {
    var size := SizeOf(dst);
    [Mov(Acc(size), Operand(es, a))] +
    (if b.Immediate? then [ShiftImm(op, Acc(size), b.number)]
     else [Mov(Counter(SizeOf(b)), Operand(es, b)), ShiftCl(op, Acc(size))]) +
    [Mov(Operand(es, dst), Acc(size))]
  }

  /** Copy with conversion: truncate, or extend by the signedness of the source. */
  function ConvertCode(es: seq<Entry>, dst: I.Operand, a: I.Operand): seq<Instr>
    requires !dst.NoOperand? && !a.NoOperand?
  {
    var srcSize, dstSize := SizeOf(a), SizeOf(dst);
    var s, d, reg := Operand(es, a), Operand(es, dst), Acc(dstSize);
    if a.Immediate? || srcSize == dstSize then [Mov(reg, s), Mov(d, reg)]
    else if srcSize < dstSize then
      [if IsSigned(a.t) && srcSize == 4 then MovSxd(reg, s)
       else if IsSigned(a.t) then MovSx(reg, s)
       else if srcSize == 4 then Mov(R(RAX, 4), s)
       else MovZx(reg, s)] + [Mov(d, reg)]
    else [Mov(Acc(srcSize), s), Mov(d, reg)]
  }

  function AssignCode(es: seq<Entry>, dst: I.Operand, a: I.Operand): seq<Instr>
    requires !dst.NoOperand? && !a.NoOperand?
  {
    if Operand(es, a) == Operand(es, dst) then [] else ConvertCode(es, dst, a)
  }

  function Condition(op: BinaryOp, signed: bool): Cond
    requires IsRelational(op)
  {
    match op
    case Eq => E
    case Ne => NE
    case Lt => if signed then L else B
    case Le => if signed then LE else BE
    case Gt => if signed then G else A
    case Ge => if signed then GE else AE
  }

  function RelationalCode(es: seq<Entry>, op: BinaryOp, dst: I.Operand, a: I.Operand, b: I.Operand): seq<Instr>
    requires IsRelational(op) && !a.NoOperand?
  {
    var size := SizeOf(a);
    LoadLarge(es, b, size) +
    [Mov(Acc(size), Operand(es, a)), Cmp(Acc(size), Loaded(es, b, size)), SetAl(Condition(op, IsSigned(a.t))),
     Mov(Operand(es, dst), R(RAX, 1))]
  }

  function JumpIfFalseCode(es: seq<Entry>, l: nat, cond: I.Operand): seq<Instr>
    requires !cond.NoOperand?
  {
    [Mov(Acc(SizeOf(cond)), Operand(es, cond)), Cmp(Acc(SizeOf(cond)), Imm(0)), Je(l)]
  }

  function ReturnCode(es: seq<Entry>, a: I.Operand): seq<Instr> {
    (if a.NoOperand? then [] else [Mov(Acc(SizeOf(a)), Operand(es, a))]) + [MovRspRbp, PopRbp, Ret]
  }

  // ---------------------------------------------------------------- calls

  function ArgumentRegister(i: nat): Reg
    requires i < 6
  {
    [RDI, RSI, RDX, RCX, R8, R9][i]
  }

  function StackArgCode(es: seq<Entry>, o: I.Operand): seq<Instr>
    requires !o.NoOperand?
  {
    [if o.Immediate? || SizeOf(o) == 8 then Mov(R(RAX, 8), Operand(es, o))
     else if SizeOf(o) == 4 then Mov(R(RAX, 4), Operand(es, o))
     else if IsSigned(o.t) then MovSx(R(RAX, 8), Operand(es, o))
     else MovZx(R(RAX, 8), Operand(es, o)),
     PushRax]
  }

  predicate NoneMissing(os: seq<I.Operand>) {
    forall i :: 0 <= i < |os| ==> !os[i].NoOperand?
  }

  /** Arguments beyond the sixth, the last one pushed first. */
  function StackArgsCode(es: seq<Entry>, os: seq<I.Operand>): seq<Instr>
    requires NoneMissing(os)
    decreases |os|
  {
    if |os| <= 6 then []
    else StackArgCode(es, os[|os| - 1]) + StackArgsCode(es, os[..|os| - 1])
  }

  function RegisterArgCode(es: seq<Entry>, o: I.Operand, i: nat): Instr
    requires !o.NoOperand? && i < 6
  {
    var size := SizeOf(o);
    var reg := R(ArgumentRegister(i), if size <= 2 then 4 else RegisterSize(size));
    if size <= 2 && !o.Immediate? then
      if IsSigned(o.t) then MovSx(reg, Operand(es, o)) else MovZx(reg, Operand(es, o))
    else Mov(reg, Operand(es, o))
  }

  function RegisterArgsCode(es: seq<Entry>, os: seq<I.Operand>): (c: seq<Instr>)
    requires NoneMissing(os) && |os| <= 6
    ensures |c| == |os|
    ensures forall i :: 0 <= i < |c| ==> c[i] == RegisterArgCode(es, os[i], i)
  {
    seq(|os|, i requires 0 <= i < |os| => RegisterArgCode(es, os[i], i))
  }

  function StackArgs(n: nat): nat {
    if n > 6 then n - 6 else 0
  }

  function FirstSix(os: seq<I.Operand>): seq<I.Operand> {
    if |os| <= 6 then os else os[..6]
  }

  /** Bytes pushed or reserved for a call: an even number of words keeps `rsp` aligned. */
  function CallBytes(n: nat): nat {
    (StackArgs(n) + StackArgs(n) % 2) * 8
  }

  function ArgumentsCode(es: seq<Entry>, os: seq<I.Operand>): seq<Instr>
    requires NoneMissing(os)
  {
    (if StackArgs(|os|) % 2 > 0 then [SubRsp(8)] else []) + StackArgsCode(es, os) + RegisterArgsCode(es, FirstSix(os))
  }

  function AfterCallCode(es: seq<Entry>, os: seq<I.Operand>, dst: I.Operand): seq<Instr> {
    (if CallBytes(|os|) > 0 then [AddRsp(CallBytes(|os|))] else []) +
    (if dst.NoOperand? then [] else [Mov(Operand(es, dst), Acc(SizeOf(dst)))])
  }

  function CallCode(es: seq<Entry>, os: seq<I.Operand>, dst: I.Operand, f: string): seq<Instr>
    requires NoneMissing(os)
  {
    ArgumentsCode(es, os) + [CallI(f)] + AfterCallCode(es, os, dst)
  }

  // ---------------------------------------------------------------- whole functions

  /** Operands an operation must have; the generator of intermediate code always gives them. */
  predicate Complete(op: I.Operation) {
    match op
    case Bin(_, dst, a, b) => !dst.NoOperand? && !a.NoOperand? && !b.NoOperand?
    case Un(_, dst, a) => !dst.NoOperand? && !a.NoOperand?
    case Assign(dst, a) => !dst.NoOperand? && !a.NoOperand?
    case CastTo(dst, a) => !dst.NoOperand? && !a.NoOperand?
    case JumpIfFalse(_, cond) => !cond.NoOperand?
    case Param(a) => !a.NoOperand?
    case _ => true
  }

  predicate AllComplete(ops: seq<I.Operation>) {
    forall i :: 0 <= i < |ops| ==> Complete(ops[i])
  }

  function BinCode(es: seq<Entry>, op: BinaryOp, dst: I.Operand, a: I.Operand, b: I.Operand): seq<Instr>
    requires !dst.NoOperand? && !a.NoOperand? && !b.NoOperand?
  {
    match op
    case Add => BinaryCode(es, ADD, dst, a, b)
    case Sub => BinaryCode(es, SUB, dst, a, b)
    case Mul => MultCode(es, dst, a, b)
    case Div => DivCode(es, dst, a, b)
    case BitAnd | LogAnd => BinaryCode(es, AND, dst, a, b)
    case BitOr | LogOr => BinaryCode(es, OR, dst, a, b)
    case BitXor => BinaryCode(es, XOR, dst, a, b)
    case Shr => ShiftCode(es, if IsSigned(dst.t) then SAR else SHR, dst, a, b)
    case Shl => ShiftCode(es, SHL, dst, a, b)
    case _ => RelationalCode(es, op, dst, a, b)
  }

  /** The code of one operation, with the operands of the PARAMs before it. */
  function OpCode(es: seq<Entry>, pending: seq<I.Operand>, op: I.Operation): seq<Instr>
    requires Complete(op) && NoneMissing(pending)
  {
    match op
    case Bin(b, dst, x, y) => BinCode(es, b, dst, x, y)
    case Un(Negate, dst, a) => NegCode(es, dst, a)
    case Un(u, dst, a) => NotCode(es, u, dst, a)
    case Assign(dst, a) => AssignCode(es, dst, a)
    case CastTo(dst, a) => ConvertCode(es, dst, a)
    case Label(l) => [LabelI(l)]
    case JumpIfFalse(l, cond) => JumpIfFalseCode(es, l, cond)
    case Jump(l) => [Jmp(l)]
    case Return(a) => ReturnCode(es, a)
    case Param(_) => []
    case Call(dst, f) => CallCode(es, pending, dst, f)
  }

  function NextPending(pending: seq<I.Operand>, op: I.Operation): seq<I.Operand> {
    match op
    case Param(a) => pending + [a]
    case Call(_, _) => []
    case _ => pending
  }

  function OpsCode(es: seq<Entry>, pending: seq<I.Operand>, ops: seq<I.Operation>): seq<Instr>
    requires AllComplete(ops) && NoneMissing(pending)
    decreases |ops|
  {
    if |ops| == 0 then []
    else OpCode(es, pending, ops[0]) + OpsCode(es, NextPending(pending, ops[0]), ops[1..])
  }

  function ParamCode(es: seq<Entry>, p: I.IrParam, i: nat): seq<Instr> {
    var size := WidthBytes(p.t);
    var slot := Operand(es, ParamOperand(p));
    if i < 6 then [Mov(slot, R(ArgumentRegister(i), RegisterSize(size)))]
    else [Mov(Acc(size), M(RegisterSize(size), 16 + (i - 6) * 8)), Mov(slot, Acc(size))]
  }

  /** Store the first `n` parameters to their slots. */
  function ParamsCode(es: seq<Entry>, params: seq<I.IrParam>, n: nat): seq<Instr>
    requires n <= |params|
  {
    if n == 0 then [] else ParamsCode(es, params, n - 1) + ParamCode(es, params[n - 1], n - 1)
  }

  function FunctionCode(f: I.IrFunction): seq<Instr>
    requires AllComplete(f.operations)
  {
    var es := Layout(f.params, f.operations).entries;
    [PushRbp, MovRbpRsp, SubRsp(FrameSize(es))] + ParamsCode(es, f.params, |f.params|) + OpsCode(es, [], f.operations)
  }

  datatype MachineFunction = MachineFunction(name: string, code: seq<Instr>)

  predicate ProgramComplete(p: I.IrProgram) {
    forall i :: 0 <= i < |p| ==> AllComplete(p[i].operations)
  }

  /** Functions with no operations (declarations) produce nothing. */
  function ProgramCode(p: I.IrProgram): seq<MachineFunction>
    requires ProgramComplete(p)
  {
    if |p| == 0 then []
    else
      (if |p[0].operations| == 0 then [] else [MachineFunction(p[0].name, FunctionCode(p[0]))]) + ProgramCode(p[1..])
  }
}
