/** The fragment of x86-64 the code generator emits, as a machine over registers and bytes.
  * An instruction has no result when it faults (#DE on division) or cannot be encoded: operands
  * of different sizes, two memory operands, or a 64-bit immediate outside the signed 32 bits.
  * The stack pointer never wraps: running out of stack is a fault too. */
module Machine {
  import opened Values
  import opened Arith
  import opened Memory

  type Word = x: int | 0 <= x < 0x1_0000_0000_0000_0000

  datatype Reg = RAX | RCX | RDX | RDI | RSI | R8 | R9

  /** Result of the last comparison; no other instruction is asked for its flags. */
  datatype Flags = NoFlags | Flags(zf: bool, cf: bool, sf: bool, of: bool)

  datatype State = State(
    rax: Word, rcx: Word, rdx: Word, rdi: Word, rsi: Word, r8: Word, r9: Word,
    rsp: Word, rbp: Word, flags: Flags, mem: Mem)

  /** An operand: a register of some size, `SIZE [rbp + off]`, or an immediate. */
  datatype Arg = R(reg: Reg, size: nat) | M(size: nat, off: int) | Imm(v: int)

  datatype AluOp = ADD | SUB | AND | OR | XOR
  datatype ShiftOp = SHL | SHR | SAR
  datatype Cond = E | NE | L | LE | G | GE | B | BE | A | AE

  datatype Instr =
    | Mov(dst: Arg, src: Arg)
    | MovZx(dst: Arg, src: Arg)
    | MovSx(dst: Arg, src: Arg)
    | MovSxd(dst: Arg, src: Arg)
    | Alu(alu: AluOp, dst: Arg, src: Arg)
    | Cmp(dst: Arg, src: Arg)
    | Imul(dst: Arg, src: Arg)
    | MulByte(signed: bool, src: Arg)
    | ExtendA(size: nat)
    | ClearAh
    | DivA(signed: bool, src: Arg)
    | Neg(dst: Arg)
    | Not(dst: Arg)
    | ShiftImm(shift: ShiftOp, dst: Arg, count: int)
    | ShiftCl(shift: ShiftOp, dst: Arg)
    | SetAl(cond: Cond)
    | PushRax
    | PushRbp
    | PopRbp
    | MovRbpRsp
    | MovRspRbp
    | SubRsp(n: int)
    | AddRsp(n: int)
    | LabelI(id: nat)
    | Jmp(id: nat)
    | Je(id: nat)
    | CallI(func: string)
    | Ret

  // ---------------------------------------------------------------- registers and operands

  function Get(s: State, r: Reg): Word {
    match r
    case RAX => s.rax
    case RCX => s.rcx
    case RDX => s.rdx
    case RDI => s.rdi
    case RSI => s.rsi
    case R8 => s.r8
    case R9 => s.r9
  }

  function Set(s: State, r: Reg, v: Word): State {
    match r
    case RAX => s.(rax := v)
    case RCX => s.(rcx := v)
    case RDX => s.(rdx := v)
    case RDI => s.(rdi := v)
    case RSI => s.(rsi := v)
    case R8 => s.(r8 := v)
    case R9 => s.(r9 := v)
  }

  /** A write of 1 or 2 bytes keeps the rest of the register; one of 4 clears the upper half. */
  function Merge(prev: Word, size: nat, v: int): Word
    requires IsSize(size) && 0 <= v < Modulus(size)
  {
    if size >= 4 then v else prev - prev % Modulus(size) + v
  }

  predicate HasSize(x: Arg, size: nat) {
    x.Imm? || x.size == size
  }

  function ReadArg(s: State, x: Arg, size: nat): int {
    match x
    case R(r, _) => Get(s, r) % Modulus(size)
    case M(_, off) => Load(s.mem, s.rbp + off, size)
    case Imm(v) => v % Modulus(size)
  }

  function WriteArg(s: State, x: Arg, v: int): State
    requires !x.Imm? && IsSize(x.size) && 0 <= v < Modulus(x.size)
  {
    match x
    case R(r, size) => Set(s, r, Merge(Get(s, r), size, v))
    case M(size, off) => s.(mem := Store(s.mem, s.rbp + off, size, v))
  }

  /** Destination and source of an instruction that takes a register or memory and any source. */
  predicate Encodable(dst: Arg, src: Arg) {
    !dst.Imm? && IsSize(dst.size) && HasSize(src, dst.size) && !(dst.M? && src.M?)
  }

  /** An immediate source of arithmetic is at most a sign-extended 32-bit number. */
  predicate SmallImmediate(size: nat, src: Arg) {
    src.Imm? && size == 8 ==> -0x8000_0000 <= src.v < 0x8000_0000
  }

  // ---------------------------------------------------------------- what instructions compute

  function AluValue(op: AluOp, size: nat, a: int, b: int): (r: int)
    requires IsSize(size)
    ensures 0 <= r < Modulus(size)
  {
    match op
    case ADD => (a + b) % Modulus(size)
    case SUB => (a - b) % Modulus(size)
    case AND => BitsBound(AndBits, size, a, b); Bits(AndBits, 8 * size, a, b)
    case OR => BitsBound(OrBits, size, a, b); Bits(OrBits, 8 * size, a, b)
    case XOR => BitsBound(XorBits, size, a, b); Bits(XorBits, 8 * size, a, b)
  }

  function CompareFlags(size: nat, a: int, b: int): Flags {
    var d := (a - b) % Modulus(size);
    var exact := AsSigned(size, a) - AsSigned(size, b);
    Flags(a == b, a < b, AsSigned(size, d) < 0, AsSigned(size, d) != exact)
  }

  predicate CondHolds(c: Cond, f: Flags)
    requires f.Flags?
  {
    match c
    case E => f.zf
    case NE => !f.zf
    case L => f.sf != f.of
    case LE => f.zf || f.sf != f.of
    case G => !f.zf && f.sf == f.of
    case GE => f.sf == f.of
    case B => f.cf
    case BE => f.cf || f.zf
    case A => !f.cf && !f.zf
    case AE => !f.cf
  }

  function ShiftValue(op: ShiftOp, size: nat, a: int, count: nat): (r: int)
    ensures 0 <= r < Modulus(size)
  {
    var c := if size == 8 then count % 64 else count % 32;
    match op
    case SHL => (a * Pow2(c)) % Modulus(size)
    case SHR => (a / Pow2(c)) % Modulus(size)
    case SAR => (AsSigned(size, a) / Pow2(c)) % Modulus(size)
  }

  /** The two's complement reading of a double-width dividend `hi:lo`. */
  function Dividend(signed: bool, m: int, hi: int, lo: int): int {
    var d := hi * m + lo;
    if signed && hi >= m / 2 then d - m * m else d
  }

  /** Quotient and remainder of a division by a pattern of `size` bytes, unless it faults. */
  function DivValue(signed: bool, size: nat, hi: int, lo: int, b: int): Option<(int, int)> {
    var m := Modulus(size);
    var d := Dividend(signed, m, hi, lo);
    var e := if signed then AsSigned(size, b) else b;
    if e == 0 then None
    else
      var q := TruncDiv(d, e);
      var r := d - q * e;
      if signed && !(-(m / 2) <= q < m / 2) then None
      else if !signed && !(0 <= q < m) then None
      else Some((q % m, r % m))
  }

  // ---------------------------------------------------------------- one instruction

  /** A straight-line instruction. */
  function Exec(i: Instr, s: State): Option<State> {
    match i
    case Mov(dst, src) =>
      if !Encodable(dst, src) || (dst.M? && src.Imm?) then None
      else Some(WriteBack(s, dst, ReadArg(s, src, dst.size)))
    case MovZx(dst, src) =>
      if !ExtendOk(dst, src) || src.size > 2 then None
      else Some(WriteBack(s, dst, ReadArg(s, src, src.size)))
    case MovSx(dst, src) =>
      if !ExtendOk(dst, src) || src.size > 2 then None
      else Some(WriteBack(s, dst, AsSigned(src.size, ReadArg(s, src, src.size))))
    case MovSxd(dst, src) =>
      if !ExtendOk(dst, src) || src.size != 4 then None
      else Some(WriteBack(s, dst, AsSigned(src.size, ReadArg(s, src, src.size))))
    case Alu(op, dst, src) =>
      if !Encodable(dst, src) || !SmallImmediate(dst.size, src) then None
      else
        var v := AluValue(op, dst.size, ReadArg(s, dst, dst.size), ReadArg(s, src, dst.size));
        Some(WriteBack(s, dst, v).(flags := NoFlags))
    case Cmp(dst, src) =>
      if !Encodable(dst, src) || !SmallImmediate(dst.size, src) then None
      else Some(s.(flags := CompareFlags(dst.size, ReadArg(s, dst, dst.size), ReadArg(s, src, dst.size))))
    case Imul(dst, src) =>
      if !Encodable(dst, src) || !dst.R? || dst.size == 1 || !SmallImmediate(dst.size, src) then None
      else
        var a, b := ReadArg(s, dst, dst.size), ReadArg(s, src, dst.size);
        Some(WriteBack(s, dst, AsSigned(dst.size, a) * AsSigned(dst.size, b)).(flags := NoFlags))
    case MulByte(signed, src) =>
      if src.Imm? || src.size != 1 then None
      else
        var a, b := ReadArg(s, R(RAX, 1), 1), ReadArg(s, src, 1);
        var v := if signed then AsSigned(1, a) * AsSigned(1, b) else a * b;
        Some(WriteBack(s, R(RAX, 2), v).(flags := NoFlags))
    case ExtendA(size) =>
      if !IsSize(size) then None
      else
        var v := AsSigned(size, ReadArg(s, R(RAX, size), size));
        if size == 1 then Some(WriteBack(s, R(RAX, 2), v))
        else Some(WriteBack(s, R(RDX, size), if v < 0 then -1 else 0))
    case ClearAh => Some(WriteBack(s, R(RAX, 2), ReadArg(s, R(RAX, 1), 1)))
    case DivA(signed, src) => ExecDiv(signed, src, s)
    case Neg(dst) =>
      if dst.Imm? || !IsSize(dst.size) then None
      else Some(WriteBack(s, dst, -ReadArg(s, dst, dst.size)).(flags := NoFlags))
    case Not(dst) =>
      if dst.Imm? || !IsSize(dst.size) then None
      else Some(WriteBack(s, dst, -ReadArg(s, dst, dst.size) - 1))
    case ShiftImm(op, dst, count) =>
      if !dst.R? || !IsSize(dst.size) || !(0 <= count < 0x100) then None
      else Some(WriteBack(s, dst, ShiftValue(op, dst.size, ReadArg(s, dst, dst.size), count)).(flags := NoFlags))
    case ShiftCl(op, dst) =>
      if !dst.R? || !IsSize(dst.size) then None
      else
        var count := ReadArg(s, R(RCX, 1), 1);
        Some(WriteBack(s, dst, ShiftValue(op, dst.size, ReadArg(s, dst, dst.size), count)).(flags := NoFlags))
    case SetAl(c) =>
      if s.flags.NoFlags? then None else Some(WriteBack(s, R(RAX, 1), Flag(CondHolds(c, s.flags))))
    case PushRax => Push(s, s.rax)
    case PushRbp => Push(s, s.rbp)
    case PopRbp =>
      if s.rsp + 8 >= Modulus(8) then None
      else LoadBound(s.mem, s.rsp, 8); Some(s.(rbp := Load(s.mem, s.rsp, 8), rsp := s.rsp + 8))
    case MovRbpRsp => Some(s.(rbp := s.rsp))
    case MovRspRbp => Some(s.(rsp := s.rbp))
    case SubRsp(n) => if !(0 <= n <= s.rsp) then None else Some(s.(rsp := s.rsp - n, flags := NoFlags))
    case AddRsp(n) => if !(0 <= n < Modulus(8) - s.rsp) then None else Some(s.(rsp := s.rsp + n, flags := NoFlags))
    case LabelI(_) => Some(s)
    case _ => None
  }

  /** A push faults when the stack has no room left. */
  function Push(s: State, v: Word): Option<State> {
    if s.rsp < 8 then None else Some(s.(rsp := s.rsp - 8, mem := Store(s.mem, s.rsp - 8, 8, v)))
  }

  predicate ExtendOk(dst: Arg, src: Arg) {
    dst.R? && src.M? && IsSize(dst.size) && IsSize(src.size) && src.size < dst.size
  }

  /** Store the low bytes of a number. */
  function WriteBack(s: State, x: Arg, v: int): State
    requires !x.Imm? && IsSize(x.size)
  {
    WriteArg(s, x, v % Modulus(x.size))
  }

  function ExecDiv(signed: bool, src: Arg, s: State): Option<State> {
    if src.Imm? || !IsSize(src.size) then None
    else if src.size == 1 then
      var ax := ReadArg(s, R(RAX, 2), 2);
      match DivValue(signed, 1, ax / 0x100, ax % 0x100, ReadArg(s, src, 1))
      case Some(qr) => Some(WriteBack(s, R(RAX, 2), qr.1 * 0x100 + qr.0).(flags := NoFlags))
      case None => None
    else
      match DivValue(signed, src.size, ReadArg(s, R(RDX, src.size), src.size),
                     ReadArg(s, R(RAX, src.size), src.size), ReadArg(s, src, src.size))
      case Some(qr) =>
        Some(WriteBack(WriteBack(s, R(RAX, src.size), qr.0), R(RDX, src.size), qr.1).(flags := NoFlags))
      case None => None
  }
}
