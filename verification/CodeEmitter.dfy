/** The code generator as it runs: every method appends to the instructions emitted so far, and
  * what it appends is what the functions of Codegen say. */
module CodeEmitter {
  import opened Values
  import opened Arith
  import opened Machine
  import opened Frame
  import opened Codegen
  import opened CodePlaces
  import I = Ir

  lemma ThreeParts(start: seq<Instr>, a: seq<Instr>, b: seq<Instr>, c: seq<Instr>)
    ensures ((start + a) + b) + c == start + (a + b + c)
  {}

  class Emitter {
    var code: seq<Instr>

    constructor ()
      ensures code == []
    {
      code := [];
    }

    method Emit(i: Instr)
      modifies this
      ensures code == old(code) + [i]
    {
      code := code + [i];
    }

    /** An operand ready for use: a large immediate is moved to `rcx` first. */
    method LoadLargeImmediate(es: seq<Entry>, o: I.Operand, size: nat) returns (x: Arg)
      modifies this
      ensures code == old(code) + LoadLarge(es, o, size) && x == Loaded(es, o, size)
    {
      x := Operand(es, o);
      if o.Immediate? && size >= 8 && o.number > 0x7FFF_FFFF {
        Emit(Mov(R(RCX, 8), x));
        x := R(RCX, 8);
      }
    }

    method EmitBinary(es: seq<Entry>, op: AluOp, dst: I.Operand, a: I.Operand, b: I.Operand)
      requires !dst.NoOperand?
      modifies this
      ensures code == old(code) + BinaryCode(es, op, dst, a, b)
    {
      hide Operand, Acc, Loaded, LoadLarge, SizeOf;
      var size := SizeOf(dst);
      var src := LoadLargeImmediate(es, b, size);
      if Operand(es, dst) == Operand(es, a) && !InMemory(b) {
        Emit(Alu(op, Operand(es, dst), src));
        return;
      }
      Emit(Mov(Acc(size), Operand(es, a)));
      Emit(Alu(op, Acc(size), src));
      Emit(Mov(Operand(es, dst), Acc(size)));
    }

    method EmitMult(es: seq<Entry>, dst: I.Operand, a: I.Operand, b: I.Operand)
      requires !dst.NoOperand?
      modifies this
      ensures code == old(code) + MultCode(es, dst, a, b)
    {
      hide Operand, Acc, Loaded, LoadLarge, SizeOf, IsSigned;
      var size := SizeOf(dst);
      if size == 1 {
        EmitByteMult(es, dst, a, b);
        return;
      }
      var src := LoadLargeImmediate(es, b, size);
      Emit(Mov(Acc(size), Operand(es, a)));
      Emit(Imul(Acc(size), src));
      Emit(Mov(Operand(es, dst), Acc(size)));
    }

    method EmitByteMult(es: seq<Entry>, dst: I.Operand, a: I.Operand, b: I.Operand)
      requires !dst.NoOperand? && SizeOf(dst) == 1
      modifies this
      ensures code == old(code) + MultCode(es, dst, a, b)
    {
      hide Operand, SizeOf, IsSigned;
      Emit(Mov(R(RAX, 1), Operand(es, a)));
      if b.Immediate? {
        Emit(Mov(R(RCX, 1), Operand(es, b)));
        Emit(MulByte(IsSigned(dst.t), R(RCX, 1)));
      } else {
        Emit(MulByte(IsSigned(dst.t), Operand(es, b)));
      }
      Emit(Mov(Operand(es, dst), R(RAX, 1)));
    }

    method EmitDividendExtension(size: nat, signed: bool)
      modifies this
      ensures code == old(code) + DividendExtension(size, signed)
    {
      if size == 8 || size == 4 || size == 2 {
        Emit(if signed then ExtendA(size) else Alu(XOR, R(RDX, size), R(RDX, size)));
      } else if size == 1 {
        Emit(if signed then ExtendA(1) else ClearAh);
      }
    }

    method EmitDiv(es: seq<Entry>, dst: I.Operand, a: I.Operand, b: I.Operand)
      requires !dst.NoOperand?
      modifies this
      ensures code == old(code) + DivCode(es, dst, a, b)
    {
      hide DividendExtension, Acc, Operand, Counter, SizeOf;
      var size, signed := SizeOf(dst), IsSigned(dst.t);
      Emit(Mov(Acc(size), Operand(es, a)));
      EmitDividendExtension(size, signed);
      if b.Immediate? {
        Emit(Mov(Counter(size), Operand(es, b)));
        Emit(DivA(signed, Counter(size)));
      } else {
        Emit(DivA(signed, Operand(es, b)));
      }
      Emit(Mov(Operand(es, dst), Acc(size)));
    }

    method EmitNeg(es: seq<Entry>, dst: I.Operand, a: I.Operand)
      requires !dst.NoOperand?
      modifies this
      ensures code == old(code) + NegCode(es, dst, a)
    {
      if Operand(es, dst) == Operand(es, a) {
        Emit(Neg(Operand(es, dst)));
        return;
      }
      var size := SizeOf(dst);
      Emit(Mov(Acc(size), Operand(es, a)));
      Emit(Neg(Acc(size)));
      Emit(Mov(Operand(es, dst), Acc(size)));
    }

    method EmitNotOn(op: UnaryOp, target: Arg)
      modifies this
      ensures code == old(code) + [NotOn(op, target)]
    {
      if op.BitNot? {
        Emit(Not(target));
      } else {
        Emit(Alu(XOR, target, Imm(1)));
      }
    }

    method EmitNot(es: seq<Entry>, op: UnaryOp, dst: I.Operand, a: I.Operand)
      requires !dst.NoOperand?
      modifies this
      ensures code == old(code) + NotCode(es, op, dst, a)
    {
      if Operand(es, dst) == Operand(es, a) {
        EmitNotOn(op, Operand(es, dst));
        return;
      }
      var size := SizeOf(dst);
      Emit(Mov(Acc(size), Operand(es, a)));
      EmitNotOn(op, Acc(size));
      Emit(Mov(Operand(es, dst), Acc(size)));
    }

    method EmitShift(es: seq<Entry>, op: ShiftOp, dst: I.Operand, a: I.Operand, b: I.Operand)
      requires !dst.NoOperand? && !b.NoOperand?
      modifies this
      ensures code == old(code) + ShiftCode(es, op, dst, a, b)
    {
      hide Operand, Acc, Counter, SizeOf;
      var size := SizeOf(dst);
      Emit(Mov(Acc(size), Operand(es, a)));
      if b.Immediate? {
        Emit(ShiftImm(op, Acc(size), b.number));
      } else {
        Emit(Mov(Counter(SizeOf(b)), Operand(es, b)));
        Emit(ShiftCl(op, Acc(size)));
      }
      Emit(Mov(Operand(es, dst), Acc(size)));
    }

    method EmitConvert(es: seq<Entry>, dst: I.Operand, a: I.Operand)
      requires !dst.NoOperand? && !a.NoOperand?
      modifies this
      ensures code == old(code) + ConvertCode(es, dst, a)
    {
      var from, size := SizeOf(a), SizeOf(dst);
      var s, d := Operand(es, a), Operand(es, dst);
      if a.Immediate? || from == size {
        Emit(Mov(Acc(size), s));
        Emit(Mov(d, Acc(size)));
        return;
      }
      if from < size {
        var signed := IsSigned(a.t);
        if signed && from == 4 {
          Emit(MovSxd(Acc(size), s));
        } else if signed {
          Emit(MovSx(Acc(size), s));
        } else if from == 4 {
          Emit(Mov(R(RAX, 4), s));
        } else {
          Emit(MovZx(Acc(size), s));
        }
        Emit(Mov(d, Acc(size)));
        return;
      }
      Emit(Mov(Acc(from), s));
      Emit(Mov(d, Acc(size)));
    }

    method EmitAssign(es: seq<Entry>, dst: I.Operand, a: I.Operand)
      requires !dst.NoOperand? && !a.NoOperand?
      modifies this
      ensures code == old(code) + AssignCode(es, dst, a)
    {
      if Operand(es, a) == Operand(es, dst) {
        return;
      }
      EmitConvert(es, dst, a);
    }

    method EmitRelational(es: seq<Entry>, op: BinaryOp, dst: I.Operand, a: I.Operand, b: I.Operand)
      requires IsRelational(op) && !a.NoOperand?
      modifies this
      ensures code == old(code) + RelationalCode(es, op, dst, a, b)
    {
      hide Operand, Acc, Loaded, LoadLarge, SizeOf, Condition;
      var size := SizeOf(a);
      var src := LoadLargeImmediate(es, b, size);
      Emit(Mov(Acc(size), Operand(es, a)));
      Emit(Cmp(Acc(size), src));
      Emit(SetAl(Condition(op, IsSigned(a.t))));
      Emit(Mov(Operand(es, dst), R(RAX, 1)));
    }

    method EmitJumpIfFalse(es: seq<Entry>, l: nat, cond: I.Operand)
      requires !cond.NoOperand?
      modifies this
      ensures code == old(code) + JumpIfFalseCode(es, l, cond)
    {
      Emit(Mov(Acc(SizeOf(cond)), Operand(es, cond)));
      Emit(Cmp(Acc(SizeOf(cond)), Imm(0)));
      Emit(Je(l));
    }

    method EmitReturn(es: seq<Entry>, a: I.Operand)
      modifies this
      ensures code == old(code) + ReturnCode(es, a)
    {
      if !a.NoOperand? {
        Emit(Mov(Acc(SizeOf(a)), Operand(es, a)));
      }
      Emit(MovRspRbp);
      Emit(PopRbp);
      Emit(Ret);
    }

    // -------------------------------------------------------------- calls

    method EmitStackArg(es: seq<Entry>, o: I.Operand)
      requires !o.NoOperand?
      modifies this
      ensures code == old(code) + StackArgCode(es, o)
    {
      if o.Immediate? || SizeOf(o) == 8 {
        Emit(Mov(R(RAX, 8), Operand(es, o)));
      } else if SizeOf(o) == 4 {
        Emit(Mov(R(RAX, 4), Operand(es, o)));
      } else if IsSigned(o.t) {
        Emit(MovSx(R(RAX, 8), Operand(es, o)));
      } else {
        Emit(MovZx(R(RAX, 8), Operand(es, o)));
      }
      Emit(PushRax);
    }

    method EmitStackArgs(es: seq<Entry>, os: seq<I.Operand>)
      requires NoneMissing(os)
      modifies this
      ensures code == old(code) + StackArgsCode(es, os)
    {
      hide StackArgCode;
      ghost var start := code;
      assert os[..|os|] == os;
      var i := |os|;
      while i > 6
        invariant 0 <= i <= |os|
        invariant start + StackArgsCode(es, os) == code + StackArgsCode(es, os[..i])
      {
        assert os[..i][..i - 1] == os[..i - 1];
        ghost var before, one, rest := code, StackArgCode(es, os[i - 1]), StackArgsCode(es, os[..i - 1]);
        EmitStackArg(es, os[i - 1]);
        assert before + (one + rest) == (before + one) + rest;
        i := i - 1;
      }
      assert StackArgsCode(es, os[..i]) == [];
    }

    method EmitRegisterArgs(es: seq<Entry>, os: seq<I.Operand>)
      requires NoneMissing(os) && |os| <= 6
      modifies this
      ensures code == old(code) + RegisterArgsCode(es, os)
    {
      hide RegisterArgCode;
      ghost var start := code;
      var i := 0;
      while i < |os|
        invariant 0 <= i <= |os| && code == start + RegisterArgsCode(es, os)[..i]
      {
        Emit(RegisterArgCode(es, os[i], i));
        i := i + 1;
      }
    }

    method EmitArguments(es: seq<Entry>, os: seq<I.Operand>, padding: nat)
      requires NoneMissing(os) && padding == StackArgs(|os|) % 2
      modifies this
      ensures code == old(code) + ArgumentsCode(es, os)
    {
      hide StackArgsCode, RegisterArgsCode, StackArgs;
      ghost var start := code;
      if padding > 0 {
        Emit(SubRsp(8));
      }
      ghost var pad := if padding > 0 then [SubRsp(8)] else [];
      assert code == start + pad;
      EmitStackArgs(es, os);
      ghost var pushed := StackArgsCode(es, os);
      EmitRegisterArgs(es, FirstSix(os));
      ThreeParts(start, pad, pushed, RegisterArgsCode(es, FirstSix(os)));
    }

    method EmitCall(es: seq<Entry>, os: seq<I.Operand>, dst: I.Operand, f: string)
      requires NoneMissing(os)
      modifies this
      ensures code == old(code) + CallCode(es, os, dst, f)
    {
      hide ArgumentsCode, AfterCallCode, CallBytes;
      ghost var start := code;
      var stackArgs := if |os| > 6 then |os| - 6 else 0;
      var padding := stackArgs % 2;
      CallBytesAre(|os|, stackArgs, padding);
      EmitArguments(es, os, padding);
      Emit(CallI(f));
      assert code == start + (ArgumentsCode(es, os) + [CallI(f)]);
      EmitAfterCall(es, os, dst, stackArgs, padding);
      assert code == start + (ArgumentsCode(es, os) + [CallI(f)] + AfterCallCode(es, os, dst));
    }

    method EmitAfterCall(es: seq<Entry>, os: seq<I.Operand>, dst: I.Operand, stackArgs: nat, padding: nat)
      requires (stackArgs + padding) * 8 == CallBytes(|os|)
      modifies this
      ensures code == old(code) + AfterCallCode(es, os, dst)
    {
      hide Operand, Acc, CallBytes;
      if stackArgs + padding > 0 {
        Emit(AddRsp((stackArgs + padding) * 8));
      }
      if !dst.NoOperand? {
        Emit(Mov(Operand(es, dst), Acc(SizeOf(dst))));
      }
    }

    // -------------------------------------------------------------- operation lists

    method EmitBin(es: seq<Entry>, op: BinaryOp, dst: I.Operand, a: I.Operand, b: I.Operand)
      requires !dst.NoOperand? && !a.NoOperand? && !b.NoOperand?
      modifies this
      ensures code == old(code) + BinCode(es, op, dst, a, b)
    {
      hide BinaryCode, MultCode, DivCode, ShiftCode, RelationalCode;
      match op
      case Add => EmitBinary(es, ADD, dst, a, b);
      case Sub => EmitBinary(es, SUB, dst, a, b);
      case Mul => EmitMult(es, dst, a, b);
      case Div => EmitDiv(es, dst, a, b);
      case BitAnd | LogAnd => EmitBinary(es, AND, dst, a, b);
      case BitOr | LogOr => EmitBinary(es, OR, dst, a, b);
      case BitXor => EmitBinary(es, XOR, dst, a, b);
      case Shr => EmitShift(es, if IsSigned(dst.t) then SAR else SHR, dst, a, b);
      case Shl => EmitShift(es, SHL, dst, a, b);
      case Eq | Ne | Lt | Le | Gt | Ge => EmitRelational(es, op, dst, a, b);
    }

    /** One operation, with the operands collected since the last CALL. */
    method EmitOperation(es: seq<Entry>, pending: seq<I.Operand>, op: I.Operation)
      requires Complete(op) && NoneMissing(pending)
      modifies this
      ensures code == old(code) + OpCode(es, pending, op)
    {
      hide BinCode, NegCode, NotCode, AssignCode, ConvertCode, JumpIfFalseCode, ReturnCode, CallCode;
      match op
      case Bin(b, dst, x, y) => EmitBin(es, b, dst, x, y);
      case Un(u, dst, a) =>
        if u.Negate? {
          EmitNeg(es, dst, a);
        } else {
          EmitNot(es, u, dst, a);
        }
      case Assign(dst, a) => EmitAssign(es, dst, a);
      case CastTo(dst, a) => EmitConvert(es, dst, a);
      case Label(l) => Emit(LabelI(l));
      case JumpIfFalse(l, cond) => EmitJumpIfFalse(es, l, cond);
      case Jump(l) => Emit(Jmp(l));
      case Return(a) => EmitReturn(es, a);
      case Param(_) =>
      case Call(dst, f) => EmitCall(es, pending, dst, f);
    }

    /** The operation loop: operands of PARAMs pile up in `params`, and a CALL empties it. */
    method EmitOperations(es: seq<Entry>, ops: seq<I.Operation>)
      requires AllComplete(ops)
      modifies this
      ensures code == old(code) + OpsCode(es, [], ops)
    {
      hide OpCode, NextPending, Complete;
      ghost var start := code;
      var params: seq<I.Operand> := [];
      var i := 0;
      while i < |ops|
        invariant 0 <= i <= |ops| && NoneMissing(params)
        invariant start + OpsCode(es, [], ops) == code + OpsCode(es, params, ops[i..])
      {
        assert ops[i..][0] == ops[i] && ops[i..][1..] == ops[i + 1..];
        NextPresent(params, ops[i]);
        ghost var before, one, rest := code, OpCode(es, params, ops[i]),
          OpsCode(es, NextPending(params, ops[i]), ops[i + 1..]);
        EmitOperation(es, params, ops[i]);
        assert before + (one + rest) == (before + one) + rest;
        params := Collected(params, ops[i]);
        i := i + 1;
      }
      assert OpsCode(es, params, ops[i..]) == [];
    }

    method EmitParameters(es: seq<Entry>, params: seq<I.IrParam>)
      modifies this
      ensures code == old(code) + ParamsCode(es, params, |params|)
    {
      hide Operand, Acc;
      ghost var start := code;
      var i := 0;
      while i < |params|
        invariant 0 <= i <= |params| && code == start + ParamsCode(es, params, i)
      {
        var size := WidthBytes(params[i].t);
        var slot := Operand(es, ParamOperand(params[i]));
        ghost var before := code;
        if i < 6 {
          Emit(Mov(slot, R(ArgumentRegister(i), RegisterSize(size))));
        } else {
          Emit(Mov(Acc(size), M(RegisterSize(size), 16 + (i - 6) * 8)));
          Emit(Mov(slot, Acc(size)));
        }
        assert code == before + ParamCode(es, params[i], i);
        i := i + 1;
      }
    }

    /** A function: its layout, the prologue, the stores of its parameters, its operations. */
    method EmitFunction(f: I.IrFunction)
      requires AllComplete(f.operations)
      modifies this
      ensures code == old(code) + if |f.operations| == 0 then [] else FunctionCode(f)
    {
      hide OpsCode, ParamsCode, Layout, FrameSize;
      if |f.operations| == 0 {
        return;
      }
      ghost var start := code;
      var layout := new StackMap();
      layout.Populate(f.params, f.operations);
      var es := layout.entries;
      Emit(PushRbp);
      Emit(MovRbpRsp);
      var frame := layout.FrameBytes();
      Emit(SubRsp(frame));
      assert code == start + [PushRbp, MovRbpRsp, SubRsp(FrameSize(es))];
      EmitParameters(es, f.params);
      EmitOperations(es, f.operations);
    }
  }

  lemma CallBytesAre(n: nat, stackArgs: nat, padding: nat)
    requires stackArgs == StackArgs(n) && padding == stackArgs % 2
    ensures (stackArgs + padding) * 8 == CallBytes(n)
  {}

  lemma NextPresent(pending: seq<I.Operand>, op: I.Operation)
    requires NoneMissing(pending) && Complete(op)
    ensures NoneMissing(NextPending(pending, op)) && NextPending(pending, op) == Collected(pending, op)
  {}

  function Collected(pending: seq<I.Operand>, op: I.Operation): seq<I.Operand> {
    if op.Param? then pending + [op.a] else if op.Call? then [] else pending
  }

  /** All functions of a program, in order. */
  method GenerateCode(p: I.IrProgram) returns (functions: seq<MachineFunction>)
    requires ProgramComplete(p)
    ensures functions == ProgramCode(p)
  {
    hide FunctionCode, AllComplete;
    functions := [];
    var i := 0;
    while i < |p|
      invariant 0 <= i <= |p| && functions + ProgramCode(p[i..]) == ProgramCode(p)
    {
      assert p[i..][0] == p[i] && p[i..][1..] == p[i + 1..];
      ghost var done, rest := functions, ProgramCode(p[i + 1..]);
      if |p[i].operations| > 0 {
        var e := new Emitter();
        e.EmitFunction(p[i]);
        var one := MachineFunction(p[i].name, e.code);
        assert e.code == FunctionCode(p[i]);
        functions := functions + [one];
        assert done + ([one] + rest) == functions + rest;
      }
      i := i + 1;
    }
  }
}
