/** Where the instructions of each operation are, and that labels and pending arguments of the
  * intermediate code and of the machine code correspond. */
module CodePlaces {
  import opened Arith
  import opened Machine
  import opened Frame
  import opened Codegen
  import opened MachineRun
  import opened IrTyping
  import I = Ir

  /** The operands of the PARAMs still waiting for their CALL when operation `pc` is reached. */
  function PendingAt(pending: seq<I.Operand>, ops: seq<I.Operation>, pc: nat): seq<I.Operand>
    requires pc <= |ops|
    decreases pc
  {
    if pc == 0 then pending else PendingAt(NextPending(pending, ops[0]), ops[1..], pc - 1)
  }

  /** How many instructions come before those of operation `pc`. */
  function CodeOffset(es: seq<Entry>, pending: seq<I.Operand>, ops: seq<I.Operation>, pc: nat): nat
    requires AllComplete(ops) && NoneMissing(pending) && pc <= |ops|
    decreases pc
  {
    if pc == 0 then 0
    else |OpCode(es, pending, ops[0])| + CodeOffset(es, NextPending(pending, ops[0]), ops[1..], pc - 1)
  }

  lemma {:induction false} PendingNext(pending: seq<I.Operand>, ops: seq<I.Operation>, pc: nat)
    requires pc < |ops|
    ensures PendingAt(pending, ops, pc + 1) == NextPending(PendingAt(pending, ops, pc), ops[pc])
    decreases pc
  {
    if pc > 0 {
      PendingNext(NextPending(pending, ops[0]), ops[1..], pc - 1);
    }
  }

  lemma {:induction false} PendingBound(pending: seq<I.Operand>, ops: seq<I.Operation>, pc: nat)
    requires pc <= |ops|
    ensures |PendingAt(pending, ops, pc)| <= |pending| + pc
    decreases pc
  {
    if pc > 0 {
      PendingBound(NextPending(pending, ops[0]), ops[1..], pc - 1);
    }
  }

  lemma {:induction false} PendingPresent(pending: seq<I.Operand>, ops: seq<I.Operation>, pc: nat)
    requires AllComplete(ops) && NoneMissing(pending) && pc <= |ops|
    ensures NoneMissing(PendingAt(pending, ops, pc))
    decreases pc
  {
    if pc > 0 {
      PendingPresent(NextPending(pending, ops[0]), ops[1..], pc - 1);
    }
  }

  lemma {:induction false} OpCodeAt(
    es: seq<Entry>, pending: seq<I.Operand>, ops: seq<I.Operation>, pc: nat, code: seq<Instr>, base: nat)
    requires AllComplete(ops) && NoneMissing(pending) && pc < |ops| && CodeAtX(code, base, OpsCode(es, pending, ops))
    ensures NoneMissing(PendingAt(pending, ops, pc))
    ensures var c := OpCode(es, PendingAt(pending, ops, pc), ops[pc]); var at := CodeOffset(es, pending, ops, pc);
            CodeAtX(code, base + at, c) && CodeOffset(es, pending, ops, pc + 1) == at + |c|
    decreases pc
  {
    hide OpCode, CodeAtX;
    var next := NextPending(pending, ops[0]);
    CodeAtSplitX(code, base, OpCode(es, pending, ops[0]), OpsCode(es, next, ops[1..]));
    if pc > 0 {
      OpCodeAt(es, next, ops[1..], pc - 1, code, base + |OpCode(es, pending, ops[0])|);
    } else {
      assert CodeOffset(es, next, ops[1..], 0) == 0;
    }
  }

  /** The pending operands are what the grouping of PARAMs before CALLs says. */
  lemma {:induction false} CollectedAt(ip: I.IrProgram, pending: seq<I.Operand>, ops: seq<I.Operation>, pc: nat)
    requires CollectAll(ip, pending, ops).Some? && pc < |ops|
    ensures Collect(ip, PendingAt(pending, ops, pc), ops[pc]).Some?
    decreases pc
  {
    hide CallFits;
    if pc > 0 {
      assert Collect(ip, pending, ops[0]) == Some(NextPending(pending, ops[0]));
      CollectedAt(ip, NextPending(pending, ops[0]), ops[1..], pc - 1);
    }
  }

  // ---------------------------------------------------------------- labels

  predicate NoLabels(code: seq<Instr>) {
    forall i :: 0 <= i < |code| ==> !code[i].LabelI?
  }

  lemma {:induction false} FindPast(a: seq<Instr>, b: seq<Instr>, l: nat)
    requires NoLabels(a) && FindLabelX(b, l).Some?
    ensures FindLabelX(a + b, l) == Some(|a| + FindLabelX(b, l).value)
  {
    if |a| == 0 {
      assert a + b == b;
    } else {
      assert (a + b)[1..] == a[1..] + b;
      FindPast(a[1..], b, l);
    }
  }

  lemma NoLabelsConcat(a: seq<Instr>, b: seq<Instr>)
    requires NoLabels(a) && NoLabels(b)
    ensures NoLabels(a + b)
  {}

  lemma {:induction false} StackArgsNoLabels(es: seq<Entry>, os: seq<I.Operand>)
    requires NoneMissing(os)
    ensures NoLabels(StackArgsCode(es, os))
    decreases |os|
  {
    if |os| > 6 {
      StackArgsNoLabels(es, os[..|os| - 1]);
      NoLabelsConcat(StackArgCode(es, os[|os| - 1]), StackArgsCode(es, os[..|os| - 1]));
    }
  }

  lemma CallNoLabels(es: seq<Entry>, os: seq<I.Operand>, dst: I.Operand, f: string)
    requires NoneMissing(os)
    ensures NoLabels(CallCode(es, os, dst, f))
  {
    hide StackArgsCode, Operand, CallBytes;
    StackArgsNoLabels(es, os);
    var pad := if StackArgs(|os|) % 2 > 0 then [SubRsp(8)] else [];
    NoLabelsConcat(pad, StackArgsCode(es, os));
    NoLabelsConcat(pad + StackArgsCode(es, os), RegisterArgsCode(es, FirstSix(os)));
    NoLabelsConcat(ArgumentsCode(es, os), [CallI(f)]);
    NoLabelsConcat(ArgumentsCode(es, os) + [CallI(f)], AfterCallCode(es, os, dst));
  }

  lemma BinNoLabels(es: seq<Entry>, op: BinaryOp, dst: I.Operand, a: I.Operand, b: I.Operand)
    requires !dst.NoOperand? && !a.NoOperand? && !b.NoOperand?
    ensures NoLabels(BinCode(es, op, dst, a, b))
  {
    hide NoLabels, BinaryCode, MultCode, DivCode, ShiftCode, RelationalCode;
    match op
    case Add | Sub | BitAnd | LogAnd | BitOr | LogOr | BitXor => AluNoLabels(es, dst, a, b);
    case Mul => MultNoLabels(es, dst, a, b);
    case Div => DivNoLabels(es, dst, a, b);
    case Shr | Shl => ShiftNoLabels(es, dst, a, b);
    case _ => RelationalNoLabels(es, op, dst, a, b);
  }

  lemma AluNoLabels(es: seq<Entry>, dst: I.Operand, a: I.Operand, b: I.Operand)
    requires !dst.NoOperand?
    ensures forall alu: AluOp :: NoLabels(BinaryCode(es, alu, dst, a, b))
  {
    hide Operand, Loaded, Acc, IsLarge, SizeOf;
  }

  lemma MultNoLabels(es: seq<Entry>, dst: I.Operand, a: I.Operand, b: I.Operand)
    requires !dst.NoOperand?
    ensures NoLabels(MultCode(es, dst, a, b))
  {
    hide Operand, Loaded, Acc, IsLarge, SizeOf;
  }

  lemma DivNoLabels(es: seq<Entry>, dst: I.Operand, a: I.Operand, b: I.Operand)
    requires !dst.NoOperand?
    ensures NoLabels(DivCode(es, dst, a, b))
  {
    hide Operand, Counter, Acc, IsLarge, SizeOf;
  }

  lemma ShiftNoLabels(es: seq<Entry>, dst: I.Operand, a: I.Operand, b: I.Operand)
    requires !dst.NoOperand? && !b.NoOperand?
    ensures forall op: ShiftOp :: NoLabels(ShiftCode(es, op, dst, a, b))
  {
    hide Operand, Counter, Acc, IsLarge, SizeOf;
  }

  lemma RelationalNoLabels(es: seq<Entry>, op: BinaryOp, dst: I.Operand, a: I.Operand, b: I.Operand)
    requires IsRelational(op) && !a.NoOperand?
    ensures NoLabels(RelationalCode(es, op, dst, a, b))
  {
    hide Operand, Loaded, Acc, IsLarge, SizeOf, Condition;
  }

  lemma OpNoLabels(es: seq<Entry>, pending: seq<I.Operand>, op: I.Operation)
    requires Complete(op) && NoneMissing(pending) && !op.Label?
    ensures NoLabels(OpCode(es, pending, op))
  {
    hide Operand, BinCode, CallCode, Acc, SizeOf;
    match op
    case Bin(b, dst, x, y) => BinNoLabels(es, b, dst, x, y);
    case Call(dst, f) => CallNoLabels(es, pending, dst, f);
    case _ =>
  }

  /** A label of the intermediate code is found at the instructions of its operation. */
  lemma {:induction false} LabelAt(es: seq<Entry>, pending: seq<I.Operand>, ops: seq<I.Operation>, l: nat)
    requires AllComplete(ops) && NoneMissing(pending) && I.FindLabel(ops, l).Some?
    ensures FindLabelX(OpsCode(es, pending, ops), l) == Some(CodeOffset(es, pending, ops, I.FindLabel(ops, l).value))
    decreases |ops|
  {
    hide OpCode;
    var first, next := OpCode(es, pending, ops[0]), NextPending(pending, ops[0]);
    var rest := OpsCode(es, next, ops[1..]);
    if ops[0].Label? {
      LabelCode(es, pending, ops[0].target);
      assert (first + rest)[1..] == rest;
    }
    if ops[0] != I.Label(l) {
      LabelAt(es, next, ops[1..], l);
      if !ops[0].Label? {
        OpNoLabels(es, pending, ops[0]);
        FindPast(first, rest, l);
      }
    }
  }

  lemma LabelCode(es: seq<Entry>, pending: seq<I.Operand>, l: nat)
    requires NoneMissing(pending)
    ensures OpCode(es, pending, I.Label(l)) == [LabelI(l)]
  {}

  // ---------------------------------------------------------------- whole functions

  function Prologue(f: I.IrFunction): seq<Instr> {
    var es := Layout(f.params, f.operations).entries;
    [PushRbp, MovRbpRsp, SubRsp(FrameSize(es))] + ParamsCode(es, f.params, |f.params|)
  }

  lemma {:induction false} ParamsNoLabels(es: seq<Entry>, params: seq<I.IrParam>, n: nat)
    requires n <= |params|
    ensures NoLabels(ParamsCode(es, params, n))
  {
    if n > 0 {
      ParamsNoLabels(es, params, n - 1);
      NoLabelsConcat(ParamsCode(es, params, n - 1), ParamCode(es, params[n - 1], n - 1));
    }
  }

  /** A jump lands where the operation it targets begins. */
  lemma JumpLands(f: I.IrFunction, l: nat)
    requires AllComplete(f.operations) && I.FindLabel(f.operations, l).Some?
    ensures var es := Layout(f.params, f.operations).entries;
            FindLabelX(FunctionCode(f), l) ==
            Some(|Prologue(f)| + CodeOffset(es, [], f.operations, I.FindLabel(f.operations, l).value))
  {
    hide Layout, Prologue, FunctionCode, OpsCode, NoLabels;
    var es := Layout(f.params, f.operations).entries;
    LabelAt(es, [], f.operations, l);
    PrologueNoLabels(f);
    FindPast(Prologue(f), OpsCode(es, [], f.operations), l);
  }

  lemma PrologueNoLabels(f: I.IrFunction)
    ensures NoLabels(Prologue(f))
    ensures AllComplete(f.operations) ==>
              FunctionCode(f) == Prologue(f) + OpsCode(Layout(f.params, f.operations).entries, [], f.operations)
  {
    hide Layout, FrameSize, ParamsCode, OpsCode;
    var es := Layout(f.params, f.operations).entries;
    ParamsNoLabels(es, f.params, |f.params|);
    NoLabelsConcat([PushRbp, MovRbpRsp, SubRsp(FrameSize(es))], ParamsCode(es, f.params, |f.params|));
  }

  /** Declarations have no operations. */
  predicate DeclarationsEmpty(p: I.IrProgram) {
    forall i :: 0 <= i < |p| ==> (p[i].defined || p[i].operations == [])
  }

  lemma {:induction false} LookupCode(p: I.IrProgram, f: string)
    requires ProgramComplete(p) && DeclarationsEmpty(p)
    requires I.LookupIr(p, f).Some? && |I.LookupIr(p, f).value.operations| > 0
    ensures AllComplete(I.LookupIr(p, f).value.operations)
    ensures LookupX(ProgramCode(p), f) == Some(MachineFunction(f, FunctionCode(I.LookupIr(p, f).value)))
  {
    hide FunctionCode, Complete;
    var first := if |p[0].operations| == 0 then [] else [MachineFunction(p[0].name, FunctionCode(p[0]))];
    if !(p[0].name == f && p[0].defined) {
      forall i | 0 <= i < |p[1..]| ensures p[1..][i] == p[i + 1] {}
      LookupCode(p[1..], f);
      if |first| > 0 {
        assert (first + ProgramCode(p[1..]))[1..] == ProgramCode(p[1..]);
      } else {
        assert first + ProgramCode(p[1..]) == ProgramCode(p[1..]);
      }
    }
  }
}
