/** Code generation preserves meaning: when the intermediate code of a function returns a value,
  * its machine code returns the pattern of that value, puts `rsp` and `rbp` back, and leaves the
  * caller's memory alone. Every call of the run is made with `rsp` on a 16-byte boundary. */
module CodegenRun {
  import opened Values
  import opened Arith
  import opened Names
  import opened Memory
  import opened Machine
  import opened MachineArith
  import opened MachineRun
  import opened Frame
  import opened Codegen
  import opened CodegenOps
  import opened IrTyping
  import opened Slots
  import opened CodegenSim
  import opened CodePlaces
  import opened CodegenCalls
  import IrShape
  import I = Ir

  /** Every function with a body is typed and has at most 10^14 temporaries. */
  ghost predicate Shaped(ip: I.IrProgram, gs: seq<Places>, ks: seq<nat>) {
    |gs| == |ip| && |ks| == |ip| &&
    forall i :: 0 <= i < |ip| ==>
      if ip[i].defined then FunctionTyped(ip, gs[i], ks[i], ip[i]) && ks[i] <= Power10(14) else ip[i].operations == []
  }

  lemma ShapedIsComplete(ip: I.IrProgram, gs: seq<Places>, ks: seq<nat>)
    requires Shaped(ip, gs, ks)
    ensures ProgramComplete(ip) && DeclarationsEmpty(ip)
  {
    hide CollectAll, NamesOk, OpTyped, ParamsTyped;
    forall i | 0 <= i < |ip| ensures AllComplete(ip[i].operations) {
      if ip[i].defined {
        IrShape.TypedIsComplete(gs[i], ks[i], ip[i].ret, ip[i].operations);
      }
    }
  }

  // ---------------------------------------------------------------- stack space

  /** Stack one activation takes: the return address, the saved `rbp`, the frame, and at most one
    * word for each operation that is an argument. */
  function FunctionStack(f: I.IrFunction): nat {
    24 + FrameSize(Layout(f.params, f.operations).entries) + 8 * |f.operations|
  }

  function StackNeed(ip: I.IrProgram): nat {
    if |ip| == 0 then 0
    else if FunctionStack(ip[0]) > StackNeed(ip[1..]) then FunctionStack(ip[0]) else StackNeed(ip[1..])
  }

  lemma {:induction false} LookupIndexIr(ip: I.IrProgram, f: string) returns (i: nat)
    requires I.LookupIr(ip, f).Some?
    ensures i < |ip| && ip[i] == I.LookupIr(ip, f).value && ip[i].defined
    ensures FunctionStack(ip[i]) <= StackNeed(ip)
  {
    hide FunctionStack;
    if ip[0].name == f && ip[0].defined {
      i := 0;
    } else {
      i := LookupIndexIr(ip[1..], f);
      i := i + 1;
    }
  }

  // ---------------------------------------------------------------- a running function

  function Act(f: I.IrFunction, g: Places, entry: State): Activation {
    var es := Layout(f.params, f.operations).entries;
    Activation(es, Used(g, f), FrameSize(es), entry)
  }

  /** Where the instructions of operation `pc` begin. */
  function Where(f: I.IrFunction, pc: nat): nat
    requires AllComplete(f.operations) && pc <= |f.operations|
  {
    |Prologue(f)| + CodeOffset(Layout(f.params, f.operations).entries, [], f.operations, pc)
  }

  /** The machine state stands for a point of the run of the intermediate code. */
  ghost predicate Running(f: I.IrFunction, g: Places, k: nat, entry: State, pc: nat, st: I.Store, args: seq<int>,
      s: State) {
    var a := Act(f, g, entry);
    pc <= |f.operations| && Framed(a, st, s) && Reads(a.g, k, PendingAt([], f.operations, pc), st, args)
  }

  lemma CodeOfOp(f: I.IrFunction, pc: nat)
    requires AllComplete(f.operations) && pc < |f.operations|
    ensures NoneMissing(PendingAt([], f.operations, pc))
    ensures var es := Layout(f.params, f.operations).entries;
            var c := OpCode(es, PendingAt([], f.operations, pc), f.operations[pc]);
            CodeAtX(FunctionCode(f), Where(f, pc), c) && Where(f, pc + 1) == Where(f, pc) + |c|
  {
    hide OpCode, OpsCode, CodeAtX, Layout, FrameSize, ParamsCode;
    var es := Layout(f.params, f.operations).entries;
    WholeCodeAt(f);
    OpCodeAt(es, [], f.operations, pc, FunctionCode(f), |Prologue(f)|);
  }

  lemma WholeCodeAt(f: I.IrFunction)
    requires AllComplete(f.operations)
    ensures var es := Layout(f.params, f.operations).entries;
            FunctionCode(f) == Prologue(f) + OpsCode(es, [], f.operations) &&
            CodeAtX(FunctionCode(f), 0, Prologue(f)) &&
              CodeAtX(FunctionCode(f), |Prologue(f)|, OpsCode(es, [], f.operations))
  {
    hide OpsCode, Layout, FrameSize, ParamsCode;
    var es := Layout(f.params, f.operations).entries;
    CodeAtSplitX(FunctionCode(f), 0, Prologue(f), OpsCode(es, [], f.operations));
  }

  /** Outside the collection of arguments nothing is pending. */
  lemma NothingPending(ip: I.IrProgram, g: Places, k: nat, f: I.IrFunction, pc: nat)
    requires FunctionTyped(ip, g, k, f) && pc < |f.operations| && !f.operations[pc].Param? && !f.operations[pc].Call?
    ensures PendingAt([], f.operations, pc) == [] && PendingAt([], f.operations, pc + 1) == []
  {
    hide ParamsTyped, OpsTyped, NamesOk, CollectAll;
    CollectedAt(ip, [], f.operations, pc);
    PendingNext([], f.operations, pc);
  }

  /** The run of one block leads from one operation to the next. */
  lemma BlockStep(
    p: seq<MachineFunction>, f: I.IrFunction, back: Word, pc: nat, s: State, s': State)
    requires AllComplete(f.operations) && pc < |f.operations| && NoneMissing(PendingAt([], f.operations, pc))
    requires ExecBlock(OpCode(Layout(f.params, f.operations).entries, PendingAt([], f.operations, pc),
                              f.operations[pc]), s) == Some(s')
    ensures ReachesX(p, FunctionCode(f), back, AtX(Where(f, pc), s), AtX(Where(f, pc + 1), s'))
  {
    hide OpCode, CodeAtX, Layout, ReachesX, ExecBlock, Where, FunctionCode;
    CodeOfOp(f, pc);
    RunBlock(p, FunctionCode(f), back, Where(f, pc),
             OpCode(Layout(f.params, f.operations).entries, PendingAt([], f.operations, pc), f.operations[pc]), s);
  }

  // ---------------------------------------------------------------- operations without calls

  lemma ComputeSim(
    ip: I.IrProgram, g: Places, k: nat, f: I.IrFunction, a: Activation, pc: nat, st: I.Store, s: State, st': I.Store)
    returns (s': State)
    requires FunctionTyped(ip, g, k, f) && pc < |f.operations| && IsCompute(f.operations[pc]) && a.g == Used(g, f) &&
             Framed(a, st, s)
    requires I.Step(ip, f.operations, I.NO_CALLS, I.At(pc, st, [])) == Some(I.At(pc + 1, st', []))
    ensures Complete(f.operations[pc]) && NoneMissing([])
    ensures ExecBlock(OpCode(a.es, [], f.operations[pc]), s) == Some(s') && Framed(a, st', s')
  {
    hide FunctionTyped, Framed, Used, OperandTyped, Apply, ApplyUnary, Convert, I.Read, I.Write, BinCode, NegCode,
         NotCode, AssignCode, ConvertCode, ExecBlock, PlainImmediate;
    var op := f.operations[pc];
    OpUsedTyped(ip, g, k, f, pc);
    match op
    case Bin(_, _, _, _) => s' := BinSim(a, k, f.ret, st, s, op);
    case Un(u, _, _) => s' := UnSim(a, k, f.ret, st, s, op);
    case Assign(dst, x) =>
      WritableIsScalar(a.g, k, dst);
      WidensCastable(x.t, dst.t);
      s' := AssignSim(a, k, st, s, dst, x);
    case CastTo(dst, x) => s' := ConvertSim(a, k, st, s, dst, x);
  }

  lemma WritableIsScalar(g: Places, k: nat, o: I.Operand)
    requires Writable(g, k, o)
    ensures IsScalar(o.t)
  {}

  lemma WidensCastable(from: ValueType, t: ValueType)
    requires Widens(from, t) && IsScalar(t)
    ensures Castable(from, t)
  {}

  /** Operations that neither compute nor call nor return. */
  lemma ParamStep(
    ip: I.IrProgram, g: Places, k: nat, f: I.IrFunction, entry: State, pc: nat, st: I.Store, args: seq<int>, s: State)
    requires FunctionTyped(ip, g, k, f) && Running(f, g, k, entry, pc, st, args, s)
    requires pc < |f.operations| && f.operations[pc].Param? && I.Read(f.operations[pc].a, st).Some?
    ensures Running(f, g, k, entry, pc + 1, st, args + [I.Read(f.operations[pc].a, st).value], s)
  {
    hide FunctionTyped, Framed, Used, OperandTyped, I.Read, Layout;
    OpUsedTyped(ip, g, k, f, pc);
    PendingNext([], f.operations, pc);
  }

  /** What one operation of a run leads to on the machine. */
  ghost predicate Follows(
    p: seq<MachineFunction>, f: I.IrFunction, g: Places, k: nat, entry: State, back: Word, pc: nat, s: State,
    c: I.Config, s': State)
    requires AllComplete(f.operations) && pc <= |f.operations| && c.At?
  {
    Running(f, g, k, entry, c.pc, c.st, c.args, s') &&
    ReachesX(p, FunctionCode(f), back, AtX(Where(f, pc), s), AtX(Where(f, c.pc), s'))
  }

  predicate IsSimple(op: I.Operation) {
    IsCompute(op) || op.Param? || op.Label?
  }

  lemma SimpleStep(
    ip: I.IrProgram, p: seq<MachineFunction>, g: Places, k: nat, f: I.IrFunction, entry: State, back: Word,
    bounds: I.Bounds, pc: nat, st: I.Store, args: seq<int>, s: State)
    returns (s': State)
    requires FunctionTyped(ip, g, k, f) && AllComplete(f.operations) && Running(f, g, k, entry, pc, st, args, s)
    requires pc < |f.operations| && IsSimple(f.operations[pc])
    requires I.Step(ip, f.operations, bounds, I.At(pc, st, args)).Some?
    ensures I.Step(ip, f.operations, bounds, I.At(pc, st, args)).value.At?
    ensures Follows(p, f, g, k, entry, back, pc, s, I.Step(ip, f.operations, bounds, I.At(pc, st, args)).value, s')
  {
    hide FunctionTyped, Framed, OpCode, ReachesX, ExecBlock, Where, FunctionCode, Layout, I.Step, FrameSize, Used;
    var op, c := f.operations[pc], I.Step(ip, f.operations, bounds, I.At(pc, st, args)).value;
    var a := Act(f, g, entry);
    CodeOfOp(f, pc);
    if op.Param? {
      s' := s;
      ParamShape(ip, f, bounds, pc, st, args);
      ParamStep(ip, g, k, f, entry, pc, st, args, s);
      ParamCodeEmpty(a.es, PendingAt([], f.operations, pc), op, s);
    } else {
      NothingPending(ip, g, k, f, pc);
      StraightShape(ip, f, bounds, pc, st, args);
      if op.Label? {
        s' := s;
        LabelRuns(a.es, op, s);
      } else {
        s' := ComputeSim(ip, g, k, f, a, pc, st, s, c.st);
      }
    }
    BlockStep(p, f, back, pc, s, s');
  }

  lemma ParamShape(ip: I.IrProgram, f: I.IrFunction, bounds: I.Bounds, pc: nat, st: I.Store, args: seq<int>)
    requires pc < |f.operations| && f.operations[pc].Param? &&
             I.Step(ip, f.operations, bounds, I.At(pc, st, args)).Some?
    ensures I.Read(f.operations[pc].a, st).Some?
    ensures I.Step(ip, f.operations, bounds, I.At(pc, st, args)) ==
            Some(I.At(pc + 1, st, args + [I.Read(f.operations[pc].a, st).value]))
  {
    hide I.Read;
  }

  lemma StraightShape(ip: I.IrProgram, f: I.IrFunction, bounds: I.Bounds, pc: nat, st: I.Store, args: seq<int>)
    requires pc < |f.operations| && (IsCompute(f.operations[pc]) || f.operations[pc].Label?)
    requires I.Step(ip, f.operations, bounds, I.At(pc, st, args)).Some?
    ensures var c := I.Step(ip, f.operations, bounds, I.At(pc, st, args)).value;
            c.At? && c.pc == pc + 1 && c.args == args && (f.operations[pc].Label? ==> c.st == st) &&
            I.Step(ip, f.operations, I.NO_CALLS, I.At(pc, st, args)) == Some(c)
  {
    hide I.Read, I.Write, Apply, ApplyUnary, Convert;
  }

  lemma ParamCodeEmpty(es: seq<Entry>, pending: seq<I.Operand>, op: I.Operation, s: State)
    requires op.Param? && Complete(op) && NoneMissing(pending)
    ensures ExecBlock(OpCode(es, pending, op), s) == Some(s)
  {}

  lemma LabelRuns(es: seq<Entry>, op: I.Operation, s: State)
    requires op.Label? && NoneMissing([])
    ensures ExecBlock(OpCode(es, [], op), s) == Some(s)
  {
    Exec1(LabelI(op.target), s);
  }

  // ---------------------------------------------------------------- jumps

  lemma Landing(ip: I.IrProgram, p: seq<MachineFunction>, g: Places, k: nat, f: I.IrFunction, entry: State, back: Word,
      l: nat,
                at: nat, st: I.Store, s: State)
    requires FunctionTyped(ip, g, k, f) && AllComplete(f.operations) && Framed(Act(f, g, entry), st, s)
    requires I.FindLabel(f.operations, l).Some?
    ensures var j := I.FindLabel(f.operations, l).value;
            Running(f, g, k, entry, j, st, [], s) && GoX(FunctionCode(f), l, s) == Some(AtX(Where(f, j), s))
  {
    hide FunctionTyped, Framed, OpCode, Layout, Used, FunctionCode, FrameSize;
    var j := I.FindLabel(f.operations, l).value;
    NothingPending(ip, g, k, f, j);
    JumpLands(f, l);
  }

  /** `Jump` and a branch of `JumpIfFalse` go to the same operation in both codes. */
  lemma JumpStep(
    ip: I.IrProgram, p: seq<MachineFunction>, g: Places, k: nat, f: I.IrFunction, entry: State, back: Word,
    bounds: I.Bounds, pc: nat, st: I.Store, args: seq<int>, s: State)
    returns (s': State)
    requires FunctionTyped(ip, g, k, f) && AllComplete(f.operations) && Running(f, g, k, entry, pc, st, args, s)
    requires pc < |f.operations| && f.operations[pc].Jump?
    requires I.Step(ip, f.operations, bounds, I.At(pc, st, args)).Some?
    ensures I.Step(ip, f.operations, bounds, I.At(pc, st, args)).value.At?
    ensures Follows(p, f, g, k, entry, back, pc, s, I.Step(ip, f.operations, bounds, I.At(pc, st, args)).value, s')
  {
    hide FunctionTyped, Framed, ReachesX, Where, FunctionCode, Layout, FrameSize, Used, Exec;
    var l := f.operations[pc].target;
    NothingPending(ip, g, k, f, pc);
    Landing(ip, p, g, k, f, entry, back, l, pc, st, s);
    CodeOfOp(f, pc);
    s' := s;
    JumpCode(p, f, back, pc, s);
  }

  lemma JumpCode(p: seq<MachineFunction>, f: I.IrFunction, back: Word, pc: nat, s: State)
    requires AllComplete(f.operations) && pc < |f.operations| && f.operations[pc].Jump?
    requires GoX(FunctionCode(f), f.operations[pc].target, s).Some?
    ensures ReachesX(p, FunctionCode(f), back, AtX(Where(f, pc), s),
                     GoX(FunctionCode(f), f.operations[pc].target, s).value)
  {
    hide ReachesX, Where, FunctionCode, Layout, Exec;
    CodeOfOp(f, pc);
    var es := Layout(f.params, f.operations).entries;
    var code := OpCode(es, PendingAt([], f.operations, pc), f.operations[pc]);
    assert code == [Jmp(f.operations[pc].target)];
    assert FunctionCode(f)[Where(f, pc) + 0] == code[0];
    ReachesStepX(p, FunctionCode(f), back, 0, AtX(Where(f, pc), s),
                 GoX(FunctionCode(f), f.operations[pc].target, s).value);
  }

  /** The comparison before a conditional jump sets the zero flag exactly when the condition is false. */
  lemma TestSim(a: Activation, k: nat, cond: I.Operand, st: I.Store, s: State) returns (s': State)
    requires Framed(a, st, s) && Present(a.g, k, cond) && cond.t.Bool? && I.Read(cond, st).Some?
    ensures ExecBlock([Mov(Acc(SizeOf(cond)), Operand(a.es, cond)), Cmp(Acc(SizeOf(cond)), Imm(0))], s) == Some(s')
    ensures s'.flags.Flags? && s'.flags.zf == (I.Read(cond, st).value == 0) && Framed(a, st, s')
  {
    hide Framed, ReadArg, Operand, WriteBack, ExecBlock, I.Read, OperandTyped, Get;
    var x := I.Read(cond, st).value;
    OperandRead(a, k, cond, st, s);
    OperandArg(a.es, cond, 1);
    MovRegister(s, RAX, 1, Operand(a.es, cond));
    var s1 := Exec(Mov(R(RAX, 1), Operand(a.es, cond)), s).value;
    CompareZero(s1, x);
    s' := Exec(Cmp(R(RAX, 1), Imm(0)), s1).value;
    Exec2(Mov(R(RAX, 1), Operand(a.es, cond)), Cmp(R(RAX, 1), Imm(0)), s);
    FramedSame(a, st, s, s');
  }

  lemma CompareZero(s: State, x: int)
    requires InRange(Bool, x) && ReadArg(s, R(RAX, 1), 1) == Encode(Bool, x)
    ensures var s' := Exec(Cmp(R(RAX, 1), Imm(0)), s);
            s'.Some? && SameMemory(s, s'.value) && s'.value.flags.Flags? && s'.value.flags.zf == (x == 0)
  {
    EncodeSmall(Bool, x);
  }

  lemma BranchCode(p: seq<MachineFunction>, f: I.IrFunction, back: Word, pc: nat, s: State, s': State)
    requires AllComplete(f.operations) && pc < |f.operations| && f.operations[pc].JumpIfFalse? && s'.flags.Flags?
    requires var cond := f.operations[pc].cond; var es := Layout(f.params, f.operations).entries;
             ExecBlock([Mov(Acc(SizeOf(cond)), Operand(es, cond)), Cmp(Acc(SizeOf(cond)), Imm(0))], s) == Some(s')
    ensures s'.flags.zf && GoX(FunctionCode(f), f.operations[pc].target, s').Some? ==>
            ReachesX(p, FunctionCode(f), back, AtX(Where(f, pc), s),
                     GoX(FunctionCode(f), f.operations[pc].target, s').value)
    ensures !s'.flags.zf ==> ReachesX(p, FunctionCode(f), back, AtX(Where(f, pc), s), AtX(Where(f, pc + 1), s'))
  {
    hide ReachesX, Where, FunctionCode, Layout, Exec, ExecBlock, Operand, GoX, Acc, SizeOf, CodeAtX;
    var op := f.operations[pc];
    CodeOfOp(f, pc);
    var es := Layout(f.params, f.operations).entries;
    var test := [Mov(Acc(SizeOf(op.cond)), Operand(es, op.cond)), Cmp(Acc(SizeOf(op.cond)), Imm(0))];
    var w, code := Where(f, pc), FunctionCode(f);
    assert OpCode(es, PendingAt([], f.operations, pc), op) == test + [Je(op.target)];
    CodeAtSplitX(code, w, test, [Je(op.target)]);
    RunBlock(p, code, back, w, test, s);
    InstructionAt(code, w + 2, Je(op.target));
    var c1 := AtX(w + 2, s');
    if s'.flags.zf {
      if GoX(code, op.target, s').Some? {
        ReachesStepX(p, code, back, 0, c1, GoX(code, op.target, s').value);
        ReachesJoinX(p, code, back, AtX(w, s), c1, GoX(code, op.target, s').value);
      }
    } else {
      ReachesStepX(p, code, back, 0, c1, AtX(w + 3, s'));
      ReachesJoinX(p, code, back, AtX(w, s), c1, AtX(w + 3, s'));
    }
  }

  lemma InstructionAt(code: seq<Instr>, pc: nat, i: Instr)
    requires CodeAtX(code, pc, [i])
    ensures pc < |code| && code[pc] == i
  {
    assert code[pc + 0] == [i][0];
  }

  lemma BranchStep(
    ip: I.IrProgram, p: seq<MachineFunction>, g: Places, k: nat, f: I.IrFunction, entry: State, back: Word,
    bounds: I.Bounds, pc: nat, st: I.Store, args: seq<int>, s: State)
    returns (s': State)
    requires FunctionTyped(ip, g, k, f) && AllComplete(f.operations) && Running(f, g, k, entry, pc, st, args, s)
    requires pc < |f.operations| && f.operations[pc].JumpIfFalse?
    requires I.Step(ip, f.operations, bounds, I.At(pc, st, args)).Some?
    ensures I.Step(ip, f.operations, bounds, I.At(pc, st, args)).value.At?
    ensures Follows(p, f, g, k, entry, back, pc, s, I.Step(ip, f.operations, bounds, I.At(pc, st, args)).value, s')
  {
    hide FunctionTyped, Framed, ReachesX, Where, FunctionCode, Layout, FrameSize, Used, Exec, ExecBlock, I.Read,
         OperandTyped, Operand, GoX, Acc, SizeOf;
    var op := f.operations[pc];
    NothingPending(ip, g, k, f, pc);
    OpUsedTyped(ip, g, k, f, pc);
    var a := Act(f, g, entry);
    s' := TestSim(a, k, op.cond, st, s);
    BranchCode(p, f, back, pc, s, s');
    if I.Read(op.cond, st).value == 0 {
      Landing(ip, p, g, k, f, entry, back, op.target, pc, st, s');
    }
  }

  // ---------------------------------------------------------------- return

  lemma LeaveSim(a: Activation, st: I.Store, s: State) returns (s': State)
    requires Framed(a, st, s) && a.entry.rsp + 8 < Modulus(8)
    ensures ExecBlock([MovRspRbp, PopRbp], s) == Some(s')
    ensures s'.rsp == a.entry.rsp && s'.rbp == a.entry.rbp && s'.mem == s.mem && s'.rax == s.rax
  {
    hide LayoutOk, InFrame, Load, SameAbove;
    Exec2(MovRspRbp, PopRbp, s);
    s' := Exec(PopRbp, Exec(MovRspRbp, s).value).value;
  }

  lemma ResultInRax(a: Activation, k: nat, ret: ValueType, x: I.Operand, st: I.Store, s: State) returns (s': State)
    requires Framed(a, st, s) && OpTyped(a.g, k, ret, I.Return(x)) && I.Read(x, st).Some?
    ensures ExecBlock(if x.NoOperand? then [] else [Mov(Acc(SizeOf(x)), Operand(a.es, x))], s) == Some(s') &&
            Framed(a, st, s')
    ensures !x.NoOperand? ==> Exec(Mov(Acc(SizeOf(x)), Operand(a.es, x)), s) == Some(s')
    ensures !ret.Void? ==> InRange(ret, I.Read(x, st).value) &&
                           ReadArg(s', R(RAX, WidthBytes(ret)), WidthBytes(ret)) == Encode(ret, I.Read(x, st).value)
  {
    hide Framed, InRange, Encode, ReadArg, Operand, WriteBack, I.Read, ExecBlock, Get, OperandTyped, Exec;
    if x.NoOperand? {
      s' := s;
      NothingExecuted(s);
    } else {
      OperandRead(a, k, x, st, s);
      SizeOfScalar(x.t);
      OperandArg(a.es, x, WidthBytes(x.t));
      MovRegister(s, RAX, WidthBytes(x.t), Operand(a.es, x));
      s' := Exec(Mov(R(RAX, WidthBytes(x.t)), Operand(a.es, x)), s).value;
      Exec1(Mov(R(RAX, WidthBytes(x.t)), Operand(a.es, x)), s);
      FramedSame(a, st, s, s');
    }
  }

  /** All of `rax` after a return is what moving the operand left there. */
  predicate LeftInRax(es: seq<Entry>, x: I.Operand, s: State, s': State) {
    !x.NoOperand? ==> var r := Exec(Mov(Acc(SizeOf(x)), Operand(es, x)), s); r.Some? && s'.rax == r.value.rax
  }

  lemma ReturnSim(a: Activation, k: nat, ret: ValueType, x: I.Operand, st: I.Store, s: State)
    returns (s2: State, s': State)
    requires Framed(a, st, s) && OpTyped(a.g, k, ret, I.Return(x)) && I.Read(x, st).Some? &&
             a.entry.rsp + 8 < Modulus(8)
    ensures ExecBlock((if x.NoOperand? then [] else [Mov(Acc(SizeOf(x)), Operand(a.es, x))]) + [MovRspRbp, PopRbp],
                      s) == Some(s2)
    ensures s2.rsp == a.entry.rsp && Load(s2.mem, s2.rsp, 8) == Load(a.entry.mem, a.entry.rsp, 8)
    ensures s' == s2.(rsp := s2.rsp + 8) && Returned(a.entry, ret, I.Read(x, st).value, s') && LeftInRax(a.es, x, s, s')
  {
    hide InRange, Encode, ReadArg, Operand, I.Read, ExecBlock, OpTyped, InFrame, LayoutOk, Load, ByteAt;
    var s1 := ResultInRax(a, k, ret, x, st, s);
    s2 := LeaveSim(a, st, s1);
    ExecBlockConcat(if x.NoOperand? then [] else [Mov(Acc(SizeOf(x)), Operand(a.es, x))], [MovRspRbp, PopRbp], s);
    LoadSame(a.entry.mem, s2.mem, a.entry.rsp, 8);
    s' := s2.(rsp := s2.rsp + 8);
    if !ret.Void? {
      RegisterUntouched(s1, s', RAX, WidthBytes(ret));
    }
  }

  lemma ReturnParts(es: seq<Entry>, pending: seq<I.Operand>, x: I.Operand)
    requires NoneMissing(pending)
    ensures OpCode(es, pending, I.Return(x)) ==
            (if x.NoOperand? then [] else [Mov(Acc(SizeOf(x)), Operand(es, x))]) + [MovRspRbp, PopRbp] + [Ret]
  {
    hide Operand, Acc, SizeOf;
  }

  lemma ReturnStep(
    ip: I.IrProgram, p: seq<MachineFunction>, g: Places, k: nat, f: I.IrFunction, entry: State, back: Word, pc: nat,
    st: I.Store, args: seq<int>, s: State)
    returns (s': State)
    requires FunctionTyped(ip, g, k, f) && AllComplete(f.operations) && Running(f, g, k, entry, pc, st, args, s)
    requires pc < |f.operations| && f.operations[pc].Return? && I.Read(f.operations[pc].a, st).Some?
    requires entry.rsp + 8 < Modulus(8) && Load(entry.mem, entry.rsp, 8) == back
    ensures ReachesX(p, FunctionCode(f), back, AtX(Where(f, pc), s), GoneX(s'))
    ensures Returned(entry, f.ret, I.Read(f.operations[pc].a, st).value, s')
    ensures LeftInRax(Layout(f.params, f.operations).entries, f.operations[pc].a, s, s')
  {
    hide FunctionTyped, Framed, ReachesX, Where, FunctionCode, Layout, FrameSize, Used, Exec, ExecBlock, I.Read,
         OpTyped, Operand, Returned, Load, Acc, SizeOf, CodeAtX, LeftInRax;
    var x, a, w, code := f.operations[pc].a, Act(f, g, entry), Where(f, pc), FunctionCode(f);
    OpUsedTyped(ip, g, k, f, pc);
    var s2: State;
    s2, s' := ReturnSim(a, k, f.ret, x, st, s);
    CodeOfOp(f, pc);
    var body := (if x.NoOperand? then [] else [Mov(Acc(SizeOf(x)), Operand(a.es, x))]) + [MovRspRbp, PopRbp];
    ReturnParts(a.es, PendingAt([], f.operations, pc), x);
    CodeAtSplitX(code, w, body, [Ret]);
    RunBlock(p, code, back, w, body, s);
    InstructionAt(code, w + |body|, Ret);
    ReachesStepX(p, code, back, 0, AtX(w + |body|, s2), GoneX(s'));
    ReachesJoinX(p, code, back, AtX(w, s), AtX(w + |body|, s2), GoneX(s'));
  }

  // ---------------------------------------------------------------- calls

  lemma CallBytesAligned(n: nat)
    ensures CallBytes(n) % 16 == 0 && CallBytes(n) <= 8 * n
  {}

  /** What has been pushed reads back as the return address. */
  lemma PushedAddress(s: State, back: Word)
    requires s.rsp >= 8
    ensures Push(s, back).Some?
    ensures var s0 := Push(s, back).value;
            s0.rsp == s.rsp - 8 && s0.rbp == s.rbp && Load(s0.mem, s0.rsp, 8) == back && SameAbove(s.mem, s0.mem, s.rsp)
  {
    hide Load, ByteAt, Memory.Store;
    var s0 := Push(s, back).value;
    LoadStored(s.mem, s.rsp - 8, 8, back, 8);
    Pow256Sizes(8);
    ModSmall(back, Modulus(8));
    forall b | b >= s.rsp ensures ByteAt(s0.mem, b) == ByteAt(s.mem, b) {
      StoreElsewhere(s.mem, s.rsp - 8, 8, back, b);
    }
  }

  /** The machine steps of a call, from the first argument to the operation after it. */
  lemma CallSequence(
    p: seq<MachineFunction>, f: I.IrFunction, back: Word, pc: nat, s: State, s1: State, s2: State, s': State)
    requires AllComplete(f.operations) && pc < |f.operations| && f.operations[pc].Call? &&
             NoneMissing(PendingAt([], f.operations, pc))
    requires var es, os := Layout(f.params, f.operations).entries, PendingAt([], f.operations, pc);
             ExecBlock(ArgumentsCode(es, os), s) == Some(s1) && s1.rsp % 16 == 0 && s1.rsp >= 8 &&
             ReturnsX(p, f.operations[pc].func, Back(f, pc), Push(s1, Back(f, pc)).value, s2) &&
             ExecBlock(AfterCallCode(es, os, f.operations[pc].dst), s2) == Some(s')
    ensures ReachesX(p, FunctionCode(f), back, AtX(Where(f, pc), s), AtX(Where(f, pc + 1), s'))
  {
    hide ReachesX, Where, FunctionCode, Layout, Exec, ExecBlock, CodeAtX, ArgumentsCode, AfterCallCode, Push,
         RunFunctionX;
    var es, os := Layout(f.params, f.operations).entries, PendingAt([], f.operations, pc);
    var op, w, code := f.operations[pc], Where(f, pc), FunctionCode(f);
    var first, last := ArgumentsCode(es, os), AfterCallCode(es, os, f.operations[pc].dst);
    CodeOfOp(f, pc);
    assert OpCode(es, os, op) == first + [CallI(op.func)] + last;
    CodeAtSplitX(code, w, first + [CallI(op.func)], last);
    CodeAtSplitX(code, w, first, [CallI(op.func)]);
    RunBlock(p, code, back, w, first, s);
    var at := w + |first|;
    InstructionAt(code, at, CallI(op.func));
    CallInstruction(p, code, back, at, s1, s2);
    ReachesJoinX(p, code, back, AtX(w, s), AtX(at, s1), AtX(at + 1, s2));
    RunBlock(p, code, back, at + 1, last, s2);
    ReachesJoinX(p, code, back, AtX(w, s), AtX(at + 1, s2), AtX(at + 1 + |last|, s'));
  }

  /** The return address of the call at operation `pc`. */
  function Back(f: I.IrFunction, pc: nat): Word
    requires AllComplete(f.operations) && pc < |f.operations| && NoneMissing(PendingAt([], f.operations, pc))
  {
    ReturnAddress(Where(f, pc) + |ArgumentsCode(Layout(f.params, f.operations).entries,
                                                PendingAt([], f.operations, pc))|)
  }

  lemma CallInstruction(p: seq<MachineFunction>, code: seq<Instr>, back: Word, at: nat, s1: State, s2: State)
    requires at < |code| && code[at].CallI? && s1.rsp % 16 == 0 && s1.rsp >= 8
    requires ReturnsX(p, code[at].func, ReturnAddress(at), Push(s1, ReturnAddress(at)).value, s2)
    ensures ReachesX(p, code, back, AtX(at, s1), AtX(at + 1, s2))
  {
    hide ReachesX, RunFunctionX, Exec, ReturnAddress;
    var calls: nat :| RunFunctionX(p, code[at].func, ReturnAddress(at), Push(s1, ReturnAddress(at)).value, calls) ==
      Some(s2);
    assert Push(s1, ReturnAddress(at)).Some?;
    assert StepX(p, code, back, calls, AtX(at, s1)) == Some(AtX(at + 1, s2));
    ReachesStepX(p, code, back, calls, AtX(at, s1), AtX(at + 1, s2));
  }

  /** What the caller guarantees at the first instruction of a function that will have at most `calls`
    * activations at a time, its own included. */
  ghost predicate Entered(ip: I.IrProgram, fn: I.IrFunction, vs: seq<int>, calls: nat, back: Word, entry: State) {
    |vs| == |fn.params| && (forall i :: 0 <= i < |vs| ==> ArgumentHolds(entry, i, fn.params[i].t, vs[i])) &&
    entry.rsp % 16 == 8 && entry.rsp + 8 < Modulus(8) && Load(entry.mem, entry.rsp, 8) == back &&
    entry.rsp >= calls * StackNeed(ip)
  }

  /** The guarantees hold at every call. */
  lemma EnterCallee(
    ip: I.IrProgram, g: Places, k: nat, f: I.IrFunction, entry: State, pc: nat, st: I.Store, args: seq<int>, s: State,
    s1: State, back: Word, calls: nat)
    requires FunctionTyped(ip, g, k, f) && AllComplete(f.operations) && Running(f, g, k, entry, pc, st, args, s)
    requires pc < |f.operations| && f.operations[pc].Call?
    requires ArgumentsReady(PendingAt([], f.operations, pc), args, s, s1) && s1.rsp % 16 == 0
    requires s1.rsp >= calls * StackNeed(ip) + 8
    ensures I.LookupIr(ip, f.operations[pc].func).Some? && Push(s1, back).Some?
    ensures Entered(ip, I.LookupIr(ip, f.operations[pc].func).value, args, calls, back, Push(s1, back).value)
  {
    hide FunctionTyped, Framed, Used, Layout, ArgumentsReady, ArgumentHolds, Push, Load, StackNeed, Reads, PendingAt,
         FrameSize;
    var os := PendingAt([], f.operations, pc);
    CallMatches(ip, g, k, f, pc);
    var fn := I.LookupIr(ip, f.operations[pc].func).value;
    PushedAddress(s1, back);
    ReadsCount(Used(g, f), k, os, st, args);
    forall i | 0 <= i < |args| ensures ArgumentHolds(Push(s1, back).value, i, fn.params[i].t, args[i]) {
      ArgumentValue(f, g, k, entry, pc, st, args, s, i);
      ArgumentsArrive(os, args, s, s1, back, i, fn.params[i].t);
    }
    StackHigh(f, g, entry, st, s, os, args, s1);
  }

  lemma ReadsCount(g: Places, k: nat, os: seq<I.Operand>, st: I.Store, vs: seq<int>)
    requires Reads(g, k, os, st, vs)
    ensures |vs| == |os|
  {
    hide OperandTyped, I.Read;
  }

  lemma StackHigh(f: I.IrFunction, g: Places, entry: State, st: I.Store, s: State, os: seq<I.Operand>, vs: seq<int>,
      s1: State)
    requires Framed(Act(f, g, entry), st, s) && ArgumentsReady(os, vs, s, s1)
    ensures s1.rsp + 8 < Modulus(8)
  {
    hide LayoutOk, InFrame, Load, ByteAt, SameAbove, Layout, Used, ReadArg, FrameSize;
  }

  lemma CallMatches(ip: I.IrProgram, g: Places, k: nat, f: I.IrFunction, pc: nat)
    requires FunctionTyped(ip, g, k, f) && pc < |f.operations| && f.operations[pc].Call?
    ensures CallFits(ip, PendingAt([], f.operations, pc), f.operations[pc].dst, f.operations[pc].func)
    ensures PendingAt([], f.operations, pc + 1) == []
  {
    hide ParamsTyped, OpsTyped, NamesOk, CollectAll, CallFits;
    CollectedAt(ip, [], f.operations, pc);
    PendingNext([], f.operations, pc);
  }

  lemma ArgumentValue(
    f: I.IrFunction, g: Places, k: nat, entry: State, pc: nat, st: I.Store, args: seq<int>, s: State, i: nat)
    requires Running(f, g, k, entry, pc, st, args, s) && i < |args| && i < |PendingAt([], f.operations, pc)|
    ensures var o := PendingAt([], f.operations, pc)[i]; !o.NoOperand? && IsScalar(o.t) && InRange(o.t, args[i])
  {
    hide Framed, OperandTyped, I.Read, Layout, Used, FrameSize, OperandHolds, InRange;
    var a, o := Act(f, g, entry), PendingAt([], f.operations, pc)[i];
    OperandRead(a, k, o, st, s);
    ScalarOperand(a.es, o, s, args[i]);
  }

  lemma ArgumentsAligned(
    f: I.IrFunction, g: Places, k: nat, entry: State, pc: nat, st: I.Store, args: seq<int>, s: State, calls: nat,
    need: nat)
    returns (s1: State)
    requires AllComplete(f.operations) && Running(f, g, k, entry, pc, st, args, s) && pc < |f.operations|
    requires entry.rsp % 16 == 8 && FrameSize(Layout(f.params, f.operations).entries) % 16 == 0
    requires entry.rsp >= calls * need + FunctionStack(f)
    ensures NoneMissing(PendingAt([], f.operations, pc))
    ensures var os := PendingAt([], f.operations, pc);
            ExecBlock(ArgumentsCode(Layout(f.params, f.operations).entries, os), s) == Some(s1) &&
              ArgumentsReady(os, args, s, s1)
    ensures s1.rsp % 16 == 0 && s1.rsp >= calls * need + 8
  {
    hide LayoutOk, InFrame, Load, ByteAt, SameAbove, Layout, Used, ReadArg, FrameSize, ExecBlock, ArgumentsCode,
         OperandTyped, I.Read, CallBytes;
    var os := PendingAt([], f.operations, pc);
    PendingPresent([], f.operations, pc);
    PendingBound([], f.operations, pc);
    CallBytesAligned(|os|);
    var below := calls * need;
    s1 := ArgumentsSim(Act(f, g, entry), k, os, st, args, s);
  }

  /** The result of a call goes to its destination. */
  lemma AfterReturn(
    ip: I.IrProgram, g: Places, k: nat, f: I.IrFunction, entry: State, pc: nat, st: I.Store, args: seq<int>, s: State,
    s1: State, back: Word, v: int, s2: State)
    returns (s': State)
    requires FunctionTyped(ip, g, k, f) && Running(f, g, k, entry, pc, st, args, s) && pc < |f.operations| &&
             f.operations[pc].Call?
    requires ArgumentsReady(PendingAt([], f.operations, pc), args, s, s1) && s1.rsp >= 8
    requires I.LookupIr(ip, f.operations[pc].func).Some?
    requires Returned(Push(s1, back).value, I.LookupIr(ip, f.operations[pc].func).value.ret, v, s2)
    ensures ExecBlock(AfterCallCode(Layout(f.params, f.operations).entries, PendingAt([], f.operations, pc),
                                    f.operations[pc].dst), s2) == Some(s')
    ensures Running(f, g, k, entry, pc + 1, I.Write(f.operations[pc].dst, v, st), [], s')
  {
    hide FunctionTyped, Framed, Layout, Used, FrameSize, ExecBlock, AfterCallCode, ArgumentsReady, OperandTyped,
         I.Write, PendingAt, Push, InRange, Encode, ReadArg, SameAbove;
    CallMatches(ip, g, k, f, pc);
    OpUsedTyped(ip, g, k, f, pc);
    MemoryBack(PendingAt([], f.operations, pc), args, s, s1, back, s2);
    s' := AfterCallSim(Act(f, g, entry), k, st, s, PendingAt([], f.operations, pc), f.operations[pc].dst, v, s2);
  }

  lemma MemoryBack(os: seq<I.Operand>, vs: seq<int>, s: State, s1: State, back: Word, s2: State)
    requires ArgumentsReady(os, vs, s, s1) && s1.rsp >= 8
    requires var s0 := Push(s1, back).value;
             s2.rsp == s0.rsp + 8 && s2.rbp == s0.rbp && SameAbove(s0.mem, s2.mem, s0.rsp)
    ensures s2.rbp == s.rbp && s2.rsp == s.rsp - CallBytes(|os|) && SameAbove(s.mem, s2.mem, s.rsp)
  {
    hide Load, ByteAt, ReadArg, Encode, CallBytes, Push;
    PushedAddress(s1, back);
  }

  lemma {:induction false} CallStep(
    ip: I.IrProgram, gs: seq<Places>, ks: seq<nat>, i: nat, entry: State, back: Word, bounds: I.Bounds, pc: nat,
    st: I.Store, args: seq<int>, s: State)
    returns (s': State)
    requires Shaped(ip, gs, ks) && ProgramComplete(ip) && i < |ip| && ip[i].defined
    requires |gs| == |ks| == |ip| && Running(ip[i], gs[i], ks[i], entry, pc, st, args, s) && entry.rsp % 16 == 8
    requires entry.rsp >= bounds.calls * StackNeed(ip) + FunctionStack(ip[i])
    requires pc < |ip[i].operations| && ip[i].operations[pc].Call?
    requires I.Step(ip, ip[i].operations, bounds, I.At(pc, st, args)).Some?
    ensures I.Step(ip, ip[i].operations, bounds, I.At(pc, st, args)).value.At?
    ensures Follows(ProgramCode(ip), ip[i], gs[i], ks[i], entry, back, pc, s,
                    I.Step(ip, ip[i].operations, bounds, I.At(pc, st, args)).value, s')
    decreases bounds.calls, 0, 1
  {
    hide FunctionTyped, Running, Layout, FrameSize, StackNeed, FunctionStack, ArgumentsReady, ReachesX, Where,
         FunctionCode, ExecBlock, ArgumentsCode, AfterCallCode, Entered, Returned, ReturnsX, ProgramCode, Push,
         PendingAt, I.Step, I.RunFunction, Back, NoneMissing, Complete, I.Write, Shaped;
    var f, g, k, p := ip[i], gs[i], ks[i], ProgramCode(ip);
    ShapedOne(ip, gs, ks, i);
    LayoutOfTyped(ip, g, k, f);
    var s1 := ArgumentsAligned(f, g, k, entry, pc, st, args, s, bounds.calls, StackNeed(ip));
    var ra := Back(f, pc);
    EnterCallee(ip, g, k, f, entry, pc, st, args, s, s1, ra, bounds.calls);
    CallShape(ip, f.operations, bounds, pc, st, args);
    var v := I.RunFunction(ip, f.operations[pc].func, args, bounds).value;
    var s2 := SimFunction(ip, gs, ks, f.operations[pc].func, args, bounds, ra, Push(s1, ra).value);
    s' := AfterReturn(ip, g, k, f, entry, pc, st, args, s, s1, ra, v, s2);
    CallSequence(p, f, back, pc, s, s1, s2, s');
  }

  lemma {:induction false} SimRun(
    ip: I.IrProgram, gs: seq<Places>, ks: seq<nat>, i: nat, entry: State, back: Word,
    bounds: I.Bounds, n: nat, pc: nat, st: I.Store, args: seq<int>, s: State)
    returns (s': State)
    requires Shaped(ip, gs, ks) && ProgramComplete(ip) && i < |ip| && ip[i].defined
    requires |gs| == |ks| == |ip| && Running(ip[i], gs[i], ks[i], entry, pc, st, args, s) && entry.rsp % 16 == 8
    requires entry.rsp + 8 < Modulus(8) && Load(entry.mem, entry.rsp, 8) == back
    requires entry.rsp >= bounds.calls * StackNeed(ip) + FunctionStack(ip[i])
    requires I.Run(ip, ip[i].operations, bounds, I.At(pc, st, args), n).Some?
    ensures pc <= |ip[i].operations|
    ensures ReachesX(ProgramCode(ip), FunctionCode(ip[i]), back, AtX(Where(ip[i], pc), s), GoneX(s'))
    ensures Returned(entry, ip[i].ret, I.Run(ip, ip[i].operations, bounds, I.At(pc, st, args), n).value, s')
    decreases bounds.calls, 1, n
  {
    hide FunctionTyped, Layout, FrameSize, StackNeed, FunctionStack, ReachesX, Where, FunctionCode, Returned,
         ProgramCode, I.Step, Framed, Used, Complete, Reads;
    var f, g, k, p := ip[i], gs[i], ks[i], ProgramCode(ip);
    var c := I.Step(ip, f.operations, bounds, I.At(pc, st, args)).value;
    StepInside(ip, f.operations, bounds, pc, st, args);
    var op := f.operations[pc];
    if op.Return? {
      ReturnShape(ip, f.operations, bounds, pc, st, args);
      s' := ReturnStep(ip, p, g, k, f, entry, back, pc, st, args, s);
    } else {
      var s1: State;
      if op.Call? {
        s1 := CallStep(ip, gs, ks, i, entry, back, bounds, pc, st, args, s);
      } else if op.Jump? {
        s1 := JumpStep(ip, p, g, k, f, entry, back, bounds, pc, st, args, s);
      } else if op.JumpIfFalse? {
        s1 := BranchStep(ip, p, g, k, f, entry, back, bounds, pc, st, args, s);
      } else {
        s1 := SimpleStep(ip, p, g, k, f, entry, back, bounds, pc, st, args, s);
      }
      s' := SimRun(ip, gs, ks, i, entry, back, bounds, n - 1, c.pc, c.st, c.args, s1);
      ReachesJoinX(p, FunctionCode(f), back, AtX(Where(f, pc), s), AtX(Where(f, c.pc), s1), GoneX(s'));
    }
  }

  lemma CallShape(ip: I.IrProgram, ops: seq<I.Operation>, bounds: I.Bounds, pc: nat, st: I.Store, args: seq<int>)
    requires pc < |ops| && ops[pc].Call? && I.Step(ip, ops, bounds, I.At(pc, st, args)).Some?
    ensures I.RunFunction(ip, ops[pc].func, args, bounds).Some?
    ensures I.Step(ip, ops, bounds, I.At(pc, st, args)) ==
            Some(I.At(pc + 1, I.Write(ops[pc].dst, I.RunFunction(ip, ops[pc].func, args, bounds).value, st), []))
  {
    hide I.RunFunction, I.Write;
  }

  lemma ShapedOne(ip: I.IrProgram, gs: seq<Places>, ks: seq<nat>, i: nat)
    requires Shaped(ip, gs, ks) && i < |ip| && ip[i].defined
    ensures |gs| == |ip| == |ks| && FunctionTyped(ip, gs[i], ks[i], ip[i]) && ks[i] <= Power10(14)
  {
    hide FunctionTyped;
  }

  lemma StepInside(ip: I.IrProgram, ops: seq<I.Operation>, bounds: I.Bounds, pc: nat, st: I.Store, args: seq<int>)
    requires I.Step(ip, ops, bounds, I.At(pc, st, args)).Some?
    ensures pc < |ops|
  {}

  lemma ReturnShape(ip: I.IrProgram, ops: seq<I.Operation>, bounds: I.Bounds, pc: nat, st: I.Store, args: seq<int>)
    requires I.Step(ip, ops, bounds, I.At(pc, st, args)).Some? && ops[pc].Return?
    ensures I.Read(ops[pc].a, st).Some?
    ensures I.Step(ip, ops, bounds, I.At(pc, st, args)) == Some(I.Done(I.Read(ops[pc].a, st).value, st))
  {
    hide I.Read;
  }

  lemma StartRunning(ip: I.IrProgram, gs: seq<Places>, ks: seq<nat>, i: nat, vs: seq<int>, entry: State,
      p: seq<MachineFunction>, back: Word)
    returns (s: State)
    requires Shaped(ip, gs, ks) && ProgramComplete(ip) && i < |ip| && ip[i].defined
    requires |vs| == |ip[i].params| && forall j :: 0 <= j < |vs| ==> ArgumentHolds(entry, j, ip[i].params[j].t, vs[j])
    requires entry.rsp >= FunctionStack(ip[i])
    ensures Running(ip[i], gs[i], ks[i], entry, 0, I.BindIr(ip[i].params, vs), [], s)
    ensures |vs| <= 6 ==> s.rax == entry.rax
    ensures ReachesX(p, FunctionCode(ip[i]), back, AtX(0, entry), AtX(Where(ip[i], 0), s))
  {
    hide CollectAll, NamesOk, OpTyped, ArgumentHolds, LayoutOk, Framed, ReachesX, CodeAtX, Layout, ParamsCode,
         FrameSize, FunctionCode, ExecBlock, Used, OpsCode;
    var f, a := ip[i], Act(ip[i], gs[i], entry);
    LayoutOfTyped(ip, gs[i], ks[i], f);
    ParamsAreUsed(ip, gs[i], ks[i], f);
    s := PrologueSim(a, f.params, vs);
    WholeCodeAt(f);
    RunBlock(p, FunctionCode(f), back, 0, Prologue(f), entry);
  }

  lemma ParamsAreUsed(ip: I.IrProgram, g: Places, k: nat, f: I.IrFunction)
    requires FunctionTyped(ip, g, k, f)
    ensures ParamsTyped(Used(g, f), f.params)
  {
    hide Used, FunctionTyped;
    forall j | 0 <= j < |f.params|
      ensures IsScalar(f.params[j].t) && I.VarPlace(f.params[j].name) in Used(g, f) &&
              Used(g, f)[I.VarPlace(f.params[j].name)] == f.params[j].t
    {
      assert Operands(f)[j] == ParamOperand(f.params[j]);
      OperandIsUsed(ip, g, k, f, j);
    }
  }

  /** A call of a generated function. */
  lemma {:induction false} SimFunction(
    ip: I.IrProgram, gs: seq<Places>, ks: seq<nat>, name: string, vs: seq<int>, bounds: I.Bounds, back: Word,
    entry: State)
    returns (s': State)
    requires Shaped(ip, gs, ks) && ProgramComplete(ip) && I.LookupIr(ip, name).Some?
    requires Entered(ip, I.LookupIr(ip, name).value, vs, bounds.calls, back, entry)
    requires I.RunFunction(ip, name, vs, bounds).Some?
    ensures ReturnsX(ProgramCode(ip), name, back, entry, s')
    ensures Returned(entry, I.LookupIr(ip, name).value.ret, I.RunFunction(ip, name, vs, bounds).value, s')
    decreases bounds.calls, 0, 0
  {
    hide FunctionTyped, Layout, FrameSize, StackNeed, FunctionStack, ReachesX, Where, FunctionCode, Returned,
         ProgramCode, Running, ArgumentHolds, ReturnsX, Complete;
    var i := LookupIndexIr(ip, name);
    var f := ip[i];
    StackForOne(bounds.calls, StackNeed(ip), FunctionStack(f));
    var s0 := StartRunning(ip, gs, ks, i, vs, entry, ProgramCode(ip), back);
    s' := SimRun(ip, gs, ks, i, entry, back, I.Fewer(bounds), bounds.steps, 0, I.BindIr(f.params, vs), [], s0);
    ReachesJoinX(ProgramCode(ip), FunctionCode(f), back, AtX(0, entry), AtX(Where(f, 0), s0), GoneX(s'));
    RunsSomething(ip, f.operations, I.Fewer(bounds), bounds.steps, vs, f.params);
    ShapedIsComplete(ip, gs, ks);
    LookupCode(ip, name);
    ReachesReturnX(ProgramCode(ip), name, back, entry, s');
  }

  lemma RunsSomething(
    ip: I.IrProgram, ops: seq<I.Operation>, bounds: I.Bounds, n: nat, vs: seq<int>, params: seq<I.IrParam>)
    requires |vs| == |params| && I.Run(ip, ops, bounds, I.At(0, I.BindIr(params, vs), []), n).Some?
    ensures |ops| > 0
  {
    hide I.BindIr;
    StepInside(ip, ops, bounds, 0, I.BindIr(params, vs), []);
  }

  lemma StackForOne(calls: nat, need: nat, one: nat)
    requires one <= need && calls > 0
    ensures calls * need >= (calls - 1) * need + one && calls * need >= one
  {
    assert calls * need == (calls - 1) * need + need;
  }
}
