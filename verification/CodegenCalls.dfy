/** The calling sequence: six arguments in registers, the others on the stack with the last pushed
  * first, and the prologue that stores them to the callee's slots. */
module CodegenCalls {
  import opened Values
  import opened Arith
  import opened Memory
  import opened Machine
  import opened MachineArith
  import opened MachineRun
  import opened Frame
  import opened Codegen
  import opened CodegenOps
  import opened IrTyping
  import opened Slots
  import opened CodegenSim
  import I = Ir

  /** Argument `i` of a call, as the callee finds it at its first instruction. */
  predicate ArgumentHolds(s: State, i: nat, t: ValueType, v: int) {
    IsScalar(t) && InRange(t, v) &&
    (if i < 6 then ReadArg(s, R(ArgumentRegister(i), WidthBytes(t)), WidthBytes(t)) == Encode(t, v)
     else Load(s.mem, s.rsp + 8 + (i - 6) * 8, WidthBytes(t)) == Encode(t, v))
  }

  // ---------------------------------------------------------------- the caller's side

  /** Operands read in a frame, with their values. */
  ghost predicate Reads(g: Places, k: nat, os: seq<I.Operand>, st: I.Store, vs: seq<int>) {
    |vs| == |os| && forall i :: 0 <= i < |os| ==> Present(g, k, os[i]) && I.Read(os[i], st) == Some(vs[i])
  }

  /** An argument through `rax`: its low bytes are the pattern of the value. */
  lemma StackArgLoads(es: seq<Entry>, o: I.Operand, s: State, v: int) returns (s1: State)
    requires OperandHolds(es, o, s, v)
    ensures Exec(StackArgCode(es, o)[0], s) == Some(s1) && SameMemory(s, s1)
    ensures ReadArg(s1, R(RAX, WidthBytes(o.t)), WidthBytes(o.t)) == Encode(o.t, v)
  {
    hide InRange, Encode, Convert, ReadArg, Operand, Exec, WriteBack, Get;
    var size := WidthBytes(o.t);
    SizeOfScalar(o.t);
    OperandArg(es, o, size);
    var i := StackArgCode(es, o)[0];
    if o.Immediate? {
      ImmediateArg(es, o);
      MovRegister(s, RAX, 8, Imm(o.number));
      s1 := Exec(i, s).value;
      LowOfAcc(s1, size, 8);
      ImmediateRead(s, o.number, 8);
      ImmediateRead(s, o.number, size);
      Truncation(size, 8, o.number);
    } else if size == 8 || size == 4 {
      MovRegister(s, RAX, size, Operand(es, o));
      s1 := Exec(i, s).value;
    } else {
      ExtendRegister(s, i, RAX, 8, Operand(es, o), size, IsSigned(o.t));
      s1 := Exec(i, s).value;
      LowOfAcc(s1, size, 8);
      LowOfExtended(o.t, v, 8);
    }
  }

  /** Extending a pattern keeps its low bytes. */
  lemma LowOfExtended(t: ValueType, v: int, wide: nat)
    requires IsScalar(t) && InRange(t, v) && IsSize(wide) && WidthBytes(t) <= wide
    ensures var size := WidthBytes(t); var p := Encode(t, v);
            ((if IsSigned(t) then AsSigned(size, p) else p) % Modulus(wide)) % Modulus(size) == p
  {
    hide InRange, Modulus, WidthBytes, AsSigned;
    SizeOfScalar(t);
    ReadBack(t, v);
    Truncation(WidthBytes(t), wide, v);
  }

  lemma PushLoads(s: State, size: nat, w: int) returns (s': State)
    requires s.rsp >= 8 && IsSize(size) && ReadArg(s, R(RAX, size), size) == w
    ensures Exec(PushRax, s) == Some(s') && s'.rsp == s.rsp - 8 && s'.rbp == s.rbp
    ensures Load(s'.mem, s'.rsp, size) == w
    ensures forall b :: b < s'.rsp || b >= s.rsp ==> ByteAt(s'.mem, b) == ByteAt(s.mem, b)
  {
    hide Load, Memory.Store, ByteAt;
    s' := Exec(PushRax, s).value;
    LoadStored(s.mem, s.rsp - 8, 8, s.rax, size);
    Pow256Sizes(size);
    forall b | b < s'.rsp || b >= s.rsp ensures ByteAt(s'.mem, b) == ByteAt(s.mem, b) {
      StoreElsewhere(s.mem, s.rsp - 8, 8, s.rax, b);
    }
  }

  /** What pushing arguments leaves on the stack. */
  ghost predicate Pushed(os: seq<I.Operand>, vs: seq<int>, s: State, s': State) {
    |vs| == |os| && s'.rbp == s.rbp && s'.rsp == s.rsp - 8 * StackArgs(|os|) &&
    (forall i :: 6 <= i < |os| ==>
       !os[i].NoOperand? && Load(s'.mem, s'.rsp + (i - 6) * 8, WidthBytes(os[i].t)) == Encode(os[i].t, vs[i])) &&
    (forall b :: b < s'.rsp || b >= s.rsp ==> ByteAt(s'.mem, b) == ByteAt(s.mem, b))
  }

  ghost predicate FrameAbove(es: seq<Entry>, g: Places, frame: nat, st: I.Store, s: State) {
    LayoutOk(es, g, frame) && InFrame(es, g, st, s.mem, s.rbp) && s.rsp <= s.rbp - frame
  }

  lemma FrameAboveKept(es: seq<Entry>, g: Places, frame: nat, st: I.Store, s: State, s': State)
    requires FrameAbove(es, g, frame, st, s) && s'.rbp == s.rbp && s'.rsp <= s.rsp
    requires forall b :: b < s'.rsp || b >= s.rsp ==> ByteAt(s'.mem, b) == ByteAt(s.mem, b)
    ensures FrameAbove(es, g, frame, st, s')
  {
    hide LayoutOk, InFrame, ByteAt;
    FrameUntouched(es, g, frame, st, s.mem, s'.mem, s.rbp);
  }

  lemma ReadHolds(es: seq<Entry>, g: Places, frame: nat, k: nat, st: I.Store, s: State, o: I.Operand)
    requires FrameAbove(es, g, frame, st, s) && Present(g, k, o) && I.Read(o, st).Some?
    ensures OperandHolds(es, o, s, I.Read(o, st).value)
  {
    hide LayoutOk, InFrame, InRange, Encode, Convert, ReadArg, Operand;
    ReadOperand(es, g, k, o, st, s);
  }

  lemma {:induction false} StackArgsSim(
    es: seq<Entry>, g: Places, frame: nat, k: nat, os: seq<I.Operand>, st: I.Store, vs: seq<int>, s: State)
    returns (s': State)
    requires NoneMissing(os) && Reads(g, k, os, st, vs) && FrameAbove(es, g, frame, st, s) &&
             s.rsp >= 8 * StackArgs(|os|)
    ensures ExecBlock(StackArgsCode(es, os), s) == Some(s') && Pushed(os, vs, s, s')
    decreases |os|
  {
    hide FrameAbove, OperandTyped, I.Read, Exec, StackArgCode, ExecBlock, ByteAt, Load, Encode;
    if |os| <= 6 {
      s' := s;
      NothingExecuted(s);
    } else {
      var n := |os| - 1;
      var s1 := OneStackArg(es, g, frame, k, os[n], st, s, vs[n]);
      FrameAboveKept(es, g, frame, st, s, s1);
      ReadsPrefix(g, k, os, st, vs);
      s' := StackArgsSim(es, g, frame, k, os[..n], st, vs[..n], s1);
      ExecBlockConcat(StackArgCode(es, os[n]), StackArgsCode(es, os[..n]), s);
      PushedMore(os, vs, s, s1, s');
    }
  }

  lemma NothingExecuted(s: State)
    ensures ExecBlock([], s) == Some(s)
  {}

  lemma ReadsPrefix(g: Places, k: nat, os: seq<I.Operand>, st: I.Store, vs: seq<int>)
    requires Reads(g, k, os, st, vs) && |os| > 0
    ensures Reads(g, k, os[..|os| - 1], st, vs[..|os| - 1])
  {
    hide OperandTyped, I.Read;
  }

  lemma OneStackArg(es: seq<Entry>, g: Places, frame: nat, k: nat, o: I.Operand, st: I.Store, s: State, v: int)
    returns (s': State)
    requires FrameAbove(es, g, frame, st, s) && Present(g, k, o) && I.Read(o, st) == Some(v) && s.rsp >= 8
    ensures ExecBlock(StackArgCode(es, o), s) == Some(s') && s'.rsp == s.rsp - 8 && s'.rbp == s.rbp
    ensures Load(s'.mem, s'.rsp, WidthBytes(o.t)) == Encode(o.t, v)
    ensures forall b :: b < s'.rsp || b >= s.rsp ==> ByteAt(s'.mem, b) == ByteAt(s.mem, b)
  {
    hide FrameAbove, OperandTyped, I.Read, Exec, ByteAt, Load, Encode, ReadArg, OperandHolds;
    ReadHolds(es, g, frame, k, st, s, o);
    var s1 := StackArgLoads(es, o, s, v);
    ScalarOperand(es, o, s, v);
    s' := PushLoads(s1, WidthBytes(o.t), Encode(o.t, v));
    var i := StackArgCode(es, o)[0];
    assert StackArgCode(es, o) == [i, PushRax];
    Exec2(i, PushRax, s);
  }

  lemma ScalarOperand(es: seq<Entry>, o: I.Operand, s: State, v: int)
    requires OperandHolds(es, o, s, v)
    ensures IsScalar(o.t) && IsSize(WidthBytes(o.t)) && InRange(o.t, v)
  {
    hide InRange;
    SizeOfScalar(o.t);
  }

  lemma PushedMore(os: seq<I.Operand>, vs: seq<int>, s: State, s1: State, s': State)
    requires |os| > 6 && |vs| == |os| && !os[|os| - 1].NoOperand?
    requires s1.rsp == s.rsp - 8 && s1.rbp == s.rbp
    requires Load(s1.mem, s1.rsp, WidthBytes(os[|os| - 1].t)) == Encode(os[|os| - 1].t, vs[|os| - 1])
    requires forall b :: b < s1.rsp || b >= s.rsp ==> ByteAt(s1.mem, b) == ByteAt(s.mem, b)
    requires Pushed(os[..|os| - 1], vs[..|os| - 1], s1, s')
    ensures Pushed(os, vs, s, s')
  {
    hide Load, ByteAt, Encode;
    var n := |os| - 1;
    assert StackArgs(n) == n - 6;
    forall i | 6 <= i < |os|
      ensures !os[i].NoOperand? && Load(s'.mem, s'.rsp + (i - 6) * 8, WidthBytes(os[i].t)) == Encode(os[i].t, vs[i])
    {
      if i < n {
        assert os[..n][i] == os[i] && vs[..n][i] == vs[i];
      } else {
        LoadSame(s1.mem, s'.mem, s1.rsp, WidthBytes(os[n].t));
      }
    }
  }

  // ---------------------------------------------------------------- register arguments

  lemma RegisterArgSim(es: seq<Entry>, o: I.Operand, i: nat, s: State, v: int) returns (s': State)
    requires i < 6 && OperandHolds(es, o, s, v)
    ensures Exec(RegisterArgCode(es, o, i), s) == Some(s') && SameMemory(s, s')
    ensures ReadArg(s', R(ArgumentRegister(i), WidthBytes(o.t)), WidthBytes(o.t)) == Encode(o.t, v)
    ensures forall q :: q != ArgumentRegister(i) ==> Get(s', q) == Get(s, q)
  {
    hide InRange, Encode, Convert, ReadArg, Operand, Exec, WriteBack, Get;
    var size, r := WidthBytes(o.t), ArgumentRegister(i);
    SizeOfScalar(o.t);
    OperandArg(es, o, size);
    var c := RegisterArgCode(es, o, i);
    if size <= 2 && !o.Immediate? {
      ExtendRegister(s, c, r, 4, Operand(es, o), size, IsSigned(o.t));
      s' := Exec(c, s).value;
      ExtendKeeps(s, c, r);
      LowOfRegister(s', r, size, 4);
      LowOfExtended(o.t, v, 4);
    } else {
      var wide := if size <= 2 then 4 else size;
      if o.Immediate? {
        ImmediateArg(es, o);
        ImmediateRead(s, o.number, wide);
        ImmediateRead(s, o.number, size);
        Truncation(size, wide, o.number);
      }
      MovRegister(s, r, wide, Operand(es, o));
      s' := Exec(c, s).value;
      LowOfRegister(s', r, size, wide);
      ReadReduced(s, Operand(es, o), size);
    }
  }

  lemma ExtendKeeps(s: State, c: Instr, r: Reg)
    requires Exec(c, s).Some? && (c.MovSx? || c.MovZx?) && c.dst.R? && c.dst.reg == r
    ensures forall q :: q != r ==> Get(Exec(c, s).value, q) == Get(s, q)
  {
    hide ReadArg, WriteBack, AsSigned;
    SizeOk(c.dst.size);
    WriteRegister(s, r, c.dst.size,
                  if c.MovSx? then AsSigned(c.src.size, ReadArg(s, c.src, c.src.size))
                    else ReadArg(s, c.src, c.src.size));
  }

  lemma SizeOk(size: nat)
    ensures IsSize(size) <==> size == 1 || size == 2 || size == 4 || size == 8
  {}

  lemma LowOfRegister(s: State, r: Reg, size: nat, wide: nat)
    requires IsSize(size) && IsSize(wide) && size <= wide
    ensures ReadArg(s, R(r, size), size) == ReadArg(s, R(r, wide), wide) % Modulus(size)
  {
    hide Get;
    Truncation(size, wide, Get(s, r));
  }

  /** The first `j` register arguments are in place. */
  ghost predicate Registers(os: seq<I.Operand>, vs: seq<int>, j: nat, s: State) {
    j <= 6 && j <= |os| == |vs| &&
    forall i :: 0 <= i < j ==>
      !os[i].NoOperand? && ReadArg(s, R(ArgumentRegister(i), WidthBytes(os[i].t)), WidthBytes(os[i].t)) ==
        Encode(os[i].t, vs[i])
  }

  lemma DistinctRegisters(i: nat, j: nat)
    requires i < 6 && j < 6 && i != j
    ensures ArgumentRegister(i) != ArgumentRegister(j)
  {}

  lemma {:induction false} RegisterArgsSim(
    es: seq<Entry>, g: Places, frame: nat, k: nat, os: seq<I.Operand>, st: I.Store, vs: seq<int>, s: State, j: nat)
    returns (s': State)
    requires NoneMissing(os) && Reads(g, k, os, st, vs) && FrameAbove(es, g, frame, st, s) && j <= |os| <= 6
    ensures ExecBlock(RegisterArgsCode(es, os)[..j], s) == Some(s') && SameMemory(s, s') && Registers(os, vs, j, s')
    decreases j
  {
    hide OperandTyped, I.Read, Exec, ExecBlock, ReadArg, LayoutOk, InFrame, Get, Encode, OperandHolds,
         ArgumentRegister, RegisterArgCode;
    var code := RegisterArgsCode(es, os);
    if j == 0 {
      s' := s;
      assert code[..0] == [];
      NothingExecuted(s);
    } else {
      var s1 := RegisterArgsSim(es, g, frame, k, os, st, vs, s, j - 1);
      ReadHolds(es, g, frame, k, st, s1, os[j - 1]);
      s' := RegisterArgSim(es, os[j - 1], j - 1, s1, vs[j - 1]);
      assert code[..j] == code[..j - 1] + [RegisterArgCode(es, os[j - 1], j - 1)];
      ExecBlockConcat(code[..j - 1], [RegisterArgCode(es, os[j - 1], j - 1)], s);
      Exec1(RegisterArgCode(es, os[j - 1], j - 1), s1);
      RegistersMore(os, vs, j, s1, s');
    }
  }

  lemma RegistersMore(os: seq<I.Operand>, vs: seq<int>, j: nat, s1: State, s': State)
    requires 0 < j <= 6 && Registers(os, vs, j - 1, s1) && j <= |os| && !os[j - 1].NoOperand? && SameMemory(s1, s')
    requires ReadArg(s', R(ArgumentRegister(j - 1), WidthBytes(os[j - 1].t)), WidthBytes(os[j - 1].t)) ==
             Encode(os[j - 1].t, vs[j - 1])
    requires forall q :: q != ArgumentRegister(j - 1) ==> Get(s', q) == Get(s1, q)
    ensures Registers(os, vs, j, s')
  {
    hide ReadArg, Get, Encode, ArgumentRegister, WidthBytes;
    forall i | 0 <= i < j
      ensures !os[i].NoOperand? && ReadArg(s', R(ArgumentRegister(i), WidthBytes(os[i].t)), WidthBytes(os[i].t)) ==
              Encode(os[i].t, vs[i])
    {
      if i < j - 1 {
        DistinctRegisters(i, j - 1);
        ReadKept(s1, s', R(ArgumentRegister(i), WidthBytes(os[i].t)), WidthBytes(os[i].t));
      }
    }
  }

  // ---------------------------------------------------------------- the whole argument sequence

  /** Everything is in place for the call instruction. */
  ghost predicate ArgumentsReady(os: seq<I.Operand>, vs: seq<int>, s: State, s': State) {
    |vs| == |os| && s'.rbp == s.rbp && s'.rsp == s.rsp - CallBytes(|os|) &&
    (forall i :: 0 <= i < |os| && i < 6 ==>
       !os[i].NoOperand? && ReadArg(s', R(ArgumentRegister(i), WidthBytes(os[i].t)), WidthBytes(os[i].t)) ==
         Encode(os[i].t, vs[i])) &&
    (forall i :: 6 <= i < |os| ==>
       !os[i].NoOperand? && Load(s'.mem, s'.rsp + (i - 6) * 8, WidthBytes(os[i].t)) == Encode(os[i].t, vs[i])) &&
    (forall b :: b >= s.rsp ==> ByteAt(s'.mem, b) == ByteAt(s.mem, b))
  }

  lemma FramedAbove(a: Activation, st: I.Store, s: State)
    requires Framed(a, st, s)
    ensures FrameAbove(a.es, a.g, a.frame, st, s)
  {
    hide LayoutOk, InFrame, SameAbove;
  }

  lemma PadSim(n: nat, s: State) returns (s': State)
    requires s.rsp >= CallBytes(n)
    ensures ExecBlock(if StackArgs(n) % 2 > 0 then [SubRsp(8)] else [], s) == Some(s')
    ensures s'.mem == s.mem && s'.rbp == s.rbp && s'.rsp == s.rsp - CallBytes(n) + 8 * StackArgs(n)
  {
    if StackArgs(n) % 2 > 0 {
      Exec1(SubRsp(8), s);
      s' := Exec(SubRsp(8), s).value;
    } else {
      s' := s;
    }
  }

  lemma ReadsFirst(g: Places, k: nat, os: seq<I.Operand>, st: I.Store, vs: seq<int>)
    requires Reads(g, k, os, st, vs)
    ensures |FirstSix(os)| <= 6 && Reads(g, k, FirstSix(os), st, vs[..|FirstSix(os)|])
    ensures NoneMissing(FirstSix(os))
  {
    hide OperandTyped, I.Read;
  }

  lemma ArgumentsSim(a: Activation, k: nat, os: seq<I.Operand>, st: I.Store, vs: seq<int>, s: State) returns (s': State)
    requires NoneMissing(os) && Reads(a.g, k, os, st, vs) && Framed(a, st, s) && s.rsp >= CallBytes(|os|)
    ensures ExecBlock(ArgumentsCode(a.es, os), s) == Some(s') && ArgumentsReady(os, vs, s, s')
  {
    hide Framed, FrameAbove, OperandTyped, I.Read, ExecBlock, StackArgsCode, Pushed, Registers, RegisterArgsCode,
         ArgumentsReady, CallBytes;
    FramedAbove(a, st, s);
    var s1 := PadSim(|os|, s);
    FrameAbovePadded(a.es, a.g, a.frame, st, s, s1, |os|);
    var s2 := StackArgsSim(a.es, a.g, a.frame, k, os, st, vs, s1);
    FrameAbovePushed(a.es, a.g, a.frame, st, os, vs, s1, s2);
    ReadsFirst(a.g, k, os, st, vs);
    var first := FirstSix(os);
    s' := RegisterArgsSim(a.es, a.g, a.frame, k, first, st, vs[..|first|], s2, |first|);
    var code := RegisterArgsCode(a.es, first);
    assert |code| == |first| && code[..|first|] == code;
    var pad := if StackArgs(|os|) % 2 > 0 then [SubRsp(8)] else [];
    ExecBlockConcat(pad, StackArgsCode(a.es, os), s);
    ExecBlockConcat(pad + StackArgsCode(a.es, os), code, s);
    ReadyParts(os, vs, s, s1, s2, s');
  }

  lemma FrameAbovePadded(es: seq<Entry>, g: Places, frame: nat, st: I.Store, s: State, s1: State, n: nat)
    requires FrameAbove(es, g, frame, st, s) && s1.mem == s.mem && s1.rbp == s.rbp
    requires s1.rsp == s.rsp - CallBytes(n) + 8 * StackArgs(n) && s.rsp >= CallBytes(n)
    ensures FrameAbove(es, g, frame, st, s1) && s1.rsp >= 8 * StackArgs(n)
  {
    hide LayoutOk, InFrame;
  }

  lemma FrameAbovePushed(es: seq<Entry>, g: Places, frame: nat, st: I.Store, os: seq<I.Operand>, vs: seq<int>, s: State,
      s': State)
    requires FrameAbove(es, g, frame, st, s) && Pushed(os, vs, s, s')
    ensures FrameAbove(es, g, frame, st, s')
  {
    hide FrameAbove, Load, ByteAt, Encode;
    FrameAboveKept(es, g, frame, st, s, s');
  }

  lemma ReadyParts(os: seq<I.Operand>, vs: seq<int>, s: State, s1: State, s2: State, s': State)
    requires s1.mem == s.mem && s1.rbp == s.rbp && s1.rsp == s.rsp - CallBytes(|os|) + 8 * StackArgs(|os|)
    requires Pushed(os, vs, s1, s2) && SameMemory(s2, s')
    requires |vs| == |os| && Registers(FirstSix(os), vs[..|FirstSix(os)|], |FirstSix(os)|, s')
    ensures ArgumentsReady(os, vs, s, s')
  {
    hide Load, ByteAt, Encode, ReadArg, ArgumentRegister, WidthBytes;
    var first := FirstSix(os);
    forall i | 0 <= i < |os| && i < 6
      ensures !os[i].NoOperand? && ReadArg(s', R(ArgumentRegister(i), WidthBytes(os[i].t)), WidthBytes(os[i].t)) ==
              Encode(os[i].t, vs[i])
    {
      assert first[i] == os[i] && vs[..|first|][i] == vs[i];
    }
  }

  /** The callee finds its arguments above the return address. */
  lemma ArgumentsArrive(os: seq<I.Operand>, vs: seq<int>, s: State, s': State, back: Word, i: nat, t: ValueType)
    requires ArgumentsReady(os, vs, s, s') && i < |os| && os[i].t == t && IsScalar(t) && InRange(t, vs[i])
    requires Push(s', back).Some?
    ensures ArgumentHolds(Push(s', back).value, i, t, vs[i])
  {
    hide Load, ByteAt, Encode, ReadArg, ArgumentRegister, WidthBytes, Memory.Store, InRange;
    var s0 := Push(s', back).value;
    var size := WidthBytes(t);
    if i < 6 {
      assert !os[i].NoOperand? && ReadArg(s', R(ArgumentRegister(i), size), size) == Encode(t, vs[i]);
      RegisterUntouched(s', s0, ArgumentRegister(i), size);
    } else {
      assert !os[i].NoOperand? && Load(s'.mem, s'.rsp + (i - 6) * 8, size) == Encode(t, vs[i]);
      LoadElsewhere(s'.mem, s'.rsp - 8, 8, back, s'.rsp + (i - 6) * 8, size);
    }
  }

  lemma RegisterUntouched(s: State, s': State, r: Reg, size: nat)
    requires Get(s', r) == Get(s, r)
    ensures ReadArg(s', R(r, size), size) == ReadArg(s, R(r, size), size)
  {
    hide Get;
  }

  // ---------------------------------------------------------------- the callee's side

  lemma PrologueStart(a: Activation) returns (s: State)
    requires LayoutOk(a.es, a.g, a.frame) && a.entry.rsp >= 8 + a.frame
    ensures ExecBlock([PushRbp, MovRbpRsp, SubRsp(a.frame)], a.entry) == Some(s) && Framed(a, map[], s)
    ensures s.rax == a.entry.rax && forall r :: Get(s, r) == Get(a.entry, r)
  {
    hide LayoutOk, Load, Memory.Store, ByteAt;
    var e := a.entry;
    var s1 := Exec(PushRbp, e).value;
    var s2 := Exec(MovRbpRsp, s1).value;
    s := Exec(SubRsp(a.frame), s2).value;
    Exec3(PushRbp, MovRbpRsp, SubRsp(a.frame), e);
    LoadStored(e.mem, e.rsp - 8, 8, e.rbp, 8);
    Pow256Sizes(8);
    ModSmall(e.rbp, Modulus(8));
    forall b | b >= e.rsp ensures ByteAt(s1.mem, b) == ByteAt(e.mem, b) {
      StoreElsewhere(e.mem, e.rsp - 8, 8, e.rbp, b);
    }
  }

  ghost predicate ParamsReady(a: Activation, params: seq<I.IrParam>, vs: seq<int>) {
    |vs| == |params| && ParamsTyped(a.g, params) &&
    forall i :: 0 <= i < |params| ==> ArgumentHolds(a.entry, i, params[i].t, vs[i])
  }

  predicate ArgumentRegistersKept(s: State, s': State) {
    forall r :: r != RAX ==> Get(s', r) == Get(s, r)
  }

  lemma {:induction false} ParamsSim(a: Activation, params: seq<I.IrParam>, vs: seq<int>, s: State, n: nat)
    returns (s': State)
    requires ParamsReady(a, params, vs) && n <= |params| && Framed(a, map[], s) && ArgumentRegistersKept(a.entry, s)
    ensures ExecBlock(ParamsCode(a.es, params, n), s) == Some(s')
    ensures Framed(a, I.BindIr(params[..n], vs[..n]), s') && ArgumentRegistersKept(a.entry, s')
    ensures n <= 6 ==> s'.rax == s.rax
    decreases n
  {
    hide Framed, ExecBlock, ParamCode, ArgumentHolds, ArgumentRegistersKept;
    if n == 0 {
      s' := s;
      NothingExecuted(s);
    } else {
      var s1 := ParamsSim(a, params, vs, s, n - 1);
      var p, v := params[n - 1], vs[n - 1];
      s' := ParamSim(a, I.BindIr(params[..n - 1], vs[..n - 1]), s1, p, n - 1, v);
      ExecBlockConcat(ParamsCode(a.es, params, n - 1), ParamCode(a.es, p, n - 1), s);
      assert params[..n][..n - 1] == params[..n - 1] && vs[..n][..n - 1] == vs[..n - 1];
    }
  }

  lemma ParamSim(a: Activation, st: I.Store, s: State, p: I.IrParam, i: nat, v: int) returns (s': State)
    requires Framed(a, st, s) && ArgumentRegistersKept(a.entry, s) && ArgumentHolds(a.entry, i, p.t, v)
    requires I.VarPlace(p.name) in a.g && a.g[I.VarPlace(p.name)] == p.t
    ensures ExecBlock(ParamCode(a.es, p, i), s) == Some(s')
    ensures Framed(a, st[I.VarPlace(p.name) := v], s') && ArgumentRegistersKept(a.entry, s')
    ensures i < 6 ==> s'.rax == s.rax
  {
    hide Framed, ExecBlock, Get, ReadArg, Load, InRange, Encode, Exec, SlotOffset, Memory.Store;
    var size, dst := WidthBytes(p.t), ParamOperand(p);
    SizeOfScalar(p.t);
    OperandArg(a.es, dst, size);
    var off := SlotOffset(a.es, dst);
    var s1: State;
    if i < 6 {
      var r := ArgumentRegister(i);
      RegisterUntouched(a.entry, s, r, size);
      MovToSlot(s, size, off, r);
      Exec1(Mov(M(size, off), R(r, size)), s);
      s' := Exec(Mov(M(size, off), R(r, size)), s).value;
      StoredRegisters(s, s');
    } else {
      var src := M(size, 16 + (i - 6) * 8);
      StackParam(a, st, s, i, size);
      MovRegister(s, RAX, size, src);
      s1 := Exec(Mov(R(RAX, size), src), s).value;
      MovToSlot(s1, size, off, RAX);
      Exec2(Mov(R(RAX, size), src), Mov(M(size, off), R(RAX, size)), s);
      s' := Exec(Mov(M(size, off), R(RAX, size)), s1).value;
      StoredRegisters(s1, s');
    }
    FramedStored(a, st, s, ParamCode(a.es, p, i), s', dst, v);
  }

  lemma StoredRegisters(s: State, s': State)
    requires s' == s.(mem := s'.mem)
    ensures forall r :: Get(s', r) == Get(s, r)
  {}

  /** `[rbp + 16 + 8 (i - 6)]` is the argument the caller pushed. */
  lemma StackParam(a: Activation, st: I.Store, s: State, i: nat, size: nat)
    requires Framed(a, st, s) && i >= 6
    ensures ReadArg(s, M(size, 16 + (i - 6) * 8), size) == Load(a.entry.mem, a.entry.rsp + 8 + (i - 6) * 8, size)
  {
    hide LayoutOk, InFrame, Load, ByteAt;
    LoadSame(a.entry.mem, s.mem, a.entry.rsp + 8 + (i - 6) * 8, size);
  }

  /** The first operation of a function runs in a frame that holds the arguments. */
  lemma PrologueSim(a: Activation, params: seq<I.IrParam>, vs: seq<int>) returns (s: State)
    requires LayoutOk(a.es, a.g, a.frame) && a.entry.rsp >= 8 + a.frame
    requires |vs| == |params| && ParamsReady(a, params, vs)
    ensures ExecBlock([PushRbp, MovRbpRsp, SubRsp(a.frame)] + ParamsCode(a.es, params, |params|), a.entry) == Some(s)
    ensures Framed(a, I.BindIr(params, vs), s) && (|params| <= 6 ==> s.rax == a.entry.rax)
  {
    hide LayoutOk, Framed, ExecBlock, ParamsCode, ParamsReady, Get;
    var s0 := PrologueStart(a);
    s := ParamsSim(a, params, vs, s0, |params|);
    ExecBlockConcat([PushRbp, MovRbpRsp, SubRsp(a.frame)], ParamsCode(a.es, params, |params|), a.entry);
    assert params[..|params|] == params && vs[..|vs|] == vs;
  }

  // ---------------------------------------------------------------- back in the caller

  /** The state after a function returned `v`: the stack and `rbp` are the caller's again. */
  ghost predicate Returned(entry: State, ret: ValueType, v: int, s': State) {
    s'.rsp == entry.rsp + 8 && s'.rbp == entry.rbp && SameAbove(entry.mem, s'.mem, entry.rsp) &&
    (!ret.Void? ==> InRange(ret, v) && ReadArg(s', R(RAX, WidthBytes(ret)), WidthBytes(ret)) == Encode(ret, v))
  }

  /** The stack pointer is taken back up and the result stored. */
  lemma AfterCallSim(a: Activation, k: nat, st: I.Store, s: State, os: seq<I.Operand>, dst: I.Operand, v: int,
      s2: State)
    returns (s': State)
    requires Framed(a, st, s) && s2.rbp == s.rbp && s2.rsp == s.rsp - CallBytes(|os|) && SameAbove(s.mem, s2.mem, s.rsp)
    requires dst.NoOperand? || (Writable(a.g, k, dst) && InRange(dst.t, v) &&
                                ReadArg(s2, R(RAX, WidthBytes(dst.t)), WidthBytes(dst.t)) == Encode(dst.t, v))
    ensures ExecBlock(AfterCallCode(a.es, os, dst), s2) == Some(s') && Framed(a, I.Write(dst, v, st), s')
  {
    hide Framed, ExecBlock, ReadArg, Encode, InRange, CallBytes, SlotOffset, Exec, SameAbove, Memory.Store, WidthBytes;
    var up := if CallBytes(|os|) > 0 then [AddRsp(CallBytes(|os|))] else [];
    var s3 := s2.(rsp := s.rsp, flags := if CallBytes(|os|) > 0 then NoFlags else s2.flags);
    RaiseStack(s2, CallBytes(|os|), s3);
    FramedBack(a, st, s, s3);
    if dst.NoOperand? {
      s' := s3;
      NothingExecuted(s3);
      ExecBlockConcat(up, [], s2);
    } else {
      var size := WidthBytes(dst.t);
      SizeOfScalar(dst.t);
      OperandArg(a.es, dst, size);
      RegisterUntouched(s2, s3, RAX, size);
      MovToSlot(s3, size, SlotOffset(a.es, dst), RAX);
      var put := Mov(M(size, SlotOffset(a.es, dst)), R(RAX, size));
      Exec1(put, s3);
      s' := Exec(put, s3).value;
      ExecBlockConcat(up, [put], s2);
      FramedStored(a, st, s3, [put], s', dst, v);
    }
  }

  lemma RaiseStack(s: State, n: nat, s': State)
    requires s' == s.(rsp := s'.rsp, flags := if n > 0 then NoFlags else s.flags) && s'.rsp == s.rsp + n
    ensures ExecBlock(if n > 0 then [AddRsp(n)] else [], s) == Some(s')
  {
    if n > 0 {
      Exec1(AddRsp(n), s);
    }
  }

  /** A frame survives whatever happened below it. */
  lemma FramedBack(a: Activation, st: I.Store, s: State, s': State)
    requires Framed(a, st, s) && s'.rbp == s.rbp && s'.rsp == s.rsp && SameAbove(s.mem, s'.mem, s.rsp)
    ensures Framed(a, st, s')
  {
    hide LayoutOk, InFrame, Load, ByteAt;
    FrameUntouched(a.es, a.g, a.frame, st, s.mem, s'.mem, s.rbp);
    LoadSame(s.mem, s'.mem, s.rbp, 8);
  }
}
