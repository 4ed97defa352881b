/** Each instruction sequence stores the right pattern in the slot of its destination and leaves
  * the rest of memory, `rsp` and `rbp` alone. */
module CodegenOps {
  import opened Values
  import opened Arith
  import opened Memory
  import opened Machine
  import opened MachineArith
  import opened MachineRun
  import opened Frame
  import opened Codegen
  import I = Ir

  /** Only registers and flags may differ. */
  predicate SameMemory(s: State, s': State) {
    s'.mem == s.mem && s'.rsp == s.rsp && s'.rbp == s.rbp
  }

  /** Running `code` stores `w` at `[rbp + off]` and does nothing else to memory. */
  predicate Stores(code: seq<Instr>, s: State, s': State, off: int, size: nat, w: int) {
    ExecBlock(code, s) == Some(s') && s'.rsp == s.rsp && s'.rbp == s.rbp &&
    s'.mem == Store(s.mem, s.rbp + off, size, w)
  }

  // ---------------------------------------------------------------- registers

  lemma MergeLow(prev: Word, size: nat, v: int)
    requires IsSize(size) && 0 <= v < Modulus(size)
    ensures Merge(prev, size, v) % Modulus(size) == v
  {}

  lemma WriteRegister(s: State, r: Reg, size: nat, v: int)
    requires IsSize(size)
    ensures var s1 := WriteBack(s, R(r, size), v);
            SameMemory(s, s1) && s1.flags == s.flags &&
            ReadArg(s1, R(r, size), size) == v % Modulus(size) &&
            (forall q :: q != r ==> Get(s1, q) == Get(s, q))
  {
    MergeLow(Get(s, r), size, v % Modulus(size));
  }

  lemma ReadBound(s: State, x: Arg, size: nat)
    requires IsSize(size)
    ensures 0 <= ReadArg(s, x, size) < Modulus(size)
  {
    if x.M? {
      LoadBound(s.mem, s.rbp + x.off, size);
    }
  }

  lemma ReadReduced(s: State, x: Arg, size: nat)
    requires IsSize(size)
    ensures ReadArg(s, x, size) % Modulus(size) == ReadArg(s, x, size)
  {
    ReadBound(s, x, size);
    ModSmall(ReadArg(s, x, size), Modulus(size));
  }

  /** `mov reg, src`. */
  lemma MovRegister(s: State, r: Reg, size: nat, src: Arg)
    requires IsSize(size) && HasSize(src, size)
    ensures var s1 := WriteBack(s, R(r, size), ReadArg(s, src, size));
            Exec(Mov(R(r, size), src), s) == Some(s1) && SameMemory(s, s1) && s1.flags == s.flags &&
            ReadArg(s1, R(r, size), size) == ReadArg(s, src, size) &&
            (forall q :: q != r ==> Get(s1, q) == Get(s, q))
  {
    hide WriteBack, ReadArg, Modulus, Get;
    WriteRegister(s, r, size, ReadArg(s, src, size));
    ReadReduced(s, src, size);
  }

  /** `mov [rbp + off], reg`. */
  lemma MovToSlot(s: State, size: nat, off: int, r: Reg)
    requires IsSize(size)
    ensures Exec(Mov(M(size, off), R(r, size)), s) ==
            Some(s.(mem := Store(s.mem, s.rbp + off, size, ReadArg(s, R(r, size), size))))
  {
    hide Modulus, Store;
    ReadReduced(s, R(r, size), size);
  }

  lemma ReadKept(s: State, s': State, x: Arg, size: nat)
    requires SameMemory(s, s') && (x.R? ==> Get(s', x.reg) == Get(s, x.reg))
    ensures ReadArg(s', x, size) == ReadArg(s, x, size)
  {}

  lemma Exec2(a: Instr, b: Instr, s: State)
    requires Exec(a, s).Some? && Exec(b, Exec(a, s).value).Some?
    ensures ExecBlock([a, b], s) == Exec(b, Exec(a, s).value)
  {
    hide Exec;
    assert [a, b][1..] == [b];
    Exec1(b, Exec(a, s).value);
  }

  lemma Exec3(a: Instr, b: Instr, c: Instr, s: State)
    requires Exec(a, s).Some? && Exec(b, Exec(a, s).value).Some?
    requires Exec(c, Exec(b, Exec(a, s).value).value).Some?
    ensures ExecBlock([a, b, c], s) == Exec(c, Exec(b, Exec(a, s).value).value)
  {
    hide Exec;
    assert [a, b, c][1..] == [b, c];
    Exec2(b, c, Exec(a, s).value);
  }

  lemma Exec1(a: Instr, s: State)
    requires Exec(a, s).Some?
    ensures ExecBlock([a], s) == Exec(a, s)
  {
    hide Exec;
    assert [a][1..] == [];
  }

  // ---------------------------------------------------------------- operands

  predicate OperandSize(o: I.Operand, size: nat) {
    !o.NoOperand? && IsSize(size) && SizeOf(o) == size
  }

  lemma OperandArg(es: seq<Entry>, o: I.Operand, size: nat)
    requires OperandSize(o, size)
    ensures HasSize(Operand(es, o), size) && !Operand(es, o).R? && Acc(size) == R(RAX, size)
    ensures I.IsPlace(o) ==> Operand(es, o) == M(size, SlotOffset(es, o))
  {}

  /** A large immediate goes through `rcx`; everything else is used as it is. */
  lemma LoadedOperand(es: seq<Entry>, o: I.Operand, size: nat, s: State) returns (s1: State)
    requires OperandSize(o, size)
    ensures ExecBlock(LoadLarge(es, o, size), s) == Some(s1) && SameMemory(s, s1)
    ensures var x := Loaded(es, o, size);
            HasSize(x, size) && SmallImmediate(size, x) && x != R(RAX, size) && (x.R? ==> x.reg == RCX) &&
            ReadArg(s1, x, size) == ReadArg(s, Operand(es, o), size)
  {
    hide WriteBack, ReadArg;
    OperandArg(es, o, size);
    if IsLarge(o, size) {
      MovRegister(s, RCX, 8, Operand(es, o));
      Exec1(Mov(R(RCX, 8), Operand(es, o)), s);
      s1 := WriteBack(s, R(RCX, 8), ReadArg(s, Operand(es, o), 8));
    } else {
      s1 := s;
    }
  }

  /** `mov rax, a; OP; mov [dst], rax`, where OP turns the value of `rax` into `w`. */
  lemma ThroughRax(s: State, size: nat, a: Arg, middle: Instr, off: int, w: int) returns (s': State)
    requires IsSize(size) && HasSize(a, size)
    requires Exec(Mov(R(RAX, size), a), s).Some?
    requires var s1 := Exec(Mov(R(RAX, size), a), s).value;
             Exec(middle, s1).Some? && SameMemory(s, Exec(middle, s1).value) &&
             ReadArg(Exec(middle, s1).value, R(RAX, size), size) == w
    ensures Stores([Mov(R(RAX, size), a), middle, Mov(M(size, off), R(RAX, size))], s, s', off, size, w)
  {
    hide Exec, ReadArg, Store;
    var s1 := Exec(Mov(R(RAX, size), a), s).value;
    var s2 := Exec(middle, s1).value;
    MovToSlot(s2, size, off, RAX);
    Exec3(Mov(R(RAX, size), a), middle, Mov(M(size, off), R(RAX, size)), s);
    s' := Exec(Mov(M(size, off), R(RAX, size)), s2).value;
  }

  /** Code run after code that only changed registers. */
  lemma StoresAfter(pre: seq<Instr>, code: seq<Instr>, s: State, s1: State, s': State, off: int, size: nat, w: int)
    requires ExecBlock(pre, s) == Some(s1) && SameMemory(s, s1) && Stores(code, s1, s', off, size, w)
    ensures Stores(pre + code, s, s', off, size, w)
  {
    hide ExecBlock;
    ExecBlockConcat(pre, code, s);
  }

  // ---------------------------------------------------------------- arithmetic and logic

  lemma AluRegister(s: State, op: AluOp, r: Reg, size: nat, src: Arg)
    requires IsSize(size) && HasSize(src, size) && SmallImmediate(size, src)
    ensures var v := AluValue(op, size, ReadArg(s, R(r, size), size), ReadArg(s, src, size));
            var s1 := WriteBack(s, R(r, size), v).(flags := NoFlags);
            Exec(Alu(op, R(r, size), src), s) == Some(s1) && SameMemory(s, s1) && ReadArg(s1, R(r, size), size) == v
  {
    hide WriteBack, AluValue, Modulus;
    var v := AluValue(op, size, ReadArg(s, R(r, size), size), ReadArg(s, src, size));
    WriteRegister(s, r, size, v);
    ModSmall(v, Modulus(size));
  }

  lemma AluSlot(s: State, op: AluOp, size: nat, off: int, src: Arg) returns (s': State)
    requires IsSize(size) && HasSize(src, size) && SmallImmediate(size, src) && !src.M?
    ensures Stores([Alu(op, M(size, off), src)], s, s', off, size,
                   AluValue(op, size, ReadArg(s, M(size, off), size), ReadArg(s, src, size)))
  {
    hide AluValue, Store, ReadArg, Modulus;
    var v := AluValue(op, size, ReadArg(s, M(size, off), size), ReadArg(s, src, size));
    ModSmall(v, Modulus(size));
    Exec1(Alu(op, M(size, off), src), s);
    s' := Exec(Alu(op, M(size, off), src), s).value;
  }

  lemma BinaryStores(es: seq<Entry>, op: AluOp, dst: I.Operand, a: I.Operand, b: I.Operand, size: nat, s: State)
    returns (s': State)
    requires I.IsPlace(dst) && OperandSize(dst, size) && OperandSize(a, size) && OperandSize(b, size)
    ensures Stores(BinaryCode(es, op, dst, a, b), s, s', SlotOffset(es, dst), size,
                   AluValue(op, size, ReadArg(s, Operand(es, a), size), ReadArg(s, Operand(es, b), size)))
  {
    hide AluValue, ReadArg, Exec, WriteBack, ExecBlock, Stores, Operand, Loaded, LoadLarge, Get;
    OperandArg(es, dst, size);
    OperandArg(es, a, size);
    OperandArg(es, b, size);
    var off, x, y := SlotOffset(es, dst), Operand(es, a), Loaded(es, b, size);
    var s1 := LoadedOperand(es, b, size, s);
    ReadKept(s, s1, x, size);
    var w := AluValue(op, size, ReadArg(s, x, size), ReadArg(s, Operand(es, b), size));
    if Operand(es, dst) == x && !InMemory(b) {
      LoadedNotInMemory(es, b, size);
      s' := AluSlot(s1, op, size, off, y);
      StoresAfter(LoadLarge(es, b, size), [Alu(op, M(size, off), y)], s, s1, s', off, size, w);
    } else {
      MovRegister(s1, RAX, size, x);
      var s2 := WriteBack(s1, R(RAX, size), ReadArg(s1, x, size));
      ReadKept(s1, s2, y, size);
      AluRegister(s2, op, RAX, size, y);
      s' := ThroughRax(s1, size, x, Alu(op, R(RAX, size), y), off, w);
      StoresAfter(LoadLarge(es, b, size), [Mov(R(RAX, size), x), Alu(op, R(RAX, size), y),
                                           Mov(M(size, off), R(RAX, size))],
                  s, s1, s', off, size, w);
    }
  }

  lemma LoadedNotInMemory(es: seq<Entry>, o: I.Operand, size: nat)
    requires !o.NoOperand? && !InMemory(o)
    ensures !Loaded(es, o, size).M?
  {}

  lemma MultStores(es: seq<Entry>, dst: I.Operand, a: I.Operand, b: I.Operand, size: nat, s: State, t: ValueType,
      x: int, y: int)
    returns (s': State)
    requires I.IsPlace(dst) && OperandSize(dst, size) && OperandSize(a, size) && OperandSize(b, size)
    requires IsInteger(t) && dst.t == t
    requires ReadArg(s, Operand(es, a), size) == Encode(t, x) && ReadArg(s, Operand(es, b), size) == Encode(t, y)
    ensures Stores(MultCode(es, dst, a, b), s, s', SlotOffset(es, dst), size, Encode(t, Wrap(t, x * y)))
  {
    hide ReadArg, Exec, WriteBack, ExecBlock, Stores, Operand, Loaded, LoadLarge, Get, Encode, Wrap;
    OperandArg(es, dst, size);
    OperandArg(es, a, size);
    OperandArg(es, b, size);
    var off, p, q := SlotOffset(es, dst), Operand(es, a), Operand(es, b);
    Multiply(t, x, y);
    var w := Encode(t, Wrap(t, x * y));
    if size == 1 {
      s' := MultByteStores(s, IsSigned(t), p, q, off, b.Immediate?, w);
    } else {
      var s1 := LoadedOperand(es, b, size, s);
      var f := Loaded(es, b, size);
      ReadKept(s, s1, p, size);
      MovRegister(s1, RAX, size, p);
      var s2 := WriteBack(s1, R(RAX, size), ReadArg(s1, p, size));
      ReadKept(s1, s2, f, size);
      ImulRegister(s2, size, f);
      s' := ThroughRax(s1, size, p, Imul(R(RAX, size), f), off, w);
      StoresAfter(LoadLarge(es, b, size), [Mov(R(RAX, size), p), Imul(R(RAX, size), f),
                                           Mov(M(size, off), R(RAX, size))],
                  s, s1, s', off, size, w);
    }
  }

  lemma ImulRegister(s: State, size: nat, src: Arg)
    requires IsSize(size) && size > 1 && HasSize(src, size) && SmallImmediate(size, src)
    ensures var v := AsSigned(size, ReadArg(s, R(RAX, size), size)) * AsSigned(size, ReadArg(s, src, size));
            Exec(Imul(R(RAX, size), src), s).Some? && SameMemory(s, Exec(Imul(R(RAX, size), src), s).value) &&
            ReadArg(Exec(Imul(R(RAX, size), src), s).value, R(RAX, size), size) == v % Modulus(size)
  {
    hide WriteBack, AsSigned, Modulus;
    var v := AsSigned(size, ReadArg(s, R(RAX, size), size)) * AsSigned(size, ReadArg(s, src, size));
    WriteRegister(s, RAX, size, v);
  }

  /** The product of two bytes is taken in `ax`; an immediate factor goes through `cl`. */
  lemma MultByteStores(s: State, signed: bool, p: Arg, q: Arg, off: int, viaCl: bool, w: int) returns (s': State)
    requires HasSize(p, 1) && HasSize(q, 1) && !p.R? && !q.R? && (!viaCl ==> !q.Imm?)
    requires var x, y := ReadArg(s, p, 1), ReadArg(s, q, 1);
             w == (if signed then AsSigned(1, x) * AsSigned(1, y) else x * y) % 0x100
    ensures Stores([Mov(R(RAX, 1), p)] +
                   (if viaCl then [Mov(R(RCX, 1), q), MulByte(signed, R(RCX, 1))] else [MulByte(signed, q)]) +
                   [Mov(M(1, off), R(RAX, 1))], s, s', off, 1, w)
  {
    hide ReadArg, WriteBack, ExecBlock, Get, AsSigned, Exec, Store;
    var x, y := ReadArg(s, p, 1), ReadArg(s, q, 1);
    MovRegister(s, RAX, 1, p);
    var s1 := WriteBack(s, R(RAX, 1), x);
    Exec1(Mov(R(RAX, 1), p), s);
    ReadKept(s, s1, q, 1);
    if viaCl {
      MovRegister(s1, RCX, 1, q);
      var s2 := WriteBack(s1, R(RCX, 1), y);
      ReadKept(s1, s2, R(RAX, 1), 1);
      var s3 := MulByteRegister(s2, signed, R(RCX, 1));
      MovToSlot(s3, 1, off, RAX);
      Exec3(Mov(R(RCX, 1), q), MulByte(signed, R(RCX, 1)), Mov(M(1, off), R(RAX, 1)), s1);
      s' := Exec(Mov(M(1, off), R(RAX, 1)), s3).value;
      StoresAfter([Mov(R(RAX, 1), p)], [Mov(R(RCX, 1), q), MulByte(signed, R(RCX, 1)), Mov(M(1, off), R(RAX, 1))],
                  s, s1, s', off, 1, w);
      assert [Mov(R(RAX, 1), p)] + [Mov(R(RCX, 1), q), MulByte(signed, R(RCX, 1)), Mov(M(1, off), R(RAX, 1))] ==
             [Mov(R(RAX, 1), p)] + [Mov(R(RCX, 1), q), MulByte(signed, R(RCX, 1))] + [Mov(M(1, off), R(RAX, 1))];
    } else {
      var s3 := MulByteRegister(s1, signed, q);
      MovToSlot(s3, 1, off, RAX);
      Exec2(MulByte(signed, q), Mov(M(1, off), R(RAX, 1)), s1);
      s' := Exec(Mov(M(1, off), R(RAX, 1)), s3).value;
      StoresAfter([Mov(R(RAX, 1), p)], [MulByte(signed, q), Mov(M(1, off), R(RAX, 1))], s, s1, s', off, 1, w);
      assert [Mov(R(RAX, 1), p)] + [MulByte(signed, q), Mov(M(1, off), R(RAX, 1))] ==
             [Mov(R(RAX, 1), p)] + [MulByte(signed, q)] + [Mov(M(1, off), R(RAX, 1))];
    }
  }

  lemma MulByteRegister(s: State, signed: bool, src: Arg) returns (s': State)
    requires !src.Imm? && src.size == 1
    ensures Exec(MulByte(signed, src), s) == Some(s') && SameMemory(s, s')
    ensures var x, y := ReadArg(s, R(RAX, 1), 1), ReadArg(s, src, 1);
            ReadArg(s', R(RAX, 1), 1) == (if signed then AsSigned(1, x) * AsSigned(1, y) else x * y) % 0x100
  {
    hide WriteBack, AsSigned;
    var x, y := ReadArg(s, R(RAX, 1), 1), ReadArg(s, src, 1);
    var v := if signed then AsSigned(1, x) * AsSigned(1, y) else x * y;
    WriteRegister(s, RAX, 2, v);
    s' := Exec(MulByte(signed, src), s).value;
    LowByte(v);
    LowOfRax(s');
  }

  lemma LowOfRax(s: State)
    ensures ReadArg(s, R(RAX, 1), 1) == ReadArg(s, R(RAX, 2), 2) % 0x100
  {}

  // ---------------------------------------------------------------- division

  function HighPart(t: ValueType, x: int): int {
    if IsSigned(t) && x < 0 then Modulus(WidthBytes(t)) - 1 else 0
  }

  /** `cwd`, `cdq`, `cqo` or a cleared `rdx`: the dividend extended to double width. */
  lemma ExtendWide(s: State, t: ValueType, x: int) returns (s': State)
    requires IsInteger(t) && InRange(t, x) && WidthBytes(t) > 1
    requires ReadArg(s, R(RAX, WidthBytes(t)), WidthBytes(t)) == Encode(t, x)
    ensures ExecBlock(DividendExtension(WidthBytes(t), IsSigned(t)), s) == Some(s') && SameMemory(s, s')
    ensures ReadArg(s', R(RDX, WidthBytes(t)), WidthBytes(t)) == HighPart(t, x)
    ensures ReadArg(s', R(RAX, WidthBytes(t)), WidthBytes(t)) == Encode(t, x)
  {
    hide WriteBack, ExecBlock, ReadArg, Get, Encode, InRange, Modulus, AsSigned, Bits;
    var size := WidthBytes(t);
    SizeOfScalar(t);
    ReadBack(t, x);
    if IsSigned(t) {
      var v := if x < 0 then -1 else 0;
      WriteRegister(s, RDX, size, v);
      Exec1(ExtendA(size), s);
      s' := WriteBack(s, R(RDX, size), v);
      ModSmall(0, Modulus(size));
      ModSmall(Modulus(size) - 1, Modulus(size));
      ReadKept(s, s', R(RAX, size), size);
    } else {
      var i := Alu(XOR, R(RDX, size), R(RDX, size));
      XorSelf(8 * size, ReadArg(s, R(RDX, size), size));
      WriteRegister(s, RDX, size, 0);
      ModSmall(0, Modulus(size));
      Exec1(i, s);
      s' := WriteBack(s, R(RDX, size), 0).(flags := NoFlags);
      FlagsKept(WriteBack(s, R(RDX, size), 0), R(RDX, size), size);
      ReadKept(s, WriteBack(s, R(RDX, size), 0), R(RAX, size), size);
      FlagsKept(WriteBack(s, R(RDX, size), 0), R(RAX, size), size);
    }
  }

  lemma FlagsKept(s: State, x: Arg, size: nat)
    ensures ReadArg(s.(flags := NoFlags), x, size) == ReadArg(s, x, size)
  {}

  /** `cbw` or a cleared `ah`: a byte dividend extended in `ax`. */
  lemma ExtendByte(s: State, t: ValueType, x: int) returns (s': State)
    requires IsInteger(t) && InRange(t, x) && WidthBytes(t) == 1
    requires ReadArg(s, R(RAX, 1), 1) == Encode(t, x)
    ensures ExecBlock(DividendExtension(1, IsSigned(t)), s) == Some(s') && SameMemory(s, s')
    ensures ReadArg(s', R(RAX, 2), 2) == HighPart(t, x) * 0x100 + Encode(t, x)
  {
    hide WriteBack, ExecBlock, ReadArg, Get;
    ReadBack(t, x);
    if IsSigned(t) {
      WriteRegister(s, RAX, 2, x);
      Exec1(ExtendA(1), s);
      s' := WriteBack(s, R(RAX, 2), x);
    } else {
      WriteRegister(s, RAX, 2, Encode(t, x));
      Exec1(ClearAh, s);
      s' := WriteBack(s, R(RAX, 2), Encode(t, x));
    }
  }

  /** The dividend is in place for a division at type `t`. */
  predicate DividendReady(s: State, t: ValueType, x: int) {
    var size := WidthBytes(t);
    if size == 1 then ReadArg(s, R(RAX, 2), 2) == HighPart(t, x) * 0x100 + Encode(t, x)
    else ReadArg(s, R(RDX, size), size) == HighPart(t, x) && ReadArg(s, R(RAX, size), size) == Encode(t, x)
  }

  lemma Extend(s: State, t: ValueType, x: int) returns (s': State)
    requires IsInteger(t) && InRange(t, x)
    requires ReadArg(s, R(RAX, WidthBytes(t)), WidthBytes(t)) == Encode(t, x)
    ensures ExecBlock(DividendExtension(WidthBytes(t), IsSigned(t)), s) == Some(s') && SameMemory(s, s')
    ensures DividendReady(s', t, x)
  {
    hide ExecBlock, ReadArg, InRange, Encode, DividendExtension;
    if WidthBytes(t) == 1 {
      s' := ExtendByte(s, t, x);
    } else {
      s' := ExtendWide(s, t, x);
    }
  }

  lemma DivRegister(s: State, t: ValueType, x: int, y: int, src: Arg) returns (s': State)
    requires IsInteger(t) && InRange(t, x) && InRange(t, y) && Apply(Div, t, x, y).Some?
    requires DividendReady(s, t, x) && !src.Imm? && src.size == WidthBytes(t)
    requires ReadArg(s, src, src.size) == Encode(t, y)
    ensures Exec(DivA(IsSigned(t), src), s) == Some(s') && SameMemory(s, s')
    ensures ReadArg(s', R(RAX, src.size), src.size) == Encode(t, Apply(Div, t, x, y).value)
  {
    hide WriteBack, ReadArg, Get, Encode, InRange, Modulus, Apply, DivValue;
    var size := src.size;
    SizeOfScalar(t);
    Divide(t, x, y, HighPart(t, x));
    var qr := DivValue(IsSigned(t), size, HighPart(t, x), Encode(t, x), Encode(t, y)).value;
    var q := Encode(t, Apply(Div, t, x, y).value);
    if size == 1 {
      AxParts(t, x);
      BytePattern(t, Apply(Div, t, x, y).value);
      WriteRegister(s, RAX, 2, qr.1 * 0x100 + qr.0);
      s' := WriteBack(s, R(RAX, 2), qr.1 * 0x100 + qr.0).(flags := NoFlags);
      ByteQuotient(s, q, qr.1);
    } else {
      WriteRegister(s, RAX, size, qr.0);
      var s1 := WriteBack(s, R(RAX, size), qr.0);
      WriteRegister(s1, RDX, size, qr.1);
      var s2 := WriteBack(s1, R(RDX, size), qr.1);
      s' := s2.(flags := NoFlags);
      ReadKept(s1, s2, R(RAX, size), size);
      FlagsKept(s2, R(RAX, size), size);
      ModSmall(q, Modulus(size));
    }
  }

  lemma AxParts(t: ValueType, x: int)
    requires IsInteger(t) && WidthBytes(t) == 1
    ensures (HighPart(t, x) * 0x100 + Encode(t, x)) / 0x100 == HighPart(t, x)
    ensures (HighPart(t, x) * 0x100 + Encode(t, x)) % 0x100 == Encode(t, x)
  {}

  lemma BytePattern(t: ValueType, v: int)
    requires WidthBytes(t) == 1
    ensures 0 <= Encode(t, v) < 0x100
  {}

  lemma ByteQuotient(s: State, q: int, r: int)
    requires 0 <= q < 0x100
    ensures var s1 := WriteBack(s, R(RAX, 2), r * 0x100 + q).(flags := NoFlags); ReadArg(s1, R(RAX, 1), 1) == q
  {
    hide WriteBack, Get, ReadArg;
    var v := r * 0x100 + q;
    var s1 := WriteBack(s, R(RAX, 2), v);
    WriteRegister(s, RAX, 2, v);
    FlagsKept(s1, R(RAX, 1), 1);
    LowOfRax(s1);
    LowByte(v);
    ModUnique(r, q, 0x100);
  }

  /** The division itself and the store of the quotient; an immediate divisor goes through `rcx`. */
  lemma QuotientStores(s: State, t: ValueType, x: int, y: int, q: Arg, viaCounter: bool, off: int) returns (s': State)
    requires IsInteger(t) && InRange(t, x) && InRange(t, y) && Apply(Div, t, x, y).Some? && DividendReady(s, t, x)
    requires HasSize(q, WidthBytes(t)) && !q.R? && (!viaCounter ==> !q.Imm?) &&
             ReadArg(s, q, WidthBytes(t)) == Encode(t, y)
    ensures var size, signed := WidthBytes(t), IsSigned(t);
            Stores((if viaCounter then [Mov(R(RCX, size), q), DivA(signed, R(RCX, size))] else [DivA(signed, q)]) +
                   [Mov(M(size, off), R(RAX, size))], s, s', off, size, Encode(t, Apply(Div, t, x, y).value))
  {
    hide WriteBack, ReadArg, Get, Encode, InRange, Modulus, Apply, ExecBlock, Exec, DividendReady, Store;
    var size, signed := WidthBytes(t), IsSigned(t);
    SizeOfScalar(t);
    var put := Mov(M(size, off), R(RAX, size));
    if viaCounter {
      MovRegister(s, RCX, size, q);
      var s1 := WriteBack(s, R(RCX, size), ReadArg(s, q, size));
      DividendKept(s, s1, t, x);
      var s2 := DivRegister(s1, t, x, y, R(RCX, size));
      MovToSlot(s2, size, off, RAX);
      Exec3(Mov(R(RCX, size), q), DivA(signed, R(RCX, size)), put, s);
      s' := Exec(put, s2).value;
      assert [Mov(R(RCX, size), q), DivA(signed, R(RCX, size))] + [put] ==
        [Mov(R(RCX, size), q), DivA(signed, R(RCX, size)), put];
    } else {
      var s2 := DivRegister(s, t, x, y, q);
      MovToSlot(s2, size, off, RAX);
      Exec2(DivA(signed, q), put, s);
      s' := Exec(put, s2).value;
      assert [DivA(signed, q)] + [put] == [DivA(signed, q), put];
    }
  }

  lemma DivStores(es: seq<Entry>, dst: I.Operand, a: I.Operand, b: I.Operand, t: ValueType, s: State, x: int, y: int)
    returns (s': State)
    requires IsInteger(t) && InRange(t, x) && InRange(t, y) && Apply(Div, t, x, y).Some?
    requires I.IsPlace(dst) && dst.t == t
    requires var size := WidthBytes(t);
             I.IsPlace(dst) && OperandSize(dst, size) && OperandSize(a, size) && OperandSize(b, size) &&
             ReadArg(s, Operand(es, a), size) == Encode(t, x) && ReadArg(s, Operand(es, b), size) == Encode(t, y)
    ensures Stores(DivCode(es, dst, a, b), s, s', SlotOffset(es, dst), WidthBytes(t),
                   Encode(t, Apply(Div, t, x, y).value))
  {
    hide WriteBack, ReadArg, Get, Encode, InRange, Modulus, Apply, Operand, ExecBlock, Exec, DividendExtension,
         DividendReady, Store, Stores;
    var size, signed, off := WidthBytes(t), IsSigned(t), SlotOffset(es, dst);
    var p, q, w := Operand(es, a), Operand(es, b), Encode(t, Apply(Div, t, x, y).value);
    OperandArg(es, dst, size);
    OperandArg(es, a, size);
    OperandArg(es, b, size);
    MovRegister(s, RAX, size, p);
    var s1 := WriteBack(s, R(RAX, size), ReadArg(s, p, size));
    Exec1(Mov(R(RAX, size), p), s);
    var s2 := Extend(s1, t, x);
    var first := [Mov(R(RAX, size), p)] + DividendExtension(size, signed);
    ExecBlockConcat([Mov(R(RAX, size), p)], DividendExtension(size, signed), s);
    ReadKept(s, s2, q, size);
    s' := QuotientStores(s2, t, x, y, q, b.Immediate?, off);
    var tail := if b.Immediate? then [Mov(R(RCX, size), q), DivA(signed, R(RCX, size))] else [DivA(signed, q)];
    var put := [Mov(M(size, off), R(RAX, size))];
    StoresAfter(first, tail + put, s, s2, s', off, size, w);
    assert first + (tail + put) == first + tail + put;
  }

  lemma ImmediateArg(es: seq<Entry>, o: I.Operand)
    requires o.Immediate?
    ensures Operand(es, o) == Imm(o.number)
  {}

  lemma DividendKept(s: State, s': State, t: ValueType, x: int)
    requires DividendReady(s, t, x) && SameMemory(s, s') && Get(s', RAX) == Get(s, RAX) && Get(s', RDX) == Get(s, RDX)
    ensures DividendReady(s', t, x)
  {
    hide Get;
  }

  // ---------------------------------------------------------------- negation and complement

  lemma OneOperand(s: State, i: Instr, d: Arg)
    requires !d.Imm? && IsSize(d.size) && (i == Neg(d) || i == Not(d) || i == Alu(XOR, d, Imm(1)))
    ensures Exec(i, s).Some?
    ensures var w := OneOperandValue(i, d.size, ReadArg(s, d, d.size));
            var s' := Exec(i, s).value;
            s'.rsp == s.rsp && s'.rbp == s.rbp &&
            (d.M? ==> s'.mem == Store(s.mem, s.rbp + d.off, d.size, w)) &&
            (d.R? ==> SameMemory(s, s') && ReadArg(s', d, d.size) == w)
  {
    hide Bits, Store, Modulus;
    var w := OneOperandValue(i, d.size, ReadArg(s, d, d.size));
    ModSmall(w, Modulus(d.size));
    ModSmall(1, Modulus(d.size));
    if d.R? {
      WriteRegister(s, d.reg, d.size, if i.Neg? then -ReadArg(s, d, d.size)
                    else if i.Not? then -ReadArg(s, d, d.size) - 1 else w);
    }
  }

  function OneOperandValue(i: Instr, size: nat, v: int): (w: int)
    requires IsSize(size)
    ensures 0 <= w < Modulus(size)
  {
    if i.Neg? then (-v) % Modulus(size)
    else if i.Not? then (-v - 1) % Modulus(size)
    else AluValue(XOR, size, v, 1)
  }

  function OneOperandOn(kind: UnaryOp, d: Arg): Instr {
    if kind.Negate? then Neg(d) else NotOn(kind, d)
  }

  lemma DirectStores(s: State, kind: UnaryOp, size: nat, off: int) returns (s': State)
    requires IsSize(size)
    ensures Stores([OneOperandOn(kind, M(size, off))], s, s', off, size,
                   OneOperandValue(OneOperandOn(kind, R(RAX, size)), size, ReadArg(s, M(size, off), size)))
  {
    hide ReadArg, Exec, ExecBlock, Store;
    var i := OneOperandOn(kind, M(size, off));
    OneOperand(s, i, M(size, off));
    Exec1(i, s);
    s' := Exec(i, s).value;
  }

  lemma ViaRaxStores(s: State, kind: UnaryOp, size: nat, x: Arg, off: int) returns (s': State)
    requires IsSize(size) && HasSize(x, size)
    ensures Stores([Mov(R(RAX, size), x), OneOperandOn(kind, R(RAX, size)), Mov(M(size, off), R(RAX, size))], s, s',
                   off, size,
                   OneOperandValue(OneOperandOn(kind, R(RAX, size)), size, ReadArg(s, x, size)))
  {
    hide ReadArg, Exec, ExecBlock, WriteBack, Get, OneOperandValue, Stores;
    var i := OneOperandOn(kind, R(RAX, size));
    MovRegister(s, RAX, size, x);
    OneOperand(WriteBack(s, R(RAX, size), ReadArg(s, x, size)), i, R(RAX, size));
    s' := ThroughRax(s, size, x, i, off, OneOperandValue(i, size, ReadArg(s, x, size)));
  }

  lemma OneOperandStores(es: seq<Entry>, dst: I.Operand, a: I.Operand, size: nat, s: State, kind: UnaryOp)
    returns (s': State)
    requires I.IsPlace(dst) && OperandSize(dst, size) && OperandSize(a, size)
    ensures Stores(if kind.Negate? then NegCode(es, dst, a)
                   else NotCode(es, kind, dst, a), s, s', SlotOffset(es, dst), size,
                   OneOperandValue(OneOperandOn(kind, R(RAX, size)), size, ReadArg(s, Operand(es, a), size)))
  {
    hide ReadArg, Exec, WriteBack, ExecBlock, Operand, Get, Store, OneOperandValue, Stores;
    OperandArg(es, dst, size);
    OperandArg(es, a, size);
    if Operand(es, dst) == Operand(es, a) {
      s' := DirectStores(s, kind, size, SlotOffset(es, dst));
    } else {
      s' := ViaRaxStores(s, kind, size, Operand(es, a), SlotOffset(es, dst));
    }
  }

  lemma UnaryStores(es: seq<Entry>, op: UnaryOp, dst: I.Operand, a: I.Operand, t: ValueType, s: State, x: int)
    returns (s': State)
    requires UnaryType(op, t) && InRange(t, x) && I.IsPlace(dst) && dst.t == t
    requires var size := WidthBytes(t);
             I.IsPlace(dst) && OperandSize(dst, size) && OperandSize(a, size) &&
               ReadArg(s, Operand(es, a), size) == Encode(t, x)
    ensures Stores(if op.Negate? then NegCode(es, dst, a) else NotCode(es, op, dst, a), s, s',
                   SlotOffset(es, dst), WidthBytes(t), Encode(t, ApplyUnary(op, t, x)))
  {
    hide ReadArg, ExecBlock, Operand, Store, NegCode, NotCode, Stores, Encode, Wrap, Bits;
    var size := WidthBytes(t);
    s' := OneOperandStores(es, dst, a, size, s, op);
    if op.LogNot? {
      Logical(x, 1);
      EncodeSmall(Bool, x);
      EncodeSmall(Bool, 1);
    } else {
      Negation(t, x);
    }
  }

  // ---------------------------------------------------------------- shifts

  lemma ShiftRegister(s: State, i: Instr, op: ShiftOp, size: nat, count: nat)
    requires IsSize(size) && count < 0x100
    requires i == ShiftImm(op, R(RAX, size), count) || (i == ShiftCl(op, R(RAX, size)) &&
                                                        ReadArg(s, R(RCX, 1), 1) == count)
    ensures Exec(i, s).Some? && SameMemory(s, Exec(i, s).value)
    ensures ReadArg(Exec(i, s).value, R(RAX, size), size) == ShiftValue(op, size, ReadArg(s, R(RAX, size), size), count)
  {
    hide ShiftValue, Modulus, WriteBack;
    var v := ShiftValue(op, size, ReadArg(s, R(RAX, size), size), count);
    ModSmall(v, Modulus(size));
    WriteRegister(s, RAX, size, v);
  }

  lemma ShiftByCount(
    es: seq<Entry>, op: ShiftOp, dst: I.Operand, a: I.Operand, b: I.Operand, size: nat, s: State, y: nat)
    returns (s': State)
    requires I.IsPlace(dst) && OperandSize(dst, size) && OperandSize(a, size)
    requires b.Immediate? && b.number == y && y < 64
    ensures Stores(ShiftCode(es, op, dst, a, b), s, s', SlotOffset(es, dst), size,
                   ShiftValue(op, size, ReadArg(s, Operand(es, a), size), y))
  {
    hide ReadArg, Exec, WriteBack, ExecBlock, Operand, Get, Store, ShiftValue;
    OperandArg(es, dst, size);
    OperandArg(es, a, size);
    var off, x := SlotOffset(es, dst), Operand(es, a);
    var w := ShiftValue(op, size, ReadArg(s, x, size), y);
    MovRegister(s, RAX, size, x);
    var s1 := WriteBack(s, R(RAX, size), ReadArg(s, x, size));
    ShiftRegister(s1, ShiftImm(op, R(RAX, size), y), op, size, y);
    s' := ThroughRax(s, size, x, ShiftImm(op, R(RAX, size), y), off, w);
    assert [Mov(R(RAX, size), x)] + [ShiftImm(op, R(RAX, size), y)] + [Mov(M(size, off), R(RAX, size))] ==
           [Mov(R(RAX, size), x), ShiftImm(op, R(RAX, size), y), Mov(M(size, off), R(RAX, size))];
  }

  /** The count loaded, the register shifted, the result stored. */
  lemma ShiftLoaded(s1: State, op: ShiftOp, size: nat, q: Arg, tb: ValueType, y: int, off: int) returns (s': State)
    requires IsSize(size) && IsSize(WidthBytes(tb)) && HasSize(q, WidthBytes(tb))
    requires IsInteger(tb) && InRange(tb, y) && 0 <= y < 64 && ReadArg(s1, q, WidthBytes(tb)) == Encode(tb, y)
    ensures Stores([Mov(R(RCX, WidthBytes(tb)), q), ShiftCl(op, R(RAX, size)), Mov(M(size, off), R(RAX, size))], s1, s',
                   off, size, ShiftValue(op, size, ReadArg(s1, R(RAX, size), size), y))
  {
    hide ReadArg, Exec, WriteBack, ExecBlock, Get, Store, ShiftValue, Encode, InRange;
    var bs := WidthBytes(tb);
    MovRegister(s1, RCX, bs, q);
    var s2 := WriteBack(s1, R(RCX, bs), ReadArg(s1, q, bs));
    ReadKept(s1, s2, R(RAX, size), size);
    LowOfCounter(s2, bs);
    CountByte(tb, y);
    ShiftRegister(s2, ShiftCl(op, R(RAX, size)), op, size, y);
    var s3 := Exec(ShiftCl(op, R(RAX, size)), s2).value;
    MovToSlot(s3, size, off, RAX);
    Exec3(Mov(R(RCX, bs), q), ShiftCl(op, R(RAX, size)), Mov(M(size, off), R(RAX, size)), s1);
    s' := Exec(Mov(M(size, off), R(RAX, size)), s3).value;
  }

  lemma ShiftByCounter(
    es: seq<Entry>, op: ShiftOp, dst: I.Operand, a: I.Operand, b: I.Operand, size: nat, tb: ValueType, s: State, y: int)
    returns (s': State)
    requires I.IsPlace(dst) && OperandSize(dst, size) && OperandSize(a, size) && !b.Immediate?
    requires IsInteger(tb) && OperandSize(b, WidthBytes(tb)) && InRange(tb, y) && 0 <= y < 64
    requires ReadArg(s, Operand(es, b), WidthBytes(tb)) == Encode(tb, y)
    ensures Stores(ShiftCode(es, op, dst, a, b), s, s', SlotOffset(es, dst), size,
                   ShiftValue(op, size, ReadArg(s, Operand(es, a), size), y))
  {
    hide ReadArg, Exec, WriteBack, ExecBlock, Operand, Get, Stores, ShiftValue, Encode, InRange;
    OperandArg(es, dst, size);
    OperandArg(es, a, size);
    var bs := WidthBytes(tb);
    OperandArg(es, b, bs);
    var off, x, q := SlotOffset(es, dst), Operand(es, a), Operand(es, b);
    MovRegister(s, RAX, size, x);
    var s1 := WriteBack(s, R(RAX, size), ReadArg(s, x, size));
    Exec1(Mov(R(RAX, size), x), s);
    ReadKept(s, s1, q, bs);
    s' := ShiftLoaded(s1, op, size, q, tb, y, off);
    StoresAfter([Mov(R(RAX, size), x)], [Mov(R(RCX, bs), q), ShiftCl(op, R(RAX, size)),
                                         Mov(M(size, off), R(RAX, size))],
                s, s1, s', off, size, ShiftValue(op, size, ReadArg(s, x, size), y));
    assert [Mov(R(RAX, size), x)] + [Mov(R(RCX, bs), q), ShiftCl(op, R(RAX, size)), Mov(M(size, off), R(RAX, size))] ==
           [Mov(R(RAX, size), x)] + [Mov(R(RCX, bs), q), ShiftCl(op, R(RAX, size))] + [Mov(M(size, off), R(RAX, size))];
  }

  lemma ShiftStores(
    es: seq<Entry>, op: ShiftOp, dst: I.Operand, a: I.Operand, b: I.Operand, size: nat, tb: ValueType, s: State, y: int)
    returns (s': State)
    requires I.IsPlace(dst) && OperandSize(dst, size) && OperandSize(a, size)
    requires IsInteger(tb) && OperandSize(b, WidthBytes(tb)) && InRange(tb, y) && 0 <= y < 64
    requires ReadArg(s, Operand(es, b), WidthBytes(tb)) == Encode(tb, y) && (b.Immediate? ==> b.number == y)
    ensures Stores(ShiftCode(es, op, dst, a, b), s, s', SlotOffset(es, dst), size,
                   ShiftValue(op, size, ReadArg(s, Operand(es, a), size), y))
  {
    hide Stores, ReadArg, ShiftValue, ShiftCode, Operand;
    if b.Immediate? {
      s' := ShiftByCount(es, op, dst, a, b, size, s, y);
    } else {
      s' := ShiftByCounter(es, op, dst, a, b, size, tb, s, y);
    }
  }

  lemma LowOfCounter(s: State, size: nat)
    requires IsSize(size)
    ensures ReadArg(s, R(RCX, 1), 1) == ReadArg(s, R(RCX, size), size) % 0x100
  {
    Truncation(1, size, s.rcx);
  }

  // ---------------------------------------------------------------- conversion

  /** `mov`, `movsx`, `movsxd` and `movzx` into a register. */
  lemma ExtendRegister(s: State, i: Instr, r: Reg, size: nat, src: Arg, from: nat, signed: bool)
    requires IsSize(size) && IsSize(from) && from < size && src.M? && src.size == from
    requires i == if signed && from == 4 then MovSxd(R(r, size), src)
                  else if signed then MovSx(R(r, size), src)
                  else if from == 4 then Mov(R(r, 4), src)
                  else MovZx(R(r, size), src)
    ensures Exec(i, s).Some? && SameMemory(s, Exec(i, s).value)
    ensures var v := ReadArg(s, src, from);
            ReadArg(Exec(i, s).value, R(r, size), size) == (if signed then AsSigned(from, v) else v) % Modulus(size)
  {
    hide WriteBack, AsSigned, Load;
    var v := ReadArg(s, src, from);
    if !signed && from == 4 {
      MovRegister(s, r, 4, src);
      WholeOfLow(s, r, v);
      ReadBound(s, src, 4);
    } else {
      WriteRegister(s, r, size, if signed then AsSigned(from, v) else v);
    }
  }

  /** Writing 4 bytes of a register clears its upper half. */
  lemma WholeOfLow(s: State, r: Reg, v: int)
    requires 0 <= v < Modulus(4)
    ensures ReadArg(WriteBack(s, R(r, 4), v), R(r, 8), 8) == v
  {}

  lemma ConvertStores(
    es: seq<Entry>, dst: I.Operand, a: I.Operand, t: ValueType, from: ValueType, s: State, x: int)
    returns (s': State)
    requires IsScalar(t) && IsScalar(from) && InRange(from, x)
    requires I.IsPlace(dst) && OperandSize(dst, WidthBytes(t)) && OperandSize(a, WidthBytes(from)) && a.t == from
    requires ReadArg(s, Operand(es, a), WidthBytes(from)) == Encode(from, x)
    requires a.Immediate? ==> a.number % Modulus(WidthBytes(t)) == x % Modulus(WidthBytes(t))
    ensures Stores(ConvertCode(es, dst, a), s, s', SlotOffset(es, dst), WidthBytes(t), x % Modulus(WidthBytes(t)))
  {
    hide ReadArg, Exec, WriteBack, ExecBlock, Operand, Get, Store, InRange, Modulus, AsSigned;
    var size, fs := WidthBytes(t), WidthBytes(from);
    OperandArg(es, dst, size);
    OperandArg(es, a, fs);
    SizeOfScalar(t);
    SizeOfScalar(from);
    var off, p, w := SlotOffset(es, dst), Operand(es, a), x % Modulus(size);
    if a.Immediate? {
      ImmediateArg(es, a);
      ImmediateRead(s, a.number, size);
      s' := CopyStores(s, size, p, off, w);
    } else if fs == size {
      s' := CopyStores(s, size, p, off, w);
    } else if fs < size {
      ReadBack(from, x);
      var i := if IsSigned(from) && fs == 4 then MovSxd(R(RAX, size), p)
               else if IsSigned(from) then MovSx(R(RAX, size), p)
               else if fs == 4 then Mov(R(RAX, 4), p)
               else MovZx(R(RAX, size), p);
      ExtendRegister(s, i, RAX, size, p, fs, IsSigned(from));
      s' := RegisterStores(s, i, size, off, w);
    } else {
      MovRegister(s, RAX, fs, p);
      LowOfAcc(WriteBack(s, R(RAX, fs), ReadArg(s, p, fs)), size, fs);
      Truncation(size, fs, x);
      s' := RegisterStores(s, Mov(R(RAX, fs), p), size, off, w);
    }
  }

  lemma ImmediateRead(s: State, n: nat, size: nat)
    ensures ReadArg(s, Imm(n), size) == n % Modulus(size)
  {}

  lemma LowOfAcc(s: State, size: nat, wide: nat)
    requires IsSize(size) && IsSize(wide) && size <= wide
    ensures ReadArg(s, R(RAX, size), size) == ReadArg(s, R(RAX, wide), wide) % Modulus(size)
  {
    Truncation(size, wide, s.rax);
  }

  /** One instruction that leaves `w` in `rax`, and a store of it. */
  lemma RegisterStores(s: State, i: Instr, size: nat, off: int, w: int) returns (s': State)
    requires IsSize(size) && Exec(i, s).Some? && SameMemory(s, Exec(i, s).value)
    requires ReadArg(Exec(i, s).value, R(RAX, size), size) == w
    ensures Stores([i, Mov(M(size, off), R(RAX, size))], s, s', off, size, w)
    ensures Stores([i] + [Mov(M(size, off), R(RAX, size))], s, s', off, size, w)
  {
    hide ReadArg, Exec, Store, ExecBlock;
    MovToSlot(Exec(i, s).value, size, off, RAX);
    Exec2(i, Mov(M(size, off), R(RAX, size)), s);
    s' := Exec(Mov(M(size, off), R(RAX, size)), Exec(i, s).value).value;
    assert [i] + [Mov(M(size, off), R(RAX, size))] == [i, Mov(M(size, off), R(RAX, size))];
  }

  lemma CopyStores(s: State, size: nat, p: Arg, off: int, w: int) returns (s': State)
    requires IsSize(size) && HasSize(p, size) && ReadArg(s, p, size) == w
    ensures Stores([Mov(R(RAX, size), p), Mov(M(size, off), R(RAX, size))], s, s', off, size, w)
  {
    hide ReadArg, Exec, Store, ExecBlock, WriteBack;
    MovRegister(s, RAX, size, p);
    s' := RegisterStores(s, Mov(R(RAX, size), p), size, off, w);
  }

  // ---------------------------------------------------------------- comparison

  lemma RelationalStores(
    es: seq<Entry>, op: BinaryOp, dst: I.Operand, a: I.Operand, b: I.Operand, t: ValueType, s: State, x: int, y: int)
    returns (s': State)
    requires IsRelational(op) && IsScalar(t) && InRange(t, x) && InRange(t, y) && !a.NoOperand? && a.t == t
    requires var size := WidthBytes(t);
             I.IsPlace(dst) && OperandSize(dst, 1) && OperandSize(a, size) && OperandSize(b, size) &&
             ReadArg(s, Operand(es, a), size) == Encode(t, x) && ReadArg(s, Operand(es, b), size) == Encode(t, y)
    ensures Stores(RelationalCode(es, op, dst, a, b), s, s', SlotOffset(es, dst), 1, Flag(Holds(op, x, y)))
  {
    hide ReadArg, Exec, WriteBack, ExecBlock, Operand, Get, Store, Encode, InRange, CompareFlags, CondHolds, Holds,
         Loaded, LoadLarge, Stores, Condition;
    var size := WidthBytes(t);
    SizeOfScalar(t);
    OperandArg(es, dst, 1);
    OperandArg(es, a, size);
    OperandArg(es, b, size);
    var off, p, w, c := SlotOffset(es, dst), Operand(es, a), Flag(Holds(op, x, y)), Condition(op, IsSigned(t));
    var s1 := LoadedOperand(es, b, size, s);
    var f := Loaded(es, b, size);
    ReadKept(s, s1, p, size);
    MovRegister(s1, RAX, size, p);
    var s2 := WriteBack(s1, R(RAX, size), ReadArg(s1, p, size));
    ReadKept(s1, s2, f, size);
    Compare(t, x, y, op);
    s' := CompareStores(s1, s2, size, p, f, c, off, w);
    StoresAfter(LoadLarge(es, b, size),
                [Mov(R(RAX, size), p), Cmp(R(RAX, size), f), SetAl(c), Mov(M(1, off), R(RAX, 1))], s, s1, s', off, 1,
                  w);
  }

  lemma CompareStores(s1: State, s2: State, size: nat, p: Arg, f: Arg, c: Cond, off: int, w: int) returns (s': State)
    requires IsSize(size) && HasSize(f, size) && SmallImmediate(size, f)
    requires Exec(Mov(R(RAX, size), p), s1) == Some(s2) && SameMemory(s1, s2)
    requires w == Flag(CondHolds(c, CompareFlags(size, ReadArg(s2, R(RAX, size), size), ReadArg(s2, f, size))))
    ensures Stores([Mov(R(RAX, size), p), Cmp(R(RAX, size), f), SetAl(c), Mov(M(1, off), R(RAX, 1))], s1, s', off, 1, w)
  {
    hide ReadArg, WriteBack, ExecBlock, Get, Store, CondHolds;
    var cmp := Cmp(R(RAX, size), f);
    var s3 := s2.(flags := CompareFlags(size, ReadArg(s2, R(RAX, size), size), ReadArg(s2, f, size)));
    assert Exec(cmp, s2) == Some(s3);
    Exec2(Mov(R(RAX, size), p), cmp, s1);
    WriteRegister(s3, RAX, 1, w);
    s' := RegisterStores(s3, SetAl(c), 1, off, w);
    StoresAfter([Mov(R(RAX, size), p), cmp], [SetAl(c), Mov(M(1, off), R(RAX, 1))], s1, s3, s', off, 1, w);
    assert [Mov(R(RAX, size), p), cmp] + [SetAl(c), Mov(M(1, off), R(RAX, 1))] ==
           [Mov(R(RAX, size), p), cmp, SetAl(c), Mov(M(1, off), R(RAX, 1))];
  }
}
