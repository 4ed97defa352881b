/** A result returned at a wider type: `fn widen(T x) W { return x; }`. The analyser accepts it, RETURN
  * moves `x` at its own width, and the caller reads the declared one. What the compiled function leaves
  * in `rax`, and exactly when that is the result. */
module Widening {
  import opened Values
  import opened Arith
  import opened Names
  import opened Memory
  import opened Machine
  import opened MachineArith
  import opened MachineRun
  import opened Frame
  import opened Codegen
  import opened CodegenOps
  import opened IrTyping
  import opened Slots
  import opened CodegenSim
  import opened CodePlaces
  import opened CodegenCalls
  import opened CodegenRun
  import opened Lowering
  import Typing
  import IrShape
  import I = Ir
  import C = Checked

  // ---------------------------------------------------------------- the function

  function Widen(from: ValueType, to: ValueType): C.Function {
    C.Function("widen", [C.Param("x", 0, from)], to, Some(C.Block([C.Return(Some(C.Ident(from, "x", 0)))])))
  }

  function Lowered(from: ValueType, to: ValueType): I.IrFunction {
    LowerFunction(Widen(from, to), 0)
  }

  function LoweredWiden(from: ValueType, to: ValueType): I.IrProgram {
    LowerProgram([Widen(from, to)], 0)
  }

  lemma LoweredParts(from: ValueType, to: ValueType)
    ensures var x := I.Variable(C.Key("x", 0), from);
            Lowered(from, to) == I.IrFunction("widen", [I.IrParam(C.Key("x", 0), from)], to, true, [I.Return(x)])
    ensures LoweredWiden(from, to) == [Lowered(from, to)] && LowerBody(Widen(from, to), 0).temps == 0
  {
    hide MangleVariable;
    var r := C.Return(Some(C.Ident(from, "x", 0)));
    assert LowerStmt(r, 0, 0).ops == [I.Return(I.Variable(C.Key("x", 0), from))];
    assert LowerAll([r], 0, 0) == LowerStmt(r, 0, 0) by {
      assert [r][1..] == [];
    }
    assert LowerParams([C.Param("x", 0, from)]) == [I.IrParam(C.Key("x", 0), from)];
  }

  function WidenCode(from: ValueType, to: ValueType): seq<MachineFunction> {
    LoweredParts(from, to);
    ProgramCode(LoweredWiden(from, to))
  }

  function BodyCode(from: ValueType, to: ValueType): seq<Instr> {
    LoweredParts(from, to);
    FunctionCode(Lowered(from, to))
  }

  /** The same code, with the types the back end asks for: the declared type plays no part in it. */
  lemma Twin(from: ValueType, to: ValueType) returns (g: Places)
    requires IsScalar(from)
    ensures Shaped(LoweredWiden(from, from), [g], [0])
    ensures FunctionTyped(LoweredWiden(from, from), g, 0, Lowered(from, from))
    ensures BodyCode(from, to) == BodyCode(from, from)
  {
    hide FunctionTyped, Layout;
    LoweredParts(from, from);
    LoweredParts(from, to);
    var p := [Widen(from, from)];
    var gs: Typing.Typings := [map[C.Key("x", 0) := from]];
    WellTyped(from);
    g := IrShape.LoweredFunctionTyped(p, gs, 0, 0, 0);
  }

  lemma WellTyped(from: ValueType)
    requires IsScalar(from)
    ensures Typing.WfProgram([Widen(from, from)], [map[C.Key("x", 0) := from]])
  {
    hide C.Key;
    var g: Typing.Types := map[C.Key("x", 0) := from];
    var r := C.Return(Some(C.Ident(from, "x", 0)));
    assert Typing.WfStmt([Widen(from, from)], g, from, r);
    assert Typing.WfStmt([Widen(from, from)], g, from, C.Block([r]));
  }

  // ---------------------------------------------------------------- what it returns

  /** Entered with `v` for its argument the compiled function returns, and `rax` is what it was on entry
    * with the bytes of `v` merged in. */
  lemma WidenReturns(from: ValueType, to: ValueType, v: int, back: Word, entry: State) returns (s': State)
    requires IsScalar(from) && InRange(from, v) && Entered(LoweredWiden(from, to), Lowered(from, to), [v], 1, back,
                                                           entry)
    ensures ReturnsX(WidenCode(from, to), "widen", back, entry, s')
    ensures s'.rsp == entry.rsp + 8 && s'.rbp == entry.rbp && SameAbove(entry.mem, s'.mem, entry.rsp)
    ensures IsSize(WidthBytes(from)) && 0 <= Encode(from, v) < Modulus(WidthBytes(from))
    ensures s'.rax == Merge(entry.rax, WidthBytes(from), Encode(from, v))
  {
    hide FunctionTyped, Layout, FrameSize, ReachesX, Where, FunctionCode, WidenCode, Running, ArgumentHolds, ReturnsX,
         Shaped, Lowered, LoweredWiden, Merge, Encode, InRange, Exec, Operand;
    LoweredParts(from, from);
    LoweredParts(from, to);
    var g := Twin(from, to);
    var ip, f, p := LoweredWiden(from, from), Lowered(from, from), WidenCode(from, to);
    var x := I.Variable(C.Key("x", 0), from);
    ShapedIsComplete(ip, [g], [0]);
    assert FunctionCode(f) == BodyCode(from, from);
    OneStack(f);
    OneStack(Lowered(from, to));
    SameStack(from, to);
    var s := StartRunning(ip, [g], [0], 0, [v], entry, p, back);
    var st := I.BindIr(f.params, [v]);
    BoundToOne(from, v);
    s' := ReturnStep(ip, p, g, 0, f, entry, back, 0, st, [], s);
    ReachesJoinX(p, FunctionCode(f), back, AtX(0, entry), AtX(Where(f, 0), s), GoneX(s'));
    WideLookup(from, to);
    ReachesReturnX(p, "widen", back, entry, s');
    SlotReads(ip, f, g, from, v, entry, st, s);
    RawMov(s, x, Layout(f.params, f.operations).entries, from, v);
  }

  lemma OneStack(f: I.IrFunction)
    ensures StackNeed([f]) == FunctionStack(f)
  {
    hide FunctionStack;
    assert StackNeed([f][1..]) == 0;
  }

  lemma SameStack(from: ValueType, to: ValueType)
    ensures FunctionStack(Lowered(from, to)) == FunctionStack(Lowered(from, from))
  {
    hide Layout, FrameSize;
    LoweredParts(from, from);
    LoweredParts(from, to);
  }

  lemma BoundToOne(from: ValueType, v: int)
    ensures I.BindIr([I.IrParam(C.Key("x", 0), from)], [v]) == map[I.VarPlace(C.Key("x", 0)) := v]
  {
    hide C.Key;
  }

  lemma WideLookup(from: ValueType, to: ValueType)
    requires IsScalar(from)
    ensures LookupX(WidenCode(from, to), "widen") == Some(MachineFunction("widen", BodyCode(from, from)))
  {
    hide FunctionCode, FunctionTyped, Shaped;
    LoweredParts(from, to);
    var g := Twin(from, to);
    LookupCode(LoweredWiden(from, to), "widen");
  }

  lemma SlotReads(ip: I.IrProgram, f: I.IrFunction, g: Places, from: ValueType, v: int, entry: State, st: I.Store,
      s: State)
    requires FunctionTyped(ip, g, 0, f) && |f.operations| == 1 &&
             f.operations[0] == I.Return(I.Variable(C.Key("x", 0), from))
    requires IsScalar(from) && st == map[I.VarPlace(C.Key("x", 0)) := v] && Running(f, g, 0, entry, 0, st, [], s)
    ensures var x := I.Variable(C.Key("x", 0), from);
            ReadArg(s, Operand(Layout(f.params, f.operations).entries, x), WidthBytes(from)) == Encode(from, v)
  {
    hide FunctionTyped, Layout, FrameSize, Framed, ReadArg, Operand, Encode, InRange, C.Key, Used;
    var x := I.Variable(C.Key("x", 0), from);
    OpUsedTyped(ip, g, 0, f, 0);
    PresentReturn(Used(g, f), f.ret, x);
    OperandRead(Act(f, g, entry), 0, x, st, s);
  }

  lemma PresentReturn(g: Places, ret: ValueType, x: I.Operand)
    requires x.Variable? && OpTyped(g, 0, ret, I.Return(x))
    ensures Present(g, 0, x)
  {}

  /** A move of `size` bytes into `rax` merges the pattern into what was there. */
  lemma RawMov(s: State, x: I.Operand, es: seq<Entry>, from: ValueType, v: int)
    requires IsScalar(from) && I.IsPlace(x) && x.t == from && InRange(from, v)
    requires ReadArg(s, Operand(es, x), WidthBytes(from)) == Encode(from, v)
    ensures var size := WidthBytes(from); var r := Exec(Mov(Acc(SizeOf(x)), Operand(es, x)), s);
            IsSize(size) && 0 <= Encode(from, v) < Modulus(size) && r.Some? &&
              r.value.rax == Merge(s.rax, size, Encode(from, v))
  {
    hide Operand, Load, Merge;
    var size := WidthBytes(from);
    SizeOfScalar(from);
    OperandArg(es, x, size);
    ModSmall(Encode(from, v), Modulus(size));
  }

  // ---------------------------------------------------------------- when that is the result

  /** The pattern of a value at two widths. */
  lemma WidePattern(from: ValueType, to: ValueType, v: int)
    requires IsScalar(from) && IsScalar(to) && SameGroup(from, to) && WidthBytes(from) < WidthBytes(to) &&
             InRange(from, v)
    ensures v >= 0 ==>
            Encode(from, v) == v && Encode(to, v) == v && 2 * Modulus(WidthBytes(from)) < Modulus(WidthBytes(to))
    ensures v < 0 ==> Encode(from, v) == v + Modulus(WidthBytes(from)) && Encode(to, v) == v + Modulus(WidthBytes(to))
  {
    if v >= 0 {
      EncodeSmall(from, v);
      ModSmall(v, Modulus(WidthBytes(to)));
    } else {
      ModSmall(v + Modulus(WidthBytes(from)), Modulus(WidthBytes(from)));
      ModSmall(v + Modulus(WidthBytes(to)), Modulus(WidthBytes(to)));
    }
  }

  /** Bytes of `rax` above the ones written: kept, or cleared by a write of four bytes. */
  lemma GarbageBytes(rax: Word, size: nat, wide: nat, p: int)
    requires IsSize(size) && IsSize(wide) && size < wide && 0 <= p < Modulus(size)
    ensures rax == 0 || size == 4 ==> Merge(rax, size, p) % Modulus(wide) == p
    ensures rax == Modulus(8) - 1 && size < 4 ==>
            Merge(rax, size, p) % Modulus(wide) == Modulus(wide) - Modulus(size) + p
  {
    if rax == Modulus(8) - 1 && size < 4 {
      OnesMerged(size, wide, p);
    } else {
      ModSmall(p, Modulus(wide));
    }
  }

  /** The bytes above those written keep their ones. */
  lemma OnesMerged(size: nat, wide: nat, p: int)
    requires (size == 1 || size == 2) && IsSize(wide) && size < wide && 0 <= p < Modulus(size)
    ensures Merge(Modulus(8) - 1, size, p) % Modulus(wide) == Modulus(wide) - Modulus(size) + p
  {
    var m, n := Modulus(wide), Modulus(size);
    var k := if wide == 2 then 0x1_0000_0000_0000 else if wide == 4 then 0x1_0000_0000 else 1;
    Moduli();
    assert Modulus(8) == k * m;
    assert Merge(Modulus(8) - 1, size, p) == Modulus(8) - n + p;
    ModSmall(m - n + p, m);
    ModShift(m - n + p, k - 1, m);
  }

  lemma Moduli()
    ensures Modulus(1) == 0x100 && Modulus(2) == 0x1_0000 && Modulus(4) == 0x1_0000_0000 &&
            Modulus(8) == 0x1_0000_0000_0000_0000
  {}

  predicate WidensWell(from: ValueType, to: ValueType, v: int) {
    WidthBytes(from) == WidthBytes(to) || (WidthBytes(from) == 4 && v >= 0)
  }

  /** What the caller reads at the declared width, for an `rax` on entry. */
  function ReadWide(from: ValueType, to: ValueType, v: int, rax: Word): int
    requires IsScalar(from)
  {
    SizeOfScalar(from);
    Merge(rax, WidthBytes(from), Encode(from, v)) % Modulus(WidthBytes(to))
  }

  lemma ReadsWell(from: ValueType, to: ValueType, v: int, rax: Word)
    requires IsScalar(from) && IsScalar(to) && SameGroup(from, to) && WidthBytes(from) <= WidthBytes(to) &&
             InRange(from, v)
    requires WidensWell(from, to, v)
    ensures ReadWide(from, to, v, rax) == Encode(to, v)
  {
    hide Merge, Encode;
    SizeOfScalar(from);
    SizeOfScalar(to);
    if WidthBytes(from) < WidthBytes(to) {
      GarbageBytes(rax, WidthBytes(from), WidthBytes(to), Encode(from, v));
      WidePattern(from, to, v);
    } else {
      SameWidth(from, to, v);
      MergedLow(rax, WidthBytes(from), Encode(from, v));
    }
  }

  lemma SameWidth(from: ValueType, to: ValueType, v: int)
    requires WidthBytes(from) == WidthBytes(to)
    ensures Encode(from, v) == Encode(to, v)
  {}

  lemma MergedLow(rax: Word, size: nat, p: int)
    requires IsSize(size) && 0 <= p < Modulus(size)
    ensures Merge(rax, size, p) % Modulus(size) == p
  {
    var m := Modulus(size);
    ModSmall(p, m);
    if size < 4 {
      assert rax - rax % m == rax / m * m;
      ModShift(p, rax / m, m);
    }
  }

  lemma ReadsBadly(from: ValueType, to: ValueType, v: int)
    requires IsScalar(from) && IsScalar(to) && SameGroup(from, to) && WidthBytes(from) <= WidthBytes(to) &&
             InRange(from, v)
    requires !WidensWell(from, to, v)
    ensures ReadWide(from, to, v, if v >= 0 then Modulus(8) - 1 else 0) != Encode(to, v)
    ensures WidthBytes(from) == 4 ==> forall rax: Word :: ReadWide(from, to, v, rax) == v + Modulus(4) != Encode(to, v)
  {
    hide Merge, Encode, InRange;
    SizeOfScalar(from);
    SizeOfScalar(to);
    WidePattern(from, to, v);
    GarbageBytes(if v >= 0 then Modulus(8) - 1 else 0, WidthBytes(from), WidthBytes(to), Encode(from, v));
    if WidthBytes(from) == 4 {
      forall rax: Word ensures ReadWide(from, to, v, rax) == v + Modulus(4) != Encode(to, v) {
        GarbageBytes(rax, WidthBytes(from), WidthBytes(to), Encode(from, v));
      }
    }
  }

  // ---------------------------------------------------------------- every entry

  /** The compiled function, called this way, delivers `v` at the declared type. */
  ghost predicate Delivers(from: ValueType, to: ValueType, v: int, back: Word, entry: State) {
    exists s': State :: ReturnsX(WidenCode(from, to), "widen", back, entry, s') && Returned(entry, to, v, s')
  }

  lemma ReturnsOnce(p: seq<MachineFunction>, f: string, back: Word, s: State, a: State, b: State)
    requires ReturnsX(p, f, back, s, a) && ReturnsX(p, f, back, s, b)
    ensures a == b
  {
    hide RunFunctionX;
    var n: nat :| RunFunctionX(p, f, back, s, n) == Some(a);
    var m: nat :| RunFunctionX(p, f, back, s, m) == Some(b);
    if n <= m {
      RunFunctionMoreX(p, f, back, s, n, m);
    } else {
      RunFunctionMoreX(p, f, back, s, m, n);
    }
  }

  /** For one entry: the result is delivered if and only if the bytes that were in `rax` let it. */
  lemma DeliveredFrom(from: ValueType, to: ValueType, v: int, back: Word, entry: State)
    requires IsScalar(from) && IsScalar(to) && SameGroup(from, to) && WidthBytes(from) <= WidthBytes(to) &&
             InRange(from, v)
    requires Entered(LoweredWiden(from, to), Lowered(from, to), [v], 1, back, entry)
    ensures Delivers(from, to, v, back, entry) <==> ReadWide(from, to, v, entry.rax) == Encode(to, v)
  {
    hide Entered, ReturnsX, WidenCode, LoweredWiden, Lowered, Merge, Encode, InRange, SameAbove;
    var s' := WidenReturns(from, to, v, back, entry);
    SizeOfScalar(to);
    LowBytes(s', WidthBytes(to));
    StillInRange(from, to, v);
    forall s'': State | ReturnsX(WidenCode(from, to), "widen", back, entry, s'') ensures s'' == s' {
      ReturnsOnce(WidenCode(from, to), "widen", back, entry, s', s'');
    }
  }

  lemma LowBytes(s: State, wide: nat)
    requires IsSize(wide)
    ensures ReadArg(s, R(RAX, wide), wide) == s.rax % Modulus(wide)
  {}

  lemma StillInRange(from: ValueType, to: ValueType, v: int)
    requires IsScalar(from) && IsScalar(to) && SameGroup(from, to) && WidthBytes(from) <= WidthBytes(to) &&
             InRange(from, v)
    ensures InRange(to, v)
  {}

  /** An entry with any `rax`: room on the stack, the return address, and the argument in `rdi`. */
  lemma SomeEntry(from: ValueType, to: ValueType, v: int, rax: Word) returns (entry: State)
    requires IsScalar(from) && InRange(from, v)
    ensures entry.rax == rax && Entered(LoweredWiden(from, to), Lowered(from, to), [v], 1, 0, entry)
  {
    hide LoweredWiden, Lowered, Load, Memory.Store, Encode, InRange;
    SizeOfScalar(from);
    var sp: Word := 0x7FFF_0008;
    var m := Memory.Store(map[], sp, 8, 0);
    LoadStored(map[], sp, 8, 0, 8);
    var w := Encode(from, v);
    WordBound(from, v);
    entry := State(rax, 0, 0, w, 0, 0, 0, sp, 0, NoFlags, m);
    LoweredParts(from, to);
    OneStack(Lowered(from, to));
    StackOfWiden(from, to);
    ModSmall(w, Modulus(WidthBytes(from)));
    InRdi(entry, from, v);
    assert 0 % Pow256(8) == 0;
  }

  lemma WordBound(t: ValueType, v: int)
    requires IsScalar(t)
    ensures 0 <= Encode(t, v) < Modulus(WidthBytes(t)) <= Modulus(8)
  {}

  lemma InRdi(s: State, t: ValueType, v: int)
    requires IsScalar(t) && InRange(t, v) && s.rdi == Encode(t, v)
    ensures ArgumentHolds(s, 0, t, v)
  {
    hide InRange;
    ModSmall(s.rdi, Modulus(WidthBytes(t)));
  }

  lemma StackOfWiden(from: ValueType, to: ValueType)
    requires IsScalar(from)
    ensures FunctionStack(Lowered(from, to)) == 48
  {
    hide MangleVariable;
    LoweredParts(from, to);
    var f := Lowered(from, to);
    var x := I.Variable(C.Key("x", 0), from);
    assert ParamOperands(f.params) + AllOperands(f.operations) == [x, x] by {
      assert f.operations[1..] == [];
    }
    OneSlot(x);
  }

  lemma OneSlot(x: I.Operand)
    requires x.Variable? && IsScalar(x.t)
    ensures FrameSize(RegisterAll(Slots([], 0), [x, x]).entries) == 16
  {
    var size: int := WidthBytes(x.t);
    SizeOfScalar(x.t);
    var s1 := Register(Slots([], 0), x);
    assert s1.entries == [Entry(x.name, -size, x.t)] by {
      assert NextAlignedOffset(0, size) == -size;
    }
    assert Register(s1, x) == s1;
    assert [x, x][1..] == [x] && [x][1..] == [];
    assert RegisterAll(Slots([], 0), [x, x]) == RegisterAll(s1, [x]) == RegisterAll(s1, []) == s1;
    assert s1.entries[..0] == [];
    assert Deepest(s1.entries) == size;
  }

  /** The exact condition, over every way to call the compiled function: it delivers its argument at the
    * declared type for all of them if and only if the two types have one width, or the argument has four
    * bytes and is not negative. */
  lemma ReturnedAtWiderType(from: ValueType, to: ValueType, v: int)
    requires IsScalar(from) && IsScalar(to) && SameGroup(from, to) && WidthBytes(from) <= WidthBytes(to) &&
             InRange(from, v)
    ensures (forall back: Word, entry: State :: Entered(LoweredWiden(from, to), Lowered(from, to), [v], 1, back,
                                                        entry) ==>
              Delivers(from, to, v, back, entry)) <==> WidensWell(from, to, v)
  {
    hide Entered, Delivers, LoweredWiden, Lowered, ReadWide, Encode, InRange;
    if WidensWell(from, to, v) {
      forall back: Word, entry: State | Entered(LoweredWiden(from, to), Lowered(from, to), [v], 1, back, entry)
        ensures Delivers(from, to, v, back, entry)
      {
        DeliveredFrom(from, to, v, back, entry);
        ReadsWell(from, to, v, entry.rax);
      }
    } else {
      var entry := SomeEntry(from, to, v, if v >= 0 then Modulus(8) - 1 else 0);
      DeliveredFrom(from, to, v, 0, entry);
      ReadsBadly(from, to, v);
    }
  }

  /** The documented `fn widen(i32 x) i64`: of a negative argument no call delivers the value; all of them
    * deliver it plus 2^32. */
  lemma WidenOfNegative(v: int, back: Word, entry: State) returns (s': State)
    requires InRange(I32, v) && v < 0 && Entered(LoweredWiden(I32, I64), Lowered(I32, I64), [v], 1, back, entry)
    ensures ReturnsX(WidenCode(I32, I64), "widen", back, entry, s')
    ensures ReadArg(s', R(RAX, 8), 8) == v + 0x1_0000_0000 && ReadArg(s', R(RAX, 8), 8) != Encode(I64, v)
  {
    hide ReturnsX, WidenCode, LoweredWiden, Lowered, Merge, Entered;
    s' := WidenReturns(I32, I64, v, back, entry);
    LowBytes(s', 8);
    ReadsBadly(I32, I64, v);
    assert ReadWide(I32, I64, v, entry.rax) == v + Modulus(4);
  }
}
