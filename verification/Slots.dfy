/** The frame as memory: each place of a function has its own bytes, and a machine state holds a
  * store when every slot holds the pattern of the value of its place. */
module Slots {
  import opened Values
  import opened Arith
  import opened Names
  import opened Memory
  import opened Machine
  import opened Frame
  import opened Codegen
  import opened MachineArith
  import opened CodegenOps
  import opened IrTyping
  import I = Ir

  // ---------------------------------------------------------------- names of slots

  function PlaceName(q: I.Place): string {
    match q
    case TempPlace(id) => Truncate(TemporaryName(id), 31)
    case VarPlace(x) => x
  }

  function PlaceSlot(es: seq<Entry>, q: I.Place): int {
    match FindEntry(es, PlaceName(q))
    case Some(i) => es[i].offset
    case None => 0
  }

  lemma SlotOfOperand(es: seq<Entry>, o: I.Operand)
    requires I.IsPlace(o)
    ensures SlotOffset(es, o) == PlaceSlot(es, I.PlaceOf(o)) && CodeName(o) == PlaceName(I.PlaceOf(o))
  {}

  /** Slots are filled under a name cut to 15 characters and looked up under one cut to 31: the
    * two agree exactly for temporaries of at most 14 digits. */
  lemma ShortTemporary(id: nat, t: ValueType)
    ensures SlotName(I.Temporary(id, t)) == CodeName(I.Temporary(id, t)) <==> id < Power10(14)
    ensures id < Power10(14) ==> CodeName(I.Temporary(id, t)) == TemporaryName(id)
  {
    if id < Power10(14) {
      DecimalLength(id, 14);
    } else {
      DecimalLong(id, 14);
    }
  }

  /** A number of at least 10^k has more than k digits. */
  lemma {:induction false} DecimalLong(n: nat, k: nat)
    requires n >= Power10(k)
    ensures |Decimal(n)| > k
  {
    if k > 0 {
      assert Power10(0) == 1;
      DecimalLong(n / 10, k - 1);
    }
  }

  lemma NamesDiffer(g: Places, k: nat, q: I.Place, r: I.Place)
    requires NamesOk(g, k) && k <= Power10(14) && q in g && r in g && q != r
    ensures PlaceName(q) != PlaceName(r)
  {
    if q.TempPlace? {
      ShortTemporary(q.id, I64);
      TemporaryHasNoAt(q.id);
    }
    if r.TempPlace? {
      ShortTemporary(r.id, I64);
      TemporaryHasNoAt(r.id);
    }
    if q.TempPlace? && r.TempPlace? && PlaceName(q) == PlaceName(r) {
      TemporaryInjective(q.id, r.id);
    }
  }

  lemma TemporaryHasNoAt(id: nat)
    ensures '@' !in TemporaryName(id)
  {
    var t, d := TemporaryName(id), Decimal(id);
    forall i | 0 <= i < |t| ensures t[i] != '@' {
      assert i == 0 || t[i] == d[i - 1];
    }
  }

  // ---------------------------------------------------------------- the layout of a typed function

  predicate Apart(a: int, n: int, b: int, m: int) {
    a + n <= b || b + m <= a
  }

  /** Every place has a slot of its width inside the frame, apart from every other. */
  ghost predicate LayoutOk(es: seq<Entry>, g: Places, frame: int) {
    (forall q :: q in g ==>
       IsScalar(g[q]) && -frame <= PlaceSlot(es, q) && PlaceSlot(es, q) + WidthBytes(g[q]) <= 0) &&
    (forall q, r :: q in g && r in g && q != r ==>
       Apart(PlaceSlot(es, q), WidthBytes(g[q]), PlaceSlot(es, r), WidthBytes(g[r])))
  }

  function Operands(f: I.IrFunction): seq<I.Operand> {
    ParamOperands(f.params) + AllOperands(f.operations)
  }

  predicate Uses(os: seq<I.Operand>, q: I.Place) {
    exists i :: 0 <= i < |os| && I.IsPlace(os[i]) && I.PlaceOf(os[i]) == q
  }

  /** The places a function actually mentions. */
  function Used(g: Places, f: I.IrFunction): Places {
    map q | q in g && Uses(Operands(f), q) :: g[q]
  }

  lemma {:induction false} OperandListed(ops: seq<I.Operation>, i: nat, j: nat)
    requires i < |ops| && j < |OperandsOf(ops[i])|
    ensures OperandsOf(ops[i])[j] in AllOperands(ops)
  {
    if i > 0 {
      assert ops[1..][i - 1] == ops[i];
      OperandListed(ops[1..], i - 1, j);
    }
  }

  lemma {:induction false} ListedOperand(ops: seq<I.Operation>, k: nat) returns (i: nat, j: nat)
    requires k < |AllOperands(ops)|
    ensures i < |ops| && j < |OperandsOf(ops[i])| && AllOperands(ops)[k] == OperandsOf(ops[i])[j]
  {
    if k < |OperandsOf(ops[0])| {
      i, j := 0, k;
    } else {
      i, j := ListedOperand(ops[1..], k - |OperandsOf(ops[0])|);
      i := i + 1;
    }
  }

  lemma OperandsTyped(g: Places, k: nat, ret: ValueType, op: I.Operation, j: nat)
    requires OpTyped(g, k, ret, op) && j < |OperandsOf(op)|
    ensures OperandTyped(g, k, OperandsOf(op)[j])
  {
    hide OperandTyped;
    NoOperandTyped(g, k);
  }

  lemma NoOperandTyped(g: Places, k: nat)
    ensures OperandTyped(g, k, I.NoOperand)
  {}

  /** Operands of a function: typed places, in the places used. */
  lemma OperandIsUsed(ip: I.IrProgram, g: Places, k: nat, f: I.IrFunction, n: nat)
    requires FunctionTyped(ip, g, k, f) && n < |Operands(f)| && I.IsPlace(Operands(f)[n])
    ensures var o := Operands(f)[n]; var q := I.PlaceOf(o);
            q in Used(g, f) && Used(g, f)[q] == o.t && IsScalar(o.t)
  {
    hide CollectAll, NamesOk, OpTyped;
    var os := Operands(f);
    var o := os[n];
    assert Uses(os, I.PlaceOf(o));
    if n >= |f.params| {
      var i, j := ListedOperand(f.operations, n - |f.params|);
      OperandsTyped(g, k, f.ret, f.operations[i], j);
    }
  }

  /** Operations stay typed when only the places they use keep a type. */
  lemma OpUsedTyped(ip: I.IrProgram, g: Places, k: nat, f: I.IrFunction, i: nat)
    requires FunctionTyped(ip, g, k, f) && i < |f.operations|
    ensures OpTyped(Used(g, f), k, f.ret, f.operations[i])
  {
    hide CollectAll, NamesOk, Used, OperandTyped, FunctionTyped;
    var op, u := f.operations[i], Used(g, f);
    assert OpTyped(g, k, f.ret, op) by {
      TypedOp(ip, g, k, f, i);
    }
    forall j | 0 <= j < |OperandsOf(op)| ensures OperandTyped(g, k, OperandsOf(op)[j]) ==>
      OperandTyped(u, k, OperandsOf(op)[j]) {
      OperandStays(ip, g, k, f, i, j);
    }
    TypedByOperands(g, u, k, f.ret, op);
  }

  lemma TypedOp(ip: I.IrProgram, g: Places, k: nat, f: I.IrFunction, i: nat)
    requires FunctionTyped(ip, g, k, f) && i < |f.operations|
    ensures OpTyped(g, k, f.ret, f.operations[i])
  {
    hide CollectAll, NamesOk, OpTyped;
  }

  lemma OperandStays(ip: I.IrProgram, g: Places, k: nat, f: I.IrFunction, i: nat, j: nat)
    requires FunctionTyped(ip, g, k, f) && i < |f.operations| && j < |OperandsOf(f.operations[i])|
    ensures var o := OperandsOf(f.operations[i])[j]; OperandTyped(g, k, o) ==> OperandTyped(Used(g, f), k, o)
  {
    hide FunctionTyped, Used;
    var o := OperandsOf(f.operations[i])[j];
    OperandListed(f.operations, i, j);
    var m :| 0 <= m < |AllOperands(f.operations)| && AllOperands(f.operations)[m] == o;
    assert Operands(f)[|f.params| + m] == o;
    if I.IsPlace(o) {
      OperandIsUsed(ip, g, k, f, |f.params| + m);
    }
  }

  lemma TypedByOperands(g: Places, u: Places, k: nat, ret: ValueType, op: I.Operation)
    requires OpTyped(g, k, ret, op)
    requires forall j :: 0 <= j < |OperandsOf(op)| ==> OperandTyped(g, k, OperandsOf(op)[j]) ==>
               OperandTyped(u, k, OperandsOf(op)[j])
    ensures OpTyped(u, k, ret, op)
  {
    hide OperandTyped;
    var os := OperandsOf(op);
    assert |os| > 0 ==> OperandTyped(g, k, os[0]) ==> OperandTyped(u, k, os[0]);
    assert |os| > 1 ==> OperandTyped(g, k, os[1]) ==> OperandTyped(u, k, os[1]);
    assert |os| > 2 ==> OperandTyped(g, k, os[2]) ==> OperandTyped(u, k, os[2]);
  }

  /** The entry of a used place is as wide as its type. */
  lemma PlaceEntry(ip: I.IrProgram, g: Places, k: nat, f: I.IrFunction, q: I.Place) returns (i: nat)
    requires FunctionTyped(ip, g, k, f) && k <= Power10(14) && q in Used(g, f)
    ensures var es := Layout(f.params, f.operations).entries;
            FindEntry(es, PlaceName(q)) == Some(i) && i < |es| && es[i].t == g[q] && es[i].name == PlaceName(q)
  {
    hide FunctionTyped, NamesOk, PlaceName, SlotName, AddSlot;
    var os := Operands(f);
    var es := Layout(f.params, f.operations).entries;
    var n :| 0 <= n < |os| && I.IsPlace(os[n]) && I.PlaceOf(os[n]) == q;
    OperandIsUsed(ip, g, k, f, n);
    SlotNameIsPlaceName(ip, g, k, f, os[n]);
    RegisteredHasSlot(Slots([], 0), os, n);
    i := FindEntry(es, PlaceName(q)).value;
    EntryComesFrom(Slots([], 0), os, i);
    var m :| 0 <= m < |os| && MadeFor(es[i], os[m]);
    OperandIsUsed(ip, g, k, f, m);
    SlotNameIsPlaceName(ip, g, k, f, os[m]);
    if I.PlaceOf(os[m]) != q {
      TypedNames(ip, g, k, f);
      NamesDiffer(g, k, q, I.PlaceOf(os[m]));
    }
  }

  lemma TypedNames(ip: I.IrProgram, g: Places, k: nat, f: I.IrFunction)
    requires FunctionTyped(ip, g, k, f)
    ensures NamesOk(g, k)
  {
    hide NamesOk, CollectAll;
  }

  lemma SlotNameIsPlaceName(ip: I.IrProgram, g: Places, k: nat, f: I.IrFunction, o: I.Operand)
    requires FunctionTyped(ip, g, k, f) && k <= Power10(14) && I.IsPlace(o) && I.PlaceOf(o) in g
    ensures SlotName(o) == PlaceName(I.PlaceOf(o))
  {
    hide CollectAll;
    TypedNames(ip, g, k, f);
    SlotOfOperand([], o);
    if o.Temporary? {
      ShortTemporary(o.id, o.t);
    }
  }

  lemma OperandTypesOk(ip: I.IrProgram, g: Places, k: nat, f: I.IrFunction)
    requires FunctionTyped(ip, g, k, f)
    ensures forall i :: 0 <= i < |f.params| ==> IsScalar(f.params[i].t)
    ensures forall i :: 0 <= i < |AllOperands(f.operations)| ==> OperandTypeOk(AllOperands(f.operations)[i])
  {
    hide CollectAll, NamesOk;
    forall i | 0 <= i < |AllOperands(f.operations)| ensures OperandTypeOk(AllOperands(f.operations)[i]) {
      var n := |f.params| + i;
      assert Operands(f)[n] == AllOperands(f.operations)[i];
      if I.IsPlace(Operands(f)[n]) {
        OperandIsUsed(ip, g, k, f, n);
      }
    }
  }

  lemma SlotsApart(ip: I.IrProgram, g: Places, k: nat, f: I.IrFunction, q: I.Place, r: I.Place)
    requires FunctionTyped(ip, g, k, f) && k <= Power10(14) && q in Used(g, f) && r in Used(g, f) && q != r
    ensures var es := Layout(f.params, f.operations).entries;
            Apart(PlaceSlot(es, q), WidthBytes(g[q]), PlaceSlot(es, r), WidthBytes(g[r]))
  {
    hide FunctionTyped, Layout, PlaceName, FrameSize;
    var es := Layout(f.params, f.operations).entries;
    OperandTypesOk(ip, g, k, f);
    LayoutSound(f.params, f.operations);
    var i := PlaceEntry(ip, g, k, f, q);
    var j := PlaceEntry(ip, g, k, f, r);
    TypedNames(ip, g, k, f);
    NamesDiffer(g, k, q, r);
    assert Disjoint(es[i], es[j]);
  }

  lemma SlotInside(ip: I.IrProgram, g: Places, k: nat, f: I.IrFunction, q: I.Place)
    requires FunctionTyped(ip, g, k, f) && k <= Power10(14) && q in Used(g, f)
    ensures var es, frame: int := Layout(f.params, f.operations).entries,
            FrameSize(Layout(f.params, f.operations).entries);
            IsScalar(g[q]) && -frame <= PlaceSlot(es, q) && PlaceSlot(es, q) + WidthBytes(g[q]) <= 0
  {
    hide FunctionTyped, Layout, PlaceName, FrameSize;
    OperandTypesOk(ip, g, k, f);
    LayoutSound(f.params, f.operations);
    var i := PlaceEntry(ip, g, k, f, q);
    UsedIsScalar(ip, g, k, f, q);
  }

  /** The layout of a generated function is sound for the places it uses. */
  lemma LayoutOfTyped(ip: I.IrProgram, g: Places, k: nat, f: I.IrFunction)
    requires FunctionTyped(ip, g, k, f) && k <= Power10(14)
    ensures LayoutOk(Layout(f.params, f.operations).entries, Used(g, f),
                     FrameSize(Layout(f.params, f.operations).entries))
    ensures FrameSize(Layout(f.params, f.operations).entries) % 16 == 0
  {
    hide FunctionTyped, Layout, PlaceSlot, Apart;
    var es, frame: int := Layout(f.params, f.operations).entries, FrameSize(Layout(f.params, f.operations).entries);
    forall q | q in Used(g, f)
      ensures IsScalar(g[q]) && -frame <= PlaceSlot(es, q) && PlaceSlot(es, q) + WidthBytes(g[q]) <= 0
    {
      SlotInside(ip, g, k, f, q);
    }
    forall q, r | q in Used(g, f) && r in Used(g, f) && q != r
      ensures Apart(PlaceSlot(es, q), WidthBytes(g[q]), PlaceSlot(es, r), WidthBytes(g[r]))
    {
      SlotsApart(ip, g, k, f, q, r);
    }
  }

  /** The lookup of an operand finds an entry of its type, inside the frame and below the frame pointer. */
  predicate HasSlot(es: seq<Entry>, o: I.Operand)
    requires I.IsPlace(o)
  {
    var frame: int := FrameSize(es);
    var width: int := WidthBytes(o.t);
    FindEntry(es, CodeName(o)).Some? && es[FindEntry(es, CodeName(o)).value].t == o.t &&
    -frame <= SlotOffset(es, o) <= -width < 0
  }

  lemma OperandHasSlot(ip: I.IrProgram, g: Places, k: nat, f: I.IrFunction, n: nat)
    requires FunctionTyped(ip, g, k, f) && k <= Power10(14) && n < |Operands(f)| && I.IsPlace(Operands(f)[n])
    ensures HasSlot(Layout(f.params, f.operations).entries, Operands(f)[n])
  {
    hide FunctionTyped, Layout, FrameSize, Operands, Used, PlaceSlot, CodeName, Apart;
    var es := Layout(f.params, f.operations).entries;
    var o := Operands(f)[n];
    var q := I.PlaceOf(o);
    OperandIsUsed(ip, g, k, f, n);
    SlotOfOperand(es, o);
    TypeInUsed(g, f, q);
    var i := PlaceEntry(ip, g, k, f, q);
    SlotInside(ip, g, k, f, q);
  }

  lemma TypeInUsed(g: Places, f: I.IrFunction, q: I.Place)
    requires q in Used(g, f)
    ensures q in g && Used(g, f)[q] == g[q]
  {
    hide Operands;
  }

  /** What code generation looks up, for every place named in a generated function: a slot of the width
    * of its type, and two operands share one exactly when they are the same place. */
  lemma OperandSlots(ip: I.IrProgram, g: Places, k: nat, f: I.IrFunction, n: nat, m: nat)
    requires FunctionTyped(ip, g, k, f) && k <= Power10(14) && n < |Operands(f)| && m < |Operands(f)|
    requires I.IsPlace(Operands(f)[n]) && I.IsPlace(Operands(f)[m])
    ensures var es := Layout(f.params, f.operations).entries; var a, b := Operands(f)[n], Operands(f)[m];
            HasSlot(es, a) && HasSlot(es, b) && (SlotOffset(es, a) == SlotOffset(es, b) <==>
                                                 I.PlaceOf(a) == I.PlaceOf(b))
  {
    hide FunctionTyped, Layout, FrameSize, Operands, Used, PlaceSlot, HasSlot, SlotOffset;
    var es := Layout(f.params, f.operations).entries;
    var a, b := Operands(f)[n], Operands(f)[m];
    OperandHasSlot(ip, g, k, f, n);
    OperandHasSlot(ip, g, k, f, m);
    SlotOfOperand(es, a);
    SlotOfOperand(es, b);
    OperandIsUsed(ip, g, k, f, n);
    OperandIsUsed(ip, g, k, f, m);
    if I.PlaceOf(a) != I.PlaceOf(b) {
      TypeInUsed(g, f, I.PlaceOf(a));
      TypeInUsed(g, f, I.PlaceOf(b));
      SlotsApart(ip, g, k, f, I.PlaceOf(a), I.PlaceOf(b));
    }
  }

  lemma UsedIsScalar(ip: I.IrProgram, g: Places, k: nat, f: I.IrFunction, q: I.Place)
    requires FunctionTyped(ip, g, k, f) && q in Used(g, f)
    ensures IsScalar(g[q])
  {
    hide FunctionTyped;
    var n :| 0 <= n < |Operands(f)| && I.IsPlace(Operands(f)[n]) && I.PlaceOf(Operands(f)[n]) == q;
    OperandIsUsed(ip, g, k, f, n);
  }

  // ---------------------------------------------------------------- stores in memory

  /** The slot at `[bp + slot]` holds the value of its place. */
  predicate SlotHolds(es: seq<Entry>, t: ValueType, q: I.Place, v: int, m: Mem, bp: int) {
    InRange(t, v) && Load(m, bp + PlaceSlot(es, q), WidthBytes(t)) == Encode(t, v)
  }

  ghost predicate InFrame(es: seq<Entry>, g: Places, st: I.Store, m: Mem, bp: int) {
    forall q :: q in st ==> q in g && SlotHolds(es, g[q], q, st[q], m, bp)
  }

  lemma LiteralReads(o: I.Operand, s: State)
    requires o.Immediate? && Typing.LiteralFits(o.t, o.number)
    ensures InRange(o.t, Convert(o.t, o.number))
    ensures o.number % Modulus(WidthBytes(o.t)) == Encode(o.t, Convert(o.t, o.number))
  {
    if o.t.Bool? {
    } else {
      WrapInRange(o.t, o.number);
    }
  }

  /** A typed operand that can be read is read from its slot or from the instruction. */
  lemma ReadOperand(es: seq<Entry>, g: Places, k: nat, o: I.Operand, st: I.Store, s: State)
    requires Present(g, k, o) && InFrame(es, g, st, s.mem, s.rbp) && I.Read(o, st).Some?
    ensures IsScalar(o.t) && OperandSize(o, WidthBytes(o.t)) && InRange(o.t, I.Read(o, st).value)
    ensures ReadArg(s, Operand(es, o), WidthBytes(o.t)) == Encode(o.t, I.Read(o, st).value)
  {
    hide InRange, Encode, Convert, PlaceSlot, ReadArg, Operand, InFrame;
    SizeOfScalar(o.t);
    if o.Immediate? {
      LiteralReads(o, s);
      ImmediateArg(es, o);
      ReadImmediate(s, o.number, WidthBytes(o.t));
    } else {
      ReadSlot(es, g, o, st, s);
    }
  }

  lemma ReadImmediate(s: State, n: int, size: nat)
    requires IsSize(size) && 0 <= n
    ensures ReadArg(s, Imm(n), size) == n % Modulus(size)
  {}

  lemma ReadSlot(es: seq<Entry>, g: Places, o: I.Operand, st: I.Store, s: State)
    requires I.IsPlace(o) && I.PlaceOf(o) in g && g[I.PlaceOf(o)] == o.t && IsScalar(o.t)
    requires I.PlaceOf(o) in st && InFrame(es, g, st, s.mem, s.rbp)
    ensures InRange(o.t, st[I.PlaceOf(o)]) && ReadArg(s, Operand(es, o), WidthBytes(o.t)) ==
            Encode(o.t, st[I.PlaceOf(o)])
  {
    hide InRange, Encode, PlaceSlot, Load, SlotOffset;
    SizeOfScalar(o.t);
    OperandArg(es, o, WidthBytes(o.t));
    SlotOfOperand(es, o);
    assert SlotHolds(es, g[I.PlaceOf(o)], I.PlaceOf(o), st[I.PlaceOf(o)], s.mem, s.rbp);
  }

  /** Writing below the frame pointer, into one slot, updates one place. */
  lemma WriteSlot(es: seq<Entry>, g: Places, frame: int, st: I.Store, m: Mem, bp: int, q: I.Place, v: int)
    requires LayoutOk(es, g, frame) && InFrame(es, g, st, m, bp) && q in g && InRange(g[q], v)
    ensures InFrame(es, g, st[q := v], Memory.Store(m, bp + PlaceSlot(es, q), WidthBytes(g[q]), Encode(g[q], v)), bp)
  {
    hide InRange, Encode, PlaceSlot, Load, Memory.Store;
    var size, a := WidthBytes(g[q]), bp + PlaceSlot(es, q);
    var m' := Memory.Store(m, a, size, Encode(g[q], v));
    forall r | r in st[q := v] ensures r in g && SlotHolds(es, g[r], r, st[q := v][r], m', bp) {
      if r == q {
        ReadBackSlot(m, a, g[q], v);
      } else {
        assert SlotHolds(es, g[r], r, st[r], m, bp);
        assert Apart(PlaceSlot(es, q), WidthBytes(g[q]), PlaceSlot(es, r), WidthBytes(g[r]));
        LoadElsewhere(m, a, size, Encode(g[q], v), bp + PlaceSlot(es, r), WidthBytes(g[r]));
      }
    }
  }

  lemma ReadBackSlot(m: Mem, a: int, t: ValueType, v: int)
    requires IsScalar(t)
    ensures Load(Memory.Store(m, a, WidthBytes(t), Encode(t, v)), a, WidthBytes(t)) == Encode(t, v)
  {
    hide Load, Memory.Store, Modulus;
    SizeOfScalar(t);
    LoadStored(m, a, WidthBytes(t), Encode(t, v), WidthBytes(t));
    Pow256Sizes(WidthBytes(t));
    ModSmall(Encode(t, v), Modulus(WidthBytes(t)));
  }

  lemma SlotUntouched(es: seq<Entry>, t: ValueType, frame: int, q: I.Place, v: int, m: Mem, m': Mem, bp: int)
    requires SlotHolds(es, t, q, v, m, bp) && -frame <= PlaceSlot(es, q) && PlaceSlot(es, q) + WidthBytes(t) <= 0
    requires forall b :: bp - frame <= b < bp ==> ByteAt(m', b) == ByteAt(m, b)
    ensures SlotHolds(es, t, q, v, m', bp)
  {
    hide InRange, Encode, PlaceSlot, Load, ByteAt;
    LoadSame(m, m', bp + PlaceSlot(es, q), WidthBytes(t));
  }

  /** The frame is untouched by what happens below it or above it. */
  lemma FrameUntouched(es: seq<Entry>, g: Places, frame: int, st: I.Store, m: Mem, m': Mem, bp: int)
    requires LayoutOk(es, g, frame) && InFrame(es, g, st, m, bp)
    requires forall b :: bp - frame <= b < bp ==> ByteAt(m', b) == ByteAt(m, b)
    ensures InFrame(es, g, st, m', bp)
  {
    hide SlotHolds, PlaceSlot, ByteAt, WidthBytes, Apart;
    forall q | q in st ensures q in g && SlotHolds(es, g[q], q, st[q], m', bp) {
      assert SlotHolds(es, g[q], q, st[q], m, bp);
      SlotUntouched(es, g[q], frame, q, st[q], m, m', bp);
    }
  }
}
