/** Frame layout: every parameter, variable and temporary of a function gets a slot below the
  * frame pointer, aligned to its own size. */
module Frame {
  import opened Values
  import opened Arith
  import opened Names
  import opened Ir

  /** A slot: `[rbp + offset]`, as wide as its type. */
  datatype Entry = Entry(name: string, offset: int, t: ValueType)

  /** Slots given out so far and the offset of the last one. */
  datatype Slots = Slots(entries: seq<Entry>, next: int)

  function Truncate(s: string, n: nat): string {
    if |s| <= n then s else s[..n]
  }

  /** The name an operand is registered under: a temporary's is cut to 15 characters. */
  function SlotName(o: Operand): string
    requires IsPlace(o)
  {
    if o.Temporary? then Truncate(TemporaryName(o.id), 15) else o.name
  }

  function FindEntry(entries: seq<Entry>, name: string): (r: Option<nat>)
    ensures r.Some? ==> r.value < |entries| && entries[r.value].name == name
    ensures r.None? ==> forall i :: 0 <= i < |entries| ==> entries[i].name != name
  {
    if |entries| == 0 then None
    else if entries[0].name == name then Some(0)
    else match FindEntry(entries[1..], name)
         case Some(i) => Some(i + 1)
         case None => None
  }

  function NextAlignedOffset(current: int, size: nat): int
    requires size > 0
  {
    -((-current + size + size - 1) / size * size)
  }

  function AddSlot(s: Slots, name: string, t: ValueType): Slots {
    if WidthBytes(t) == 0 || FindEntry(s.entries, name).Some? then s
    else
      var offset := NextAlignedOffset(s.next, WidthBytes(t));
      Slots(s.entries + [Entry(name, offset, t)], offset)
  }

  function Register(s: Slots, o: Operand): Slots {
    if IsPlace(o) then AddSlot(s, SlotName(o), o.t) else s
  }

  function RegisterAll(s: Slots, os: seq<Operand>): Slots
    decreases |os|
  {
    if |os| == 0 then s else RegisterAll(Register(s, os[0]), os[1..])
  }

  /** The operands of an operation in the order they are registered. */
  function OperandsOf(op: Operation): seq<Operand> {
    match op
    case Bin(_, dst, a, b) => [dst, a, b]
    case Un(_, dst, a) => [dst, a]
    case Assign(dst, a) => [dst, a]
    case CastTo(dst, a) => [dst, a]
    case JumpIfFalse(_, cond) => [cond]
    case Return(a) => [a]
    case Param(a) => [a]
    case Call(dst, _) => [dst]
    case _ => []
  }

  function AllOperands(ops: seq<Operation>): seq<Operand> {
    if |ops| == 0 then [] else OperandsOf(ops[0]) + AllOperands(ops[1..])
  }

  function ParamOperand(p: IrParam): Operand {
    Variable(p.name, p.t)
  }

  function ParamOperands(params: seq<IrParam>): (os: seq<Operand>)
    ensures |os| == |params| && forall i :: 0 <= i < |os| ==> os[i] == ParamOperand(params[i])
  {
    seq(|params|, i requires 0 <= i < |params| => ParamOperand(params[i]))
  }

  /** The layout of a function. */
  function Layout(params: seq<IrParam>, ops: seq<Operation>): Slots {
    RegisterAll(Slots([], 0), ParamOperands(params) + AllOperands(ops))
  }

  function Deepest(entries: seq<Entry>): (d: nat)
    ensures forall i :: 0 <= i < |entries| ==> d >= -entries[i].offset
    ensures d == 0 || exists i :: 0 <= i < |entries| && d == -entries[i].offset
  {
    if |entries| == 0 then 0
    else
      var n := |entries| - 1;
      var d := Deepest(entries[..n]);
      if -entries[n].offset > d then -entries[n].offset else d
  }

  function RoundUp16(n: nat): nat {
    (n + 15) / 16 * 16
  }

  function FrameSize(entries: seq<Entry>): nat {
    RoundUp16(Deepest(entries))
  }

  // ---------------------------------------------------------------- the stack map

  class StackMap {
    var entries: seq<Entry>

    constructor ()
      ensures entries == []
    {
      entries := [];
    }

    /** Index of the entry with this name, or the number of entries. */
    method LookupEntry(name: string) returns (i: nat)
      ensures i <= |entries|
      ensures FindEntry(entries, name) == if i < |entries| then Some(i) else None
    {
      i := 0;
      while i < |entries|
        invariant 0 <= i <= |entries|
        invariant FindEntry(entries, name) == match FindEntry(entries[i..], name)
                                              case Some(k) => Some(i + k)
                                              case None => None
      {
        assert entries[i..][0] == entries[i] && entries[i..][1..] == entries[i + 1..];
        if entries[i].name == name {
          return;
        }
        i := i + 1;
      }
    }

    method AddEntry(name: string, t: ValueType, nextOffset: int) returns (next: int)
      modifies this
      ensures Slots(entries, next) == AddSlot(Slots(old(entries), nextOffset), name, t)
    {
      next := nextOffset;
      var size := WidthBytes(t);
      if size == 0 {
        return;
      }
      var i := LookupEntry(name);
      if i < |entries| {
        return;
      }
      next := NextAlignedOffset(nextOffset, size);
      entries := entries + [Entry(name, next, t)];
    }

    method RegisterOperand(o: Operand, nextOffset: int) returns (next: int)
      modifies this
      ensures Slots(entries, next) == Register(Slots(old(entries), nextOffset), o)
    {
      next := nextOffset;
      if IsPlace(o) {
        next := AddEntry(SlotName(o), o.t, nextOffset);
      }
    }

    method RegisterOperation(op: Operation, nextOffset: int) returns (next: int)
      modifies this
      ensures Slots(entries, next) == RegisterAll(Slots(old(entries), nextOffset), OperandsOf(op))
    {
      next := nextOffset;
      var os := OperandsOf(op);
      var i := 0;
      while i < |os|
        invariant 0 <= i <= |os|
        invariant RegisterAll(Slots(old(entries), nextOffset), os) == RegisterAll(Slots(entries, next), os[i..])
      {
        assert os[i..][0] == os[i] && os[i..][1..] == os[i + 1..];
        next := RegisterOperand(os[i], next);
        i := i + 1;
      }
    }

    method Populate(params: seq<IrParam>, ops: seq<Operation>)
      requires entries == []
      modifies this
      ensures entries == Layout(params, ops).entries
    {
      var next := 0;
      var i := 0;
      ghost var all := AllOperands(ops);
      while i < |params|
        invariant 0 <= i <= |params|
        invariant Layout(params, ops) == RegisterAll(Slots(entries, next), ParamOperands(params)[i..] + all)
      {
        ghost var rest := ParamOperands(params)[i..] + all;
        assert rest[0] == ParamOperand(params[i]) && rest[1..] == ParamOperands(params)[i + 1..] + all;
        next := RegisterOperand(Variable(params[i].name, params[i].t), next);
        i := i + 1;
      }
      assert ParamOperands(params)[i..] + all == all;
      i := 0;
      while i < |ops|
        invariant 0 <= i <= |ops|
        invariant Layout(params, ops) == RegisterAll(Slots(entries, next), AllOperands(ops[i..]))
      {
        assert ops[i..][0] == ops[i] && ops[i..][1..] == ops[i + 1..];
        RegisterAllConcat(Slots(entries, next), OperandsOf(ops[i]), AllOperands(ops[i + 1..]));
        next := RegisterOperation(ops[i], next);
        i := i + 1;
      }
    }

    /** Bytes to reserve below the frame pointer. */
    method FrameBytes() returns (size: nat)
      ensures size == FrameSize(entries)
    {
      size := 0;
      var i := 0;
      while i < |entries|
        invariant 0 <= i <= |entries| && size == Deepest(entries[..i])
      {
        assert entries[..i + 1][..i] == entries[..i];
        assert Deepest(entries[..i + 1]) == if -entries[i].offset > size then -entries[i].offset else size;
        if -entries[i].offset > size {
          size := -entries[i].offset;
        }
        i := i + 1;
      }
      assert entries[..i] == entries;
      size := (size + 15) / 16 * 16;
    }
  }

  lemma {:induction false} RegisterAllConcat(s: Slots, a: seq<Operand>, b: seq<Operand>)
    ensures RegisterAll(s, a + b) == RegisterAll(RegisterAll(s, a), b)
    decreases |a|
  {
    if |a| == 0 {
      assert a + b == b;
    } else {
      assert (a + b)[1..] == a[1..] + b;
      RegisterAllConcat(Register(s, a[0]), a[1..], b);
    }
  }

  // ---------------------------------------------------------------- what a layout guarantees

  /** Slots lie one below the other, each aligned to its own size, and no name has two. */
  ghost predicate Packed(s: Slots) {
    (forall i :: 0 <= i < |s.entries| ==>
       WidthBytes(s.entries[i].t) > 0 &&
       s.entries[i].offset % WidthBytes(s.entries[i].t) == 0 &&
       s.next <= s.entries[i].offset && s.entries[i].offset + WidthBytes(s.entries[i].t) <= 0) &&
    (forall i, j :: 0 <= i < j < |s.entries| ==>
       s.entries[i].name != s.entries[j].name &&
       s.entries[j].offset + WidthBytes(s.entries[j].t) <= s.entries[i].offset) &&
    s.next <= 0
  }

  lemma AlignedOffset(current: int, size: nat)
    requires IsSize(size) && current <= 0
    ensures NextAlignedOffset(current, size) + size <= current
    ensures NextAlignedOffset(current, size) % size == 0
  {}

  lemma AddSlotPacked(s: Slots, name: string, t: ValueType)
    requires Packed(s) && (IsScalar(t) || t.Void?)
    ensures Packed(AddSlot(s, name, t))
  {
    if IsScalar(t) {
      AlignedOffset(s.next, WidthBytes(t));
    }
  }

  predicate OperandTypeOk(o: Operand) {
    IsPlace(o) ==> IsScalar(o.t) || o.t.Void?
  }

  lemma {:induction false} RegisterAllPacked(s: Slots, os: seq<Operand>)
    requires Packed(s) && forall i :: 0 <= i < |os| ==> OperandTypeOk(os[i])
    ensures Packed(RegisterAll(s, os))
    decreases |os|
  {
    hide Packed, AddSlot;
    if |os| > 0 {
      if IsPlace(os[0]) {
        AddSlotPacked(s, SlotName(os[0]), os[0].t);
      }
      assert forall i :: 0 <= i < |os[1..]| ==> os[1..][i] == os[i + 1];
      RegisterAllPacked(Register(s, os[0]), os[1..]);
    }
  }

  /** Slots are never taken away or moved. */
  lemma {:induction false} RegisterAllKeeps(s: Slots, os: seq<Operand>)
    ensures s.entries <= RegisterAll(s, os).entries
    decreases |os|
  {
    if |os| > 0 {
      RegisterAllKeeps(Register(s, os[0]), os[1..]);
    }
  }

  lemma {:induction false} FindInPrefix(a: seq<Entry>, b: seq<Entry>, name: string)
    requires a <= b && FindEntry(a, name).Some?
    ensures FindEntry(b, name) == FindEntry(a, name)
  {
    if a[0].name != name {
      FindInPrefix(a[1..], b[1..], name);
    }
  }

  lemma {:induction false} FindAppended(a: seq<Entry>, e: Entry)
    requires FindEntry(a, e.name).None?
    ensures FindEntry(a + [e], e.name) == Some(|a|)
  {
    if |a| > 0 {
      assert (a + [e])[1..] == a[1..] + [e];
      FindAppended(a[1..], e);
    }
  }

  /** Every operand registered has a slot, of the type it was first met with. */
  lemma {:induction false} RegisteredHasSlot(s: Slots, os: seq<Operand>, k: nat)
    requires k < |os| && IsPlace(os[k]) && IsScalar(os[k].t)
    ensures FindEntry(RegisterAll(s, os).entries, SlotName(os[k])).Some?
    decreases |os|
  {
    var s1 := Register(s, os[0]);
    if k == 0 {
      var name := SlotName(os[0]);
      if FindEntry(s.entries, name).None? {
        FindAppended(s.entries, s1.entries[|s1.entries| - 1]);
      }
      RegisterAllKeeps(s1, os[1..]);
      FindInPrefix(s1.entries, RegisterAll(s, os).entries, name);
    } else {
      assert os[1..][k - 1] == os[k];
      RegisteredHasSlot(s1, os[1..], k - 1);
    }
  }

  /** The operand some entry was made for. */
  ghost predicate MadeFor(e: Entry, o: Operand) {
    IsPlace(o) && SlotName(o) == e.name && o.t == e.t
  }

  lemma {:induction false} EntryComesFrom(s: Slots, os: seq<Operand>, i: nat)
    requires i < |RegisterAll(s, os).entries|
    ensures (i < |s.entries| && RegisterAll(s, os).entries[i] == s.entries[i]) ||
            exists k :: 0 <= k < |os| && MadeFor(RegisterAll(s, os).entries[i], os[k])
    decreases |os|
  {
    if |os| > 0 {
      var s1 := Register(s, os[0]);
      var e := RegisterAll(s, os).entries[i];
      EntryComesFrom(s1, os[1..], i);
      if i < |s1.entries| && e == s1.entries[i] {
        if i >= |s.entries| {
          assert MadeFor(e, os[0]);
        }
      } else {
        var k :| 0 <= k < |os[1..]| && MadeFor(e, os[1..][k]);
        assert os[1..][k] == os[k + 1];
      }
    }
  }

  /** The whole layout of a function: slots are pairwise disjoint, aligned to their own size and
    * inside a frame whose size is a multiple of 16. */
  lemma LayoutSound(params: seq<IrParam>, ops: seq<Operation>)
    requires forall i :: 0 <= i < |params| ==> IsScalar(params[i].t)
    requires forall i :: 0 <= i < |AllOperands(ops)| ==> OperandTypeOk(AllOperands(ops)[i])
    ensures var es, frame: int := Layout(params, ops).entries, FrameSize(Layout(params, ops).entries);
            frame % 16 == 0 &&
            (forall i :: 0 <= i < |es| ==>
               WidthBytes(es[i].t) > 0 && es[i].offset % WidthBytes(es[i].t) == 0 &&
               -frame <= es[i].offset && es[i].offset + WidthBytes(es[i].t) <= 0) &&
            (forall i, j :: 0 <= i < |es| && 0 <= j < |es| && i != j ==>
               es[i].name != es[j].name && Disjoint(es[i], es[j]))
  {
    hide Deepest, Layout;
    var os := ParamOperands(params) + AllOperands(ops);
    LayoutPacked(params, ops);
    var es := Layout(params, ops).entries;
    forall i, j | 0 <= i < |es| && 0 <= j < |es| && i != j ensures es[i].name != es[j].name && Disjoint(es[i], es[j]) {
      if i < j {
        assert es[j].offset + WidthBytes(es[j].t) <= es[i].offset;
      } else {
        assert es[i].offset + WidthBytes(es[i].t) <= es[j].offset;
      }
    }
  }

  predicate Disjoint(a: Entry, b: Entry) {
    a.offset + WidthBytes(a.t) <= b.offset || b.offset + WidthBytes(b.t) <= a.offset
  }

  lemma LayoutPacked(params: seq<IrParam>, ops: seq<Operation>)
    requires forall i :: 0 <= i < |params| ==> IsScalar(params[i].t)
    requires forall i :: 0 <= i < |AllOperands(ops)| ==> OperandTypeOk(AllOperands(ops)[i])
    ensures Packed(Layout(params, ops))
  {
    RegisterAllPacked(Slots([], 0), ParamOperands(params) + AllOperands(ops));
  }
}
