/** A cast or the result of a call stored in a variable of a wider type. The destination is handed down as a
  * hint, so the cast goes to the type of the variable at once, and the result is read at its width. Exactly
  * when the variable then holds what the source stores. */
module StoredWider {
  import opened Values
  import opened Arith
  import opened Memory
  import opened Machine
  import opened MachineArith
  import opened MachineRun
  import opened Frame
  import opened Codegen
  import opened CodegenOps
  import opened IrTyping
  import opened CodegenSim
  import opened Lowering
  import opened Widening
  import Typing
  import I = Ir
  import C = Checked

  predicate Wider(from: ValueType, to: ValueType) {
    IsInteger(from) && IsInteger(to) && SameGroup(from, to) && WidthBytes(from) <= WidthBytes(to)
  }

  // ---------------------------------------------------------------- casts

  /** `x = e as T` becomes the code of `e` and one CAST straight into `x`. */
  lemma CastLowered(x: I.Operand, from: ValueType, e: C.Expr, n: nat)
    requires x.Variable?
    ensures var V := LowerExpr(e, I.NoOperand, n);
            LowerAssignment(x, C.Cast(from, e), n).ops == V.ops + [I.CastTo(x, V.result)]
  {}

  /** Casting to the wider type at once, instead of through the narrower one. */
  lemma CastAgrees(from: ValueType, to: ValueType, v: int)
    requires Wider(from, to)
    ensures Convert(to, v) == Convert(to, Convert(from, v)) <==> InRange(from, Convert(to, v))
  {
    hide InRange, Wrap;
    WrapInRange(from, v);
    InWider(from, to, Wrap(from, v));
    WrapOfInRange(to, Wrap(from, v));
    WrapTwice(from, to, v);
    if InRange(from, Wrap(to, v)) {
      WrapOfInRange(from, Wrap(to, v));
    }
  }

  lemma InWider(from: ValueType, to: ValueType, v: int)
    requires Wider(from, to) && InRange(from, v)
    ensures InRange(to, v)
  {}

  lemma WrapTwice(from: ValueType, to: ValueType, v: int)
    requires Wider(from, to)
    ensures Wrap(from, Wrap(to, v)) == Wrap(from, v)
  {
    hide InRange, Modulus, Decode, WidthBytes;
    WrapInRange(to, v);
    SizeOfScalar(from);
    SizeOfScalar(to);
    var w, size, wide := Wrap(to, v), WidthBytes(from), WidthBytes(to);
    if size < wide {
      Truncation(size, wide, w);
      Truncation(size, wide, v);
    } else {
      SameType(from, to);
    }
  }

  lemma SameType(from: ValueType, to: ValueType)
    requires Wider(from, to) && WidthBytes(from) == WidthBytes(to)
    ensures from == to
  {}

  /** What the instructions of that CAST store, and when it is what the source stores: if and only if the value,
    * taken at the type of the variable, is in the range of the type of the cast. */
  lemma CastStoredWider(es: seq<Entry>, x: I.Operand, a: I.Operand, from: ValueType, s: State, v: int)
    returns (s': State)
    requires I.IsPlace(x) && Wider(from, x.t) && OperandSize(x, WidthBytes(x.t)) && OperandHolds(es, a, s, v)
    requires IsInteger(a.t) && PlainImmediate(a)
    ensures Stores(ConvertCode(es, x, a), s, s', SlotOffset(es, x), WidthBytes(x.t), Encode(x.t, Convert(x.t, v)))
    ensures Encode(x.t, Convert(x.t, v)) == Encode(x.t, Convert(x.t, Convert(from, v))) <==>
            InRange(from, Convert(x.t, v))
  {
    hide Stores, OperandHolds, ConvertCode, SlotOffset, InRange, Encode, Wrap;
    s' := ConvertedStores(es, x, a, s, v);
    CastAgrees(from, x.t, v);
    WrapInRange(x.t, v);
    WrapInRange(x.t, Wrap(from, v));
    DecodeEncode(x.t, Wrap(x.t, v));
    DecodeEncode(x.t, Wrap(x.t, Wrap(from, v)));
  }

  /** `i64 x = y as i32` with 2^31 in the `i64` `y`: -2^31 by the source, 2^31 by the code. */
  lemma CastDiffers()
    ensures Convert(I64, Convert(I32, 0x8000_0000)) == -0x8000_0000 && Convert(I64, 0x8000_0000) == 0x8000_0000
  {
    WrapOfInRange(I64, 0x8000_0000);
    WrapOfInRange(I64, -0x8000_0000);
  }

  // ---------------------------------------------------------------- calls

  /** `x = f(..)` becomes the code of the arguments, their PARAMs, and one CALL straight into `x`. */
  lemma CallLowered(x: I.Operand, from: ValueType, f: string, args: seq<C.Expr>, n: nat)
    requires x.Variable? && !from.Void?
    ensures var A := LowerArgs(args, n);
            LowerAssignment(x, C.Call(from, f, args), n).ops == A.ops + Params(A.results) + [I.Call(x, f)]
  {}

  /** The callee has left `v` of its own type in `rax`, in whatever bytes were there. */
  ghost predicate LeftBy(from: ValueType, v: int, s: State)
    requires IsScalar(from)
  {
    SizeOfScalar(from);
    exists prev: Word :: s.rax == Merge(prev, WidthBytes(from), Encode(from, v))
  }

  /** After the call the variable holds `v`. */
  predicate ResultStored(es: seq<Entry>, os: seq<I.Operand>, x: I.Operand, v: int, s: State)
    requires I.IsPlace(x)
  {
    var r := ExecBlock(AfterCallCode(es, os, x), s);
    r.Some? && Load(r.value.mem, r.value.rbp + SlotOffset(es, x), WidthBytes(x.t)) == Encode(x.t, v)
  }

  lemma StoresRax(es: seq<Entry>, os: seq<I.Operand>, x: I.Operand, s: State, v: int)
    requires I.IsPlace(x) && IsScalar(x.t) && s.rsp + CallBytes(|os|) < Modulus(8)
    ensures ResultStored(es, os, x, v, s) <==> s.rax % Modulus(WidthBytes(x.t)) == Encode(x.t, v)
  {
    hide SlotOffset, Memory.Store, Load, CallBytes, Encode;
    var size, off := WidthBytes(x.t), SlotOffset(es, x);
    SizeOfScalar(x.t);
    var put := Mov(M(size, off), R(RAX, size));
    assert Operand(es, x) == M(size, off) && Acc(size) == R(RAX, size);
    var s1 := s;
    if CallBytes(|os|) > 0 {
      s1 := Exec(AddRsp(CallBytes(|os|)), s).value;
      MovToSlot(s1, size, off, RAX);
      Exec2(AddRsp(CallBytes(|os|)), put, s);
      assert AfterCallCode(es, os, x) == [AddRsp(CallBytes(|os|)), put];
    } else {
      MovToSlot(s1, size, off, RAX);
      Exec1(put, s);
      assert AfterCallCode(es, os, x) == [put];
    }
    var w := ReadArg(s1, R(RAX, size), size);
    LoadStored(s1.mem, s1.rbp + off, size, w, size);
    Pow256Sizes(size);
    ModSmall(w, Modulus(size));
  }

  /** Over everything the callee may have left in the other bytes of `rax`: the variable holds the result if and
    * only if the two types have one width, or the result has four bytes and is not negative. */
  lemma CallStoredWider(es: seq<Entry>, os: seq<I.Operand>, x: I.Operand, from: ValueType, v: int)
    requires I.IsPlace(x) && Wider(from, x.t) && InRange(from, v) && CallBytes(|os|) < Modulus(8)
    ensures (forall s: State :: LeftBy(from, v, s) && s.rsp + CallBytes(|os|) < Modulus(8) ==>
               ResultStored(es, os, x, v, s)) <==> WidensWell(from, x.t, v)
  {
    hide InRange, ResultStored, CallBytes, Merge, Encode;
    SizeOfScalar(from);
    if WidensWell(from, x.t, v) {
      forall s: State | LeftBy(from, v, s) && s.rsp + CallBytes(|os|) < Modulus(8)
        ensures ResultStored(es, os, x, v, s)
      {
        var prev: Word :| s.rax == Merge(prev, WidthBytes(from), Encode(from, v));
        ReadsWell(from, x.t, v, prev);
        StoresRax(es, os, x, s, v);
      }
    } else {
      var prev: Word := if v >= 0 then 0xFFFF_FFFF_FFFF_FFFF else 0;
      var s := State(Merge(prev, WidthBytes(from), Encode(from, v)), 0, 0, 0, 0, 0, 0, 0, 0, NoFlags, map[]);
      ReadsBadly(from, x.t, v);
      assert LeftBy(from, v, s);
      StoresRax(es, os, x, s, v);
    }
  }
}
