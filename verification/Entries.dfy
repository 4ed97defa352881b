/** A call as the calling convention asks for it: for all arguments there is a machine state that makes one,
  * if the stack has room. So the theorems about entered functions speak of real calls. */
module Entries {
  import opened Values
  import opened Arith
  import opened Memory
  import opened Machine
  import opened MachineArith
  import opened MachineRun
  import opened Codegen
  import opened CodegenOps
  import opened CodegenCalls
  import opened CodegenRun
  import I = Ir

  /** The highest stack pointer tried: one word below the middle of the address space. */
  const TOP: Word := 0x7FFF_FFFF_FFFF_FFF8

  predicate Fits(params: seq<I.IrParam>, vs: seq<int>) {
    |vs| == |params| && forall i :: 0 <= i < |vs| ==> IsScalar(params[i].t) && InRange(params[i].t, vs[i])
  }

  /** Arguments from the seventh to the `n`-th, above the return address. */
  function Spilled(params: seq<I.IrParam>, vs: seq<int>, n: nat, m: Mem): Mem
    requires n <= |vs| == |params|
  {
    if n <= 6 then m
    else
      var t := params[n - 1].t;
      Memory.Store(Spilled(params, vs, n - 1, m), TOP + 8 + (n - 7) * 8, WidthBytes(t), Encode(t, vs[n - 1]))
  }

  lemma {:induction false} SpilledHolds(params: seq<I.IrParam>, vs: seq<int>, n: nat, m: Mem, i: nat)
    requires Fits(params, vs) && 6 <= i < n <= |vs|
    ensures var t := params[i].t;
            Load(Spilled(params, vs, n, m), TOP + 8 + (i - 6) * 8, WidthBytes(t)) == Encode(t, vs[i])
    decreases n
  {
    hide InRange, Load, Memory.Store, Encode;
    var t, u := params[n - 1].t, params[i].t;
    var before := Spilled(params, vs, n - 1, m);
    if i == n - 1 {
      PatternBack(before, TOP + 8 + (i - 6) * 8, u, vs[i]);
    } else {
      SpilledHolds(params, vs, n - 1, m, i);
      SizeOfScalar(u);
      LoadElsewhere(before, TOP + 8 + (n - 7) * 8, WidthBytes(t), Encode(t, vs[n - 1]), TOP + 8 + (i - 6) * 8,
                    WidthBytes(u));
    }
  }

  lemma PatternBack(m: Mem, a: int, t: ValueType, v: int)
    requires IsScalar(t) && InRange(t, v)
    ensures Load(Memory.Store(m, a, WidthBytes(t), Encode(t, v)), a, WidthBytes(t)) == Encode(t, v)
  {
    hide InRange, Load, Memory.Store;
    SizeOfScalar(t);
    PatternBound(t, v);
    LoadStored(m, a, WidthBytes(t), Encode(t, v), WidthBytes(t));
    Pow256Sizes(WidthBytes(t));
    ModSmall(Encode(t, v), Modulus(WidthBytes(t)));
  }

  lemma PatternBound(t: ValueType, v: int)
    requires IsScalar(t)
    ensures 0 <= Encode(t, v) < Modulus(WidthBytes(t)) <= Modulus(8)
  {}

  lemma {:induction false} SpilledAbove(params: seq<I.IrParam>, vs: seq<int>, n: nat, m: Mem)
    requires n <= |vs| == |params|
    ensures Load(Spilled(params, vs, n, m), TOP, 8) == Load(m, TOP, 8)
    decreases n
  {
    hide Load, Memory.Store, Encode;
    if n > 6 {
      var t := params[n - 1].t;
      SpilledAbove(params, vs, n - 1, m);
      LoadElsewhere(Spilled(params, vs, n - 1, m), TOP + 8 + (n - 7) * 8, WidthBytes(t), Encode(t, vs[n - 1]), TOP, 8);
    }
  }

  /** What register `i` holds. */
  function InRegister(params: seq<I.IrParam>, vs: seq<int>, i: nat): (w: Word)
    requires Fits(params, vs)
  {
    if i < |vs| then
      PatternBound(params[i].t, vs[i]);
      Encode(params[i].t, vs[i])
    else 0
  }

  /** For every function, all arguments in the range of its parameters and every return address there is
    * an entry with stack for `calls` activations, as long as so much stack can be addressed. */
  lemma SomeEntry(ip: I.IrProgram, fn: I.IrFunction, vs: seq<int>, calls: nat, back: Word) returns (entry: State)
    requires Fits(fn.params, vs) && calls * StackNeed(ip) <= TOP
    ensures Entered(ip, fn, vs, calls, back, entry)
  {
    hide InRange, Load, Memory.Store, Encode, StackNeed, ArgumentHolds;
    var m := Memory.Store(map[], TOP, 8, back);
    var mem := Spilled(fn.params, vs, |vs|, m);
    var ps := fn.params;
    entry := State(0, InRegister(ps, vs, 3), InRegister(ps, vs, 2), InRegister(ps, vs, 0), InRegister(ps, vs, 1),
                   InRegister(ps, vs, 4), InRegister(ps, vs, 5), TOP, 0, NoFlags, mem);
    LoadStored(map[], TOP, 8, back, 8);
    Pow256Sizes(8);
    ModSmall(back, Modulus(8));
    SpilledAbove(fn.params, vs, |vs|, m);
    forall i | 0 <= i < |vs| ensures ArgumentHolds(entry, i, fn.params[i].t, vs[i]) {
      if i < 6 {
        RegisterHolds(entry, i, fn.params[i].t, vs[i]);
      } else {
        SpilledHolds(fn.params, vs, |vs|, m, i);
        StackHolds(entry, i, fn.params[i].t, vs[i]);
      }
    }
  }

  lemma RegisterHolds(s: State, i: nat, t: ValueType, v: int)
    requires i < 6 && IsScalar(t) && InRange(t, v) && Get(s, ArgumentRegister(i)) == Encode(t, v)
    ensures ArgumentHolds(s, i, t, v)
  {
    hide InRange;
    ModSmall(Encode(t, v), Modulus(WidthBytes(t)));
  }

  lemma StackHolds(s: State, i: nat, t: ValueType, v: int)
    requires i >= 6 && IsScalar(t) && InRange(t, v)
    requires Load(s.mem, s.rsp + 8 + (i - 6) * 8, WidthBytes(t)) == Encode(t, v)
    ensures ArgumentHolds(s, i, t, v)
  {}
}
