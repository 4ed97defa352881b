/** From the checked tree to the machine: the compiled program does what the source program means. */
module EndToEnd {
  import opened Values
  import opened Arith
  import opened Names
  import opened Machine
  import opened MachineRun
  import opened Codegen
  import opened Lowering
  import opened Typing
  import opened IrTyping
  import opened CodegenCalls
  import opened CodegenRun
  import opened Entries
  import LoweringProof
  import LoweringSim
  import IrShape
  import I = Ir
  import C = Checked

  /** No function needs a temporary whose number has more than 14 digits. */
  ghost predicate FewTemporaries(p: C.Program) {
    forall i, l: nat :: 0 <= i < |p| ==> LowerBody(p[i], l).temps <= Power10(14)
  }

  lemma {:induction false} LoweredAt(p: C.Program, l0: nat, i: nat) returns (l: nat)
    requires i < |p|
    ensures |LowerProgram(p, l0)| == |p| && LowerProgram(p, l0)[i] == LowerFunction(p[i], l)
    decreases |p|
  {
    LoweredLength(p, l0);
    if i == 0 {
      l := l0;
    } else {
      l := LoweredAt(p[1..], LowerBody(p[0], l0).labels, i - 1);
      assert LowerProgram(p, l0)[i] == LowerProgram(p[1..], LowerBody(p[0], l0).labels)[i - 1];
    }
  }

  lemma {:induction false} LoweredLength(p: C.Program, l0: nat)
    ensures |LowerProgram(p, l0)| == |p|
    decreases |p|
  {
    if |p| > 0 {
      LoweredLength(p[1..], LowerBody(p[0], l0).labels);
    }
  }

  /** The generated code of the first `n` functions is well shaped. */
  lemma {:induction false} LoweredShaped(p: C.Program, gs: Typings, l0: nat, n: nat)
    returns (places: seq<Places>, ks: seq<nat>)
    requires WfProgram(p, gs) && FewTemporaries(p) && n <= |p|
    ensures |LowerProgram(p, l0)| == |p| && |places| == n && |ks| == n
    ensures var ip := LowerProgram(p, l0);
            forall i :: 0 <= i < n ==>
              if ip[i].defined then FunctionTyped(ip, places[i], ks[i], ip[i]) && ks[i] <= Power10(14)
                else ip[i].operations == []
  {
    hide FunctionTyped, TypedBy, LowerBody, LowerProgram;
    LoweredLength(p, l0);
    if n == 0 {
      places, ks := [], [];
    } else {
      places, ks := LoweredShaped(p, gs, l0, n - 1);
      var l := LoweredAt(p, l0, n - 1);
      if p[n - 1].body.Some? {
        var g := IrShape.LoweredFunctionTyped(p, gs, l0, n - 1, l);
        places, ks := places + [g], ks + [LowerBody(p[n - 1], l).temps];
      } else {
        NoBody(p[n - 1], l);
        places, ks := places + [map[]], ks + [0];
      }
    }
  }

  lemma LoweredIsComplete(p: C.Program, gs: Typings, l0: nat)
    requires WfProgram(p, gs) && FewTemporaries(p)
    ensures ProgramComplete(LowerProgram(p, l0))
  {
    hide FunctionTyped, LowerProgram, FewTemporaries, ProgramComplete;
    var places, ks := LoweredShaped(p, gs, l0, |p|);
    ShapedIsComplete(LowerProgram(p, l0), places, ks);
  }

  lemma NoBody(f: C.Function, l: nat)
    requires f.body.None?
    ensures LowerFunction(f, l).operations == [] && !LowerFunction(f, l).defined
  {}

  /** The generated function is entered with `vs` and stack for `calls` activations. */
  ghost predicate EnteredLowered(
    p: C.Program, l0: nat, f: string, vs: seq<int>, calls: nat, back: Word, entry: State)
  {
    var ip := LowerProgram(p, l0);
    I.LookupIr(ip, f).Some? && Entered(ip, I.LookupIr(ip, f).value, vs, calls, back, entry)
  }

  ghost predicate CanBeEntered(p: C.Program, l0: nat, f: string, vs: seq<int>, calls: nat, back: Word) {
    exists entry: State :: EnteredLowered(p, l0, f, vs, calls, back, entry)
  }

  /** The compiler is correct, end to end. If a function of the source program, given arguments of
    * its parameter types, returns `v`, then its machine code, entered on an aligned stack with
    * those arguments where the System V ABI puts them and with stack for as many activations as the
    * source run nests, returns with the pattern of `v` in the low bytes of `rax`, with `rsp` and `rbp`
    * restored, and with every byte from the return address up unchanged. */
  lemma CompilationPreservesMeaning(
    p: C.Program, gs: Typings, l0: nat, f: string, vs: seq<int>, fuel: C.Fuel, back: Word, entry: State)
    returns (s': State)
    requires WfProgram(p, gs) && StableProgram(p) && FewTemporaries(p)
    requires C.Lookup(p, f).Some? && ArgsInRange(C.Lookup(p, f).value.params, vs)
    requires C.Invoke(p, f, vs, fuel).Value?
    requires EnteredLowered(p, l0, f, vs, fuel.calls + 1, back, entry)
    ensures ProgramComplete(LowerProgram(p, l0))
    ensures ReturnsX(ProgramCode(LowerProgram(p, l0)), f, back, entry, s')
    ensures Returned(entry, C.Lookup(p, f).value.ret, C.Invoke(p, f, vs, fuel).v, s')
  {
    hide FunctionTyped, TypedBy, LowerProgram, ProgramCode, Returned, ReturnsX, Entered, FewTemporaries, StableProgram,
         C.Invoke, I.RunFunction, ProgramComplete;
    var ip := LowerProgram(p, l0);
    LoweringSim.LoweringPreservesMeaning(p, gs, l0, f, vs, fuel);
    var v := C.Invoke(p, f, vs, fuel).v;
    var n: nat :| I.RunFunction(ip, f, vs, I.Bounds(fuel.calls + 1, n)) == Some(v);
    var places, ks := LoweredShaped(p, gs, l0, |p|);
    ShapedIsComplete(ip, places, ks);
    var l := LoweringProof.LookupLowered(p, l0, f);
    s' := SimFunction(ip, places, ks, f, vs, I.Bounds(fuel.calls + 1, n), back, entry);
  }

  lemma {:induction false} LoweredParams(params: seq<C.Param>, vs: seq<int>)
    requires ArgsInRange(params, vs) && forall i :: 0 <= i < |params| ==> IsScalar(params[i].t)
    ensures Fits(LowerParams(params), vs)
  {
    hide InRange;
  }

  /** There are such entries: one for every return address, whatever the arguments are, if the stack of that
    * many activations fits into half of the address space. */
  lemma EntryExists(p: C.Program, gs: Typings, l0: nat, f: string, vs: seq<int>, calls: nat, back: Word)
    returns (entry: State)
    requires WfProgram(p, gs) && C.Lookup(p, f).Some? && ArgsInRange(C.Lookup(p, f).value.params, vs)
    requires calls * StackNeed(LowerProgram(p, l0)) <= TOP
    ensures EnteredLowered(p, l0, f, vs, calls, back, entry)
  {
    hide Entered, StackNeed, LowerProgram, Fits, InRange, WfStmt;
    var l := LoweringProof.LookupLowered(p, l0, f);
    var i := LookupIndex(p, f);
    LoweredParams(p[i].params, vs);
    entry := SomeEntry(LowerProgram(p, l0), LowerFunction(p[i], l), vs, calls, back);
  }
}
