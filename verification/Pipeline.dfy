/** The whole compiler behind the lexer: parsing, analysis, lowering, layout and code generation. */
module Pipeline {
  import opened Values
  import opened Arith
  import Machine
  import opened MachineRun
  import opened Codegen
  import opened Lowering
  import opened Typing
  import opened Analysis
  import opened Assignment
  import opened Elaboration
  import opened Widths
  import opened CodegenCalls
  import opened CodegenRun
  import opened EndToEnd
  import opened Entries
  import opened Tokens
  import opened ParsedTrees
  import opened Printing
  import opened Lexing
  import T = TextRoundTrip
  import I = Ir
  import C = Checked
  import S = Syntax
  import M = Meaning
  import N = Nested
  import P = Parsing

  ghost predicate ValuesFit(params: seq<S.Param>, vs: seq<int>) {
    |vs| == |params| && forall i :: 0 <= i < |vs| ==> InRange(params[i].t, vs[i])
  }

  /** The functions are accepted, their widths are exact, no later operand increments a variable read
    * beside it, and `f`, as it is written, called with `vs` returns a value. */
  ghost predicate Meaningful(prefix: Option<string>, imported: Funcs, fs: seq<S.Stmt>, f: string, vs: seq<int>,
      fuel: C.Fuel)
  {
    FunctionSyntax(fs) && Analyze(prefix, imported, fs).Some? &&
    var p := Analyze(prefix, imported, fs).value;
    Provides(p, FinalTable(prefix, imported, fs)) && ExactProgram(p) && StableProgram(p) && FewTemporaries(p) &&
    M.Definition(prefix, fs, f).Some? && ValuesFit(M.Definition(prefix, fs, f).value.params, vs) &&
    M.Invoke(M.Source(prefix, imported, fs), f, vs, fuel).Value?
  }

  /** However the code of `f` is entered, if it is as the calling convention says and with stack for `calls`
    * activations, it returns the pattern of `v` in `rax`, with the stack and the caller's memory intact; and
    * there are such entries, if that much stack can be addressed. */
  ghost predicate CodeReturns(p: C.Program, l0: nat, f: string, vs: seq<int>, calls: nat, v: int)
  {
    var ip := LowerProgram(p, l0);
    C.Lookup(p, f).Some? && ProgramComplete(ip) &&
    (forall back: Machine.Word, entry: Machine.State :: EnteredLowered(p, l0, f, vs, calls, back, entry) ==>
       exists s': Machine.State :: ReturnsX(ProgramCode(ip), f, back, entry, s') &&
         Returned(entry, C.Lookup(p, f).value.ret, v, s')) &&
    (calls * StackNeed(ip) <= TOP ==>
       forall back: Machine.Word :: CanBeEntered(p, l0, f, vs, calls, back))
  }

  /** The parameters and the result have the types written. */
  ghost predicate SignatureKept(definition: S.Stmt, fn: C.Function)
    requires definition.FuncDecl?
  {
    fn.ret == definition.ret && |fn.params| == |definition.params| &&
    forall i :: 0 <= i < |fn.params| ==> fn.params[i].t == definition.params[i].t
  }

  /** The code of `f` returns what its source text means, on a stack for as many activations as the source run
    * nests: `f` itself and the calls inside it. */
  ghost predicate CompiledWell(
    prefix: Option<string>, imported: Funcs, fs: seq<S.Stmt>, l0: nat, f: string, vs: seq<int>, fuel: C.Fuel)
  {
    FunctionSyntax(fs) && Analyze(prefix, imported, fs).Some? &&
    var p := Analyze(prefix, imported, fs).value;
    var r := M.Invoke(M.Source(prefix, imported, fs), f, vs, fuel);
    M.Definition(prefix, fs, f).Some? && C.Lookup(p, f).Some? &&
    SignatureKept(M.Definition(prefix, fs, f).value, C.Lookup(p, f).value) &&
    r.Value? && CodeReturns(p, l0, f, vs, fuel.calls + 1, r.v)
  }

  /** The compiled function is the one written, up to the body the analyser built for it. */
  lemma FunctionKept(prefix: Option<string>, imported: Funcs, fs: seq<S.Stmt>, f: string, vs: seq<int>, fuel: C.Fuel)
    requires Meaningful(prefix, imported, fs, f, vs, fuel)
    ensures var p := Analyze(prefix, imported, fs).value;
            C.Lookup(p, f).Some? && SignatureKept(M.Definition(prefix, fs, f).value, C.Lookup(p, f).value) &&
            ArgsInRange(C.Lookup(p, f).value.params, vs)
  {
    hide Provides, ExactProgram, StableProgram, FewTemporaries, M.Invoke, N.Invoke, Analyze, S.Built, BodyBuilt,
         InRange;
    SourceMeaningKept(prefix, imported, fs, f, vs, fuel);
    LinkedAlike(M.Source(prefix, imported, fs), fs, Analyze(prefix, imported, fs).value, f);
  }

  /** What a function means as it is written, names, types and all, is what its machine code does. */
  lemma CompilerCorrect(
    prefix: Option<string>, imported: Funcs, fs: seq<S.Stmt>, l0: nat, f: string, vs: seq<int>, fuel: C.Fuel)
    requires Meaningful(prefix, imported, fs, f, vs, fuel)
    ensures CompiledWell(prefix, imported, fs, l0, f, vs, fuel)
  {
    hide Provides, ExactProgram, StableProgram, FewTemporaries, WfProgram, ArgsInRange, N.Invoke, C.Invoke, M.Invoke,
         Analyze, S.Built, LowerProgram, Entered, Returned, ReturnsX, ProgramCode, ProgramComplete, CodeReturns,
         SignatureKept, ValuesFit, AllElaborated;
    var p := Analyze(prefix, imported, fs).value;
    var gs := AcceptedIsTyped(prefix, imported, fs);
    SourceMeaningKept(prefix, imported, fs, f, vs, fuel);
    AcceptedRunsAgree(prefix, imported, fs, f, vs, fuel);
    FunctionKept(prefix, imported, fs, f, vs, fuel);
    ProgramReturns(p, gs, l0, f, vs, fuel);
  }

  lemma ProgramReturns(p: C.Program, gs: Typings, l0: nat, f: string, vs: seq<int>, fuel: C.Fuel)
    requires WfProgram(p, gs) && StableProgram(p) && FewTemporaries(p)
    requires C.Lookup(p, f).Some? && ArgsInRange(C.Lookup(p, f).value.params, vs) && C.Invoke(p, f, vs, fuel).Value?
    ensures CodeReturns(p, l0, f, vs, fuel.calls + 1, C.Invoke(p, f, vs, fuel).v)
  {
    hide StableProgram, FewTemporaries, WfProgram, ArgsInRange, C.Invoke, LowerProgram, EnteredLowered, Returned,
         ReturnsX, ProgramCode, ProgramComplete, StackNeed;
    var ip, calls, v := LowerProgram(p, l0), fuel.calls + 1, C.Invoke(p, f, vs, fuel).v;
    LoweredIsComplete(p, gs, l0);
    forall back: Machine.Word, entry: Machine.State | EnteredLowered(p, l0, f, vs, calls, back, entry)
      ensures exists s': Machine.State :: ReturnsX(ProgramCode(ip), f, back, entry, s') &&
                Returned(entry, C.Lookup(p, f).value.ret, v, s')
    {
      var s' := CompilationPreservesMeaning(p, gs, l0, f, vs, fuel, back, entry);
    }
    if calls * StackNeed(ip) <= TOP {
      forall back: Machine.Word ensures CanBeEntered(p, l0, f, vs, calls, back) {
        var entry := EntryExists(p, gs, l0, f, vs, calls, back);
      }
    }
  }

  function Declarations(items: seq<P.Item>): (fs: seq<S.Stmt>)
    ensures forall d :: d in fs <==> P.Declaration(d) in items
  {
    if |items| == 0 then []
    else
      assert items == [items[0]] + items[1..];
      (if items[0].Declaration? then [items[0].node] else []) + Declarations(items[1..])
  }

  /** From the tokens of a file to the machine: the trees the parser gives need no check of their own,
    * only that nothing but functions is declared. */
  lemma TokensToMachine(
    ts: seq<Token>, prefix: Option<string>, imported: Funcs, l0: nat, f: string, vs: seq<int>, fuel: C.Fuel)
    requires P.EndsInEof(ts) && forall d :: d in Declarations(P.ParseItems(ts, 0).node.value) ==> d.FuncDecl?
    ensures FunctionSyntax(Declarations(P.ParseItems(ts, 0).node.value))
    ensures var fs := Declarations(P.ParseItems(ts, 0).node.value);
            Meaningful(prefix, imported, fs, f, vs, fuel) ==> CompiledWell(prefix, imported, fs, l0, f, vs, fuel)
  {
    hide P.ParseItems, S.Built, Meaningful, CompiledWell;
    FileBuilt(ts, 0);
    var items := P.ParseItems(ts, 0).node.value;
    var fs := Declarations(items);
    forall i | 0 <= i < |fs| ensures S.Built(fs[i]) {
      var k :| 0 <= k < |items| && items[k] == P.Declaration(fs[i]);
    }
    if Meaningful(prefix, imported, fs, f, vs, fuel) {
      CompilerCorrect(prefix, imported, fs, l0, f, vs, fuel);
    }
  }

  lemma {:induction false} DeclarationsOfFunctions(fs: seq<S.Stmt>)
    ensures Declarations(T.AsItems(fs)) == fs
    decreases |fs|
  {
    if |fs| > 0 {
      DeclarationsOfFunctions(fs[1..]);
      assert T.AsItems(fs)[1..] == T.AsItems(fs[1..]);
      assert fs == [fs[0]] + fs[1..];
    }
  }

  /** From text to machine: the text of a program's functions, given to the lexer, the parser and the
    * rest of the compiler, becomes code that does what the functions mean. */
  lemma TextToMachine(
    prefix: Option<string>, imported: Funcs, fs: seq<S.Stmt>, l0: nat, f: string, vs: seq<int>, fuel: C.Fuel)
    requires T.PrintableFunctions(fs) && forall i :: 0 <= i < |fs| ==> T.WritableStmt(fs[i])
    ensures FunctionSyntax(fs) && Declarations(P.ParseItems(Tokenized(T.TextOf(fs)), 0).node.value) == fs
    ensures Meaningful(prefix, imported, fs, f, vs, fuel) ==> CompiledWell(prefix, imported, fs, l0, f, vs, fuel)
  {
    hide P.ParseItems, S.Built, Meaningful, CompiledWell, Tokenized, T.WritableStmt, PrintableStmt;
    T.ProgramTextRoundTrip(fs);
    DeclarationsOfFunctions(fs);
    TokensToMachine(Tokenized(T.TextOf(fs)), prefix, imported, l0, f, vs, fuel);
  }
}
