/** The analyser as it runs: one scope stack updated in place, flow states saved, filled,
  * intersected and restored around branches. Each method does what the functions of Analysis say. */
module Analyzer {
  import opened Values
  import opened Arith
  import opened Scopes
  import opened Analysis
  import opened Endings
  import opened Mangling
  import C = Checked
  import S = Syntax

  class SemanticAnalyzer {
    const scope: Scope
    const prefix: Option<string>
    var funcs: Funcs
    var params: seq<string>
    var ret: ValueType

    constructor (prefix: Option<string>, imported: Funcs)
      ensures fresh(scope) && scope.stack == [[]] && scope.nextId == 0
      ensures this.prefix == prefix && funcs == imported
    {
      this.prefix := prefix;
      var s := new Scope();
      scope := s;
      funcs, params, ret := imported, [], Void;
      new;
      s.Push();
      assert s.stack == [[]];
    }

    function Cx(): Context
      reads this
    {
      Context(funcs, params, ret)
    }

    function Now(): Analysis.State
      reads this, scope
    {
      Analysis.State(scope.stack, scope.nextId)
    }

    /** The outcome of analysing a statement, against what the function says. */
    ghost predicate Agrees(expected: Option<Done<C.Stmt>>, r: Option<C.Stmt>)
      reads this, scope
    {
      match expected
      case None => r.None?
      case Some(d) => r == Some(d.node) && Now() == d.st
    }

    method AnalyzeDecl(quals: S.Qualifiers, t: ValueType, name: string, init: Option<S.Expr>)
      returns (r: Option<C.Stmt>)
      requires |scope.stack| > 0
      modifies scope
      ensures Agrees(ResolveDecl(old(Cx()), old(Now()), quals, t, name, init), r)
    {
      if t.Void? || name in params || quals.isPublic || quals.isExtern {
        return None;
      }
      var value := ResolveInit(Cx(), Now(), t, init);
      if value.None? {
        return None;
      }
      var id := scope.nextId;
      var ok := scope.InsertSymbol(Symbol(name, t, quals.isMutable, 0, 0, init.Some?));
      if !ok {
        return None;
      }
      r := Some(C.Decl(t, name, id, value.value));
    }

    method AnalyzeAssign(name: string, value: S.Expr) returns (r: Option<C.Stmt>)
      modifies scope
      ensures Agrees(ResolveAssign(old(Cx()), old(Now()), name, value), r)
    {
      var sym := scope.LookupSymbol(name);
      if sym.None? {
        return None;
      }
      var c := ResolveExpr(funcs, scope.stack, value, sym.value.t);
      if c.None? || !Converts(c.value.t, sym.value.t) || !sym.value.isMutable {
        return None;
      }
      scope.MarkInitialized(name);
      r := Some(C.Assign(sym.value.t, name, sym.value.id, c.value));
    }

    method AnalyzeIf(s: S.Stmt) returns (r: Option<C.Stmt>)
      requires s.If? && |scope.stack| > 0
      modifies scope
      ensures Agrees(ResolveStmt(old(Cx()), old(Now()), s), r)
      ensures r.Some? ==> |scope.stack| == |old(scope.stack)|
      decreases s, 0
    {
      hide Flags, WithFlags, Intersect, AlwaysReturns, ResolveCondition, Filled;
      var c := ResolveCondition(Cx(), Now(), s.cond);
      if c.None? {
        return None;
      }
      var before := scope.FlowSave();
      var a := AnalyzeStatement(s.thn);
      if a.None? {
        return None;
      }
      ghost var thenStack := scope.stack;
      var afterThen := scope.FlowSave();
      if AlwaysReturns(a.value) {
        afterThen.Fill(true);
      }
      scope.FlowRestore(before);
      WithFlagsLength(thenStack, before.flags);
      var b: Option<C.Stmt> := None;
      if s.els.Some? {
        b := AnalyzeStatement(s.els.value);
        if b.None? {
          return None;
        }
      }
      var afterElse := scope.FlowSave();
      if b.Some? && AlwaysReturns(b.value) {
        afterElse.Fill(true);
      }
      afterThen.And(afterElse);
      WithFlagsLength(scope.stack, afterThen.flags);
      scope.FlowRestore(afterThen);
      r := Some(C.If(c.value, a.value, b));
    }

    method AnalyzeWhile(s: S.Stmt) returns (r: Option<C.Stmt>)
      requires s.While? && |scope.stack| > 0
      modifies scope
      ensures Agrees(ResolveStmt(old(Cx()), old(Now()), s), r)
      ensures r.Some? ==> |scope.stack| == |old(scope.stack)|
      decreases s, 0
    {
      hide Flags, WithFlags, ResolveCondition;
      var c := ResolveCondition(Cx(), Now(), s.cond);
      if c.None? {
        return None;
      }
      var before := scope.FlowSave();
      var b := AnalyzeStatement(s.body);
      if b.None? {
        return None;
      }
      WithFlagsLength(scope.stack, before.flags);
      scope.FlowRestore(before);
      r := Some(C.While(c.value, b.value));
    }

    method AnalyzeBlock(s: S.Stmt) returns (r: Option<C.Stmt>)
      requires s.Block? && |scope.stack| > 0
      modifies scope
      ensures Agrees(ResolveStmt(old(Cx()), old(Now()), s), r)
      ensures r.Some? ==> |scope.stack| == |old(scope.stack)|
      decreases s, 0
    {
      scope.Push();
      var stmts := s.stmts;
      ghost var cx, start := Cx(), Now();
      assert stmts[0..] == stmts;
      PrependNothing(ResolveAll(cx, start, stmts));
      var nodes: seq<C.Stmt> := [];
      var i := 0;
      while i < |stmts|
        invariant 0 <= i <= |stmts| && Cx() == cx && |scope.stack| == |start.stack|
        invariant ResolveAll(cx, start, stmts) == Prepend(nodes, ResolveAll(cx, Now(), stmts[i..]))
      {
        assert stmts[i..][0] == stmts[i] && stmts[i..][1..] == stmts[i + 1..];
        ghost var st, before := Now(), nodes;
        var a := AnalyzeStatement(stmts[i]);
        if a.None? {
          return None;
        }
        nodes := nodes + [a.value];
        assert forall rest: seq<C.Stmt> :: before + ([a.value] + rest) == nodes + rest;
        i := i + 1;
      }
      assert nodes + [] == nodes;
      scope.Pop();
      r := Some(C.Block(nodes));
    }

    /** One statement; it leaves as many scopes open as it found. */
    method AnalyzeStatement(s: S.Stmt) returns (r: Option<C.Stmt>)
      requires |scope.stack| > 0
      modifies scope
      ensures Agrees(ResolveStmt(old(Cx()), old(Now()), s), r)
      ensures r.Some? ==> |scope.stack| == |old(scope.stack)|
      decreases s, 1
    {
      match s
      case Decl(quals, t, name, init) => r := AnalyzeDecl(quals, t, name, init);
      case Assign(name, value) => r := AnalyzeAssign(name, value);
      case Block(_) => r := AnalyzeBlock(s);
      case If(_, _, _) => r := AnalyzeIf(s);
      case While(_, _) => r := AnalyzeWhile(s);
      case Return(result) =>
        var d := ResolveReturn(Cx(), Now(), result);
        r := if d.Some? then Some(d.value.node) else None;
      case ExprStmt(e) =>
        var c := ResolveExpr(funcs, scope.stack, e, Unresolved);
        r := if c.Some? then Some(C.ExprStmt(c.value)) else None;
      case FuncDecl(_, _, _, _, _) => r := None;
    }
  }

  function Prepend(nodes: seq<C.Stmt>, r: Option<Done<seq<C.Stmt>>>): Option<Done<seq<C.Stmt>>> {
    match r
    case None => None
    case Some(d) => Some(Done(d.st, nodes + d.node))
  }

  lemma PrependNothing(r: Option<Done<seq<C.Stmt>>>)
    ensures Prepend([], r) == r
  {
    if r.Some? {
      assert [] + r.value.node == r.value.node;
    }
  }

  lemma {:induction false} WithFlagsLength(stack: Stack, flags: seq<bool>)
    ensures |WithFlags(stack, flags)| == |stack|
    decreases |stack|
  {
    if |stack| > 0 {
      WithFlagsLength(stack[1..], Rest(flags, |stack[0]|));
    }
  }
}
