/** Functions that return in both branches of an `if` are accepted. */
module TwoWays {
  import opened Values
  import opened Arith
  import opened Analysis
  import opened Assignment
  import opened Accepting
  import M = Meaning
  import R = Rules
  import S = Syntax

  /** `{ if cond { return a; } else { return b; } }` */
  function Branching(cond: S.Expr, a: S.Expr, b: S.Expr): S.Stmt {
    S.Block([S.If(cond, S.Block([S.Return(Some(a))]), Some(S.Block([S.Return(Some(b))])))])
  }

  lemma BlockWay(stmts: seq<S.Stmt>, choices: seq<bool>)
    requires |stmts| == 1 && R.Way(stmts[0], choices).None?
    ensures R.Way(S.Block(stmts), choices).None?
  {
    assert R.WayThrough(stmts, choices).None?;
  }

  lemma BranchingNeverEnds(cond: S.Expr, a: S.Expr, b: S.Expr)
    ensures R.NeverEnds(Branching(cond, a, b))
  {
    var branch := S.If(cond, S.Block([S.Return(Some(a))]), Some(S.Block([S.Return(Some(b))])));
    forall choices: seq<bool> ensures R.Way(Branching(cond, a, b), choices).None? {
      if |choices| > 0 {
        BlockWay([S.Return(Some(a))], choices[1..]);
        BlockWay([S.Return(Some(b))], choices[1..]);
      }
      BlockWay([branch], choices);
    }
  }

  lemma OneStatement(src: M.Source, params: seq<string>, ret: ValueType, s: S.Stmt, scopes: M.Scopes)
    ensures R.Check(src, params, ret, S.Block([s]), scopes).Some? <==>
            R.Check(src, params, ret, s, scopes + [map[]]).Some?
  {
    hide R.Check;
    assert [s][1..] == [];
    BlockChecked(src, params, ret, [s], scopes);
  }

  lemma BlockChecked(src: M.Source, params: seq<string>, ret: ValueType, stmts: seq<S.Stmt>, scopes: M.Scopes)
    ensures R.Check(src, params, ret, S.Block(stmts), scopes).Some? <==>
            R.CheckAll(src, params, ret, stmts, scopes + [map[]]).Some?
  {}

  /** The scopes in the outer block of a function, and in the blocks of its branches. */
  function Inside(f: S.Stmt, blocks: nat): M.Scopes
    requires f.FuncDecl?
  {
    [map[], M.Bind(f.params, R.Zeros(|f.params|))] + seq(blocks, _ => map[])
  }

  /** A function whose body is `if cond { return a; } else { return b; }` is accepted if its header is, its condition
    * is a `bool` and both results may be returned at its type. */
  lemma BranchingAccepted(prefix: Option<string>, imported: Funcs, f: S.Stmt, cond: S.Expr, a: S.Expr, b: S.Expr)
    requires f.FuncDecl? && S.Built(f) && f.definition == Some(Branching(cond, a, b))
    requires R.SignatureKept(f) && R.Agrees(M.Source(prefix, imported, []), f)
    requires var src := M.Source(prefix, imported, [f]);
             R.TypeOf(src, cond, Bool, Inside(f, 1)) == Some(Bool) &&
             R.ValueFits(f.ret, R.TypeOf(src, a, f.ret, Inside(f, 2))) &&
             R.ValueFits(f.ret, R.TypeOf(src, b, f.ret, Inside(f, 2)))
    ensures Analyze(prefix, imported, [f]).Some?
  {
    hide R.TypeOf, R.ValueFits, R.NeverEnds, R.SignatureKept, R.Agrees, M.Bind, Analyze, S.Built, R.Joined;
    var src, params := M.Source(prefix, imported, [f]), R.Names(f.params);
    var s0, s1, s2 := Inside(f, 0), Inside(f, 1), Inside(f, 2);
    assert s0 + [map[]] == s1 && s1 + [map[]] == s2;
    var left, right := S.Return(Some(a)), S.Return(Some(b));
    OneStatement(src, params, f.ret, left, s1);
    OneStatement(src, params, f.ret, right, s1);
    var branch := S.If(cond, S.Block([left]), Some(S.Block([right])));
    assert R.Check(src, params, f.ret, branch, s1).Some?;
    OneStatement(src, params, f.ret, branch, s0);
    BranchingNeverEnds(cond, a, b);
    var before := M.Source(prefix, imported, []);
    assert before.functions + [f] == [f];
    assert s0 == [map[], M.Bind(f.params, R.Zeros(|f.params|))];
    assert R.BodyKept(before, f);
    AcceptedExactly(prefix, imported, [f]);
    assert [f][..0] == [];
  }

  /** For instance `fn f(bool b) i32 { if b { return 1; } else { return 2; } }`. */
  lemma ChoiceAccepted()
    ensures var quals := S.Qualifiers(false, false, false);
            var f := S.FuncDecl(quals, "f", [S.Param(quals, Bool, "b")], I32,
                                Some(Branching(S.Identifier("b"), S.Number(1), S.Number(2))));
            Analyze(None, [], [f]).Some?
  {
    hide Analyze;
    var quals := S.Qualifiers(false, false, false);
    var params := [S.Param(quals, Bool, "b")];
    var f := S.FuncDecl(quals, "f", params, I32, Some(Branching(S.Identifier("b"), S.Number(1), S.Number(2))));
    var src := M.Source(None, [], [f]);
    assert M.Bind(params, R.Zeros(1)) == map["b" := M.Cell(Bool, false, Some(0))] by {
      assert params[..0] == [] && R.Zeros(1)[..0] == [];
      assert M.Bind(params[..0], R.Zeros(1)[..0]) == map[];
    }
    ReadInside(f);
    assert R.TypeOf(src, S.Identifier("b"), Bool, Inside(f, 1)) == Some(Bool);
    assert R.TypeOf(src, S.Number(1), I32, Inside(f, 2)) == Some(I32);
    assert R.TypeOf(src, S.Number(2), I32, Inside(f, 2)) == Some(I32);
    BuiltBranching(quals, params);
    assert M.SignatureOf(None, [], [], "f").None?;
    BranchingAccepted(None, [], f, S.Identifier("b"), S.Number(1), S.Number(2));
  }

  lemma BuiltBranching(quals: S.Qualifiers, params: seq<S.Param>)
    requires forall i :: 0 <= i < |params| ==> params[i].t != Unresolved
    ensures S.Built(S.FuncDecl(quals, "f", params, I32, Some(Branching(S.Identifier("b"), S.Number(1), S.Number(2)))))
  {}

  lemma ReadInside(f: S.Stmt)
    requires f.FuncDecl? && M.Bind(f.params, R.Zeros(|f.params|)) == map["b" := M.Cell(Bool, false, Some(0))]
    ensures R.ReadType(Inside(f, 1), "b") == Some(Bool)
  {
    var s := Inside(f, 1);
    assert s == [map[], map["b" := M.Cell(Bool, false, Some(0))], map[]];
    assert s[..2] == [map[], map["b" := M.Cell(Bool, false, Some(0))]];
    assert M.ScopeOf(s[..2], "b") == Some(1);
    assert M.ScopeOf(s, "b") == M.ScopeOf(s[..2], "b");
  }
}
