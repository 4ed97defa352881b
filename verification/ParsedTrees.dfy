/** Whatever the tokens are, the trees the parser gives have the shape the analyser relies on. */
module ParsedTrees {
  import opened Values
  import opened Arith
  import opened Tokens
  import opened Parsing
  import S = Syntax

  predicate BuiltIfAny(r: Out<S.Stmt>) {
    r.node.Some? ==> S.Built(r.node.value)
  }

  predicate AllBuilt(stmts: seq<S.Stmt>) {
    forall i :: 0 <= i < |stmts| ==> S.Built(stmts[i])
  }

  predicate TypedParams(params: seq<S.Param>) {
    forall i :: 0 <= i < |params| ==> params[i].t != Unresolved
  }

  lemma {:induction false} ParamsTyped(ts: seq<Token>, pos: nat)
    requires EndsInEof(ts) && pos < |ts|
    ensures ParseParams(ts, pos).node.Some? ==> TypedParams(ParseParams(ts, pos).node.value)
    decreases |ts| - pos
  {
    hide ParseQualifiers;
    var at := ParseQualifiers(ts, pos, NO_QUALIFIERS).1;
    if IsType(ts[at]) && ts[at + 1].Ident? && ts[at + 2].Comma? {
      ParamsTyped(ts, at + 3);
    }
  }

  lemma ParamListTyped(ts: seq<Token>, pos: nat)
    requires EndsInEof(ts) && pos < |ts|
    ensures ParseParamList(ts, pos).node.Some? ==> TypedParams(ParseParamList(ts, pos).node.value)
  {
    hide ParseParams;
    if ts[pos].LParen? && !ts[pos + 1].RParen? {
      ParamsTyped(ts, pos + 1);
    }
  }

  lemma {:induction false} BlockBuilt(ts: seq<Token>, pos: nat)
    requires EndsInEof(ts) && pos < |ts|
    ensures BuiltIfAny(ParseBlock(ts, pos))
    decreases |ts| - pos, 8
  {
    hide BlockLoop;
    if ts[pos].LBrace? {
      LoopBuilt(ts, pos + 1);
    }
  }

  lemma {:induction false} LoopBuilt(ts: seq<Token>, pos: nat)
    requires EndsInEof(ts) && pos < |ts|
    ensures AllBuilt(BlockLoop(ts, pos).node.value)
    decreases |ts| - pos, 13
  {
    hide ParseStatement, S.Built;
    if !ts[pos].RBrace? && !ts[pos].Eof? {
      StatementBuilt(ts, pos);
      var first := ParseStatement(ts, pos);
      LoopBuilt(ts, if first.node.None? && first.pos == pos then pos + 1 else first.pos);
    }
  }

  lemma {:induction false} IfBuilt(ts: seq<Token>, pos: nat)
    requires EndsInEof(ts) && pos < |ts| && ts[pos].KwIf?
    ensures BuiltIfAny(ParseIf(ts, pos))
    decreases |ts| - pos, 9
  {
    hide ParseExpression, ParseBlock, RecoverStatement;
    var cond := ParseExpression(ts, pos + 1);
    if cond.node.Some? {
      BlockBuilt(ts, cond.pos);
      var thn := ParseBlock(ts, cond.pos);
      if thn.node.Some? && ts[thn.pos].KwElse? {
        if ts[thn.pos + 1].KwIf? {
          IfBuilt(ts, thn.pos + 1);
        } else {
          BlockBuilt(ts, thn.pos + 1);
        }
      }
    }
  }

  lemma {:induction false} WhileBuilt(ts: seq<Token>, pos: nat)
    requires EndsInEof(ts) && pos < |ts| && ts[pos].KwWhile?
    ensures BuiltIfAny(ParseWhile(ts, pos))
    decreases |ts| - pos, 9
  {
    hide ParseExpression, ParseBlock, RecoverStatement;
    var cond := ParseExpression(ts, pos + 1);
    if cond.node.Some? {
      BlockBuilt(ts, cond.pos);
    }
  }

  lemma {:induction false} FunctionBuilt(ts: seq<Token>, pos: nat, quals: S.Qualifiers)
    requires EndsInEof(ts) && pos < |ts| && ts[pos].KwFn?
    ensures BuiltIfAny(ParseFuncDecl(ts, pos, quals))
    ensures ParseFuncDecl(ts, pos, quals).node.Some? ==> ParseFuncDecl(ts, pos, quals).node.value.FuncDecl?
    decreases |ts| - pos, 9
  {
    hide ParseParamList, ParseBlock, RecoverStatement;
    if ts[pos + 1].Ident? {
      ParamListTyped(ts, pos + 2);
      var ps := ParseParamList(ts, pos + 2);
      if ps.node.Some? {
        var body := if IsType(ts[ps.pos]) then ps.pos + 1 else ps.pos;
        if ts[body].LBrace? {
          BlockBuilt(ts, body);
        }
      }
    }
  }

  lemma VarDeclBuilt(ts: seq<Token>, pos: nat, quals: S.Qualifiers)
    requires EndsInEof(ts) && pos < |ts|
    ensures BuiltIfAny(ParseVarDecl(ts, pos, quals))
  {
    hide ParseExpression, RecoverStatement;
  }

  lemma {:induction false} DeclBuilt(ts: seq<Token>, pos: nat)
    requires EndsInEof(ts) && pos < |ts|
    ensures BuiltIfAny(ParseDecl(ts, pos))
    decreases |ts| - pos, 10
  {
    hide ParseQualifiers, ParseFuncDecl, ParseVarDecl, RecoverStatement, S.Built;
    var q := ParseQualifiers(ts, pos, NO_QUALIFIERS);
    if ts[q.1].KwFn? {
      FunctionBuilt(ts, q.1, q.0);
    } else {
      VarDeclBuilt(ts, q.1, q.0);
    }
  }

  lemma SimpleBuilt(ts: seq<Token>, pos: nat)
    requires EndsInEof(ts) && pos < |ts|
    ensures pos + 1 < |ts| && ts[pos].Ident? && IsAssign(ts[pos + 1]) ==> BuiltIfAny(ParseVarAssign(ts, pos))
    ensures ts[pos].KwReturn? ==> BuiltIfAny(ParseReturn(ts, pos))
    ensures BuiltIfAny(ParseExprStmt(ts, pos))
  {
    hide ParseExpression, RecoverStatement;
  }

  /** A statement the parser gives is well formed: every type is one that was written, branches and
    * bodies are blocks, at every depth. */
  lemma {:induction false} StatementBuilt(ts: seq<Token>, pos: nat)
    requires EndsInEof(ts) && pos < |ts|
    ensures BuiltIfAny(ParseStatement(ts, pos))
    decreases |ts| - pos, 12
  {
    hide BuiltIfAny, ParseDecl, ParseVarAssign, ParseBlock, ParseIf, ParseWhile, ParseReturn, ParseExprStmt;
    SimpleBuilt(ts, pos);
    if IsType(ts[pos]) || ts[pos].KwFn? || IsQualifier(ts[pos]) {
      DeclBuilt(ts, pos);
    } else if ts[pos].LBrace? {
      BlockBuilt(ts, pos);
    } else if ts[pos].KwIf? {
      IfBuilt(ts, pos);
    } else if ts[pos].KwWhile? {
      WhileBuilt(ts, pos);
    }
  }

  // ---------------------------------------------------------------- files

  predicate BuiltItems(items: seq<Item>) {
    forall i :: 0 <= i < |items| && items[i].Declaration? ==> S.Built(items[i].node)
  }

  lemma TopLevelBuilt(ts: seq<Token>, pos: nat)
    requires EndsInEof(ts) && pos < |ts|
    ensures var r := ParseTopLevel(ts, pos); r.node.Some? && r.node.value.Declaration? ==> S.Built(r.node.value.node)
  {
    hide ParseDecl, RecoverTopLevel, ImportPath, S.Built;
    DeclBuilt(ts, pos);
  }

  /** Every declaration of a parsed file is well formed, whatever errors the file has. */
  lemma {:induction false} FileBuilt(ts: seq<Token>, pos: nat)
    requires EndsInEof(ts) && pos < |ts|
    ensures BuiltItems(ParseItems(ts, pos).node.value)
    decreases |ts| - pos
  {
    hide ParseTopLevel, S.Built;
    if !ts[pos].Eof? {
      TopLevelBuilt(ts, pos);
      var first := ParseTopLevel(ts, pos);
      FileBuilt(ts, if first.node.None? && first.pos == pos then pos + 1 else first.pos);
    }
  }
}
