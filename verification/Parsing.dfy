/** The grammar as the parser reads it: from a position in the tokens to a tree, or none after an
  * error, and the position where parsing goes on. That these functions exist at all, total on every
  * token list that ends in EOF, is the termination of the parser. */
module Parsing {
  import opened Values
  import opened Arith
  import opened Tokens
  import S = Syntax

  predicate EndsInEof(ts: seq<Token>) {
    |ts| > 0 && ts[|ts| - 1].Eof?
  }

  /** A tree if there was no error, where to go on, and whether nothing was reported. */
  datatype Out<T> = Out(node: Option<T>, pos: nat, clean: bool)

  /** The cursor moves forward, never past the EOF, and over a token for every tree. */
  predicate Moves<T>(ts: seq<Token>, pos: nat, r: Out<T>) {
    pos <= r.pos < |ts| && (r.node.Some? ==> pos < r.pos)
  }

  function Peek(ts: seq<Token>, pos: nat): Token
    requires |ts| > 0
  {
    if pos >= |ts| then ts[|ts| - 1] else ts[pos]
  }

  /** An error at `at`; parsing goes on at `pos`. What the lexer reported already is not reported again. */
  function Fail<T>(ts: seq<Token>, at: nat, pos: nat): Out<T>
    requires |ts| > 0
  {
    Out(None, pos, Peek(ts, at).Undefined?)
  }

  // ---------------------------------------------------------------- recovery

  function RecoverExpression(ts: seq<Token>, pos: nat): (r: nat)
    requires EndsInEof(ts) && pos < |ts|
    ensures pos <= r < |ts|
    ensures ts[r].Eof? || StopsExpression(ts[r])
    decreases |ts| - pos
  {
    if ts[pos].Eof? || StopsExpression(ts[pos]) then pos else RecoverExpression(ts, pos + 1)
  }

  function RecoverStatement(ts: seq<Token>, pos: nat): (r: nat)
    requires EndsInEof(ts) && pos < |ts|
    ensures pos <= r < |ts|
    decreases |ts| - pos
  {
    if ts[pos].Eof? then pos
    else if ts[pos].Semicolon? then pos + 1
    else if StopsStatement(ts[pos]) then pos
    else RecoverStatement(ts, pos + 1)
  }

  /** Skipping to the next declaration, with `depth` braces open. */
  function SkipTopLevel(ts: seq<Token>, pos: nat, depth: nat): (r: nat)
    requires EndsInEof(ts) && pos < |ts|
    ensures pos <= r < |ts|
    decreases |ts| - pos
  {
    if ts[pos].Eof? then pos
    else if ts[pos].LBrace? then SkipTopLevel(ts, pos + 1, depth + 1)
    else if ts[pos].RBrace? then SkipTopLevel(ts, pos + 1, if depth > 0 then depth - 1 else 0)
    else if ts[pos].Semicolon? then if depth == 0 then pos + 1 else SkipTopLevel(ts, pos + 1, depth)
    else if StopsTopLevel(ts[pos]) && depth == 0 then pos
    else SkipTopLevel(ts, pos + 1, depth)
  }

  function RecoverTopLevel(ts: seq<Token>, pos: nat): (r: nat)
    requires EndsInEof(ts) && pos < |ts|
    ensures pos <= r < |ts| && (!ts[pos].Eof? ==> pos < r)
  {
    SkipTopLevel(ts, if ts[pos].Eof? then pos else pos + 1, 0)
  }

  // ---------------------------------------------------------------- expressions

  function ParsePrimary(ts: seq<Token>, pos: nat): (r: Out<S.Expr>)
    requires EndsInEof(ts) && pos < |ts|
    ensures Moves(ts, pos, r) && (r.node.Some? ==> r.clean)
    decreases |ts| - pos, 0
  {
    match ts[pos]
    case LParen =>
      var inner := ParseBinary(ts, 0, pos + 1);
      if inner.node.None? then inner
      else if ts[inner.pos].RParen? then Out(inner.node, inner.pos + 1, true)
      else Fail(ts, inner.pos, RecoverExpression(ts, inner.pos))
    case Integer(n) => Out(Some(S.Number(n)), pos + 1, true)
    case KwTrue => Out(Some(S.Boolean(true)), pos + 1, true)
    case KwFalse => Out(Some(S.Boolean(false)), pos + 1, true)
    case Ident(name) =>
      if ts[pos + 1].LParen? then ParseCall(ts, name, pos + 1) else Out(Some(S.Identifier(name)), pos + 1, true)
    case _ => Fail(ts, pos, RecoverExpression(ts, pos))
  }

  /** The arguments of a call, from its opening parenthesis on. */
  function ParseCall(ts: seq<Token>, name: string, pos: nat): (r: Out<S.Expr>)
    requires EndsInEof(ts) && pos < |ts| && ts[pos].LParen?
    ensures Moves(ts, pos, r) && (r.node.Some? ==> r.clean)
    decreases |ts| - pos, 26
  {
    if ts[pos + 1].RParen? then Out(Some(S.Call(name, [])), pos + 2, true)
    else
      var args := ParseArgs(ts, pos + 1);
      if args.node.None? then Out(None, args.pos, args.clean)
      else if ts[args.pos].RParen? then Out(Some(S.Call(name, args.node.value)), args.pos + 1, true)
      else Fail(ts, args.pos, RecoverExpression(ts, args.pos))
  }

  function ParseArgs(ts: seq<Token>, pos: nat): (r: Out<seq<S.Expr>>)
    requires EndsInEof(ts) && pos < |ts|
    ensures Moves(ts, pos, r) && (r.node.Some? ==> r.clean)
    decreases |ts| - pos, 25
  {
    var first := ParseBinary(ts, 0, pos);
    if first.node.None? then Out(None, first.pos, first.clean)
    else if !ts[first.pos].Comma? then Out(Some([first.node.value]), first.pos, true)
    else
      var rest := ParseArgs(ts, first.pos + 1);
      if rest.node.None? then rest else Out(Some([first.node.value] + rest.node.value), rest.pos, true)
  }

  function PostfixLoop(ts: seq<Token>, e: S.Expr, pos: nat): (r: Out<S.Expr>)
    requires EndsInEof(ts) && pos < |ts|
    ensures pos <= r.pos < |ts| && r.node.Some? && r.clean
    decreases |ts| - pos
  {
    match PostfixOf(ts[pos])
    case None => Out(Some(e), pos, true)
    case Some(kind) => PostfixLoop(ts, S.Unary(kind, e), pos + 1)
  }

  function ParsePostfix(ts: seq<Token>, pos: nat): (r: Out<S.Expr>)
    requires EndsInEof(ts) && pos < |ts|
    ensures Moves(ts, pos, r) && (r.node.Some? ==> r.clean)
    decreases |ts| - pos, 1
  {
    var first := ParsePrimary(ts, pos);
    if first.node.None? then first else PostfixLoop(ts, first.node.value, first.pos)
  }

  function ParseUnary(ts: seq<Token>, pos: nat): (r: Out<S.Expr>)
    requires EndsInEof(ts) && pos < |ts|
    ensures Moves(ts, pos, r) && (r.node.Some? ==> r.clean)
    decreases |ts| - pos, 2
  {
    match PrefixOf(ts[pos])
    case None => ParsePostfix(ts, pos)
    case Some(kind) =>
      var a := ParseUnary(ts, pos + 1);
      if a.node.None? then a else Out(Some(S.Unary(kind, a.node.value)), a.pos, true)
  }

  function CastLoop(ts: seq<Token>, e: S.Expr, pos: nat): (r: Out<S.Expr>)
    requires EndsInEof(ts) && pos < |ts|
    ensures pos <= r.pos < |ts| && (r.node.Some? ==> r.clean)
    decreases |ts| - pos
  {
    if !ts[pos].KwAs? then Out(Some(e), pos, true)
    else if IsType(ts[pos + 1]) then CastLoop(ts, S.Cast(e, ts[pos + 1].t), pos + 2)
    else Fail(ts, pos + 1, RecoverExpression(ts, pos + 1))
  }

  function ParseCast(ts: seq<Token>, pos: nat): (r: Out<S.Expr>)
    requires EndsInEof(ts) && pos < |ts|
    ensures Moves(ts, pos, r) && (r.node.Some? ==> r.clean)
    decreases |ts| - pos, 3
  {
    var first := ParseUnary(ts, pos);
    if first.node.None? then first else CastLoop(ts, first.node.value, first.pos)
  }

  /** Operators of one level, the left operand parsed already. */
  function BinaryLoop(ts: seq<Token>, level: nat, left: S.Expr, pos: nat): (r: Out<S.Expr>)
    requires EndsInEof(ts) && pos < |ts| && level < LEVELS
    ensures pos <= r.pos < |ts| && (r.node.Some? ==> r.clean)
    decreases |ts| - pos, 4
  {
    if LevelOf(ts[pos]) != Some(level) then Out(Some(left), pos, true)
    else
      var right := ParseBinary(ts, level + 1, pos + 1);
      if right.node.None? then right
      else
        var e := S.Binary(BinaryOpOf(ts[pos]).value, left, right.node.value);
        if Chainable(level) then BinaryLoop(ts, level, e, right.pos) else Out(Some(e), right.pos, true)
  }

  function ParseBinary(ts: seq<Token>, level: nat, pos: nat): (r: Out<S.Expr>)
    requires EndsInEof(ts) && pos < |ts| && level <= LEVELS
    ensures Moves(ts, pos, r) && (r.node.Some? ==> r.clean)
    decreases |ts| - pos, 4 + 2 * (LEVELS - level)
  {
    if level == LEVELS then ParseCast(ts, pos)
    else
      var first := ParseBinary(ts, level + 1, pos);
      if first.node.None? then first else BinaryLoop(ts, level, first.node.value, first.pos)
  }

  function ParseExpression(ts: seq<Token>, pos: nat): (r: Out<S.Expr>)
    requires EndsInEof(ts) && pos < |ts|
    ensures Moves(ts, pos, r) && (r.node.Some? ==> r.clean)
  {
    ParseBinary(ts, 0, pos)
  }

  // ---------------------------------------------------------------- statements

  function AddQualifier(quals: S.Qualifiers, k: Token): S.Qualifiers {
    match k
    case KwMut => quals.(isMutable := true)
    case KwPub => quals.(isPublic := true)
    case KwExtern => quals.(isExtern := true)
    case _ => quals
  }

  /** Qualifiers may repeat; that is only a warning. */
  function ParseQualifiers(ts: seq<Token>, pos: nat, quals: S.Qualifiers): (r: (S.Qualifiers, nat))
    requires EndsInEof(ts) && pos < |ts|
    ensures pos <= r.1 < |ts| && !IsQualifier(ts[r.1])
    ensures IsQualifier(ts[pos]) ==> pos < r.1
    decreases |ts| - pos
  {
    if IsQualifier(ts[pos]) then ParseQualifiers(ts, pos + 1, AddQualifier(quals, ts[pos])) else (quals, pos)
  }

  const NO_QUALIFIERS := S.Qualifiers(false, false, false)

  /** An error inside a statement: skip to where the next may begin. */
  function Abandon<T>(ts: seq<Token>, pos: nat, clean: bool): (r: Out<T>)
    requires EndsInEof(ts) && pos < |ts|
    ensures pos <= r.pos < |ts| && r.node.None?
  {
    Out(None, RecoverStatement(ts, pos), clean)
  }

  function EndStatement(ts: seq<Token>, pos: nat, s: S.Stmt): (r: Out<S.Stmt>)
    requires EndsInEof(ts) && pos < |ts|
    ensures pos <= r.pos < |ts| && (r.node.Some? ==> pos < r.pos)
  {
    if ts[pos].Semicolon? then Out(Some(s), pos + 1, true) else Abandon(ts, pos, ts[pos].Undefined?)
  }

  function ParseVarDecl(ts: seq<Token>, pos: nat, quals: S.Qualifiers): (r: Out<S.Stmt>)
    requires EndsInEof(ts) && pos < |ts|
    ensures Moves(ts, pos, r)
  {
    if !IsType(ts[pos]) then Abandon(ts, pos, ts[pos].Undefined?)
    else if !ts[pos + 1].Ident? then Abandon(ts, pos + 1, ts[pos + 1].Undefined?)
    else if !ts[pos + 2].Equal? then EndStatement(ts, pos + 2, S.Decl(quals, ts[pos].t, ts[pos + 1].name, None))
    else
      var value := ParseExpression(ts, pos + 3);
      if value.node.None? then Abandon(ts, value.pos, value.clean)
      else EndStatement(ts, value.pos, S.Decl(quals, ts[pos].t, ts[pos + 1].name, value.node))
  }

  function ParseVarAssign(ts: seq<Token>, pos: nat): (r: Out<S.Stmt>)
    requires EndsInEof(ts) && pos + 1 < |ts| && ts[pos].Ident? && IsAssign(ts[pos + 1])
    ensures Moves(ts, pos, r)
  {
    var value := ParseExpression(ts, pos + 2);
    if value.node.None? then Abandon(ts, value.pos, value.clean)
    else
      var e := if ts[pos + 1].Equal? then value.node.value
               else S.Binary(BinaryOpOf(ts[pos + 1]).value, S.Identifier(ts[pos].name), value.node.value);
      EndStatement(ts, value.pos, S.Assign(ts[pos].name, e))
  }

  function ParseReturn(ts: seq<Token>, pos: nat): (r: Out<S.Stmt>)
    requires EndsInEof(ts) && pos < |ts| && ts[pos].KwReturn?
    ensures Moves(ts, pos, r)
  {
    if ts[pos + 1].Semicolon? then Out(Some(S.Return(None)), pos + 2, true)
    else
      var value := ParseExpression(ts, pos + 1);
      if value.node.None? then Abandon(ts, value.pos, value.clean)
      else EndStatement(ts, value.pos, S.Return(value.node))
  }

  function ParseExprStmt(ts: seq<Token>, pos: nat): (r: Out<S.Stmt>)
    requires EndsInEof(ts) && pos < |ts|
    ensures Moves(ts, pos, r)
  {
    var e := ParseExpression(ts, pos);
    if e.node.None? then Abandon(ts, e.pos, e.clean) else EndStatement(ts, e.pos, S.ExprStmt(e.node.value))
  }

  /** The statements of a block; after an error at which nothing was read, one token is skipped. */
  function BlockLoop(ts: seq<Token>, pos: nat): (r: Out<seq<S.Stmt>>)
    requires EndsInEof(ts) && pos < |ts|
    ensures pos <= r.pos < |ts| && r.node.Some?
    ensures ts[r.pos].RBrace? || ts[r.pos].Eof?
    decreases |ts| - pos, 13
  {
    if ts[pos].RBrace? || ts[pos].Eof? then Out(Some([]), pos, true)
    else
      var first := ParseStatement(ts, pos);
      var next := if first.node.None? && first.pos == pos then pos + 1 else first.pos;
      var rest := BlockLoop(ts, next);
      var found := if first.node.Some? then [first.node.value] else [];
      Out(Some(found + rest.node.value), rest.pos, first.clean && rest.clean)
  }

  function ParseBlock(ts: seq<Token>, pos: nat): (r: Out<S.Stmt>)
    requires EndsInEof(ts) && pos < |ts|
    ensures Moves(ts, pos, r) && (r.node.Some? ==> r.node.value.Block?)
    decreases |ts| - pos, 8
  {
    if !ts[pos].LBrace? then Abandon(ts, pos, ts[pos].Undefined?)
    else
      var body := BlockLoop(ts, pos + 1);
      if ts[body.pos].RBrace? then Out(Some(S.Block(body.node.value)), body.pos + 1, body.clean)
      else Abandon(ts, body.pos, false)
  }

  function ParseIf(ts: seq<Token>, pos: nat): (r: Out<S.Stmt>)
    requires EndsInEof(ts) && pos < |ts| && ts[pos].KwIf?
    ensures Moves(ts, pos, r) && (r.node.Some? ==> r.node.value.If?)
    decreases |ts| - pos, 9
  {
    var cond := ParseExpression(ts, pos + 1);
    if cond.node.None? then Abandon(ts, cond.pos, cond.clean)
    else
      var thn := ParseBlock(ts, cond.pos);
      if thn.node.None? then Abandon(ts, thn.pos, thn.clean)
      else if !ts[thn.pos].KwElse? then Out(Some(S.If(cond.node.value, thn.node.value, None)), thn.pos, thn.clean)
      else
        var els := if ts[thn.pos + 1].KwIf? then ParseIf(ts, thn.pos + 1) else ParseBlock(ts, thn.pos + 1);
        if els.node.None? then Abandon(ts, els.pos, thn.clean && els.clean)
        else Out(Some(S.If(cond.node.value, thn.node.value, els.node)), els.pos, thn.clean && els.clean)
  }

  function ParseWhile(ts: seq<Token>, pos: nat): (r: Out<S.Stmt>)
    requires EndsInEof(ts) && pos < |ts| && ts[pos].KwWhile?
    ensures Moves(ts, pos, r)
    decreases |ts| - pos, 9
  {
    var cond := ParseExpression(ts, pos + 1);
    if cond.node.None? then Abandon(ts, cond.pos, cond.clean)
    else
      var body := ParseBlock(ts, cond.pos);
      if body.node.None? then Abandon(ts, body.pos, body.clean)
      else Out(Some(S.While(cond.node.value, body.node.value)), body.pos, body.clean)
  }

  /** Parameters up to the last one without a comma after it. */
  function ParseParams(ts: seq<Token>, pos: nat): (r: Out<seq<S.Param>>)
    requires EndsInEof(ts) && pos < |ts|
    ensures Moves(ts, pos, r) && (r.node.Some? ==> r.clean)
    decreases |ts| - pos
  {
    var q := ParseQualifiers(ts, pos, NO_QUALIFIERS);
    var at := q.1;
    if !IsType(ts[at]) then Abandon(ts, at, ts[at].Undefined?)
    else if !ts[at + 1].Ident? then Abandon(ts, at + 1, ts[at + 1].Undefined?)
    else
      var p := S.Param(q.0, ts[at].t, ts[at + 1].name);
      if !ts[at + 2].Comma? then Out(Some([p]), at + 2, true)
      else
        var rest := ParseParams(ts, at + 3);
        if rest.node.None? then rest else Out(Some([p] + rest.node.value), rest.pos, true)
  }

  /** The parameter list between its parentheses. */
  function ParseParamList(ts: seq<Token>, pos: nat): (r: Out<seq<S.Param>>)
    requires EndsInEof(ts) && pos < |ts|
    ensures Moves(ts, pos, r) && (r.node.Some? ==> r.clean)
  {
    if !ts[pos].LParen? then Abandon(ts, pos, ts[pos].Undefined?)
    else
      var ps := if ts[pos + 1].RParen? then Out(Some([]), pos + 1, true) else ParseParams(ts, pos + 1);
      if ps.node.None? then ps
      else if ts[ps.pos].RParen? then Out(ps.node, ps.pos + 1, true)
      else Abandon(ts, ps.pos, ts[ps.pos].Undefined?)
  }

  function ParseFuncDecl(ts: seq<Token>, pos: nat, quals: S.Qualifiers): (r: Out<S.Stmt>)
    requires EndsInEof(ts) && pos < |ts| && ts[pos].KwFn?
    ensures Moves(ts, pos, r)
    decreases |ts| - pos, 9
  {
    if !ts[pos + 1].Ident? then Abandon(ts, pos + 1, ts[pos + 1].Undefined?)
    else
      var name := ts[pos + 1].name;
      var params := ParseParamList(ts, pos + 2);
      if params.node.None? then Out(None, params.pos, params.clean)
      else
        var at := params.pos;
        if !IsType(ts[at]) && !ts[at].LBrace? && !ts[at].Semicolon? then Abandon(ts, at, ts[at].Undefined?)
        else
          var ret := if IsType(ts[at]) then ts[at].t else Void;
          var body := if IsType(ts[at]) then at + 1 else at;
          if ts[body].Semicolon? then Out(Some(S.FuncDecl(quals, name, params.node.value, ret, None)), body + 1, true)
          else if !ts[body].LBrace? then Abandon(ts, body, ts[body].Undefined?)
          else
            var b := ParseBlock(ts, body);
            if b.node.None? then Abandon(ts, b.pos, b.clean)
            else Out(Some(S.FuncDecl(quals, name, params.node.value, ret, b.node)), b.pos, b.clean)
  }

  function ParseDecl(ts: seq<Token>, pos: nat): (r: Out<S.Stmt>)
    requires EndsInEof(ts) && pos < |ts|
    ensures Moves(ts, pos, r)
    decreases |ts| - pos, 10
  {
    var q := ParseQualifiers(ts, pos, NO_QUALIFIERS);
    if ts[q.1].KwFn? then ParseFuncDecl(ts, q.1, q.0)
    else if IsType(ts[q.1]) then ParseVarDecl(ts, q.1, q.0)
    else Abandon(ts, q.1, ts[q.1].Undefined?)
  }

  function ParseStatement(ts: seq<Token>, pos: nat): (r: Out<S.Stmt>)
    requires EndsInEof(ts) && pos < |ts|
    ensures Moves(ts, pos, r)
    decreases |ts| - pos, 12
  {
    if IsType(ts[pos]) || ts[pos].KwFn? || IsQualifier(ts[pos]) then ParseDecl(ts, pos)
    else if ts[pos].Ident? && IsAssign(Peek(ts, pos + 1)) then ParseVarAssign(ts, pos)
    else if ts[pos].LBrace? then ParseBlock(ts, pos)
    else if ts[pos].KwIf? then ParseIf(ts, pos)
    else if ts[pos].KwWhile? then ParseWhile(ts, pos)
    else if ts[pos].KwReturn? then ParseReturn(ts, pos)
    else ParseExprStmt(ts, pos)
  }

  // ---------------------------------------------------------------- files

  datatype Item = Import(path: string) | Declaration(node: S.Stmt)

  const IMPORT_PATH_SIZE: nat := 512
  const EXTENSION := ".slfr"

  /** The dotted path of an import, as a path of the file system. A path too long for the buffer
    * is dropped without a report. */
  function ImportPath(ts: seq<Token>, pos: nat, path: string, expectName: bool): (r: Out<string>)
    requires EndsInEof(ts) && pos < |ts|
    ensures pos <= r.pos < |ts| && (r.node.Some? ==> pos < r.pos)
    decreases |ts| - pos
  {
    if ts[pos].Semicolon? then
      if expectName then Fail(ts, pos, pos)
      else if |path| + |EXTENSION| >= IMPORT_PATH_SIZE then Out(None, pos + 1, true)
      else Out(Some(path + EXTENSION), pos + 1, true)
    else if expectName then
      if !ts[pos].Ident? then Fail(ts, pos, pos)
      else if |path| + |ts[pos].name| >= IMPORT_PATH_SIZE then Out(None, pos + 1, true)
      else ImportPath(ts, pos + 1, path + ts[pos].name, false)
    else if !ts[pos].Dot? then Fail(ts, pos, pos)
    else if |path| + 1 >= IMPORT_PATH_SIZE then Out(None, pos + 1, true)
    else ImportPath(ts, pos + 1, path + "/", true)
  }

  function ParseTopLevel(ts: seq<Token>, pos: nat): (r: Out<Item>)
    requires EndsInEof(ts) && pos < |ts|
    ensures Moves(ts, pos, r)
  {
    if ts[pos].KwFn? || IsQualifier(ts[pos]) then
      var d := ParseDecl(ts, pos);
      if d.node.None? then Out(None, RecoverTopLevel(ts, d.pos), d.clean)
        else Out(Some(Declaration(d.node.value)), d.pos, d.clean)
    else if ts[pos].KwImport? then
      var i := ImportPath(ts, pos + 1, "", true);
      if i.node.None? then Out(None, RecoverTopLevel(ts, i.pos), i.clean)
        else Out(Some(Import(i.node.value)), i.pos, i.clean)
    else Out(None, RecoverTopLevel(ts, pos), false)
  }

  /** A whole file: what it declares and imports, and whether no error was reported. */
  function ParseItems(ts: seq<Token>, pos: nat): (r: Out<seq<Item>>)
    requires EndsInEof(ts) && pos < |ts|
    ensures pos <= r.pos < |ts| && r.node.Some? && ts[r.pos].Eof?
    decreases |ts| - pos
  {
    if ts[pos].Eof? then Out(Some([]), pos, true)
    else
      var first := ParseTopLevel(ts, pos);
      var next := if first.node.None? && first.pos == pos then pos + 1 else first.pos;
      var rest := ParseItems(ts, next);
      var found := if first.node.Some? then [first.node.value] else [];
      Out(Some(found + rest.node.value), rest.pos, first.clean && rest.clean)
  }
}
