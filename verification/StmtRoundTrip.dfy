/** The round trip for statements and declarations, and the shape of every tree the parser builds. */
module StmtRoundTrip {
  import opened Values
  import opened Arith
  import opened Tokens
  import opened Parsing
  import opened Printing
  import opened RoundTrip
  import S = Syntax

  // ---------------------------------------------------------------- no expression holds an assignment sign

  predicate NoAssigns(ts: seq<Token>) {
    forall i :: 0 <= i < |ts| ==> !IsAssign(ts[i])
  }

  lemma NoAssignsConcat(a: seq<Token>, b: seq<Token>)
    requires NoAssigns(a) && NoAssigns(b)
    ensures NoAssigns(a + b)
  {}

  lemma TokenIsNoAssign(op: BinaryOp)
    ensures !IsAssign(TokenOf(op))
  {}

  lemma {:induction false} ExprNoAssigns(e: S.Expr, level: nat)
    ensures NoAssigns(Print(e, level))
    decreases e, 1
  {
    hide NoAssigns, IsAssign, TokenOf, Tightness;
    BareNoAssigns(e);
    Parens();
    if Tightness(e) < level {
      NoAssignsConcat([LParen], Bare(e));
      NoAssignsConcat([LParen] + Bare(e), [RParen]);
    }
  }

  lemma Parens()
    ensures NoAssigns([LParen]) && NoAssigns([RParen]) && NoAssigns([Comma]) && NoAssigns([Semicolon]) && NoAssigns([])
  {}

  lemma {:induction false} BareNoAssigns(e: S.Expr)
    ensures NoAssigns(Bare(e))
    decreases e, 0
  {
    hide Print, NoAssigns;
    match e
    case Number(_) => SingleNoAssign(Integer(e.value));
    case Boolean(b) => SingleNoAssign(if b then KwTrue else KwFalse);
    case Identifier(name) => SingleNoAssign(Ident(name));
    case Binary(op, l, r) =>
      var k := OpLevel(op);
      TokenIsNoAssign(op);
      SingleNoAssign(TokenOf(op));
      ExprNoAssigns(l, if Chainable(k) then k else k + 1);
      ExprNoAssigns(r, k + 1);
      NoAssignsConcat(Print(l, if Chainable(k) then k else k + 1), [TokenOf(op)]);
      NoAssignsConcat(Print(l, if Chainable(k) then k else k + 1) + [TokenOf(op)], Print(r, k + 1));
    case Unary(kind, a) => UnaryNoAssigns(e);
    case Cast(a, t) =>
      CastNoAssigns(t);
      ExprNoAssigns(a, CAST);
      NoAssignsConcat(Print(a, CAST), [KwAs, KwType(t)]);
    case Call(callee, args) =>
      CallNoAssigns(callee);
      Parens();
      ArgsNoAssigns(args);
      NoAssignsConcat([Ident(callee), LParen], PrintArgs(args));
      NoAssignsConcat([Ident(callee), LParen] + PrintArgs(args), [RParen]);
  }

  lemma SingleNoAssign(k: Token)
    requires !IsAssign(k)
    ensures NoAssigns([k])
  {}

  lemma CastNoAssigns(t: ValueType)
    ensures NoAssigns([KwAs, KwType(t)])
  {}

  lemma CallNoAssigns(name: string)
    ensures NoAssigns([Ident(name), LParen])
  {}

  lemma {:induction false} UnaryNoAssigns(e: S.Expr)
    requires e.Unary?
    ensures NoAssigns(Bare(e))
    decreases e, 0, 0
  {
    hide Print, NoAssigns;
    BareUnary(e);
    if IsPostfix(e.kind) {
      ExprNoAssigns(e.operand, POSTFIX);
      SingleNoAssign(PostfixToken(e.kind));
      NoAssignsConcat(Print(e.operand, POSTFIX), [PostfixToken(e.kind)]);
    } else {
      ExprNoAssigns(e.operand, PREFIX);
      SingleNoAssign(PrefixToken(e.kind));
      NoAssignsConcat([PrefixToken(e.kind)], Print(e.operand, PREFIX));
    }
  }

  lemma {:induction false} ArgsNoAssigns(args: seq<S.Expr>)
    ensures NoAssigns(PrintArgs(args))
    decreases args, 0
  {
    hide Print, NoAssigns;
    Parens();
    if |args| > 0 {
      ExprNoAssigns(args[0], 0);
      if |args| > 1 {
        ArgsNoAssigns(args[1..]);
        NoAssignsConcat(Print(args[0], 0), [Comma]);
        NoAssignsConcat(Print(args[0], 0) + [Comma], PrintArgs(args[1..]));
      }
    }
  }

  // ---------------------------------------------------------------- pieces of statements

  /** An expression and the token that ends it. */
  lemma EndedExpression(ts: seq<Token>, e: S.Expr, pos: nat, last: Token)
    requires EndsInEof(ts) && Printable(e) && TokensAt(ts, pos, Print(e, 0) + [last]) && Stops(last, 0)
    ensures var end := pos + |Print(e, 0)|;
            end + 1 < |ts| && ts[end] == last && ParseExpression(ts, pos) == Out(Some(e), end, true)
  {
    hide TokensAt, Print, ParseExpression, Stops;
    AtSplit(ts, pos, Print(e, 0), [last]);
    AtOne(ts, pos + |Print(e, 0)|, last);
    ExpressionRoundTrip(ts, e, pos);
  }

  lemma QualifiersParsed(ts: seq<Token>, q: S.Qualifiers, pos: nat)
    requires EndsInEof(ts) && TokensAt(ts, pos, PrintQualifiers(q)) && !IsQualifier(ts[pos + |PrintQualifiers(q)|])
    ensures ParseQualifiers(ts, pos, NO_QUALIFIERS) == (q, pos + |PrintQualifiers(q)|)
  {
    hide TokensAt, ParseQualifiers, IsQualifier, Mark, PrintQualifiers, AddQualifier;
    AddMarks(q);
    QualifierPlaces(ts, q, pos);
    var at1 := pos + |Mark(q.isMutable, KwMut)|;
    var at2 := at1 + |Mark(q.isPublic, KwPub)|;
    QualifierKeywords();
    OneQualifier(ts, pos, q.isMutable, KwMut, NO_QUALIFIERS);
    OneQualifier(ts, at1, q.isPublic, KwPub, S.Qualifiers(q.isMutable, false, false));
    OneQualifier(ts, at2, q.isExtern, KwExtern, S.Qualifiers(q.isMutable, q.isPublic, false));
    NoQualifier(ts, at2 + |Mark(q.isExtern, KwExtern)|, q);
  }

  lemma QualifierPlaces(ts: seq<Token>, q: S.Qualifiers, pos: nat)
    requires TokensAt(ts, pos, PrintQualifiers(q))
    ensures var m, p, x := Mark(q.isMutable, KwMut), Mark(q.isPublic, KwPub), Mark(q.isExtern, KwExtern);
            TokensAt(ts, pos, m) && TokensAt(ts, pos + |m|, p) && TokensAt(ts, pos + |m| + |p|, x) &&
            |PrintQualifiers(q)| == |m| + |p| + |x| && pos + |m| + |p| + |x| < |ts|
  {
    hide TokensAt, Mark;
    var m, p, x := Mark(q.isMutable, KwMut), Mark(q.isPublic, KwPub), Mark(q.isExtern, KwExtern);
    AtSplit(ts, pos, m + p, x);
    AtSplit(ts, pos, m, p);
    EndInside(ts, pos, PrintQualifiers(q));
  }

  lemma EndInside(ts: seq<Token>, pos: nat, part: seq<Token>)
    requires TokensAt(ts, pos, part)
    ensures pos + |part| < |ts|
  {}

  lemma AddMarks(q: S.Qualifiers)
    ensures q.isMutable ==> AddQualifier(NO_QUALIFIERS, KwMut) == S.Qualifiers(true, false, false)
    ensures q.isPublic ==>
            AddQualifier(S.Qualifiers(q.isMutable, false, false), KwPub) == S.Qualifiers(q.isMutable, true, false)
    ensures q.isExtern ==>
            AddQualifier(S.Qualifiers(q.isMutable, q.isPublic, false), KwExtern) ==
            S.Qualifiers(q.isMutable, q.isPublic, true)
  {}

  lemma QualifierKeywords()
    ensures IsQualifier(KwMut) && IsQualifier(KwPub) && IsQualifier(KwExtern)
  {}

  lemma NoQualifier(ts: seq<Token>, pos: nat, q: S.Qualifiers)
    requires EndsInEof(ts) && pos < |ts| && !IsQualifier(ts[pos])
    ensures ParseQualifiers(ts, pos, q) == (q, pos)
  {}

  lemma OneQualifier(ts: seq<Token>, pos: nat, present: bool, k: Token, q: S.Qualifiers)
    requires EndsInEof(ts) && TokensAt(ts, pos, Mark(present, k)) && IsQualifier(k)
    ensures pos + |Mark(present, k)| < |ts|
    ensures ParseQualifiers(ts, pos, q) == ParseQualifiers(ts, pos + |Mark(present, k)|,
                                                           if present then AddQualifier(q, k) else q)
  {
    if present {
      TokenHere(ts, pos, Mark(present, k), 0);
    }
  }

  // ---------------------------------------------------------------- statements without parts

  function PrintInit(init: Option<S.Expr>): seq<Token> {
    if init.None? then [] else [Equal] + Print(init.value, 0)
  }

  lemma DeclShape(s: S.Stmt)
    requires s.Decl?
    ensures PrintStmt(s) == PrintQualifiers(s.quals) + ([KwType(s.t), Ident(s.name)] +
                                                        (PrintInit(s.init) + [Semicolon]))
  {
    hide Print, PrintQualifiers;
  }

  lemma SimpleShape(s: S.Stmt)
    ensures s.Assign? ==> PrintStmt(s) == [Ident(s.name), Equal] + (Print(s.value, 0) + [Semicolon])
    ensures s.Return? && s.result.None? ==> PrintStmt(s) == [KwReturn, Semicolon]
    ensures s.Return? && s.result.Some? ==> PrintStmt(s) == [KwReturn] + (Print(s.result.value, 0) + [Semicolon])
    ensures s.ExprStmt? ==> PrintStmt(s) == Print(s.e, 0) + [Semicolon]
  {
    hide Print;
  }

  lemma DeclRoundTrip(ts: seq<Token>, s: S.Stmt, pos: nat)
    requires EndsInEof(ts) && s.Decl? && PrintableStmt(s) && TokensAt(ts, pos, PrintStmt(s))
    ensures ParseDecl(ts, pos) == Out(Some(s), pos + |PrintStmt(s)|, true)
  {
    hide TokensAt, Print, ParseVarDecl, PrintQualifiers, ParseQualifiers, IsQualifier, PrintStmt, PrintInit, Printable;
    var q, value := PrintQualifiers(s.quals), PrintInit(s.init);
    var head := [KwType(s.t), Ident(s.name)];
    DeclShape(s);
    AtSplit(ts, pos, q, head + (value + [Semicolon]));
    var at := pos + |q|;
    AtSplit(ts, at, head, value + [Semicolon]);
    AtTwo(ts, at, KwType(s.t), Ident(s.name));
    TypeIsNoQualifier(s.t);
    QualifiersParsed(ts, s.quals, pos);
    VarDeclParsed(ts, s, at);
  }

  lemma TypeIsNoQualifier(t: ValueType)
    ensures !IsQualifier(KwType(t)) && !IsQualifier(KwFn)
  {}

  lemma VarDeclParsed(ts: seq<Token>, s: S.Stmt, at: nat)
    requires EndsInEof(ts) && s.Decl? && PrintableStmt(s) && at + 2 < |ts| && ts[at] == KwType(s.t) &&
             ts[at + 1] == Ident(s.name)
    requires TokensAt(ts, at + 2, PrintInit(s.init) + [Semicolon])
    ensures ParseVarDecl(ts, at, s.quals) == Out(Some(s), at + 3 + |PrintInit(s.init)|, true)
  {
    hide TokensAt, Print, ParseExpression, Stops, Printable, ParseVarDecl;
    if s.init.None? {
      assert [] + [Semicolon] == [Semicolon];
      AtOne(ts, at + 2, Semicolon);
      PlainDecl(ts, s, at);
    } else {
      var e := Print(s.init.value, 0);
      assert [Equal] + e + [Semicolon] == [Equal] + (e + [Semicolon]);
      AtSplit(ts, at + 2, [Equal], e + [Semicolon]);
      AtOne(ts, at + 2, Equal);
      Separators();
      EndedExpression(ts, s.init.value, at + 3, Semicolon);
      InitializedDecl(ts, s, at, at + 3 + |e|);
    }
  }

  lemma PlainDecl(ts: seq<Token>, s: S.Stmt, at: nat)
    requires EndsInEof(ts) && s.Decl? && s.t != Unresolved && s.init.None?
    requires at + 3 < |ts| && ts[at] == KwType(s.t) && ts[at + 1] == Ident(s.name) && ts[at + 2] == Semicolon
    ensures ParseVarDecl(ts, at, s.quals) == Out(Some(s), at + 3, true)
  {
    hide ParseExpression;
  }

  lemma InitializedDecl(ts: seq<Token>, s: S.Stmt, at: nat, end: nat)
    requires EndsInEof(ts) && s.Decl? && s.t != Unresolved && s.init.Some? && at + 3 < end && end + 1 < |ts|
    requires ts[at] == KwType(s.t) && ts[at + 1] == Ident(s.name) && ts[at + 2] == Equal && ts[end] == Semicolon
    requires ParseExpression(ts, at + 3) == Out(s.init, end, true)
    ensures ParseVarDecl(ts, at, s.quals) == Out(Some(s), end + 1, true)
  {
    hide ParseExpression;
  }

  lemma AssignRoundTrip(ts: seq<Token>, s: S.Stmt, pos: nat)
    requires EndsInEof(ts) && s.Assign? && PrintableStmt(s) && TokensAt(ts, pos, PrintStmt(s))
    ensures ParseStatement(ts, pos) == Out(Some(s), pos + |PrintStmt(s)|, true)
  {
    hide TokensAt, Print, ParseExpression, Stops, ParseStatement, PrintStmt, Printable;
    SimpleShape(s);
    var e := Print(s.value, 0);
    AtSplit(ts, pos, [Ident(s.name), Equal], e + [Semicolon]);
    AtTwo(ts, pos, Ident(s.name), Equal);
    Separators();
    EndedExpression(ts, s.value, pos + 2, Semicolon);
    StatementIsAssign(ts, pos);
  }

  lemma StatementIsAssign(ts: seq<Token>, pos: nat)
    requires EndsInEof(ts) && pos + 1 < |ts| && ts[pos].Ident? && IsAssign(ts[pos + 1])
    ensures ParseStatement(ts, pos) == ParseVarAssign(ts, pos)
  {
    hide ParseVarAssign, IsAssign;
  }

  lemma StatementIsReturn(ts: seq<Token>, pos: nat)
    requires EndsInEof(ts) && pos < |ts| && ts[pos] == KwReturn
    ensures ParseStatement(ts, pos) == ParseReturn(ts, pos)
  {
    hide ParseReturn;
  }

  lemma StatementIsExpression(ts: seq<Token>, pos: nat)
    requires EndsInEof(ts) && pos + 1 < |ts| && Begins(ts[pos]) && !IsAssign(ts[pos + 1])
    ensures ParseStatement(ts, pos) == ParseExprStmt(ts, pos)
  {
    hide ParseExprStmt, IsAssign, Begins, IsType, IsQualifier;
    BeginsExpression(ts[pos]);
  }

  lemma ReturnRoundTrip(ts: seq<Token>, s: S.Stmt, pos: nat)
    requires EndsInEof(ts) && s.Return? && PrintableStmt(s) && TokensAt(ts, pos, PrintStmt(s))
    ensures ParseStatement(ts, pos) == Out(Some(s), pos + |PrintStmt(s)|, true)
  {
    hide TokensAt, Print, ParseExpression, Stops, ParseStatement, PrintStmt, Printable, Begins;
    SimpleShape(s);
    if s.result.None? {
      AtTwo(ts, pos, KwReturn, Semicolon);
    } else {
      var e := Print(s.result.value, 0);
      AtSplit(ts, pos, [KwReturn], e + [Semicolon]);
      AtOne(ts, pos, KwReturn);
      Separators();
      EndedExpression(ts, s.result.value, pos + 1, Semicolon);
      StartsExpression(s.result.value, 0);
      TokenHere(ts, pos + 1, e + [Semicolon], 0);
      BeginsExpression(e[0]);
    }
    StatementIsReturn(ts, pos);
  }

  lemma ExprStmtRoundTrip(ts: seq<Token>, s: S.Stmt, pos: nat)
    requires EndsInEof(ts) && s.ExprStmt? && PrintableStmt(s) && TokensAt(ts, pos, PrintStmt(s))
    ensures ParseStatement(ts, pos) == Out(Some(s), pos + |PrintStmt(s)|, true)
  {
    hide TokensAt, Print, ParseExpression, Stops, IsAssign, NoAssigns, ParseStatement, Begins, PrintStmt, Printable;
    SimpleShape(s);
    var e := Print(s.e, 0);
    Separators();
    EndedExpression(ts, s.e, pos, Semicolon);
    StartsExpression(s.e, 0);
    TokenHere(ts, pos, e + [Semicolon], 0);
    TokenHere(ts, pos, e + [Semicolon], 1);
    ExprNoAssigns(s.e, 0);
    Parens();
    NoAssignsConcat(e, [Semicolon]);
    NoAssignAt(e + [Semicolon], 1);
    StatementIsExpression(ts, pos);
  }

  lemma NoAssignAt(ts: seq<Token>, i: nat)
    requires NoAssigns(ts) && i < |ts|
    ensures !IsAssign(ts[i])
  {}

  lemma BeginsExpression(k: Token)
    requires Begins(k)
    ensures !IsType(k) && !k.KwFn? && !IsQualifier(k) && !k.LBrace? && !k.KwIf? && !k.KwWhile? && !k.KwReturn? &&
            !k.RBrace? &&
            !k.Semicolon? && !k.Eof?
  {}

  // ---------------------------------------------------------------- compound statements

  /** `else` would be read as part of an `if` before it. */
  ghost predicate NoElse(ts: seq<Token>, pos: nat) {
    pos < |ts| && !ts[pos].KwElse?
  }

  lemma {:induction false} StatementRoundTrip(ts: seq<Token>, s: S.Stmt, pos: nat)
    requires EndsInEof(ts) && PrintableStmt(s) && TokensAt(ts, pos, PrintStmt(s)) && NoElse(ts, pos + |PrintStmt(s)|)
    ensures ParseStatement(ts, pos) == Out(Some(s), pos + |PrintStmt(s)|, true)
    ensures !ts[pos].RBrace? && !ts[pos].Eof?
    decreases s, 1
  {
    hide TokensAt, PrintStmt, PrintableStmt, ParseStatement, ParseBlock, ParseIf, ParseWhile, ParseDecl;
    FirstOfStatement(ts, s, pos);
    match s
    case Decl(_, _, _, _) =>
      DeclRoundTrip(ts, s, pos);
      StatementKind(ts, pos);
    case Assign(_, _) => AssignRoundTrip(ts, s, pos);
    case Block(_) =>
      BlockRoundTrip(ts, s, pos);
      StatementKind(ts, pos);
    case If(_, _, _) =>
      IfRoundTrip(ts, s, pos);
      StatementKind(ts, pos);
    case While(_, _) =>
      WhileRoundTrip(ts, s, pos);
      StatementKind(ts, pos);
    case Return(_) => ReturnRoundTrip(ts, s, pos);
    case ExprStmt(_) => ExprStmtRoundTrip(ts, s, pos);
    case FuncDecl(_, _, _, _, _) =>
      FunctionRoundTrip(ts, s, pos);
      StatementKind(ts, pos);
  }

  /** Which rule a statement's first token selects. */
  lemma StatementKind(ts: seq<Token>, pos: nat)
    requires EndsInEof(ts) && pos < |ts|
    ensures IsType(ts[pos]) || ts[pos].KwFn? || IsQualifier(ts[pos]) ==> ParseStatement(ts, pos) == ParseDecl(ts, pos)
    ensures ts[pos].LBrace? ==> ParseStatement(ts, pos) == ParseBlock(ts, pos)
    ensures ts[pos].KwIf? ==> ParseStatement(ts, pos) == ParseIf(ts, pos)
    ensures ts[pos].KwWhile? ==> ParseStatement(ts, pos) == ParseWhile(ts, pos)
  {
    hide ParseDecl, ParseBlock, ParseIf, ParseWhile, ParseVarAssign, ParseReturn, ParseExprStmt;
  }

  /** The first token of a printed statement. */
  lemma FirstOfStatement(ts: seq<Token>, s: S.Stmt, pos: nat)
    requires TokensAt(ts, pos, PrintStmt(s)) && PrintableStmt(s)
    ensures pos < |ts| && !ts[pos].RBrace? && !ts[pos].Eof?
    ensures s.Decl? || s.FuncDecl? ==> IsType(ts[pos]) || ts[pos].KwFn? || IsQualifier(ts[pos])
    ensures s.Block? ==> ts[pos].LBrace?
    ensures s.If? ==> ts[pos].KwIf?
    ensures s.While? ==> ts[pos].KwWhile?
  {
    hide TokensAt, PrintStmt, IsQualifier;
    StatementStarts(s);
    TokenHere(ts, pos, PrintStmt(s), 0);
    QualifierIsNoEnd(ts[pos]);
  }

  lemma QualifierIsNoEnd(k: Token)
    ensures IsQualifier(k) ==> !k.RBrace? && !k.Eof?
  {}

  lemma QualifiersFirst(q: S.Qualifiers, rest: seq<Token>)
    requires |rest| > 0
    ensures var ts := PrintQualifiers(q) + rest; IsQualifier(ts[0]) || ts[0] == rest[0]
  {}

  lemma StatementStarts(s: S.Stmt)
    requires PrintableStmt(s)
    ensures |PrintStmt(s)| > 0
    ensures var k := PrintStmt(s)[0];
            match s
            case Decl(_, _, _, _) => IsType(k) || IsQualifier(k)
            case FuncDecl(_, _, _, _, _) => k.KwFn? || IsQualifier(k)
            case Block(_) => k.LBrace?
            case If(_, _, _) => k.KwIf?
            case While(_, _) => k.KwWhile?
            case _ => !k.RBrace? && !k.Eof?
  {
    hide Print, PrintQualifiers, PrintAll, PrintParams, IsQualifier, Begins;
    match s
    case Decl(q, _, _, _) =>
      DeclShape(s);
      QualifiersFirst(q, [KwType(s.t), Ident(s.name)] + (PrintInit(s.init) + [Semicolon]));
    case FuncDecl(q, _, _, _, _) =>
      FunctionShape(s);
      QualifiersFirst(q, [KwFn, Ident(s.name)] + ([LParen] +
                                                  (PrintParams(s.params) + ([RParen] + ([KwType(s.ret)] +
                                                    PrintDefinition(s.definition))))));
    case ExprStmt(e) =>
      StartsExpression(e, 0);
      BeginsExpression(Print(e, 0)[0]);
    case _ =>
  }

  // ---------------------------------------------------------------- blocks

  lemma BlockShape(s: S.Stmt)
    requires s.Block?
    ensures PrintStmt(s) == [LBrace] + (PrintAll(s.stmts) + [RBrace])
  {
    hide PrintAll;
  }

  lemma {:induction false} BlockRoundTrip(ts: seq<Token>, s: S.Stmt, pos: nat)
    requires EndsInEof(ts) && s.Block? && PrintableStmt(s) && TokensAt(ts, pos, PrintStmt(s))
    ensures ParseBlock(ts, pos) == Out(Some(s), pos + |PrintStmt(s)|, true)
    decreases s, 0
  {
    hide TokensAt, PrintStmt, PrintAll, BlockLoop;
    BlockShape(s);
    var body := PrintAll(s.stmts);
    AtSplit(ts, pos, [LBrace], body + [RBrace]);
    AtSplit(ts, pos + 1, body, [RBrace]);
    AtOne(ts, pos, LBrace);
    AtOne(ts, pos + 1 + |body|, RBrace);
    AllRoundTrip(ts, s.stmts, pos + 1);
  }

  lemma {:induction false} AllRoundTrip(ts: seq<Token>, stmts: seq<S.Stmt>, pos: nat)
    requires EndsInEof(ts) && (forall i :: 0 <= i < |stmts| ==> PrintableStmt(stmts[i]))
    requires TokensAt(ts, pos, PrintAll(stmts)) && ts[pos + |PrintAll(stmts)|].RBrace?
    ensures BlockLoop(ts, pos) == Out(Some(stmts), pos + |PrintAll(stmts)|, true)
    decreases stmts, 0
  {
    hide TokensAt, PrintStmt, ParseStatement, PrintableStmt;
    EndInside(ts, pos, PrintAll(stmts));
    if |stmts| > 0 {
      var first, rest := PrintStmt(stmts[0]), PrintAll(stmts[1..]);
      AtSplit(ts, pos, first, rest);
      assert forall i :: 0 <= i < |stmts[1..]| ==> stmts[1..][i] == stmts[i + 1];
      AllStarts(ts, stmts[1..], pos + |first|);
      StatementRoundTrip(ts, stmts[0], pos);
      AllRoundTrip(ts, stmts[1..], pos + |first|);
      assert stmts == [stmts[0]] + stmts[1..];
    }
  }

  /** After a statement comes another, or the closing brace. */
  lemma AllStarts(ts: seq<Token>, stmts: seq<S.Stmt>, pos: nat)
    requires (forall i :: 0 <= i < |stmts| ==> PrintableStmt(stmts[i]))
    requires TokensAt(ts, pos, PrintAll(stmts)) && ts[pos + |PrintAll(stmts)|].RBrace?
    ensures NoElse(ts, pos)
  {
    hide TokensAt, PrintStmt;
    EndInside(ts, pos, PrintAll(stmts));
    if |stmts| > 0 {
      AtSplit(ts, pos, PrintStmt(stmts[0]), PrintAll(stmts[1..]));
      StatementIsNoElse(ts, stmts[0], pos);
    }
  }

  lemma StatementIsNoElse(ts: seq<Token>, s: S.Stmt, pos: nat)
    requires PrintableStmt(s) && TokensAt(ts, pos, PrintStmt(s))
    ensures NoElse(ts, pos)
  {
    hide TokensAt, PrintStmt, Print, PrintQualifiers, Begins;
    StatementStarts(s);
    TokenHere(ts, pos, PrintStmt(s), 0);
    SimpleShape(s);
    if s.ExprStmt? {
      StartsExpression(s.e, 0);
      ElseBeginsNothing(Print(s.e, 0)[0]);
    }
  }

  lemma ElseBeginsNothing(k: Token)
    requires Begins(k)
    ensures !k.KwElse?
  {}

  // ---------------------------------------------------------------- if and while

  function PrintElse(els: Option<S.Stmt>): seq<Token> {
    if els.None? then [] else [KwElse] + PrintStmt(els.value)
  }

  lemma IfShape(s: S.Stmt)
    requires s.If?
    ensures PrintStmt(s) == [KwIf] + (Print(s.cond, 0) + (PrintStmt(s.thn) + PrintElse(s.els)))
  {
    hide Print;
  }

  lemma WhileShape(s: S.Stmt)
    requires s.While?
    ensures PrintStmt(s) == [KwWhile] + (Print(s.cond, 0) + PrintStmt(s.body))
  {
    hide Print;
  }

  /** A condition and the block after it. */
  lemma ConditionParsed(ts: seq<Token>, e: S.Expr, block: S.Stmt, pos: nat)
    requires EndsInEof(ts) && Printable(e) && block.Block? && TokensAt(ts, pos, Print(e, 0)) &&
             TokensAt(ts, pos + |Print(e, 0)|, PrintStmt(block))
    ensures ParseExpression(ts, pos) == Out(Some(e), pos + |Print(e, 0)|, true)
  {
    hide TokensAt, Print, ParseExpression, Stops, PrintStmt, PrintAll;
    BlockShape(block);
    TokenHere(ts, pos + |Print(e, 0)|, PrintStmt(block), 0);
    Separators();
    ExpressionRoundTrip(ts, e, pos);
  }

  lemma {:induction false} WhileRoundTrip(ts: seq<Token>, s: S.Stmt, pos: nat)
    requires EndsInEof(ts) && s.While? && PrintableStmt(s) && TokensAt(ts, pos, PrintStmt(s))
    ensures ts[pos].KwWhile? && ParseWhile(ts, pos) == Out(Some(s), pos + |PrintStmt(s)|, true)
    decreases s, 0
  {
    hide TokensAt, PrintStmt, Print, ParseExpression, ParseBlock;
    WhileShape(s);
    var c, b := Print(s.cond, 0), PrintStmt(s.body);
    AtSplit(ts, pos, [KwWhile], c + b);
    AtOne(ts, pos, KwWhile);
    AtSplit(ts, pos + 1, c, b);
    ConditionParsed(ts, s.cond, s.body, pos + 1);
    BlockRoundTrip(ts, s.body, pos + 1 + |c|);
  }

  lemma {:induction false} IfRoundTrip(ts: seq<Token>, s: S.Stmt, pos: nat)
    requires EndsInEof(ts) && s.If? && PrintableStmt(s) && TokensAt(ts, pos, PrintStmt(s)) &&
             NoElse(ts, pos + |PrintStmt(s)|)
    ensures ts[pos].KwIf? && ParseIf(ts, pos) == Out(Some(s), pos + |PrintStmt(s)|, true)
    decreases s, 0
  {
    hide TokensAt, PrintStmt, Print, ParseExpression, ParseBlock, ParseIf, PrintElse, Printable;
    IfShape(s);
    var c, t, e := Print(s.cond, 0), PrintStmt(s.thn), PrintElse(s.els);
    AtSplit(ts, pos, [KwIf], c + (t + e));
    AtOne(ts, pos, KwIf);
    AtSplit(ts, pos + 1, c, t + e);
    AtSplit(ts, pos + 1 + |c|, t, e);
    ConditionParsed(ts, s.cond, s.thn, pos + 1);
    BlockRoundTrip(ts, s.thn, pos + 1 + |c|);
    var at := pos + 1 + |c| + |t|;
    if s.els.None? {
      NoElsePrinted(s.els);
      IfWithout(ts, s, pos, pos + 1 + |c|, at);
    } else {
      ElsePrinted(s.els);
      AtSplit(ts, at, [KwElse], PrintStmt(s.els.value));
      AtOne(ts, at, KwElse);
      FirstOfStatement(ts, s.els.value, at + 1);
      if s.els.value.If? {
        IfRoundTrip(ts, s.els.value, at + 1);
      } else {
        BlockRoundTrip(ts, s.els.value, at + 1);
      }
      IfWithElse(ts, s, pos, pos + 1 + |c|, at, at + 1 + |PrintStmt(s.els.value)|);
    }
  }

  lemma NoElsePrinted(els: Option<S.Stmt>)
    requires els.None?
    ensures PrintElse(els) == []
  {}

  lemma ElsePrinted(els: Option<S.Stmt>)
    requires els.Some?
    ensures PrintElse(els) == [KwElse] + PrintStmt(els.value)
  {
    hide PrintStmt;
  }

  lemma IfWithout(ts: seq<Token>, s: S.Stmt, pos: nat, mid: nat, end: nat)
    requires EndsInEof(ts) && s.If? && s.els.None? && pos < mid < end < |ts| && ts[pos] == KwIf && !ts[end].KwElse?
    requires ParseExpression(ts, pos + 1) == Out(Some(s.cond), mid, true) &&
             ParseBlock(ts, mid) == Out(Some(s.thn), end, true)
    ensures ParseIf(ts, pos) == Out(Some(s), end, true)
  {
    hide ParseExpression, ParseBlock;
  }

  lemma IfWithElse(ts: seq<Token>, s: S.Stmt, pos: nat, mid: nat, at: nat, end: nat)
    requires EndsInEof(ts) && s.If? && s.els.Some? && pos < mid < at && at + 1 < end < |ts| && ts[pos] == KwIf &&
             ts[at] == KwElse
    requires ParseExpression(ts, pos + 1) == Out(Some(s.cond), mid, true) &&
             ParseBlock(ts, mid) == Out(Some(s.thn), at, true)
    requires if s.els.value.If? then ts[at + 1] == KwIf && ParseIf(ts, at + 1) == Out(s.els, end, true)
             else ts[at + 1] == LBrace && ParseBlock(ts, at + 1) == Out(s.els, end, true)
    ensures ParseIf(ts, pos) == Out(Some(s), end, true)
  {
    hide ParseExpression, ParseBlock;
  }

  // ---------------------------------------------------------------- functions

  function PrintDefinition(d: Option<S.Stmt>): seq<Token> {
    if d.None? then [Semicolon] else PrintStmt(d.value)
  }

  lemma FunctionShape(s: S.Stmt)
    requires s.FuncDecl?
    ensures PrintStmt(s) ==
            PrintQualifiers(s.quals) +
            ([KwFn, Ident(s.name)] + ([LParen] + (PrintParams(s.params) +
                                                  ([RParen] + ([KwType(s.ret)] + PrintDefinition(s.definition))))))
  {
    hide PrintQualifiers, PrintParams;
  }

  lemma ParamsShape(params: seq<S.Param>)
    requires |params| > 0
    ensures |params| == 1 ==> PrintParams(params) == PrintParam(params[0])
    ensures |params| > 1 ==> PrintParams(params) == PrintParam(params[0]) + ([Comma] + PrintParams(params[1..]))
  {
    hide PrintParam;
  }

  lemma LastParam(ts: seq<Token>, p: S.Param, pos: nat, at: nat)
    requires EndsInEof(ts) && pos <= at && at + 2 < |ts| && ParseQualifiers(ts, pos, NO_QUALIFIERS) == (p.quals, at)
    requires p.t != Unresolved && ts[at] == KwType(p.t) && ts[at + 1] == Ident(p.name) && !ts[at + 2].Comma?
    ensures ParseParams(ts, pos) == Out(Some([p]), at + 2, true)
  {
    hide ParseQualifiers;
  }

  lemma NextParam(ts: seq<Token>, params: seq<S.Param>, pos: nat, at: nat, end: nat)
    requires EndsInEof(ts) && |params| > 1 && pos <= at && at + 3 < |ts|
    requires ParseQualifiers(ts, pos, NO_QUALIFIERS) == (params[0].quals, at)
    requires params[0].t != Unresolved && ts[at] == KwType(params[0].t) && ts[at + 1] == Ident(params[0].name) &&
             ts[at + 2] == Comma
    requires ParseParams(ts, at + 3) == Out(Some(params[1..]), end, true)
    ensures ParseParams(ts, pos) == Out(Some(params), end, true)
  {
    hide ParseQualifiers;
    assert params == [params[0]] + params[1..];
  }

  lemma {:induction false} ParamsRoundTrip(ts: seq<Token>, params: seq<S.Param>, pos: nat)
    requires EndsInEof(ts) && |params| > 0 && (forall i :: 0 <= i < |params| ==> params[i].t != Unresolved)
    requires TokensAt(ts, pos, PrintParams(params)) && ts[pos + |PrintParams(params)|].RParen?
    ensures ParseParams(ts, pos) == Out(Some(params), pos + |PrintParams(params)|, true)
    decreases |params|
  {
    hide TokensAt, PrintParam, PrintParams, ParseParams, ParseQualifiers;
    EndInside(ts, pos, PrintParams(params));
    ParamsShape(params);
    var first := PrintParam(params[0]);
    if |params| == 1 {
      OneParam(ts, params[0], pos);
      LastParam(ts, params[0], pos, pos + |first| - 2);
      assert params == [params[0]];
    } else {
      var rest := PrintParams(params[1..]);
      AtSplit(ts, pos, first, [Comma] + rest);
      AtSplit(ts, pos + |first|, [Comma], rest);
      AtOne(ts, pos + |first|, Comma);
      OneParam(ts, params[0], pos);
      ParamsRoundTrip(ts, params[1..], pos + |first| + 1);
      NextParam(ts, params, pos, pos + |first| - 2, pos + |PrintParams(params)|);
    }
  }

  lemma OneParam(ts: seq<Token>, p: S.Param, pos: nat)
    requires EndsInEof(ts) && TokensAt(ts, pos, PrintParam(p))
    ensures var at := pos + |PrintParam(p)| - 2;
            pos <= at && at + 2 < |ts| && ParseQualifiers(ts, pos, NO_QUALIFIERS) == (p.quals, at) &&
            ts[at] == KwType(p.t) && ts[at + 1] == Ident(p.name)
  {
    hide TokensAt, PrintQualifiers, ParseQualifiers, IsQualifier;
    var q := PrintQualifiers(p.quals);
    AtSplit(ts, pos, q, [KwType(p.t), Ident(p.name)]);
    AtTwo(ts, pos + |q|, KwType(p.t), Ident(p.name));
    TypeIsNoQualifier(p.t);
    QualifiersParsed(ts, p.quals, pos);
  }

  lemma ParamListRoundTrip(ts: seq<Token>, params: seq<S.Param>, pos: nat)
    requires EndsInEof(ts) && (forall i :: 0 <= i < |params| ==> params[i].t != Unresolved) &&
             pos + 1 + |PrintParams(params)| < |ts|
    requires ts[pos] == LParen && TokensAt(ts, pos + 1, PrintParams(params)) &&
             ts[pos + 1 + |PrintParams(params)|] == RParen
    ensures ParseParamList(ts, pos) == Out(Some(params), pos + 2 + |PrintParams(params)|, true)
  {
    hide TokensAt, PrintParams, ParseParams;
    if |params| == 0 {
      NoParamsPrinted();
    } else {
      ParamsStart(ts, params, pos + 1);
      ParamsRoundTrip(ts, params, pos + 1);
    }
  }

  lemma NoParamsPrinted()
    ensures PrintParams([]) == []
  {}

  lemma {:induction false} ParamsStart(ts: seq<Token>, params: seq<S.Param>, pos: nat)
    requires |params| > 0 && TokensAt(ts, pos, PrintParams(params))
    ensures pos < |ts| && !ts[pos].RParen?
  {
    hide TokensAt, PrintQualifiers, IsQualifier;
    var p := params[0];
    QualifiersFirst(p.quals, [KwType(p.t), Ident(p.name)]);
    assert PrintParams(params)[0] == PrintParam(p)[0];
    TokenHere(ts, pos, PrintParams(params), 0);
    QualifierIsNoParen(ts[pos]);
  }

  lemma QualifierIsNoParen(k: Token)
    ensures IsQualifier(k) ==> !k.RParen?
  {}

  lemma {:induction false} FunctionRoundTrip(ts: seq<Token>, s: S.Stmt, pos: nat)
    requires EndsInEof(ts) && s.FuncDecl? && PrintableStmt(s) && TokensAt(ts, pos, PrintStmt(s))
    ensures ParseDecl(ts, pos) == Out(Some(s), pos + |PrintStmt(s)|, true)
    decreases s, 0
  {
    hide TokensAt, PrintStmt, PrintQualifiers, PrintParams, PrintDefinition, ParseQualifiers, ParseFuncDecl,
         IsQualifier;
    var q, ps, d := PrintQualifiers(s.quals), PrintParams(s.params), PrintDefinition(s.definition);
    var tail := [LParen] + (ps + ([RParen] + ([KwType(s.ret)] + d)));
    FunctionShape(s);
    AtSplit(ts, pos, q, [KwFn, Ident(s.name)] + tail);
    var at := pos + |q|;
    AtSplit(ts, at, [KwFn, Ident(s.name)], tail);
    AtTwo(ts, at, KwFn, Ident(s.name));
    TypeIsNoQualifier(s.ret);
    QualifiersParsed(ts, s.quals, pos);
    FuncTail(ts, s, at);
  }

  /** A function from its keyword on. */
  lemma {:induction false} FuncTail(ts: seq<Token>, s: S.Stmt, at: nat)
    requires EndsInEof(ts) && s.FuncDecl? && PrintableStmt(s) && at + 2 < |ts| && ts[at] == KwFn &&
             ts[at + 1] == Ident(s.name)
    requires TokensAt(ts, at + 2, [LParen] + (PrintParams(s.params) +
                                              ([RParen] + ([KwType(s.ret)] + PrintDefinition(s.definition)))))
    ensures ParseFuncDecl(ts, at, s.quals) == Out(Some(s),
                                                  at + 5 + |PrintParams(s.params)| + |PrintDefinition(s.definition)|,
                                                  true)
    decreases s, 0, 0
  {
    hide TokensAt, PrintStmt, PrintParams, PrintDefinition, ParseParamList, ParseBlock, ParseFuncDecl;
    var ps, d := PrintParams(s.params), PrintDefinition(s.definition);
    AtSplit(ts, at + 2, [LParen], ps + ([RParen] + ([KwType(s.ret)] + d)));
    AtOne(ts, at + 2, LParen);
    AtSplit(ts, at + 3, ps, [RParen] + ([KwType(s.ret)] + d));
    var close := at + 3 + |ps|;
    AtSplit(ts, close, [RParen], [KwType(s.ret)] + d);
    AtOne(ts, close, RParen);
    AtSplit(ts, close + 1, [KwType(s.ret)], d);
    AtOne(ts, close + 1, KwType(s.ret));
    ParamListRoundTrip(ts, s.params, at + 2);
    Definition(ts, s.definition, close + 2);
    if s.definition.Some? {
      BlockRoundTrip(ts, s.definition.value, close + 2);
    }
    FuncParsed(ts, s, at, close + 1, close + 2 + |d|);
  }

  lemma Definition(ts: seq<Token>, d: Option<S.Stmt>, pos: nat)
    requires TokensAt(ts, pos, PrintDefinition(d)) && (d.Some? ==> d.value.Block?)
    ensures pos + |PrintDefinition(d)| < |ts| && |PrintDefinition(d)| > 0
    ensures d.None? ==> |PrintDefinition(d)| == 1 && ts[pos] == Semicolon
    ensures d.Some? ==> PrintDefinition(d) == PrintStmt(d.value) && ts[pos] == LBrace
  {
    hide TokensAt, PrintStmt;
    EndInside(ts, pos, PrintDefinition(d));
    if d.None? {
      AtOne(ts, pos, Semicolon);
    } else {
      BlockShape(d.value);
      TokenHere(ts, pos, PrintStmt(d.value), 0);
    }
  }

  lemma FuncParsed(ts: seq<Token>, s: S.Stmt, at: nat, ret: nat, end: nat)
    requires EndsInEof(ts) && s.FuncDecl? && s.ret != Unresolved && at + 2 < ret && ret + 1 < end < |ts|
    requires ts[at] == KwFn && ts[at + 1] == Ident(s.name) && ts[ret] == KwType(s.ret)
    requires ParseParamList(ts, at + 2) == Out(Some(s.params), ret, true)
    requires if s.definition.None? then ts[ret + 1] == Semicolon && end == ret + 2
             else ts[ret + 1] == LBrace && ParseBlock(ts, ret + 1) == Out(s.definition, end, true)
    ensures ParseFuncDecl(ts, at, s.quals) == Out(Some(s), end, true)
  {
    hide ParseParamList, ParseBlock;
  }
}
