/** The text of a program, written out and compiled again: lexer and parser give the program back. */
module TextRoundTrip {
  import opened Values
  import opened Arith
  import opened Tokens
  import opened Lexing
  import opened Spelling
  import opened Printing
  import opened Parsing
  import opened RoundTrip
  import opened StmtRoundTrip
  import S = Syntax

  // ---------------------------------------------------------------- what can be written

  /** Numbers fit 64 bits and names are names. */
  predicate Writable(e: S.Expr) {
    match e
    case Number(n) => n < WORD
    case Boolean(_) => true
    case Identifier(name) => IsName(name)
    case Binary(_, l, r) => Writable(l) && Writable(r)
    case Unary(_, a) => Writable(a)
    case Cast(a, t) => Writable(a) && t != Unresolved
    case Call(f, args) => IsName(f) && forall i :: 0 <= i < |args| ==> Writable(args[i])
  }

  predicate WritableStmt(s: S.Stmt) {
    match s
    case Decl(_, t, name, init) => t != Unresolved && IsName(name) && (init.Some? ==> Writable(init.value))
    case Assign(name, e) => IsName(name) && Writable(e)
    case Block(stmts) => forall i :: 0 <= i < |stmts| ==> WritableStmt(stmts[i])
    case If(c, thn, els) => Writable(c) && WritableStmt(thn) && (els.Some? ==> WritableStmt(els.value))
    case While(c, body) => Writable(c) && WritableStmt(body)
    case Return(e) => e.Some? ==> Writable(e.value)
    case ExprStmt(e) => Writable(e)
    case FuncDecl(_, name, params, ret, d) =>
      IsName(name) && ret != Unresolved && (d.Some? ==> WritableStmt(d.value)) &&
      forall i :: 0 <= i < |params| ==> params[i].t != Unresolved && IsName(params[i].name)
  }

  lemma Joined(a: seq<Token>, b: seq<Token>)
    requires AllSpellable(a) && AllSpellable(b)
    ensures AllSpellable(a + b)
  {
    hide Spellable;
  }

  lemma OperatorSpellable(op: BinaryOp)
    ensures AllSpellable([TokenOf(op)])
  {}

  lemma UnarySpellable(kind: S.UnaryKind)
    ensures if IsPostfix(kind) then AllSpellable([PostfixToken(kind)]) else AllSpellable([PrefixToken(kind)])
  {}

  lemma {:induction false} PrintedSpellable(e: S.Expr, level: nat)
    requires Writable(e)
    ensures AllSpellable(Print(e, level))
    decreases e, 2
  {
    hide Spellable, AllSpellable, Bare;
    BareSpellable(e);
    if Tightness(e) < level {
      Parentheses();
      Joined([LParen], Bare(e));
      Joined([LParen] + Bare(e), [RParen]);
    }
  }

  lemma Parentheses()
    ensures AllSpellable([LParen]) && AllSpellable([RParen]) && AllSpellable([LBrace]) && AllSpellable([RBrace])
    ensures AllSpellable([Comma]) && AllSpellable([Semicolon]) && AllSpellable([Equal])
    ensures AllSpellable([])
  {}

  lemma {:induction false} BareSpellable(e: S.Expr)
    requires Writable(e)
    ensures AllSpellable(Bare(e))
    decreases e, 1
  {
    hide Spellable, AllSpellable, IsName, Print, PrintArgs;
    match e
    case Number(n) => Leaf(e);
    case Boolean(b) => Leaf(e);
    case Identifier(name) => Leaf(e);
    case Binary(op, l, r) =>
      var k := OpLevel(op);
      var first := Print(l, if Chainable(k) then k else k + 1);
      PrintedSpellable(l, if Chainable(k) then k else k + 1);
      PrintedSpellable(r, k + 1);
      OperatorSpellable(op);
      Joined(first, [TokenOf(op)]);
      Joined(first + [TokenOf(op)], Print(r, k + 1));
    case Unary(kind, a) =>
      UnarySpellable(kind);
      PrintedSpellable(a, POSTFIX);
      PrintedSpellable(a, PREFIX);
      if IsPostfix(kind) {
        Joined(Print(a, POSTFIX), [PostfixToken(kind)]);
      } else {
        Joined([PrefixToken(kind)], Print(a, PREFIX));
      }
    case Cast(a, t) =>
      PrintedSpellable(a, CAST);
      CastSpellable(t);
      Joined(Print(a, CAST), [KwAs, KwType(t)]);
    case Call(f, args) =>
      CallSpellable(f);
      ArgsSpellable(args);
      Parentheses();
      Joined([Ident(f), LParen], PrintArgs(args));
      Joined([Ident(f), LParen] + PrintArgs(args), [RParen]);
  }

  lemma Leaf(e: S.Expr)
    requires Writable(e) && (e.Number? || e.Boolean? || e.Identifier?)
    ensures AllSpellable(Bare(e))
  {}

  lemma CastSpellable(t: ValueType)
    requires t != Unresolved
    ensures AllSpellable([KwAs, KwType(t)])
  {}

  lemma CallSpellable(f: string)
    requires IsName(f)
    ensures AllSpellable([Ident(f), LParen])
  {}

  lemma {:induction false} ArgsSpellable(args: seq<S.Expr>)
    requires forall i :: 0 <= i < |args| ==> Writable(args[i])
    ensures AllSpellable(PrintArgs(args))
    decreases args, 0
  {
    hide Spellable, AllSpellable, Writable, Print;
    Parentheses();
    if |args| > 0 {
      PrintedSpellable(args[0], 0);
      if |args| > 1 {
        assert forall i :: 0 <= i < |args[1..]| ==> args[1..][i] == args[i + 1];
        ArgsSpellable(args[1..]);
        Joined(Print(args[0], 0), [Comma]);
        Joined(Print(args[0], 0) + [Comma], PrintArgs(args[1..]));
      }
    }
  }

  lemma QualifiersSpellable(q: S.Qualifiers)
    ensures AllSpellable(PrintQualifiers(q))
  {}

  lemma ParamSpellable(p: S.Param)
    requires p.t != Unresolved && IsName(p.name)
    ensures AllSpellable(PrintParam(p))
  {
    hide IsName;
    QualifiersSpellable(p.quals);
    Joined(PrintQualifiers(p.quals), [KwType(p.t), Ident(p.name)]);
  }

  lemma {:induction false} ParamsSpellable(params: seq<S.Param>)
    requires forall i :: 0 <= i < |params| ==> params[i].t != Unresolved && IsName(params[i].name)
    ensures AllSpellable(PrintParams(params))
    decreases |params|
  {
    hide Spellable, AllSpellable, IsName, PrintParam;
    Parentheses();
    if |params| > 0 {
      ParamSpellable(params[0]);
      if |params| > 1 {
        assert forall i :: 0 <= i < |params[1..]| ==> params[1..][i] == params[i + 1];
        ParamsSpellable(params[1..]);
        Joined(PrintParam(params[0]), [Comma]);
        Joined(PrintParam(params[0]) + [Comma], PrintParams(params[1..]));
      }
    }
  }

  /** The keyword tokens a statement may begin with, and the pieces between its parts. */
  lemma Fixed(name: string, t: ValueType)
    ensures AllSpellable([KwIf]) && AllSpellable([KwElse]) && AllSpellable([KwWhile]) && AllSpellable([KwReturn])
    ensures IsName(name) ==> AllSpellable([Ident(name), Equal]) && AllSpellable([KwFn, Ident(name), LParen])
    ensures IsName(name) && t != Unresolved ==> AllSpellable([KwType(t), Ident(name)])
    ensures t != Unresolved ==> AllSpellable([RParen, KwType(t)])
  {
    hide IsName;
  }

  lemma {:induction false} StatementSpellable(s: S.Stmt)
    requires WritableStmt(s)
    ensures AllSpellable(PrintStmt(s))
    decreases s, 1
  {
    hide Spellable, AllSpellable, IsName, Writable, Print, PrintQualifiers, PrintParams, PrintAll;
    Parentheses();
    match s
    case Decl(_, _, _, _) => DeclSpellable(s);
    case Assign(name, e) =>
      Fixed(name, Void);
      PrintedSpellable(e, 0);
      Joined([Ident(name), Equal], Print(e, 0));
      Joined([Ident(name), Equal] + Print(e, 0), [Semicolon]);
    case Block(stmts) =>
      AllStatementsSpellable(stmts);
      Joined([LBrace], PrintAll(stmts));
      Joined([LBrace] + PrintAll(stmts), [RBrace]);
    case If(c, thn, els) =>
      Fixed("", Void);
      PrintedSpellable(c, 0);
      StatementSpellable(thn);
      Joined([KwIf], Print(c, 0));
      Joined([KwIf] + Print(c, 0), PrintStmt(thn));
      if els.Some? {
        StatementSpellable(els.value);
        Joined([KwElse], PrintStmt(els.value));
        Joined([KwIf] + Print(c, 0) + PrintStmt(thn), [KwElse] + PrintStmt(els.value));
      } else {
        Joined([KwIf] + Print(c, 0) + PrintStmt(thn), []);
      }
    case While(c, body) =>
      Fixed("", Void);
      PrintedSpellable(c, 0);
      StatementSpellable(body);
      Joined([KwWhile], Print(c, 0));
      Joined([KwWhile] + Print(c, 0), PrintStmt(body));
    case Return(e) =>
      Fixed("", Void);
      var value := if e.None? then [] else Print(e.value, 0);
      if e.Some? {
        PrintedSpellable(e.value, 0);
      }
      Joined([KwReturn], value);
      Joined([KwReturn] + value, [Semicolon]);
    case ExprStmt(e) =>
      PrintedSpellable(e, 0);
      Joined(Print(e, 0), [Semicolon]);
    case FuncDecl(quals, name, params, ret, d) =>
      if d.Some? {
        StatementSpellable(d.value);
      }
      FunctionSpellable(s);
  }

  lemma DeclSpellable(s: S.Stmt)
    requires s.Decl? && WritableStmt(s)
    ensures AllSpellable(PrintStmt(s))
  {
    hide Spellable, AllSpellable, IsName, Writable, Print, PrintQualifiers;
    Parentheses();
    Fixed(s.name, s.t);
    QualifiersSpellable(s.quals);
    var q := PrintQualifiers(s.quals);
    var init := if s.init.None? then [] else [Equal] + Print(s.init.value, 0);
    if s.init.Some? {
      PrintedSpellable(s.init.value, 0);
      Joined([Equal], Print(s.init.value, 0));
    }
    Joined(q, [KwType(s.t), Ident(s.name)]);
    Joined(q + [KwType(s.t), Ident(s.name)], init);
    Joined(q + [KwType(s.t), Ident(s.name)] + init, [Semicolon]);
  }

  lemma FunctionSpellable(s: S.Stmt)
    requires s.FuncDecl? && WritableStmt(s) && (s.definition.Some? ==> AllSpellable(PrintStmt(s.definition.value)))
    ensures AllSpellable(PrintStmt(s))
  {
    hide Spellable, AllSpellable, IsName, Writable, WritableStmt, PrintQualifiers, PrintParams;
    FunctionParts(s);
    Parentheses();
    Fixed(s.name, s.ret);
    QualifiersSpellable(s.quals);
    ParamsSpellable(s.params);
    var q, ps := PrintQualifiers(s.quals), PrintParams(s.params);
    var body := if s.definition.None? then [Semicolon] else PrintStmt(s.definition.value);
    Joined(q, [KwFn, Ident(s.name), LParen]);
    Joined(q + [KwFn, Ident(s.name), LParen], ps);
    Joined(q + [KwFn, Ident(s.name), LParen] + ps, [RParen, KwType(s.ret)]);
    Joined(q + [KwFn, Ident(s.name), LParen] + ps + [RParen, KwType(s.ret)], body);
  }

  lemma FunctionParts(s: S.Stmt)
    requires s.FuncDecl? && WritableStmt(s)
    ensures IsName(s.name) && s.ret != Unresolved
    ensures forall i :: 0 <= i < |s.params| ==> s.params[i].t != Unresolved && IsName(s.params[i].name)
  {}

  lemma {:induction false} AllStatementsSpellable(stmts: seq<S.Stmt>)
    requires forall i :: 0 <= i < |stmts| ==> WritableStmt(stmts[i])
    ensures AllSpellable(PrintAll(stmts))
    decreases stmts, 0
  {
    hide Spellable, AllSpellable, WritableStmt, PrintStmt;
    Parentheses();
    if |stmts| > 0 {
      assert forall i :: 0 <= i < |stmts[1..]| ==> stmts[1..][i] == stmts[i + 1];
      StatementSpellable(stmts[0]);
      AllStatementsSpellable(stmts[1..]);
      Joined(PrintStmt(stmts[0]), PrintAll(stmts[1..]));
    }
  }

  // ---------------------------------------------------------------- a whole file

  function AsItems(fs: seq<S.Stmt>): (r: seq<Item>)
    ensures |r| == |fs| && forall i :: 0 <= i < |fs| ==> r[i] == Declaration(fs[i])
  {
    seq(|fs|, i requires 0 <= i < |fs| => Declaration(fs[i]))
  }

  ghost predicate PrintableFunctions(fs: seq<S.Stmt>) {
    forall i :: 0 <= i < |fs| ==> fs[i].FuncDecl? && PrintableStmt(fs[i])
  }

  lemma FunctionStarts(ts: seq<Token>, f: S.Stmt, pos: nat)
    requires f.FuncDecl? && TokensAt(ts, pos, PrintStmt(f))
    ensures pos < |ts| && (ts[pos].KwFn? || IsQualifier(ts[pos])) && !ts[pos].Eof? && |PrintStmt(f)| > 0
  {
    hide TokensAt, PrintQualifiers, PrintParams, PrintDefinition;
    FunctionShape(f);
    QualifiersOrFn(f.quals);
    TokenHere(ts, pos, PrintStmt(f), 0);
  }

  lemma QualifiersOrFn(q: S.Qualifiers)
    ensures var p := PrintQualifiers(q); |p| > 0 ==> IsQualifier(p[0])
  {}

  lemma TopLevelRead(ts: seq<Token>, f: S.Stmt, pos: nat)
    requires EndsInEof(ts) && f.FuncDecl? && PrintableStmt(f) && TokensAt(ts, pos, PrintStmt(f))
    ensures ParseTopLevel(ts, pos) == Out(Some(Declaration(f)), pos + |PrintStmt(f)|, true)
  {
    hide TokensAt, PrintStmt, PrintableStmt, ParseDecl, RecoverTopLevel, ImportPath;
    FunctionStarts(ts, f, pos);
    FunctionRoundTrip(ts, f, pos);
  }

  /** A file of functions. */
  lemma {:induction false} FileRoundTrip(ts: seq<Token>, fs: seq<S.Stmt>, pos: nat)
    requires EndsInEof(ts) && PrintableFunctions(fs) && TokensAt(ts, pos, PrintAll(fs)) && ts[pos + |PrintAll(fs)|].Eof?
    ensures ParseItems(ts, pos) == Out(Some(AsItems(fs)), pos + |PrintAll(fs)|, true)
    decreases |fs|
  {
    hide TokensAt, PrintStmt, PrintableStmt, ParseTopLevel;
    EndInside(ts, pos, PrintAll(fs));
    if |fs| > 0 {
      AtSplit(ts, pos, PrintStmt(fs[0]), PrintAll(fs[1..]));
      FunctionStarts(ts, fs[0], pos);
      TopLevelRead(ts, fs[0], pos);
      assert forall i :: 0 <= i < |fs[1..]| ==> fs[1..][i] == fs[i + 1];
      FileRoundTrip(ts, fs[1..], pos + |PrintStmt(fs[0])|);
      assert AsItems(fs) == [Declaration(fs[0])] + AsItems(fs[1..]);
    }
  }

  /** The text of a file of functions. */
  function TextOf(fs: seq<S.Stmt>): string {
    SpellAll(PrintAll(fs))
  }

  /** Writing the functions of a program out as text and reading the text gives the functions back,
    * and no error is reported. */
  lemma ProgramTextRoundTrip(fs: seq<S.Stmt>)
    requires PrintableFunctions(fs) && forall i :: 0 <= i < |fs| ==> WritableStmt(fs[i])
    ensures ParseItems(Tokenized(TextOf(fs)), 0) == Out(Some(AsItems(fs)), |PrintAll(fs)|, true)
  {
    hide PrintAll, SpellAll, WritableStmt, PrintableStmt, ParseItems, Tokenized;
    AllStatementsSpellable(fs);
    SpelledIsRead(PrintAll(fs));
    var ts := Tokenized(TextOf(fs));
    assert TokensAt(ts, 0, PrintAll(fs)) && ts[|PrintAll(fs)|].Eof?;
    FileRoundTrip(ts, fs, 0);
  }
}
