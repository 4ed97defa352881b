/** The tokens of a tree, with parentheses only where the precedence table asks for them. */
module Printing {
  import opened Values
  import opened Arith
  import opened Tokens
  import S = Syntax

  function TokenOf(op: BinaryOp): Token {
    match op
    case Add => Plus
    case Sub => Minus
    case Mul => Star
    case Div => Slash
    case BitAnd => Amp
    case BitOr => Pipe
    case BitXor => Caret
    case Shl => LeftShift
    case Shr => RightShift
    case Eq => EqualEqual
    case Ne => BangEqual
    case Lt => Less
    case Le => LessEqual
    case Gt => Greater
    case Ge => GreaterEqual
    case LogAnd => AmpAmp
    case LogOr => PipePipe
  }

  /** The row of the precedence table an operator is in. */
  function OpLevel(op: BinaryOp): (n: nat)
    ensures n < LEVELS
  {
    match op
    case LogOr => 0
    case LogAnd => 1
    case BitOr => 3
    case BitXor => 4
    case BitAnd => 5
    case Shl | Shr => 6
    case Add | Sub => 7
    case Mul | Div => 8
    case _ => 2
  }

  lemma TokenMeans(op: BinaryOp)
    ensures BinaryOpOf(TokenOf(op)) == Some(op)
  {}

  lemma TokenLevel(op: BinaryOp)
    ensures LevelOf(TokenOf(op)) == Some(OpLevel(op))
  {}

  predicate IsPostfix(kind: S.UnaryKind) {
    kind.PostInc? || kind.PostDec?
  }

  function PrefixToken(kind: S.UnaryKind): (k: Token)
    requires !IsPostfix(kind)
    ensures PrefixOf(k) == Some(kind)
  {
    match kind
    case Minus => Token.Minus
    case Tilde => Token.Tilde
    case Bang => Token.Bang
    case PreInc => PlusPlus
    case PreDec => MinusMinus
  }

  function PostfixToken(kind: S.UnaryKind): (k: Token)
    requires IsPostfix(kind)
    ensures PostfixOf(k) == Some(kind)
  {
    if kind.PostInc? then PlusPlus else MinusMinus
  }

  const CAST: nat := 9
  const PREFIX: nat := 10
  const POSTFIX: nat := 11
  const PRIMARY: nat := 12

  /** How tightly the outermost operator binds. */
  function Tightness(e: S.Expr): (n: nat)
    ensures n <= PRIMARY
  {
    match e
    case Binary(op, _, _) => OpLevel(op)
    case Cast(_, _) => CAST
    case Unary(kind, _) => if IsPostfix(kind) then POSTFIX else PREFIX
    case _ => PRIMARY
  }

  /** Casts name a type. */
  predicate Printable(e: S.Expr) {
    match e
    case Binary(_, l, r) => Printable(l) && Printable(r)
    case Unary(_, a) => Printable(a)
    case Cast(a, t) => Printable(a) && t != Unresolved
    case Call(_, args) => forall i :: 0 <= i < |args| ==> Printable(args[i])
    case _ => true
  }

  /** An expression where the grammar wants one that binds at least as tightly as `level`. */
  function Print(e: S.Expr, level: nat): seq<Token>
    decreases e, 2
  {
    if Tightness(e) >= level then Bare(e) else [LParen] + Bare(e) + [RParen]
  }

  function Bare(e: S.Expr): seq<Token>
    decreases e, 1
  {
    match e
    case Number(n) => [Integer(n)]
    case Boolean(b) => [if b then KwTrue else KwFalse]
    case Identifier(name) => [Ident(name)]
    case Binary(op, l, r) =>
      var k := OpLevel(op);
      Print(l, if Chainable(k) then k else k + 1) + [TokenOf(op)] + Print(r, k + 1)
    case Unary(kind, a) =>
      if IsPostfix(kind) then Print(a, POSTFIX) + [PostfixToken(kind)] else [PrefixToken(kind)] + Print(a, PREFIX)
    case Cast(a, t) => Print(a, CAST) + [KwAs, KwType(t)]
    case Call(callee, args) => [Ident(callee), LParen] + PrintArgs(args) + [RParen]
  }

  function PrintArgs(args: seq<S.Expr>): seq<Token>
    decreases args, 0
  {
    if |args| == 0 then []
    else if |args| == 1 then Print(args[0], 0)
    else Print(args[0], 0) + [Comma] + PrintArgs(args[1..])
  }

  // ---------------------------------------------------------------- statements

  function Mark(present: bool, k: Token): seq<Token> {
    if present then [k] else []
  }

  function PrintQualifiers(q: S.Qualifiers): seq<Token> {
    Mark(q.isMutable, KwMut) + Mark(q.isPublic, KwPub) + Mark(q.isExtern, KwExtern)
  }

  predicate PrintableStmt(s: S.Stmt) {
    match s
    case Decl(_, t, _, init) => t != Unresolved && (init.Some? ==> Printable(init.value))
    case Assign(_, e) => Printable(e)
    case Block(stmts) => forall i :: 0 <= i < |stmts| ==> PrintableStmt(stmts[i])
    case If(c, thn, els) =>
      Printable(c) && thn.Block? && PrintableStmt(thn) &&
        (els.Some? ==> (els.value.Block? || els.value.If?) && PrintableStmt(els.value))
    case While(c, body) => Printable(c) && body.Block? && PrintableStmt(body)
    case Return(e) => e.Some? ==> Printable(e.value)
    case ExprStmt(e) => Printable(e)
    case FuncDecl(_, _, params, ret, d) =>
      (forall i :: 0 <= i < |params| ==> params[i].t != Unresolved) && ret != Unresolved &&
      (d.Some? ==> d.value.Block? && PrintableStmt(d.value))
  }

  function PrintParam(p: S.Param): seq<Token> {
    PrintQualifiers(p.quals) + [KwType(p.t), Ident(p.name)]
  }

  function PrintParams(params: seq<S.Param>): seq<Token> {
    if |params| == 0 then []
    else if |params| == 1 then PrintParam(params[0])
    else PrintParam(params[0]) + [Comma] + PrintParams(params[1..])
  }

  function PrintStmt(s: S.Stmt): seq<Token>
    decreases s, 1
  {
    match s
    case Decl(quals, t, name, init) =>
      PrintQualifiers(quals) + [KwType(t), Ident(name)] + (if init.None? then [] else [Equal] + Print(init.value, 0)) +
        [Semicolon]
    case Assign(name, e) => [Ident(name), Equal] + Print(e, 0) + [Semicolon]
    case Block(stmts) => [LBrace] + PrintAll(stmts) + [RBrace]
    case If(c, thn, els) =>
      [KwIf] + Print(c, 0) + PrintStmt(thn) + (if els.None? then [] else [KwElse] + PrintStmt(els.value))
    case While(c, body) => [KwWhile] + Print(c, 0) + PrintStmt(body)
    case Return(e) => [KwReturn] + (if e.None? then [] else Print(e.value, 0)) + [Semicolon]
    case ExprStmt(e) => Print(e, 0) + [Semicolon]
    case FuncDecl(quals, name, params, ret, d) =>
      PrintQualifiers(quals) + [KwFn, Ident(name), LParen] + PrintParams(params) + [RParen, KwType(ret)] +
      (if d.None? then [Semicolon] else PrintStmt(d.value))
  }

  function PrintAll(stmts: seq<S.Stmt>): seq<Token>
    decreases stmts, 0
  {
    if |stmts| == 0 then [] else PrintStmt(stmts[0]) + PrintAll(stmts[1..])
  }
}
