/** The grammar as it is written: trees that keep their parentheses, the tokens of a tree, and what it stands for.
  * Where the parser reports nothing, the tokens it read are those of such a tree of what it delivers. */
module Grammar {
  import opened Values
  import opened Arith
  import opened Tokens
  import opened Parsing
  import opened Printing
  import S = Syntax

  // ---------------------------------------------------------------- expressions

  /** An expression as it is written. */
  datatype Form =
    | Leaf(e: S.Expr)
    | Paren(inner: Form)
    | Infix(op: BinaryOp, left: Form, right: Form)
    | OneSided(kind: S.UnaryKind, operand: Form)
    | As(operand: Form, target: ValueType)
    | CallOf(callee: string, args: seq<Form>)

  /** What it stands for: parentheses leave no trace. */
  function Meant(f: Form): S.Expr {
    match f
    case Leaf(e) => e
    case Paren(inner) => Meant(inner)
    case Infix(op, l, r) => S.Binary(op, Meant(l), Meant(r))
    case OneSided(kind, a) => S.Unary(kind, Meant(a))
    case As(a, t) => S.Cast(Meant(a), t)
    case CallOf(callee, args) => S.Call(callee, MeantAll(args))
  }

  function MeantAll(fs: seq<Form>): (es: seq<S.Expr>)
    ensures |es| == |fs|
  {
    if |fs| == 0 then [] else [Meant(fs[0])] + MeantAll(fs[1..])
  }

  function LeafToken(e: S.Expr): seq<Token> {
    match e
    case Number(n) => [Integer(n)]
    case Boolean(b) => [if b then KwTrue else KwFalse]
    case Identifier(name) => [Ident(name)]
    case _ => []
  }

  function Written(f: Form): seq<Token> {
    match f
    case Leaf(e) => LeafToken(e)
    case Paren(inner) => [LParen] + Written(inner) + [RParen]
    case Infix(op, l, r) => Written(l) + [TokenOf(op)] + Written(r)
    case OneSided(kind, a) =>
      if IsPostfix(kind) then Written(a) + [PostfixToken(kind)] else [PrefixToken(kind)] + Written(a)
    case As(a, t) => Written(a) + [KwAs, KwType(t)]
    case CallOf(callee, args) => [Ident(callee), LParen] + WrittenArgs(args) + [RParen]
  }

  /** With commas between them. */
  function WrittenArgs(fs: seq<Form>): seq<Token> {
    if |fs| == 0 then []
    else if |fs| == 1 then Written(fs[0])
    else Written(fs[0]) + [Comma] + WrittenArgs(fs[1..])
  }

  /** How tightly the outermost operator binds. */
  function Binds(f: Form): nat {
    match f
    case Infix(op, _, _) => OpLevel(op)
    case As(_, _) => CAST
    case OneSided(kind, _) => if IsPostfix(kind) then POSTFIX else PREFIX
    case _ => PRIMARY
  }

  /** Every operand binds as tightly as the grammar wants it, and casts name a type. */
  predicate Proper(f: Form) {
    match f
    case Leaf(e) => e.Number? || e.Boolean? || e.Identifier?
    case Paren(inner) => Proper(inner)
    case Infix(op, l, r) =>
      var k := OpLevel(op);
      Proper(l) && Proper(r) && Binds(l) >= (if Chainable(k) then k else k + 1) && Binds(r) >= k + 1
    case OneSided(kind, a) => Proper(a) && Binds(a) >= (if IsPostfix(kind) then POSTFIX else PREFIX)
    case As(a, t) => Proper(a) && Binds(a) >= CAST && t != Unresolved
    case CallOf(_, args) => forall i :: 0 <= i < |args| ==> Proper(args[i])
  }

  /** The lexer reported nothing. */
  predicate NoStray(ts: seq<Token>) {
    forall i :: 0 <= i < |ts| ==> !ts[i].Undefined?
  }

  /** The tokens from `from` to `to` are those of `f`, which stands for `e`. */
  ghost predicate Shows(ts: seq<Token>, from: nat, to: nat, f: Form, e: S.Expr, level: nat) {
    from <= to <= |ts| && ts[from..to] == Written(f) && Proper(f) && Binds(f) >= level && Meant(f) == e
  }

  /** Parsed without a report, and then the tokens read are those of `f`. */
  ghost predicate Reads(ts: seq<Token>, from: nat, r: Out<S.Expr>, f: Form, level: nat) {
    (r.clean <==> r.node.Some?) && (r.node.Some? ==> Shows(ts, from, r.pos, f, r.node.value, level))
  }

  lemma ReadFailed<T>(ts: seq<Token>, at: nat, pos: nat)
    requires EndsInEof(ts) && NoStray(ts)
    ensures !Fail<T>(ts, at, pos).clean && Fail<T>(ts, at, pos).node.None?
  {}

  // ---------------------------------------------------------------- pieces put together

  lemma Span(ts: seq<Token>, a: nat, b: nat, c: nat)
    requires a <= b <= c <= |ts|
    ensures ts[a..c] == ts[a..b] + ts[b..c]
  {}

  lemma One(ts: seq<Token>, a: nat)
    requires a < |ts|
    ensures ts[a..a + 1] == [ts[a]]
  {}

  lemma ShowsLeaf(ts: seq<Token>, pos: nat, e: S.Expr)
    requires pos < |ts| && [ts[pos]] == LeafToken(e)
    ensures Shows(ts, pos, pos + 1, Leaf(e), e, PRIMARY)
  {
    One(ts, pos);
  }

  lemma ShowsParen(ts: seq<Token>, pos: nat, to: nat, f: Form, e: S.Expr)
    requires pos < |ts| && ts[pos].LParen? && Shows(ts, pos + 1, to, f, e, 0) && to < |ts| && ts[to].RParen?
    ensures Shows(ts, pos, to + 1, Paren(f), e, PRIMARY)
  {
    One(ts, pos);
    One(ts, to);
    Span(ts, pos, pos + 1, to);
    Span(ts, pos, to, to + 1);
  }

  lemma ShowsInfix(ts: seq<Token>, from: nat, at: nat, to: nat, l: Form, left: S.Expr, r: Form, right: S.Expr,
      op: BinaryOp)
    requires at < |ts| && ts[at] == TokenOf(op)
    requires var k := OpLevel(op);
             Shows(ts, from, at, l, left, if Chainable(k) then k else k + 1) && Shows(ts, at + 1, to, r, right, k + 1)
    ensures Shows(ts, from, to, Infix(op, l, r), S.Binary(op, left, right), OpLevel(op))
  {
    One(ts, at);
    Span(ts, from, at, at + 1);
    Span(ts, from, at + 1, to);
  }

  lemma ShowsPrefix(ts: seq<Token>, pos: nat, to: nat, f: Form, e: S.Expr, kind: S.UnaryKind)
    requires pos < |ts| && !IsPostfix(kind) && ts[pos] == PrefixToken(kind) && Shows(ts, pos + 1, to, f, e, PREFIX)
    ensures Shows(ts, pos, to, OneSided(kind, f), S.Unary(kind, e), PREFIX)
  {
    One(ts, pos);
    Span(ts, pos, pos + 1, to);
  }

  lemma ShowsPostfix(ts: seq<Token>, from: nat, at: nat, f: Form, e: S.Expr, kind: S.UnaryKind)
    requires at < |ts| && IsPostfix(kind) && ts[at] == PostfixToken(kind) && Shows(ts, from, at, f, e, POSTFIX)
    ensures Shows(ts, from, at + 1, OneSided(kind, f), S.Unary(kind, e), POSTFIX)
  {
    One(ts, at);
    Span(ts, from, at, at + 1);
  }

  lemma ShowsCast(ts: seq<Token>, from: nat, at: nat, f: Form, e: S.Expr, t: ValueType)
    requires at + 1 < |ts| && ts[at].KwAs? && ts[at + 1] == KwType(t) && t != Unresolved &&
             Shows(ts, from, at, f, e, CAST)
    ensures Shows(ts, from, at + 2, As(f, t), S.Cast(e, t), CAST)
  {
    assert ts[at..at + 2] == [KwAs, KwType(t)];
    Span(ts, from, at, at + 2);
  }

  ghost predicate ShowsArgs(ts: seq<Token>, from: nat, to: nat, fs: seq<Form>, es: seq<S.Expr>) {
    from <= to <= |ts| && ts[from..to] == WrittenArgs(fs) && (forall i :: 0 <= i < |fs| ==> Proper(fs[i])) &&
    MeantAll(fs) == es
  }

  lemma ShowsCall(ts: seq<Token>, pos: nat, to: nat, name: string, fs: seq<Form>, es: seq<S.Expr>)
    requires pos + 1 < |ts| && ts[pos] == Ident(name) && ts[pos + 1].LParen? && to < |ts| && ts[to].RParen?
    requires ShowsArgs(ts, pos + 2, to, fs, es)
    ensures Shows(ts, pos, to + 1, CallOf(name, fs), S.Call(name, es), PRIMARY)
  {
    hide WrittenArgs, MeantAll;
    assert ts[pos..pos + 2] == [Ident(name), LParen];
    One(ts, to);
    Span(ts, pos, pos + 2, to);
    Span(ts, pos, to, to + 1);
    ApplyWritten(name, fs);
  }

  lemma ApplyWritten(name: string, fs: seq<Form>)
    ensures Written(CallOf(name, fs)) == [Ident(name), LParen] + WrittenArgs(fs) + [RParen]
    ensures Meant(CallOf(name, fs)) == S.Call(name, MeantAll(fs))
  {}

  lemma ShowsOneArg(ts: seq<Token>, from: nat, to: nat, f: Form, e: S.Expr)
    requires Shows(ts, from, to, f, e, 0)
    ensures ShowsArgs(ts, from, to, [f], [e])
  {
    assert MeantAll([f]) == [Meant(f)] + MeantAll([]);
  }

  lemma ShowsMoreArgs(ts: seq<Token>, from: nat, at: nat, to: nat, f: Form, e: S.Expr, fs: seq<Form>, es: seq<S.Expr>)
    requires Shows(ts, from, at, f, e, 0) && at < |ts| && ts[at].Comma? && ShowsArgs(ts, at + 1, to, fs, es) && |fs| > 0
    ensures ShowsArgs(ts, from, to, [f] + fs, [e] + es)
  {
    One(ts, at);
    Span(ts, from, at, at + 1);
    Span(ts, from, at + 1, to);
    assert ([f] + fs)[1..] == fs;
  }

  // ---------------------------------------------------------------- the expression parser

  lemma OperatorToken(k: Token)
    requires LevelOf(k).Some?
    ensures BinaryOpOf(k).Some? && TokenOf(BinaryOpOf(k).value) == k && OpLevel(BinaryOpOf(k).value) == LevelOf(k).value
  {}

  lemma MarkToken(k: Token)
    ensures PrefixOf(k).Some? ==> !IsPostfix(PrefixOf(k).value) && PrefixToken(PrefixOf(k).value) == k
    ensures PostfixOf(k).Some? ==> IsPostfix(PostfixOf(k).value) && PostfixToken(PostfixOf(k).value) == k
  {}

  lemma {:induction false} ReadPrimary(ts: seq<Token>, pos: nat) returns (f: Form)
    requires EndsInEof(ts) && NoStray(ts) && pos < |ts|
    ensures Reads(ts, pos, ParsePrimary(ts, pos), f, PRIMARY)
    decreases |ts| - pos, 0
  {
    hide NoStray, Shows, ParseBinary, ParseCall, RecoverExpression;
    f := Leaf(S.Number(0));
    match ts[pos]
    case LParen =>
      var g := ReadBinary(ts, 0, pos + 1);
      var inner := ParseBinary(ts, 0, pos + 1);
      if inner.node.Some? {
        if ts[inner.pos].RParen? {
          ShowsParen(ts, pos, inner.pos, g, inner.node.value);
          f := Paren(g);
        } else {
          ReadFailed<S.Expr>(ts, inner.pos, RecoverExpression(ts, inner.pos));
        }
      }
    case Integer(n) => f := ReadLeaf(ts, pos, S.Number(n));
    case KwTrue => f := ReadLeaf(ts, pos, S.Boolean(true));
    case KwFalse => f := ReadLeaf(ts, pos, S.Boolean(false));
    case Ident(name) =>
      if ts[pos + 1].LParen? {
        f := ReadCall(ts, name, pos);
      } else {
        f := ReadLeaf(ts, pos, S.Identifier(name));
      }
    case _ => ReadFailed<S.Expr>(ts, pos, RecoverExpression(ts, pos));
  }

  lemma ReadLeaf(ts: seq<Token>, pos: nat, e: S.Expr) returns (f: Form)
    requires pos < |ts| && [ts[pos]] == LeafToken(e)
    ensures f == Leaf(e) && Shows(ts, pos, pos + 1, f, e, PRIMARY)
  {
    hide Shows;
    f := Leaf(e);
    ShowsLeaf(ts, pos, e);
  }

  lemma {:induction false} ReadCall(ts: seq<Token>, name: string, pos: nat) returns (f: Form)
    requires EndsInEof(ts) && NoStray(ts) && pos + 1 < |ts| && ts[pos] == Ident(name) && ts[pos + 1].LParen?
    ensures Reads(ts, pos, ParseCall(ts, name, pos + 1), f, PRIMARY)
    decreases |ts| - pos - 1, 26
  {
    hide NoStray, Shows, ShowsArgs, ParseArgs, RecoverExpression;
    f := Leaf(S.Number(0));
    if ts[pos + 2].RParen? {
      NoArgs(ts, pos + 2);
      ShowsCall(ts, pos, pos + 2, name, [], []);
      f := CallOf(name, []);
    } else {
      var fs := ReadArgs(ts, pos + 2);
      var args := ParseArgs(ts, pos + 2);
      if args.node.Some? {
        if ts[args.pos].RParen? {
          ShowsCall(ts, pos, args.pos, name, fs, args.node.value);
          f := CallOf(name, fs);
        } else {
          ReadFailed<S.Expr>(ts, args.pos, RecoverExpression(ts, args.pos));
        }
      }
    }
  }

  lemma NoArgs(ts: seq<Token>, at: nat)
    requires at <= |ts|
    ensures ShowsArgs(ts, at, at, [], [])
  {}

  lemma {:induction false} ReadArgs(ts: seq<Token>, pos: nat) returns (fs: seq<Form>)
    requires EndsInEof(ts) && NoStray(ts) && pos < |ts|
    ensures var r := ParseArgs(ts, pos);
            (r.clean <==> r.node.Some?) && (r.node.Some? ==> ShowsArgs(ts, pos, r.pos, fs, r.node.value) && |fs| > 0)
    decreases |ts| - pos, 25
  {
    hide NoStray, Shows, ShowsArgs, ParseBinary;
    fs := [];
    var f := ReadBinary(ts, 0, pos);
    var first := ParseBinary(ts, 0, pos);
    if first.node.Some? {
      if !ts[first.pos].Comma? {
        ShowsOneArg(ts, pos, first.pos, f, first.node.value);
        fs := [f];
      } else {
        var more := ReadArgs(ts, first.pos + 1);
        var rest := ParseArgs(ts, first.pos + 1);
        if rest.node.Some? {
          ShowsMoreArgs(ts, pos, first.pos, rest.pos, f, first.node.value, more, rest.node.value);
          fs := [f] + more;
        }
      }
    }
  }

  lemma {:induction false} ReadPostfixes(ts: seq<Token>, from: nat, g: Form, e: S.Expr, pos: nat) returns (f: Form)
    requires EndsInEof(ts) && pos < |ts| && Shows(ts, from, pos, g, e, POSTFIX)
    ensures Reads(ts, from, PostfixLoop(ts, e, pos), f, POSTFIX)
    decreases |ts| - pos
  {
    hide Shows;
    MarkToken(ts[pos]);
    if PostfixOf(ts[pos]).None? {
      f := g;
    } else {
      var kind := PostfixOf(ts[pos]).value;
      ShowsPostfix(ts, from, pos, g, e, kind);
      f := ReadPostfixes(ts, from, OneSided(kind, g), S.Unary(kind, e), pos + 1);
    }
  }

  lemma Tighter(ts: seq<Token>, from: nat, r: Out<S.Expr>, f: Form, level: nat, less: nat)
    requires Reads(ts, from, r, f, level) && less <= level
    ensures Reads(ts, from, r, f, less)
  {
    hide Written, Proper, Binds, Meant;
  }

  lemma {:induction false} ReadPostfix(ts: seq<Token>, pos: nat) returns (f: Form)
    requires EndsInEof(ts) && NoStray(ts) && pos < |ts|
    ensures Reads(ts, pos, ParsePostfix(ts, pos), f, POSTFIX)
    decreases |ts| - pos, 1
  {
    hide NoStray, Shows, ParsePrimary, PostfixLoop;
    f := ReadPrimary(ts, pos);
    var first := ParsePrimary(ts, pos);
    Tighter(ts, pos, first, f, PRIMARY, POSTFIX);
    if first.node.Some? {
      f := ReadPostfixes(ts, pos, f, first.node.value, first.pos);
    }
  }

  lemma {:induction false} ReadUnary(ts: seq<Token>, pos: nat) returns (f: Form)
    requires EndsInEof(ts) && NoStray(ts) && pos < |ts|
    ensures Reads(ts, pos, ParseUnary(ts, pos), f, PREFIX)
    decreases |ts| - pos, 2
  {
    hide NoStray, Shows, ParsePostfix;
    MarkToken(ts[pos]);
    if PrefixOf(ts[pos]).None? {
      f := ReadPostfix(ts, pos);
      Tighter(ts, pos, ParsePostfix(ts, pos), f, POSTFIX, PREFIX);
    } else {
      var kind := PrefixOf(ts[pos]).value;
      f := ReadUnary(ts, pos + 1);
      var a := ParseUnary(ts, pos + 1);
      if a.node.Some? {
        ShowsPrefix(ts, pos, a.pos, f, a.node.value, kind);
        f := OneSided(kind, f);
      }
    }
  }

  lemma {:induction false} ReadCasts(ts: seq<Token>, from: nat, g: Form, e: S.Expr, pos: nat) returns (f: Form)
    requires EndsInEof(ts) && NoStray(ts) && pos < |ts| && Shows(ts, from, pos, g, e, CAST)
    ensures Reads(ts, from, CastLoop(ts, e, pos), f, CAST)
    decreases |ts| - pos
  {
    hide NoStray, Shows, RecoverExpression;
    f := g;
    if ts[pos].KwAs? {
      if IsType(ts[pos + 1]) {
        ShowsCast(ts, from, pos, g, e, ts[pos + 1].t);
        f := ReadCasts(ts, from, As(g, ts[pos + 1].t), S.Cast(e, ts[pos + 1].t), pos + 2);
      } else {
        ReadFailed<S.Expr>(ts, pos + 1, RecoverExpression(ts, pos + 1));
      }
    }
  }

  lemma {:induction false} ReadCast(ts: seq<Token>, pos: nat) returns (f: Form)
    requires EndsInEof(ts) && NoStray(ts) && pos < |ts|
    ensures Reads(ts, pos, ParseCast(ts, pos), f, CAST)
    decreases |ts| - pos, 3
  {
    hide NoStray, Shows, ParseUnary, CastLoop;
    f := ReadUnary(ts, pos);
    var first := ParseUnary(ts, pos);
    Tighter(ts, pos, first, f, PREFIX, CAST);
    if first.node.Some? {
      f := ReadCasts(ts, pos, f, first.node.value, first.pos);
    }
  }

  lemma {:induction false} ReadOperators(ts: seq<Token>, level: nat, from: nat, g: Form, left: S.Expr, pos: nat)
    returns (f: Form)
    requires EndsInEof(ts) && NoStray(ts) && from < pos < |ts| && level < LEVELS
    requires Shows(ts, from, pos, g, left, if Chainable(level) then level else level + 1)
    ensures Reads(ts, from, BinaryLoop(ts, level, left, pos), f, level)
    decreases |ts| - pos, 4
  {
    hide NoStray, Shows, ParseBinary, Chainable, LevelOf;
    f := g;
    if LevelOf(ts[pos]) != Some(level) {
      Looser(ts, from, pos, g, left, level);
    } else {
      OperatorToken(ts[pos]);
      var op := BinaryOpOf(ts[pos]).value;
      var h := ReadBinary(ts, level + 1, pos + 1);
      var right := ParseBinary(ts, level + 1, pos + 1);
      if right.node.Some? {
        var e := S.Binary(op, left, right.node.value);
        ShowsInfix(ts, from, pos, right.pos, g, left, h, right.node.value, op);
        f := Infix(op, g, h);
        if Chainable(level) {
          f := ReadOperators(ts, level, from, f, e, right.pos);
        }
      }
    }
  }

  lemma Looser(ts: seq<Token>, from: nat, to: nat, f: Form, e: S.Expr, level: nat)
    requires Shows(ts, from, to, f, e, level) || Shows(ts, from, to, f, e, level + 1)
    ensures Shows(ts, from, to, f, e, level)
  {
    hide Written, Proper, Binds, Meant;
  }

  /** An expression read without a report: its tokens are those of a proper tree of it. */
  lemma {:induction false} ReadBinary(ts: seq<Token>, level: nat, pos: nat) returns (f: Form)
    requires EndsInEof(ts) && NoStray(ts) && pos < |ts| && level <= LEVELS
    ensures Reads(ts, pos, ParseBinary(ts, level, pos), f, level)
    decreases |ts| - pos, 4 + 2 * (LEVELS - level)
  {
    hide NoStray, Shows, ParseCast, BinaryLoop, Chainable;
    if level == LEVELS {
      f := ReadCast(ts, pos);
    } else {
      f := ReadBinary(ts, level + 1, pos);
      var first := ParseBinary(ts, level + 1, pos);
      if first.node.Some? {
        if Chainable(level) {
          Looser(ts, pos, first.pos, f, first.node.value, level);
        }
        f := ReadOperators(ts, level, pos, f, first.node.value, first.pos);
      }
    }
  }
}
