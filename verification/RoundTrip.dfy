/** Parsing what was printed gives the same tree back and stops at the token that follows. */
module RoundTrip {
  import opened Values
  import opened Arith
  import opened Tokens
  import opened Parsing
  import opened Printing
  import S = Syntax

  /** `part` is in the tokens at `pos`, with at least one token after it. */
  ghost predicate TokensAt(ts: seq<Token>, pos: nat, part: seq<Token>) {
    pos + |part| < |ts| && forall i :: 0 <= i < |part| ==> ts[pos + i] == part[i]
  }

  lemma AtSplit(ts: seq<Token>, pos: nat, a: seq<Token>, b: seq<Token>)
    requires TokensAt(ts, pos, a + b)
    ensures TokensAt(ts, pos, a) && TokensAt(ts, pos + |a|, b)
  {
    forall i | 0 <= i < |a| ensures ts[pos + i] == a[i] {
      assert (a + b)[i] == a[i];
    }
    forall i | 0 <= i < |b| ensures ts[pos + |a| + i] == b[i] {
      assert (a + b)[|a| + i] == b[i];
      assert ts[pos + (|a| + i)] == b[i];
    }
  }

  lemma AtOne(ts: seq<Token>, pos: nat, k: Token)
    requires TokensAt(ts, pos, [k])
    ensures pos + 1 < |ts| && ts[pos] == k
  {
    assert ts[pos + 0] == [k][0];
  }

  lemma AtTwo(ts: seq<Token>, pos: nat, k: Token, l: Token)
    requires TokensAt(ts, pos, [k, l])
    ensures pos + 2 < |ts| && ts[pos] == k && ts[pos + 1] == l
  {
    assert ts[pos + 0] == [k, l][0] && ts[pos + 1] == [k, l][1];
  }

  // ---------------------------------------------------------------- what may follow

  /** `k` cannot continue an expression that binds at least as tightly as `level`. */
  predicate Stops(k: Token, level: nat) {
    !k.LParen? &&
    (level <= POSTFIX ==> PostfixOf(k).None?) &&
    (level <= CAST ==> !k.KwAs?) &&
    (LevelOf(k).Some? ==> LevelOf(k).value < level)
  }

  lemma StopsTighter(k: Token, level: nat, tighter: nat)
    requires Stops(k, level) && level <= tighter
    ensures Stops(k, tighter)
  {}

  /** An operator of some level ends what binds more tightly. */
  lemma OperatorStops(op: BinaryOp)
    ensures Stops(TokenOf(op), OpLevel(op) + 1)
  {
    hide LevelOf;
    TokenLevel(op);
  }

  lemma Separators()
    ensures Stops(RParen, 0) && Stops(Comma, 0) && Stops(Semicolon, 0) && Stops(LBrace, 0)
  {}

  // ---------------------------------------------------------------- loops that stop at once

  lemma PostfixStops(ts: seq<Token>, e: S.Expr, pos: nat)
    requires EndsInEof(ts) && pos < |ts| && PostfixOf(ts[pos]).None?
    ensures PostfixLoop(ts, e, pos) == Out(Some(e), pos, true)
  {}

  lemma CastStops(ts: seq<Token>, e: S.Expr, pos: nat)
    requires EndsInEof(ts) && pos < |ts| && !ts[pos].KwAs?
    ensures CastLoop(ts, e, pos) == Out(Some(e), pos, true)
  {}

  lemma BinaryStops(ts: seq<Token>, level: nat, e: S.Expr, pos: nat)
    requires EndsInEof(ts) && pos < |ts| && level < LEVELS && LevelOf(ts[pos]) != Some(level)
    ensures BinaryLoop(ts, level, e, pos) == Out(Some(e), pos, true)
  {}

  // ---------------------------------------------------------------- expressions

  /** What parsing the tokens of `e` at some level comes to, before the loop of that level. */
  function Reached(ts: seq<Token>, e: S.Expr, level: nat, pos: nat): Out<S.Expr>
    requires EndsInEof(ts) && pos < |ts| && level <= PRIMARY
  {
    if level < LEVELS then
      if Chainable(level) || Tightness(e) != level then BinaryLoop(ts, level, e, pos) else Out(Some(e), pos, true)
    else if level == CAST then CastLoop(ts, e, pos)
    else if level == POSTFIX then PostfixLoop(ts, e, pos)
    else Out(Some(e), pos, true)
  }

  function ParseAt(ts: seq<Token>, level: nat, pos: nat): Out<S.Expr>
    requires EndsInEof(ts) && pos < |ts| && level <= PRIMARY
  {
    if level < LEVELS then ParseBinary(ts, level, pos)
    else if level == CAST then ParseCast(ts, pos)
    else if level == PREFIX then ParseUnary(ts, pos)
    else if level == POSTFIX then ParsePostfix(ts, pos)
    else ParsePrimary(ts, pos)
  }

  /** The end of a printed operand, and what follows it: a token that may belong to the loop of its
    * own level, but to no tighter one. */
  ghost predicate Follows(ts: seq<Token>, e: S.Expr, level: nat, pos: nat) {
    TokensAt(ts, pos, Print(e, level)) && Stops(ts[pos + |Print(e, level)|], level + 1)
  }

  lemma PrintedEnd(ts: seq<Token>, e: S.Expr, level: nat, pos: nat)
    requires TokensAt(ts, pos, Print(e, level))
    ensures pos + |Print(e, level)| < |ts|
  {}

  /** When the following token is not of the level either, the loop stops. */
  lemma ReachedStops(ts: seq<Token>, e: S.Expr, level: nat, pos: nat)
    requires EndsInEof(ts) && pos < |ts| && level <= PRIMARY && Stops(ts[pos], level)
    ensures Reached(ts, e, level, pos) == Out(Some(e), pos, true)
  {
    if level < LEVELS {
      BinaryStops(ts, level, e, pos);
    } else if level == CAST {
      CastStops(ts, e, pos);
    } else if level == POSTFIX {
      PostfixStops(ts, e, pos);
    }
  }

  /** One level down: an operand that binds more tightly than `level` is parsed at the next level. */
  lemma OneLevelDown(ts: seq<Token>, e: S.Expr, level: nat, pos: nat, end: nat)
    requires EndsInEof(ts) && pos < end < |ts| && level < PRIMARY && Tightness(e) != level
    requires Stops(ts[end], level + 1) && ParseAt(ts, level + 1, pos) == Reached(ts, e, level + 1, end)
    requires level == PREFIX ==> PrefixOf(ts[pos]).None?
    ensures ParseAt(ts, level, pos) == Reached(ts, e, level, end)
  {
    hide ParsePrimary, PostfixLoop, CastLoop, BinaryLoop;
    ReachedStops(ts, e, level + 1, end);
    assert ParseBinary(ts, LEVELS, pos) == ParseCast(ts, pos);
  }

  /** No operand that binds like a postfix operator or tighter begins with a prefix operator. */
  lemma {:induction false} FirstToken(e: S.Expr, level: nat)
    requires POSTFIX <= level <= PRIMARY
    ensures |Print(e, level)| > 0 && PrefixOf(Print(e, level)[0]).None?
    decreases e
  {
    if Tightness(e) >= level && e.Unary? {
      FirstToken(e.operand, POSTFIX);
    }
  }

  lemma {:induction false} NotEmpty(e: S.Expr, level: nat)
    ensures |Print(e, level)| > 0
  {}

  /** The round trip at every level of the grammar. */
  lemma {:induction false} ParsePrint(ts: seq<Token>, e: S.Expr, level: nat, pos: nat)
    requires EndsInEof(ts) && Printable(e) && level <= PRIMARY && Follows(ts, e, level, pos)
    ensures ParseAt(ts, level, pos) == Reached(ts, e, level, pos + |Print(e, level)|)
    decreases |Print(e, level)|, 3, PRIMARY - level
  {
    hide TokensAt, Stops, ParseAt, Reached, Printable, Bare;
    PrintedEnd(ts, e, level, pos);
    NotEmpty(e, level);
    var end := pos + |Print(e, level)|;
    if Tightness(e) == level {
      ParseBare(ts, e, pos);
    } else if level < PRIMARY {
      StopsTighter(ts[end], level + 1, level + 2);
      ParsePrint(ts, e, level + 1, pos);
      if level == PREFIX {
        FirstToken(e, POSTFIX);
        TokenHere(ts, pos, Print(e, POSTFIX), 0);
      }
      OneLevelDown(ts, e, level, pos, end);
    } else {
      ParseParens(ts, e, pos);
    }
  }

  lemma TokenHere(ts: seq<Token>, pos: nat, part: seq<Token>, i: nat)
    requires TokensAt(ts, pos, part) && i < |part|
    ensures pos + i < |ts| && ts[pos + i] == part[i]
  {}

  lemma {:induction false} ParseParens(ts: seq<Token>, e: S.Expr, pos: nat)
    requires EndsInEof(ts) && Printable(e) && Tightness(e) < PRIMARY && TokensAt(ts, pos, Print(e, PRIMARY))
    ensures ParseAt(ts, PRIMARY, pos) == Reached(ts, e, PRIMARY, pos + |Print(e, PRIMARY)|)
    decreases |Print(e, PRIMARY)|, 2, 0
  {
    hide TokensAt, Printable, Bare, Print, ParseBinary, ParsePrimary, Stops, Reached, ParseAt, Tightness;
    ParensTokens(ts, e, pos);
    Separators();
    StopsTighter(RParen, 0, 1);
    var close := pos + 1 + |Print(e, 0)|;
    ParsePrint(ts, e, 0, pos + 1);
    ReachedStops(ts, e, 0, close);
    ParensStep(ts, e, pos, close);
  }

  lemma ParensTokens(ts: seq<Token>, e: S.Expr, pos: nat)
    requires Tightness(e) < PRIMARY && TokensAt(ts, pos, Print(e, PRIMARY))
    ensures |Print(e, PRIMARY)| == |Print(e, 0)| + 2 && pos + |Print(e, PRIMARY)| < |ts|
    ensures ts[pos] == LParen && TokensAt(ts, pos + 1, Print(e, 0)) && ts[pos + 1 + |Print(e, 0)|] == RParen
  {
    hide TokensAt, Bare, Print, Tightness;
    ParensShape(e);
    PrintedEnd(ts, e, PRIMARY, pos);
    var bare := Print(e, 0);
    AtSplit(ts, pos, [LParen], bare + [RParen]);
    AtSplit(ts, pos + 1, bare, [RParen]);
    AtOne(ts, pos, LParen);
    AtOne(ts, pos + 1 + |bare|, RParen);
  }

  lemma ParensShape(e: S.Expr)
    requires Tightness(e) < PRIMARY
    ensures Print(e, PRIMARY) == [LParen] + (Print(e, 0) + [RParen])
  {
    hide Bare;
  }

  lemma ParensStep(ts: seq<Token>, e: S.Expr, pos: nat, close: nat)
    requires EndsInEof(ts) && pos < close && close + 1 < |ts| && ts[pos] == LParen && ts[close] == RParen
    requires ParseAt(ts, 0, pos + 1) == Out(Some(e), close, true)
    ensures ParseAt(ts, PRIMARY, pos) == Reached(ts, e, PRIMARY, close + 1)
  {
    hide ParseBinary;
  }

  /** Without parentheses, at the level of the outermost operator. */
  lemma {:induction false} ParseBare(ts: seq<Token>, e: S.Expr, pos: nat)
    requires EndsInEof(ts) && Printable(e) && Follows(ts, e, Tightness(e), pos)
    ensures ParseAt(ts, Tightness(e), pos) == Reached(ts, e, Tightness(e), pos + |Bare(e)|)
    decreases |Bare(e)|, 2, 0
  {
    hide TokensAt, Printable, ParseBinary, ParseCast, ParseUnary, ParsePostfix, BinaryLoop, CastLoop, PostfixLoop;
    PrintedEnd(ts, e, Tightness(e), pos);
    match e
    case Binary(_, _, _) => ParseOperator(ts, e, pos);
    case Cast(_, _) => ParseCasted(ts, e, pos);
    case Unary(kind, _) =>
      if IsPostfix(kind) {
        ParsePostfixed(ts, e, pos);
      } else {
        ParsePrefixed(ts, e, pos);
      }
    case Call(_, _) => ParseCalled(ts, e, pos);
    case Number(_) => AtOne(ts, pos, Bare(e)[0]);
    case Boolean(_) => AtOne(ts, pos, Bare(e)[0]);
    case Identifier(_) => AtOne(ts, pos, Bare(e)[0]);
  }

  lemma PrintableParts(e: S.Expr)
    requires Printable(e)
    ensures e.Binary? ==> Printable(e.left) && Printable(e.right)
    ensures e.Unary? ==> Printable(e.operand)
    ensures e.Cast? ==> Printable(e.operand) && e.target != Unresolved
  {}

  lemma {:induction false} ParseOperator(ts: seq<Token>, e: S.Expr, pos: nat)
    requires EndsInEof(ts) && e.Binary? && Printable(e) && Follows(ts, e, OpLevel(e.op), pos)
    ensures ParseAt(ts, OpLevel(e.op), pos) == Reached(ts, e, OpLevel(e.op), pos + |Bare(e)|)
    decreases |Bare(e)|, 1, 0
  {
    hide TokensAt, Printable, ParseBinary, Stops, TokenOf, LevelOf, BinaryOpOf, Print;
    var k := OpLevel(e.op);
    var op := TokenOf(e.op);
    var l, r := Print(e.left, if Chainable(k) then k else k + 1), Print(e.right, k + 1);
    BareBinary(e);
    BareFollows(ts, e, pos);
    PrintableParts(e);
    AtSplit(ts, pos, l + [op], r);
    AtSplit(ts, pos, l, [op]);
    var mid := pos + |l|;
    AtOne(ts, mid, op);
    OperatorStops(e.op);
    TokenMeans(e.op);
    TokenLevel(e.op);
    var end := pos + |Bare(e)|;
    assert end == mid + 1 + |r|;
    StopsTighter(ts[end], k + 1, k + 2);
    ParsePrint(ts, e.right, k + 1, mid + 1);
    ReachedStops(ts, e.right, k + 1, end);
    LeftOperand(ts, e, pos, mid);
    OperatorStep(ts, e, k, mid, end);
  }

  lemma BareBinary(e: S.Expr)
    requires e.Binary?
    ensures var k := OpLevel(e.op);
            Bare(e) == Print(e.left, if Chainable(k) then k else k + 1) + [TokenOf(e.op)] + Print(e.right, k + 1)
  {
    hide Print, TokenOf;
  }

  lemma BareFollows(ts: seq<Token>, e: S.Expr, pos: nat)
    requires Follows(ts, e, Tightness(e), pos)
    ensures Print(e, Tightness(e)) == Bare(e) && pos + |Bare(e)| < |ts| && Stops(ts[pos + |Bare(e)|], Tightness(e) + 1)
    ensures TokensAt(ts, pos, Bare(e))
  {
    hide Stops, Bare;
  }

  /** The left operand of an operator, up to the loop of the operator's level. */
  lemma {:induction false} LeftOperand(ts: seq<Token>, e: S.Expr, pos: nat, mid: nat)
    requires EndsInEof(ts) && e.Binary? && Printable(e.left) && mid < |ts| && ts[mid] == TokenOf(e.op)
    requires var k := OpLevel(e.op); var l := Print(e.left, if Chainable(k) then k else k + 1);
             TokensAt(ts, pos, l) && mid == pos + |l| && |l| < |Bare(e)|
    ensures ParseBinary(ts, OpLevel(e.op), pos) == BinaryLoop(ts, OpLevel(e.op), e.left, mid)
    decreases |Bare(e)|, 0, 0
  {
    hide TokensAt, Printable, ParseBinary, BinaryLoop, Stops, TokenOf, LevelOf, Bare;
    var k := OpLevel(e.op);
    OperatorStops(e.op);
    NotEmpty(e.left, k + 1);
    if Chainable(k) {
      ParsePrint(ts, e.left, k, pos);
    } else {
      StopsTighter(ts[mid], k + 1, k + 2);
      ParsePrint(ts, e.left, k + 1, pos);
      ReachedStops(ts, e.left, k + 1, mid);
      FirstThenLoop(ts, k, pos, e.left, mid);
    }
  }

  lemma FirstThenLoop(ts: seq<Token>, level: nat, pos: nat, e: S.Expr, mid: nat)
    requires EndsInEof(ts) && pos < mid < |ts| && level < LEVELS &&
             ParseAt(ts, level + 1, pos) == Out(Some(e), mid, true)
    ensures ParseBinary(ts, level, pos) == BinaryLoop(ts, level, e, mid)
  {
    hide ParseCast, BinaryLoop;
    assert ParseBinary(ts, LEVELS, pos) == ParseCast(ts, pos);
  }

  /** One turn of the loop of a level. */
  lemma OperatorStep(ts: seq<Token>, e: S.Expr, k: nat, mid: nat, end: nat)
    requires EndsInEof(ts) && e.Binary? && k == OpLevel(e.op) && mid + 1 < end < |ts| && ts[mid] == TokenOf(e.op)
    requires ParseAt(ts, k + 1, mid + 1) == Out(Some(e.right), end, true)
    ensures BinaryLoop(ts, k, e.left, mid) == Reached(ts, e, k, end)
  {
    hide ParseCast, ParseBinary, TokenOf, LevelOf, BinaryOpOf;
    TokenMeans(e.op);
    TokenLevel(e.op);
    LastLevel(ts, mid + 1);
  }

  lemma LastLevel(ts: seq<Token>, pos: nat)
    requires EndsInEof(ts) && pos < |ts|
    ensures ParseBinary(ts, LEVELS, pos) == ParseCast(ts, pos)
  {}

  lemma {:induction false} ParseCasted(ts: seq<Token>, e: S.Expr, pos: nat)
    requires EndsInEof(ts) && e.Cast? && Printable(e) && Follows(ts, e, CAST, pos)
    ensures ParseAt(ts, CAST, pos) == Reached(ts, e, CAST, pos + |Bare(e)|)
    decreases |Bare(e)|, 1, 0
  {
    hide TokensAt, Printable, ParseCast, Print, Bare;
    BareFollows(ts, e, pos);
    PrintableParts(e);
    BareCast(e);
    var a := Print(e.operand, CAST);
    AtSplit(ts, pos, a, [KwAs, KwType(e.target)]);
    AtTwo(ts, pos + |a|, KwAs, KwType(e.target));
    ParsePrint(ts, e.operand, CAST, pos);
  }

  lemma BareCast(e: S.Expr)
    requires e.Cast?
    ensures Bare(e) == Print(e.operand, CAST) + [KwAs, KwType(e.target)]
  {
    hide Print;
  }

  lemma {:induction false} ParsePrefixed(ts: seq<Token>, e: S.Expr, pos: nat)
    requires EndsInEof(ts) && e.Unary? && !IsPostfix(e.kind) && Printable(e) && Follows(ts, e, PREFIX, pos)
    ensures ParseAt(ts, PREFIX, pos) == Reached(ts, e, PREFIX, pos + |Bare(e)|)
    decreases |Bare(e)|, 1, 0
  {
    hide TokensAt, Printable, Print, Bare, PrefixToken, Stops, ParsePostfix;
    BareFollows(ts, e, pos);
    PrintableParts(e);
    BareUnary(e);
    var a := Print(e.operand, PREFIX);
    AtSplit(ts, pos, [PrefixToken(e.kind)], a);
    AtOne(ts, pos, PrefixToken(e.kind));
    ParsePrint(ts, e.operand, PREFIX, pos + 1);
  }

  lemma BareUnary(e: S.Expr)
    requires e.Unary?
    ensures Bare(e) == if IsPostfix(e.kind) then Print(e.operand, POSTFIX) + [PostfixToken(e.kind)]
            else [PrefixToken(e.kind)] + Print(e.operand, PREFIX)
  {
    hide Print, PrefixToken, PostfixToken;
  }

  lemma {:induction false} ParsePostfixed(ts: seq<Token>, e: S.Expr, pos: nat)
    requires EndsInEof(ts) && e.Unary? && IsPostfix(e.kind) && Printable(e) && Follows(ts, e, POSTFIX, pos)
    ensures ParseAt(ts, POSTFIX, pos) == Reached(ts, e, POSTFIX, pos + |Bare(e)|)
    decreases |Bare(e)|, 1, 0
  {
    hide TokensAt, Printable, Print, Bare, ParsePostfix;
    BareFollows(ts, e, pos);
    PrintableParts(e);
    BareUnary(e);
    var a := Print(e.operand, POSTFIX);
    AtSplit(ts, pos, a, [PostfixToken(e.kind)]);
    AtOne(ts, pos + |a|, PostfixToken(e.kind));
    ParsePrint(ts, e.operand, POSTFIX, pos);
  }

  lemma {:induction false} ParseCalled(ts: seq<Token>, e: S.Expr, pos: nat)
    requires EndsInEof(ts) && e.Call? && Printable(e) && Follows(ts, e, PRIMARY, pos)
    ensures ParseAt(ts, PRIMARY, pos) == Reached(ts, e, PRIMARY, pos + |Bare(e)|)
    decreases |Bare(e)|, 1, 0
  {
    hide TokensAt, PrintArgs, ParseArgs, ParsePrimary, Bare;
    BareFollows(ts, e, pos);
    var args := PrintArgs(e.args);
    BareCall(e);
    AtSplit(ts, pos, [Ident(e.callee), LParen], args + [RParen]);
    AtTwo(ts, pos, Ident(e.callee), LParen);
    AtSplit(ts, pos + 2, args, [RParen]);
    AtOne(ts, pos + 2 + |args|, RParen);
    if |e.args| > 0 {
      ParsePrintedArgs(ts, e.args, pos + 2);
      FirstOfArgs(ts, e.args, pos + 2);
      CallWithArgs(ts, e.callee, e.args, pos, pos + 2 + |args|);
    } else {
      NoArgs();
      CallWithout(ts, e.callee, pos);
    }
  }

  lemma BareCall(e: S.Expr)
    requires e.Call?
    ensures Bare(e) == [Ident(e.callee), LParen] + (PrintArgs(e.args) + [RParen])
  {
    hide PrintArgs;
  }

  lemma CallWithArgs(ts: seq<Token>, name: string, args: seq<S.Expr>, pos: nat, close: nat)
    requires EndsInEof(ts) && pos + 2 < close < |ts| && ts[pos] == Ident(name) && ts[pos + 1] == LParen &&
             !ts[pos + 2].RParen?
    requires ParseArgs(ts, pos + 2) == Out(Some(args), close, true) && ts[close] == RParen
    ensures ParsePrimary(ts, pos) == Out(Some(S.Call(name, args)), close + 1, true)
  {
    hide ParseArgs;
    assert ParseCall(ts, name, pos + 1) == Out(Some(S.Call(name, args)), close + 1, true);
  }

  lemma CallWithout(ts: seq<Token>, name: string, pos: nat)
    requires EndsInEof(ts) && pos + 2 < |ts| && ts[pos] == Ident(name) && ts[pos + 1] == LParen && ts[pos + 2] == RParen
    ensures ParsePrimary(ts, pos) == Out(Some(S.Call(name, [])), pos + 3, true)
  {}

  lemma NoArgs()
    ensures PrintArgs([]) == []
  {}

  /** No argument begins with a closing parenthesis. */
  lemma FirstOfArgs(ts: seq<Token>, args: seq<S.Expr>, pos: nat)
    requires |args| > 0 && TokensAt(ts, pos, PrintArgs(args))
    ensures pos < |ts| && !ts[pos].RParen?
  {
    hide TokensAt, Print, PrintArgs;
    StartsExpression(args[0], 0);
    FirstOfList(args);
    TokenHere(ts, pos, PrintArgs(args), 0);
  }

  lemma FirstOfList(args: seq<S.Expr>)
    requires |args| > 0
    ensures |PrintArgs(args)| > 0 && |Print(args[0], 0)| > 0 && PrintArgs(args)[0] == Print(args[0], 0)[0]
  {
    hide Print;
    NotEmpty(args[0], 0);
  }

  /** What an expression may begin with. */
  predicate Begins(k: Token) {
    k.LParen? || k.Integer? || k.KwTrue? || k.KwFalse? || k.Ident? || PrefixOf(k).Some?
  }

  lemma {:induction false} StartsExpression(e: S.Expr, level: nat)
    ensures |Print(e, level)| > 0 && Begins(Print(e, level)[0])
    decreases e
  {
    if Tightness(e) >= level {
      match e
      case Binary(op, l, _) => StartsExpression(l, if Chainable(OpLevel(op)) then OpLevel(op) else OpLevel(op) + 1);
      case Cast(a, _) => StartsExpression(a, CAST);
      case Unary(kind, a) =>
        if IsPostfix(kind) {
          StartsExpression(a, POSTFIX);
        }
      case _ =>
    }
  }

  lemma {:induction false} ParsePrintedArgs(ts: seq<Token>, args: seq<S.Expr>, pos: nat)
    requires EndsInEof(ts) && |args| > 0 && (forall i :: 0 <= i < |args| ==> Printable(args[i]))
    requires TokensAt(ts, pos, PrintArgs(args)) && ts[pos + |PrintArgs(args)|].RParen?
    ensures ParseArgs(ts, pos) == Out(Some(args), pos + |PrintArgs(args)|, true)
    decreases |PrintArgs(args)|, 4, 0
  {
    hide TokensAt, Print, ParseBinary, Printable, Reached;
    var first := Print(args[0], 0);
    var mid := pos + |first|;
    Separators();
    if |args| == 1 {
      PrintedEnd(ts, args[0], 0, pos);
      ParsePrint(ts, args[0], 0, pos);
      ReachedStops(ts, args[0], 0, mid);
      assert args == [args[0]];
    } else {
      var rest := PrintArgs(args[1..]);
      assert PrintArgs(args) == first + ([Comma] + rest);
      AtSplit(ts, pos, first, [Comma] + rest);
      AtSplit(ts, mid, [Comma], rest);
      AtOne(ts, mid, Comma);
      ParsePrint(ts, args[0], 0, pos);
      ReachedStops(ts, args[0], 0, mid);
      assert forall i :: 0 <= i < |args[1..]| ==> args[1..][i] == args[i + 1];
      ParsePrintedArgs(ts, args[1..], mid + 1);
      assert args == [args[0]] + args[1..];
    }
  }

  /** The round trip for expressions: printed where the grammar wants an expression, and followed by
    * a token that cannot continue one, the tree comes back and parsing stops at that token. */
  lemma ExpressionRoundTrip(ts: seq<Token>, e: S.Expr, pos: nat)
    requires EndsInEof(ts) && Printable(e) && TokensAt(ts, pos, Print(e, 0)) && Stops(ts[pos + |Print(e, 0)|], 0)
    ensures ParseExpression(ts, pos) == Out(Some(e), pos + |Print(e, 0)|, true)
  {
    hide TokensAt, Print, ParseBinary, Printable, Reached;
    var end := pos + |Print(e, 0)|;
    PrintedEnd(ts, e, 0, pos);
    StopsTighter(ts[end], 0, 1);
    ParsePrint(ts, e, 0, pos);
    ReachedStops(ts, e, 0, end);
  }
}
