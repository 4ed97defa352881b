/** The nine compound assignments: `x op= e` is the assignment of `x op e` to `x`. */
module CompoundAssign {
  import opened Arith
  import opened Tokens
  import opened Parsing
  import opened Printing
  import opened RoundTrip
  import opened StmtRoundTrip
  import opened Spelling
  import S = Syntax

  /** Each compound token with the operator it stands for. */
  const COMPOUND: seq<(Token, BinaryOp)> := [
    (PlusEqual, Add), (MinusEqual, Sub), (StarEqual, Mul), (SlashEqual, Div),
    (AmpEqual, BitAnd), (PipeEqual, BitOr), (CaretEqual, BitXor),
    (LeftShiftEqual, Shl), (RightShiftEqual, Shr)
  ]

  /** The table has every assignment token but `=`. */
  lemma CompoundTable(k: Token) returns (i: nat)
    requires IsAssign(k) && !k.Equal?
    ensures i < |COMPOUND| && COMPOUND[i].0 == k
  {
    i := if k.PlusEqual? then 0 else if k.MinusEqual? then 1 else if k.StarEqual? then 2
         else if k.SlashEqual? then 3 else if k.AmpEqual? then 4 else if k.PipeEqual? then 5
         else if k.CaretEqual? then 6 else if k.LeftShiftEqual? then 7 else 8;
  }

  /** Each is spelled as its operator with an `=` behind. */
  lemma CompoundSpelled(i: nat)
    requires i < |COMPOUND|
    ensures SymbolSpelling(COMPOUND[i].0) == SymbolSpelling(TokenOf(COMPOUND[i].1)) + "="
  {
    hide SymbolSpelling, TokenOf;
    CompoundEntries();
    Sums();
    Masks();
    Shifts();
  }

  lemma CompoundEntries()
    ensures |COMPOUND| == 9 && COMPOUND[0] == (PlusEqual, Add) && COMPOUND[1] == (MinusEqual, Sub) &&
            COMPOUND[2] == (StarEqual, Mul) && COMPOUND[3] == (SlashEqual, Div) && COMPOUND[4] == (AmpEqual, BitAnd) &&
            COMPOUND[5] == (PipeEqual, BitOr) && COMPOUND[6] == (CaretEqual, BitXor) &&
            COMPOUND[7] == (LeftShiftEqual, Shl) && COMPOUND[8] == (RightShiftEqual, Shr)
  {}

  lemma Sums()
    ensures SymbolSpelling(PlusEqual) == SymbolSpelling(TokenOf(Add)) + "="
    ensures SymbolSpelling(MinusEqual) == SymbolSpelling(TokenOf(Sub)) + "="
    ensures SymbolSpelling(StarEqual) == SymbolSpelling(TokenOf(Mul)) + "="
    ensures SymbolSpelling(SlashEqual) == SymbolSpelling(TokenOf(Div)) + "="
  {}

  lemma Masks()
    ensures SymbolSpelling(AmpEqual) == SymbolSpelling(TokenOf(BitAnd)) + "="
    ensures SymbolSpelling(PipeEqual) == SymbolSpelling(TokenOf(BitOr)) + "="
    ensures SymbolSpelling(CaretEqual) == SymbolSpelling(TokenOf(BitXor)) + "="
  {}

  lemma Shifts()
    ensures SymbolSpelling(LeftShiftEqual) == SymbolSpelling(TokenOf(Shl)) + "="
    ensures SymbolSpelling(RightShiftEqual) == SymbolSpelling(TokenOf(Shr)) + "="
  {}

  lemma CompoundOperator(i: nat)
    requires i < |COMPOUND|
    ensures IsAssign(COMPOUND[i].0) && !COMPOUND[i].0.Equal? && BinaryOpOf(COMPOUND[i].0) == Some(COMPOUND[i].1)
  {}

  /** A compound assignment of any printable expression is parsed, without a report, as the assignment of the
    * operation on the variable and the expression, in this order, and parsing goes on behind the semicolon. */
  lemma CompoundRoundTrip(ts: seq<Token>, i: nat, name: string, e: S.Expr, pos: nat)
    requires EndsInEof(ts) && i < |COMPOUND| && Printable(e)
    requires TokensAt(ts, pos, [Ident(name), COMPOUND[i].0] + Print(e, 0) + [Semicolon])
    ensures ParseStatement(ts, pos) ==
            Out(Some(S.Assign(name, S.Binary(COMPOUND[i].1, S.Identifier(name), e))), pos + |Print(e, 0)| + 3, true)
  {
    hide TokensAt, Print, ParseExpression, Stops, ParseStatement, Printable;
    var k := COMPOUND[i].0;
    CompoundOperator(i);
    assert [Ident(name), k] + Print(e, 0) + [Semicolon] == [Ident(name), k] + (Print(e, 0) + [Semicolon]);
    AtSplit(ts, pos, [Ident(name), k], Print(e, 0) + [Semicolon]);
    AtTwo(ts, pos, Ident(name), k);
    Separators();
    EndedExpression(ts, e, pos + 2, Semicolon);
    StatementIsAssign(ts, pos);
  }
}
