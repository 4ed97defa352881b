/** Tokens written out with a blank after each are read back; so is the text of a whole program. */
module Spelling {
  import opened Values
  import opened Arith
  import opened Names
  import opened Tokens
  import opened Lexing

  function TypeName(t: ValueType): string {
    match t
    case I8 => "i8"
    case I16 => "i16"
    case I32 => "i32"
    case I64 => "i64"
    case U8 => "u8"
    case U16 => "u16"
    case U32 => "u32"
    case U64 => "u64"
    case Bool => "bool"
    case Void => "void"
    case Unresolved => ""
  }

  function SymbolSpelling(k: Token): string {
    match k
    case LeftShiftEqual => "<<="
    case RightShiftEqual => ">>="
    case PlusPlus => "++"
    case MinusMinus => "--"
    case PlusEqual => "+="
    case MinusEqual => "-="
    case StarEqual => "*="
    case SlashEqual => "/="
    case AmpEqual => "&="
    case PipeEqual => "|="
    case CaretEqual => "^="
    case EqualEqual => "=="
    case BangEqual => "!="
    case LessEqual => "<="
    case GreaterEqual => ">="
    case AmpAmp => "&&"
    case PipePipe => "||"
    case LeftShift => "<<"
    case RightShift => ">>"
    case Plus => "+"
    case Minus => "-"
    case Star => "*"
    case Slash => "/"
    case Equal => "="
    case Bang => "!"
    case Less => "<"
    case Greater => ">"
    case Amp => "&"
    case Pipe => "|"
    case Caret => "^"
    case Tilde => "~"
    case Semicolon => ";"
    case LParen => "("
    case RParen => ")"
    case LBrace => "{"
    case RBrace => "}"
    case Comma => ","
    case Dot => "."
    case _ => ""
  }

  function WordSpelling(k: Token): string {
    match k
    case Ident(name) => name
    case KwType(t) => TypeName(t)
    case KwTrue => "true"
    case KwFalse => "false"
    case KwAs => "as"
    case KwIf => "if"
    case KwElse => "else"
    case KwWhile => "while"
    case KwFn => "fn"
    case KwReturn => "return"
    case KwMut => "mut"
    case KwPub => "pub"
    case KwExtern => "extern"
    case KwImport => "import"
    case _ => ""
  }

  function SpellingOf(k: Token): string {
    if k.Integer? then Decimal(k.value) else if SymbolSpelling(k) != "" then SymbolSpelling(k) else WordSpelling(k)
  }

  predicate IsWord(w: string) {
    0 < |w| <= VALUE_MAX && IsIdentStart(w[0]) && forall i :: 0 <= i < |w| ==> IsIdentChar(w[i])
  }

  /** A word that is no keyword, and not longer than a token holds. */
  predicate IsName(w: string) {
    IsWord(w) && KeywordOf(w) == Ident(w)
  }

  /** What can be written: names, numbers of 64 bits, and every symbol and keyword. */
  predicate Spellable(k: Token) {
    match k
    case Ident(name) => IsName(name)
    case Integer(n) => n < WORD
    case KwType(t) => t != Unresolved
    case Undefined | Eof => false
    case _ => true
  }

  predicate AllSpellable(ts: seq<Token>) {
    forall i :: 0 <= i < |ts| ==> Spellable(ts[i])
  }

  function SpellAll(ts: seq<Token>): string {
    if |ts| == 0 then "" else SpellingOf(ts[0]) + " " + SpellAll(ts[1..])
  }

  // ---------------------------------------------------------------- one token

  /** The text goes on with `w` and a blank. */
  predicate TextAt(s: string, pos: nat, w: string) {
    pos + |w| < |s| && s[pos..pos + |w|] == w && s[pos + |w|] == ' '
  }

  lemma KeywordSpelled(k: Token)
    requires Spellable(k) && !k.Integer? && SymbolSpelling(k) == "" && !k.Ident?
    ensures KeywordOf(WordSpelling(k)) == k
  {
    if k.KwType? {
      TypeSpelled(k.t);
    } else if |WordSpelling(k)| > 4 {
      LongSpelled(k);
    } else {
      ShortSpelled(k);
    }
  }

  lemma TypeSpelled(t: ValueType)
    requires t != Unresolved
    ensures KeywordOf(TypeName(t)) == KwType(t)
  {}

  lemma LongSpelled(k: Token)
    requires k.KwFalse? || k.KwWhile? || k.KwReturn? || k.KwExtern? || k.KwImport?
    ensures KeywordOf(WordSpelling(k)) == k
  {}

  lemma ShortSpelled(k: Token)
    requires k.KwTrue? || k.KwAs? || k.KwIf? || k.KwElse? || k.KwFn? || k.KwMut? || k.KwPub?
    ensures KeywordOf(WordSpelling(k)) == k
  {}

  lemma KeywordLetters(k: Token)
    requires Spellable(k) && !k.Integer? && SymbolSpelling(k) == "" && !k.Ident?
    ensures IsWord(WordSpelling(k))
  {}

  lemma {:induction false} WordEndAt(s: string, pos: nat, e: nat)
    requires pos <= e < |s| && (forall k :: pos <= k < e ==> IsIdentChar(s[k])) && !IsIdentChar(s[e])
    ensures WordEnd(s, pos) == e
    decreases e - pos
  {
    if pos < e {
      WordEndAt(s, pos + 1, e);
    }
  }

  lemma WordPieceAt(s: string, pos: nat, w: string)
    requires TextAt(s, pos, w) && IsWord(w)
    ensures PieceAt(s, pos) == Piece(KeywordOf(w), pos, pos + |w|) && !IsSpace(s[pos])
  {
    hide KeywordOf;
    forall k | pos <= k < pos + |w| ensures IsIdentChar(s[k]) && s[k] == w[k - pos] {
      assert s[k] == s[pos..pos + |w|][k - pos];
    }
    WordEndAt(s, pos, pos + |w|);
  }

  lemma SymbolPieceAt(s: string, pos: nat, k: Token)
    requires SymbolSpelling(k) != "" && TextAt(s, pos, SymbolSpelling(k))
    ensures PieceAt(s, pos) == Piece(k, pos, pos + |SymbolSpelling(k)|) && !IsSpace(s[pos])
  {
    hide Stray, NumberPiece, WordPiece, SymbolSpelling, Three, Two, One, IsDigit, IsIdentStart, IsSpace, TextAt;
    var w := SymbolSpelling(k);
    Letters(s, pos, w);
    SymbolRead(k, At(s, pos + 1), At(s, pos + 2));
    assert SymbolAt(s, pos) == Some((k, |w|));
  }

  lemma Letters(s: string, pos: nat, w: string)
    requires TextAt(s, pos, w)
    ensures forall i :: 0 <= i < |w| ==> At(s, pos + i) == w[i]
    ensures At(s, pos + |w|) == ' '
  {
    forall i | 0 <= i < |w| ensures At(s, pos + i) == w[i] {
      assert s[pos + i] == s[pos..pos + |w|][i];
    }
  }

  /** The table finds a symbol before a blank, whatever comes after that. */
  lemma SymbolRead(k: Token, b: char, c: char)
    requires SymbolSpelling(k) != ""
    ensures var w := SymbolSpelling(k);
            |w| <= 3 && !IsDigit(w[0]) && !IsIdentStart(w[0]) && !IsSpace(w[0]) &&
            (|w| == 3 ==> Three(w[0], w[1], w[2]) == Some(k)) &&
            (|w| == 2 ==> Three(w[0], w[1], ' ').None? && Two(w[0], w[1]) == Some(k)) &&
            (|w| == 1 ==> Three(w[0], ' ', c).None? && Two(w[0], ' ').None? && One(w[0]) == Some(k))
  {
    hide SymbolSpelling, Three, Two, One, IsDigit, IsIdentStart, IsSpace;
    SymbolStart(k);
    LongSymbol(k);
    SymbolOfTwo(k);
    SymbolOfOne(k, c);
  }

  lemma SymbolStart(k: Token)
    requires SymbolSpelling(k) != ""
    ensures var w := SymbolSpelling(k); |w| <= 3 && !IsDigit(w[0]) && !IsIdentStart(w[0]) && !IsSpace(w[0])
  {}

  lemma LongSymbol(k: Token)
    ensures var w := SymbolSpelling(k); |w| == 3 ==> Three(w[0], w[1], w[2]) == Some(k)
  {}

  lemma SymbolOfTwo(k: Token)
    ensures var w := SymbolSpelling(k); |w| == 2 ==> Three(w[0], w[1], ' ').None? && Two(w[0], w[1]) == Some(k)
  {}

  lemma SymbolOfOne(k: Token, c: char)
    ensures var w := SymbolSpelling(k);
            |w| == 1 ==> Three(w[0], ' ', c).None? && Two(w[0], ' ').None? && One(w[0]) == Some(k)
  {}

  lemma {:induction false} DigitsEndAt(s: string, pos: nat, e: nat)
    requires pos <= e < |s| && (forall k :: pos <= k < e ==> IsDigit(s[k])) && s[e] == ' '
    ensures DigitsEnd(s, pos, 10) == e
    decreases e - pos
  {
    if pos < e {
      DigitsEndAt(s, pos + 1, e);
    }
  }

  lemma {:induction false} NumberOfDigits(t: string)
    requires AllDigits(t)
    ensures NumberOf(t, 10) == ParseDecimal(t)
    decreases |t|
  {
    if |t| > 0 {
      NumberOfDigits(t[..|t| - 1]);
    }
  }

  /** The decimal spelling of any number is read as the number modulo 2^64, and nothing is reported. */
  lemma NumberPieceAt(s: string, pos: nat, n: nat)
    requires TextAt(s, pos, Decimal(n))
    ensures PieceAt(s, pos) == Piece(Integer(n % WORD), pos, pos + |Decimal(n)|) && !IsSpace(s[pos])
  {
    hide Stray, WordPiece, SymbolPiece, Decimal, NumberOf, DigitsEnd;
    var w := Decimal(n);
    Letters(s, pos, w);
    forall k | pos <= k < pos + |w| ensures IsDigit(s[k]) {
      assert At(s, pos + (k - pos)) == w[k - pos];
    }
    DigitsEndAt(s, pos, pos + |w|);
    TensBase(s, pos, n);
    NumberOfDigits(w);
    ParseOfDecimal(n);
    assert w[0] != '_';
  }

  /** A numeral of any base, with or without underscores: its token has the value that is written if and only
    * if that value is below 2^64. */
  lemma NumeralExact(s: string, pos: nat)
    requires pos < |s| && IsDigit(s[pos]) && PieceAt(s, pos).token.Integer?
    ensures var e := PieceAt(s, pos).end; var from := DigitsStart(s, pos);
            from <= e <= |s| &&
            var written := NumberOf(s[from..e], Radix(s, pos));
            PieceAt(s, pos).token.value == written <==> written < WORD
  {
    hide NumberOf, RunEnd, IsSpace;
    PrefixFits(s, pos);
    var e := DigitsEnd(s, DigitsStart(s, pos), Radix(s, pos));
    var written := NumberOf(s[DigitsStart(s, pos)..e], Radix(s, pos));
    assert PieceAt(s, pos) == Piece(Integer(written % WORD), pos, e);
    if written < WORD {
      ModSmall(written, WORD);
    }
  }

  /** `18446744073709551617`, which is 2^64 + 1, is read as 1. */
  lemma NumeralWraps(s: string, pos: nat)
    requires TextAt(s, pos, Decimal(0x1_0000_0000_0000_0001))
    ensures PieceAt(s, pos).token == Integer(1)
  {
    hide PieceAt, Decimal;
    NumberPieceAt(s, pos, 0x1_0000_0000_0000_0001);
    ModUnique(1, 1, WORD);
  }

  lemma TensBase(s: string, pos: nat, n: nat)
    requires TextAt(s, pos, Decimal(n))
    ensures Radix(s, pos) == 10
  {
    Letters(s, pos, Decimal(n));
    if n >= 10 {
      assert At(s, pos + 0) == Decimal(n)[0];
    }
  }

  lemma TokenPieceAt(s: string, pos: nat, k: Token)
    requires Spellable(k) && TextAt(s, pos, SpellingOf(k))
    ensures PieceAt(s, pos) == Piece(k, pos, pos + |SpellingOf(k)|) && !IsSpace(s[pos]) && |SpellingOf(k)| > 0
  {
    hide PieceAt, SymbolSpelling, WordSpelling, KeywordOf, Decimal, IsSpace, TextAt;
    if k.Integer? {
      NumberPieceAt(s, pos, k.value);
      ModSmall(k.value, WORD);
    } else if SymbolSpelling(k) != "" {
      NoSymbol(k);
      SymbolPieceAt(s, pos, k);
    } else if k.Ident? {
      NoSymbol(k);
      WordPieceAt(s, pos, k.name);
    } else {
      KeywordSpelled(k);
      KeywordLetters(k);
      WordPieceAt(s, pos, WordSpelling(k));
    }
  }

  lemma NoSymbol(k: Token)
    ensures k.Ident? ==> SymbolSpelling(k) == "" && WordSpelling(k) == k.name
  {}

  // ---------------------------------------------------------------- all tokens

  lemma SpelledHead(s: string, pos: nat, ts: seq<Token>)
    requires |ts| > 0 && pos <= |s| && s[pos..] == SpellAll(ts)
    ensures var w := SpellingOf(ts[0]); TextAt(s, pos, w) && s[pos + |w| + 1..] == SpellAll(ts[1..])
  {
    hide SpellingOf;
    var w, rest := SpellingOf(ts[0]), SpellAll(ts[1..]);
    var t := s[pos..];
    assert t == w + " " + rest;
    assert t[..|w|] == w && t[|w|] == ' ' && t[|w| + 1..] == rest;
    assert s[pos..pos + |w|] == t[..|w|] && s[pos + |w| + 1..] == t[|w| + 1..];
  }

  lemma {:induction false} ReadSpelled(s: string, pos: nat, ts: seq<Token>)
    requires AllSpellable(ts) && pos <= |s| && s[pos..] == SpellAll(ts)
    ensures TokensOf(Pieces(s, pos)) == ts
    decreases |ts|
  {
    hide SpellingOf, Spellable, PieceAt, SpellAll, IsSpace;
    if |ts| == 0 {
      NothingSpelled();
    } else {
      var w := SpellingOf(ts[0]);
      SpelledHead(s, pos, ts);
      TokenPieceAt(s, pos, ts[0]);
      ReadSpelled(s, pos + |w| + 1, ts[1..]);
      Blank();
      PiecesHead(s, pos, pos + |w|);
      assert ts == [ts[0]] + ts[1..];
    }
  }

  lemma NothingSpelled()
    ensures SpellAll([]) == ""
  {}

  lemma Blank()
    ensures IsSpace(' ')
  {}

  lemma PiecesHead(s: string, pos: nat, e: nat)
    requires pos < e < |s| && !IsSpace(s[pos]) && IsSpace(s[e]) && PieceAt(s, pos).end == e
    ensures TokensOf(Pieces(s, pos)) == [PieceAt(s, pos).token] + TokensOf(Pieces(s, e + 1))
  {
    hide PieceAt, IsSpace;
    assert Pieces(s, e) == Pieces(s, e + 1);
  }

  /** Tokens written out one after the other are read back as they were. */
  lemma SpelledIsRead(ts: seq<Token>)
    requires AllSpellable(ts)
    ensures Tokenized(SpellAll(ts)) == ts + [Eof]
  {
    var s := SpellAll(ts);
    assert s[0..] == s;
    ReadSpelled(s, 0, ts);
  }
}
