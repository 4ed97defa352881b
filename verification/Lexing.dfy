/** What the lexer makes of a text: pieces of it, each with its token. */
module Lexing {
  import opened Values
  import opened Arith
  import opened Names
  import opened Tokens

  predicate IsSpace(c: char) {
    c == ' ' || c == '\t' || c == '\n' || c as int == 11 || c as int == 12 || c == '\r'
  }

  predicate IsIdentStart(c: char) {
    'a' <= c <= 'z' || 'A' <= c <= 'Z' || c == '_'
  }

  predicate IsIdentChar(c: char) {
    IsIdentStart(c) || IsDigit(c)
  }

  /** The character at a position; past the end there is a terminator. */
  function At(s: string, pos: nat): char {
    if pos < |s| then s[pos] else '\0'
  }

  // ---------------------------------------------------------------- symbols

  function Three(a: char, b: char, c: char): Option<Token> {
    if a == '<' && b == '<' && c == '=' then Some(LeftShiftEqual)
    else if a == '>' && b == '>' && c == '=' then Some(RightShiftEqual)
    else None
  }

  function Two(a: char, b: char): Option<Token> {
    if b == '=' then
      match a
      case '+' => Some(PlusEqual)
      case '-' => Some(MinusEqual)
      case '*' => Some(StarEqual)
      case '/' => Some(SlashEqual)
      case '&' => Some(AmpEqual)
      case '|' => Some(PipeEqual)
      case '^' => Some(CaretEqual)
      case '=' => Some(EqualEqual)
      case '!' => Some(BangEqual)
      case '<' => Some(LessEqual)
      case '>' => Some(GreaterEqual)
      case _ => None
    else if a != b then None
    else
      match a
      case '+' => Some(PlusPlus)
      case '-' => Some(MinusMinus)
      case '&' => Some(AmpAmp)
      case '|' => Some(PipePipe)
      case '<' => Some(LeftShift)
      case '>' => Some(RightShift)
      case _ => None
  }

  function One(a: char): Option<Token> {
    match a
    case '+' => Some(Plus)
    case '-' => Some(Minus)
    case '*' => Some(Star)
    case '/' => Some(Slash)
    case '=' => Some(Equal)
    case '!' => Some(Bang)
    case '<' => Some(Less)
    case '>' => Some(Greater)
    case '&' => Some(Amp)
    case '|' => Some(Pipe)
    case '^' => Some(Caret)
    case '~' => Some(Tilde)
    case ';' => Some(Semicolon)
    case '(' => Some(LParen)
    case ')' => Some(RParen)
    case '{' => Some(LBrace)
    case '}' => Some(RBrace)
    case ',' => Some(Comma)
    case '.' => Some(Dot)
    case _ => None
  }

  /** The first symbol of the table that the text goes on with; the table has longer symbols first. */
  function SymbolAt(s: string, pos: nat): (r: Option<(Token, nat)>)
    ensures r.Some? ==> 1 <= r.value.1 <= 3
  {
    var a, b, c := At(s, pos), At(s, pos + 1), At(s, pos + 2);
    if Three(a, b, c).Some? then Some((Three(a, b, c).value, 3))
    else if Two(a, b).Some? then Some((Two(a, b).value, 2))
    else if One(a).Some? then Some((One(a).value, 1))
    else None
  }

  lemma SymbolFits(s: string, pos: nat)
    ensures SymbolAt(s, pos).Some? ==> pos + SymbolAt(s, pos).value.1 <= |s|
  {}

  // ---------------------------------------------------------------- words

  const VALUE_MAX: nat := 254

  function WordEnd(s: string, pos: nat): (e: nat)
    requires pos <= |s|
    ensures pos <= e <= |s| && !IsIdentChar(At(s, e)) && forall k :: pos <= k < e ==> IsIdentChar(s[k])
    decreases |s| - pos
  {
    if pos < |s| && IsIdentChar(s[pos]) then WordEnd(s, pos + 1) else pos
  }

  function KeywordOf(w: string): Token {
    if |w| == 2 then
      if w == "i8" then KwType(I8)
      else if w == "u8" then KwType(U8)
      else if w == "as" then KwAs
      else if w == "if" then KwIf
      else if w == "fn" then KwFn
      else Ident(w)
    else if |w| == 3 then
      if w == "i16" then KwType(I16)
      else if w == "i32" then KwType(I32)
      else if w == "i64" then KwType(I64)
      else if w == "u16" then KwType(U16)
      else if w == "u32" then KwType(U32)
      else if w == "u64" then KwType(U64)
      else if w == "mut" then KwMut
      else if w == "pub" then KwPub
      else Ident(w)
    else if |w| == 4 then
      if w == "true" then KwTrue
      else if w == "bool" then KwType(Bool)
      else if w == "void" then KwType(Void)
      else if w == "else" then KwElse
      else Ident(w)
    else
      if w == "false" then KwFalse
      else if w == "while" then KwWhile
      else if w == "return" then KwReturn
      else if w == "extern" then KwExtern
      else if w == "import" then KwImport
      else Ident(w)
  }

  function Clipped(w: string): string {
    if |w| > VALUE_MAX then w[..VALUE_MAX] else w
  }

  // ---------------------------------------------------------------- numerals

  const WORD: nat := 0x1_0000_0000_0000_0000

  function ValueOfDigit(c: char): nat {
    if IsDigit(c) then c as int - '0' as int
    else if 'a' <= c <= 'f' then c as int - 'a' as int + 10
    else if 'A' <= c <= 'F' then c as int - 'A' as int + 10
    else 16
  }

  predicate IsDigitOf(c: char, radix: nat) {
    ValueOfDigit(c) < radix
  }

  function Radix(s: string, pos: nat): (r: nat)
    ensures r == 10 || r == 16 || r == 2
  {
    if At(s, pos) == '0' && (At(s, pos + 1) == 'x' || At(s, pos + 1) == 'X') then 16
    else if At(s, pos) == '0' && (At(s, pos + 1) == 'b' || At(s, pos + 1) == 'B') then 2
    else 10
  }

  /** Where the digits of the numeral begin, behind its prefix. */
  function DigitsStart(s: string, pos: nat): nat {
    if Radix(s, pos) == 10 then pos else pos + 2
  }

  lemma PrefixFits(s: string, pos: nat)
    requires pos < |s|
    ensures DigitsStart(s, pos) <= |s|
  {}

  /** The end of the digits and underscores. */
  function DigitsEnd(s: string, pos: nat, radix: nat): (e: nat)
    requires pos <= |s|
    ensures pos <= e <= |s|
    ensures forall k :: pos <= k < e ==> s[k] == '_' || IsDigitOf(s[k], radix)
    ensures e < |s| ==> s[e] != '_' && !IsDigitOf(s[e], radix)
    decreases |s| - pos
  {
    if pos < |s| && (s[pos] == '_' || IsDigitOf(s[pos], radix)) then DigitsEnd(s, pos + 1, radix) else pos
  }

  /** The number a string of digits and underscores spells. */
  function NumberOf(t: string, radix: nat): nat {
    if |t| == 0 then 0
    else
      var c := t[|t| - 1];
      if c == '_' then NumberOf(t[..|t| - 1], radix) else NumberOf(t[..|t| - 1], radix) * radix + ValueOfDigit(c)
  }

  predicate HasDigit(t: string) {
    exists k :: 0 <= k < |t| && t[k] != '_'
  }

  // ---------------------------------------------------------------- pieces

  datatype Piece = Piece(token: Token, start: nat, end: nat)

  /** The end of a run that is no token: of a malformed numeral, or of stray characters. */
  function RunEnd(s: string, pos: nat, number: bool): (e: nat)
    requires pos <= |s|
    ensures pos <= e <= |s|
    decreases |s| - pos
  {
    if pos == |s| || IsSpace(s[pos]) then pos
    else if (if number then IsIdentChar(s[pos]) else !IsIdentChar(s[pos]) && SymbolAt(s, pos).None?) then
      RunEnd(s, pos + 1, number)
    else pos
  }

  function Stray(s: string, pos: nat): (p: Piece)
    requires pos < |s|
    ensures pos < p.end <= |s|
  {
    Piece(Undefined, pos, RunEnd(s, pos + 1, IsDigit(s[pos])))
  }

  function NumberPiece(s: string, pos: nat): (p: Piece)
    requires pos < |s| && IsDigit(s[pos])
    ensures pos < p.end <= |s|
  {
    var radix := Radix(s, pos);
    PrefixFits(s, pos);
    var from := DigitsStart(s, pos);
    var e := DigitsEnd(s, from, radix);
    var digits := s[from..e];
    if !HasDigit(digits) || IsIdentChar(At(s, e)) then Stray(s, pos)
    else Piece(Integer(NumberOf(digits, radix) % WORD), pos, e)
  }

  function WordPiece(s: string, pos: nat): (p: Piece)
    requires pos < |s| && IsIdentStart(s[pos])
    ensures pos < p.end <= |s|
  {
    var e := WordEnd(s, pos);
    Piece(KeywordOf(Clipped(s[pos..e])), pos, e)
  }

  function SymbolPiece(s: string, pos: nat): (p: Piece)
    requires pos < |s|
    ensures pos < p.end <= |s|
  {
    match SymbolAt(s, pos)
    case None => Stray(s, pos)
    case Some(k) => SymbolFits(s, pos); Piece(k.0, pos, pos + k.1)
  }

  function PieceAt(s: string, pos: nat): (p: Piece)
    requires pos < |s|
    ensures pos < p.end <= |s|
  {
    if IsDigit(s[pos]) then NumberPiece(s, pos)
    else if IsIdentStart(s[pos]) then WordPiece(s, pos)
    else SymbolPiece(s, pos)
  }

  function Pieces(s: string, pos: nat): seq<Piece>
    requires pos <= |s|
    decreases |s| - pos
  {
    if pos == |s| then []
    else if IsSpace(s[pos]) then Pieces(s, pos + 1)
    else [PieceAt(s, pos)] + Pieces(s, PieceAt(s, pos).end)
  }

  function TokensOf(pieces: seq<Piece>): (ts: seq<Token>)
    ensures |ts| == |pieces| && forall k :: 0 <= k < |ts| ==> ts[k] == pieces[k].token
  {
    seq(|pieces|, k requires 0 <= k < |pieces| => pieces[k].token)
  }

  /** The tokens of a text. */
  function Tokenized(s: string): (ts: seq<Token>)
    ensures |ts| > 0 && ts[|ts| - 1].Eof?
  {
    TokensOf(Pieces(s, 0)) + [Eof]
  }

  // ---------------------------------------------------------------- nothing is lost

  predicate Blank(s: string, from: nat, to: nat) {
    to <= |s| && forall k :: from <= k < to ==> IsSpace(s[k])
  }

  /** Each piece is what is read where it begins; from `pos` on there is only white space besides. */
  predicate Covers(s: string, pos: nat, ps: seq<Piece>)
    decreases |ps|
  {
    if |ps| == 0 then Blank(s, pos, |s|)
    else
      pos <= ps[0].start < ps[0].end <= |s| && Blank(s, pos, ps[0].start) && !IsSpace(s[ps[0].start]) &&
      ps[0] == PieceAt(s, ps[0].start) && Covers(s, ps[0].end, ps[1..])
  }

  /** The pieces follow one another with nothing but white space between them. */
  lemma {:induction false} PiecesCover(s: string, pos: nat)
    requires pos <= |s|
    ensures Covers(s, pos, Pieces(s, pos))
    decreases |s| - pos
  {
    hide PieceAt;
    if pos < |s| {
      if IsSpace(s[pos]) {
        PiecesCover(s, pos + 1);
      } else {
        StartOf(s, pos);
        PiecesCover(s, PieceAt(s, pos).end);
      }
    }
  }

  lemma StartOf(s: string, pos: nat)
    requires pos < |s|
    ensures PieceAt(s, pos).start == pos
  {}

  // ---------------------------------------------------------------- where a piece is

  /** One more than the number of line breaks before a position. */
  function LineOf(s: string, pos: nat): (line: nat)
    requires pos <= |s|
    ensures line > 0
  {
    if pos == 0 then 1 else LineOf(s, pos - 1) + (if s[pos - 1] == '\n' then 1 else 0)
  }

  /** One more than the number of characters since the last line break. */
  function ColumnOf(s: string, pos: nat): (column: nat)
    requires pos <= |s|
    ensures column > 0
  {
    if pos == 0 || s[pos - 1] == '\n' then 1 else ColumnOf(s, pos - 1) + 1
  }

  /** A position as the lexer reports it. */
  datatype Span = Span(line: nat, column: nat, length: nat)

  function Length(p: Piece): nat {
    var n: int := p.end - p.start;
    var most := if p.token.Integer? then VALUE_MAX + 1 else VALUE_MAX;
    if n < 0 then 0 else if n > most then most else n
  }

  function SpanOf(s: string, p: Piece): Span
    requires p.start <= |s|
  {
    Span(LineOf(s, p.start), ColumnOf(s, p.start), Length(p))
  }

  /** Along a line the column counts the characters. */
  lemma {:induction false} SameLine(s: string, a: nat, b: nat)
    requires a <= b <= |s| && forall k :: a <= k < b ==> s[k] != '\n'
    ensures LineOf(s, b) == LineOf(s, a) && ColumnOf(s, b) == ColumnOf(s, a) + (b - a)
    decreases b
  {
    if a < b {
      SameLine(s, a, b - 1);
    }
  }

  /** No token goes over a line. */
  lemma {:induction false} OneLine(s: string, pos: nat)
    requires pos < |s| && !IsSpace(s[pos])
    ensures forall k :: pos <= k < PieceAt(s, pos).end ==> s[k] != '\n'
  {
    var p := PieceAt(s, pos);
    if p.token.Undefined? {
      RunOneLine(s, pos + 1, IsDigit(s[pos]));
    }
  }

  lemma {:induction false} RunOneLine(s: string, pos: nat, number: bool)
    requires pos <= |s|
    ensures forall k :: pos <= k < RunEnd(s, pos, number) ==> !IsSpace(s[k])
    decreases |s| - pos
  {
    hide SymbolAt;
    if RunEnd(s, pos, number) > pos {
      RunOneLine(s, pos + 1, number);
    }
  }
}
