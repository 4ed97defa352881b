/** The lexer as it runs: one position moved forward, a line and a column counted along, digits summed
  * with wrap-around. What it finds is what Lexing says, each token with the place it has in the text. */
module Lexer {
  import opened Values
  import opened Arith
  import opened Names
  import opened Tokens
  import opened Lexing

  datatype Found = Found(token: Token, span: Span)

  function FoundIn(s: string, ps: seq<Piece>): (r: seq<Found>)
    requires forall k :: 0 <= k < |ps| ==> ps[k].start <= |s|
    ensures |r| == |ps| && forall k :: 0 <= k < |r| ==> r[k] == Found(ps[k].token, SpanOf(s, ps[k]))
  {
    seq(|ps|, k requires 0 <= k < |ps| => Found(ps[k].token, SpanOf(s, ps[k])))
  }

  lemma {:induction false} PiecesInside(s: string, pos: nat)
    requires pos <= |s|
    ensures forall k :: 0 <= k < |Pieces(s, pos)| ==> Pieces(s, pos)[k].start <= |s|
    decreases |s| - pos
  {
    hide PieceAt;
    if pos < |s| {
      if IsSpace(s[pos]) {
        PiecesInside(s, pos + 1);
      } else {
        StartOf(s, pos);
        PiecesInside(s, PieceAt(s, pos).end);
      }
    }
  }

  /** Every token of a text with the line and column counted from its beginning, and the end. */
  function AllFound(s: string): seq<Found> {
    PiecesInside(s, 0);
    FoundIn(s, Pieces(s, 0)) + [Found(Eof, Span(LineOf(s, |s|), ColumnOf(s, |s|), 0))]
  }

  class TextLexer {
    const input: string
    var pos: nat
    var line: nat
    var column: nat
    var list: seq<Found>
    /** Nothing has been reported so far. */
    var clean: bool

    ghost predicate Valid()
      reads this
    {
      pos <= |input| && line == LineOf(input, pos) && column == ColumnOf(input, pos)
    }

    constructor (input: string)
      requires '\0' !in input
      ensures Valid() && this.input == input && pos == 0 && list == [] && clean
    {
      this.input := input;
      pos, line, column, list, clean := 0, 1, 1, [], true;
    }

    function Current(): char
      reads this
    {
      At(input, pos)
    }

    method Advance(count: nat)
      modifies this`pos, this`column
      ensures pos == old(pos) + count && column == old(column) + count
    {
      pos, column := pos + count, column + count;
    }

    /** A numeral; malformed ones leave the cursor anywhere. */
    method ReadNumber() returns (k: Token)
      requires pos < |input| && '\0' !in input && IsDigit(input[pos])
      modifies this`pos, this`column
      ensures var p := NumberPiece(input, old(pos));
              if k.Undefined? then p == Stray(input, old(pos))
              else p == Piece(k, old(pos), pos) && k.Integer? && column == old(column) + (pos - old(pos))
    {
      hide Stray, NumberPiece, NumberOf, HasDigit, Radix, DigitsEnd, IsIdentChar;
      var base := Radix(input, pos);
      PrefixFits(input, pos);
      if base != 10 {
        Advance(2);
      }
      ghost var start := pos;
      var value: nat, hasDigit := 0, false;
      NoDigitsYet(base);
      assert input[start..pos] == "";
      while Current() != '\0'
        invariant start <= pos <= |input| && column == old(column) + (pos - old(pos))
        invariant value == NumberOf(input[start..pos], base) % WORD && (hasDigit <==> HasDigit(input[start..pos]))
        invariant DigitsEnd(input, start, base) == DigitsEnd(input, pos, base)
        decreases |input| - pos
      {
        var c := Current();
        assert input[start..pos + 1] == input[start..pos] + [c];
        NumberStep(input[start..pos], c, base);
        DigitsStep(input, pos, base);
        if c == '_' {
          Advance(1);
          continue;
        }
        if !IsDigitOf(c, base) {
          break;
        }
        hasDigit := true;
        value := (value * base + ValueOfDigit(c)) % WORD;
        Advance(1);
      }
      DigitsStep(input, pos, base);
      NumberParts(input, old(pos), pos);
      if !hasDigit || IsIdentChar(Current()) {
        return Undefined;
      }
      k := Integer(value);
    }

    method ReadIdentifier() returns (k: Token)
      requires pos < |input| && IsIdentStart(input[pos])
      modifies this`pos, this`column
      ensures Piece(k, old(pos), pos) == WordPiece(input, old(pos)) && column == old(column) + (pos - old(pos)) &&
              !k.Undefined? && !k.Integer?
    {
      hide KeywordOf, WordEnd, IsIdentChar;
      var value := "";
      ghost var start := pos;
      assert input[start..pos] == "";
      while IsIdentChar(Current())
        invariant start <= pos <= |input| && column == old(column) + (pos - start)
        invariant value == Clipped(input[start..pos]) && WordEnd(input, start) == WordEnd(input, pos)
        decreases |input| - pos
      {
        WordStep(input, pos);
        assert input[start..pos + 1] == input[start..pos] + [Current()];
        if |value| < VALUE_MAX {
          value := value + [Current()];
        }
        Advance(1);
      }
      WordStep(input, pos);
      k := KeywordOf(value);
      KeywordKind(value);
    }

    method ReadSymbol() returns (k: Token)
      requires pos < |input|
      modifies this`pos, this`column
      ensures var p := SymbolPiece(input, old(pos));
              if k.Undefined? then p == Stray(input, old(pos))
              else p == Piece(k, old(pos), pos) && column == old(column) + (pos - old(pos)) && !k.Integer?
    {
      hide Stray;
      var symbol := SymbolAt(input, pos);
      if symbol.None? {
        return Undefined;
      }
      SymbolFits(input, pos);
      Advance(symbol.value.1);
      k := symbol.value.0;
    }

    /** Back to where the token began, over the run of characters that make none. */
    method ReportUndefined(startPos: nat, startColumn: nat)
      requires startPos < |input|
      modifies this
      ensures var p := Stray(input, startPos);
              pos == p.end && column == startColumn + (pos - startPos) && line == old(line) && !clean &&
              list == old(list) + [Found(Undefined, Span(line, startColumn, Length(p)))]
    {
      hide SymbolAt;
      pos, column := startPos, startColumn;
      var number := IsDigit(Current());
      Advance(1);
      var length: nat := 1;
      while pos < |input| && !IsSpace(Current()) && (if number then IsIdentChar(Current())
                                                     else !IsIdentChar(Current()) && SymbolAt(input, pos).None?)
        invariant startPos < pos <= |input| && column == startColumn + (pos - startPos)
        invariant RunEnd(input, startPos + 1, number) == RunEnd(input, pos, number)
        invariant length == if pos - startPos > VALUE_MAX then VALUE_MAX else pos - startPos
        invariant list == old(list) && line == old(line)
        decreases |input| - pos
      {
        if length < VALUE_MAX {
          length := length + 1;
        }
        Advance(1);
      }
      list := list + [Found(Undefined, Span(line, startColumn, length))];
      clean := false;
    }

    method ReadToken()
      requires Valid() && pos < |input| && '\0' !in input && !IsSpace(input[pos])
      modifies this
      ensures var p := PieceAt(input, old(pos));
              Valid() && pos == p.end && clean == (old(clean) && !p.token.Undefined?) && p.start == old(pos) &&
              list == old(list) + [Found(p.token, SpanOf(input, p))]
    {
      hide NumberPiece, WordPiece, SymbolPiece, Stray, IsIdentStart, IsSpace, LineOf, ColumnOf;
      var startPos, startColumn := pos, column;
      ghost var p := PieceAt(input, pos);
      OneLine(input, pos);
      SameLine(input, pos, p.end);
      PieceKnown(input, pos);
      var k: Token;
      if IsDigit(input[pos]) {
        k := ReadNumber();
      } else if IsIdentStart(input[pos]) {
        k := ReadIdentifier();
      } else {
        k := ReadSymbol();
      }
      if k.Undefined? {
        ReportUndefined(startPos, startColumn);
      } else {
        list := list + [Found(k, Span(line, startColumn, Length(Piece(k, startPos, pos))))];
      }
    }

    method Tokenize()
      requires Valid() && pos == 0 && list == [] && clean && '\0' !in input
      modifies this
      ensures list == AllFound(input)
      ensures clean <==> Undefined !in Tokenized(input)
    {
      hide PieceAt;
      PiecesInside(input, 0);
      ghost var done: seq<Piece> := [];
      while Current() != '\0'
        invariant Valid() && Pieces(input, 0) == done + Pieces(input, pos)
        invariant (forall k :: 0 <= k < |done| ==> done[k].start <= |input|) && list == FoundIn(input, done)
        invariant clean <==> AllKnown(done)
        decreases |input| - pos
      {
        if Current() == '\n' {
          line, column, pos := line + 1, 1, pos + 1;
          continue;
        }
        if IsSpace(Current()) {
          Advance(1);
          continue;
        }
        ghost var p := PieceAt(input, pos);
        assert done + Pieces(input, pos) == (done + [p]) + Pieces(input, p.end);
        ReadToken();
        OneMoreKnown(done, p);
        done := done + [p];
      }
      assert done == Pieces(input, 0);
      list := list + [Found(Eof, Span(line, column, 0))];
    }
  }

  predicate AllKnown(ps: seq<Piece>) {
    forall k :: 0 <= k < |ps| ==> !ps[k].token.Undefined?
  }

  lemma OneMoreKnown(ps: seq<Piece>, p: Piece)
    ensures AllKnown(ps + [p]) <==> AllKnown(ps) && !p.token.Undefined?
  {
    if AllKnown(ps + [p]) {
      assert (ps + [p])[|ps|] == p;
      assert forall k :: 0 <= k < |ps| ==> (ps + [p])[k] == ps[k];
    }
  }

  lemma NoDigitsYet(radix: nat)
    ensures NumberOf("", radix) == 0 && !HasDigit("")
  {}

  lemma DigitsStep(s: string, pos: nat, radix: nat)
    requires pos <= |s|
    ensures DigitsEnd(s, pos, radix) ==
            if pos < |s| && (s[pos] == '_' || IsDigitOf(s[pos], radix)) then DigitsEnd(s, pos + 1, radix) else pos
  {}

  lemma WordStep(s: string, pos: nat)
    requires pos <= |s|
    ensures WordEnd(s, pos) == if pos < |s| && IsIdentChar(s[pos]) then WordEnd(s, pos + 1) else pos
    ensures pos == |s| ==> !IsIdentChar(At(s, pos))
  {}

  lemma KeywordKind(w: string)
    ensures !KeywordOf(w).Undefined? && !KeywordOf(w).Integer?
  {}

  lemma NumberParts(s: string, pos: nat, e: nat)
    requires pos < |s| && IsDigit(s[pos]) && DigitsStart(s, pos) <= |s| &&
             e == DigitsEnd(s, DigitsStart(s, pos), Radix(s, pos))
    ensures var digits := s[DigitsStart(s, pos)..e];
            NumberPiece(s, pos) ==
            if !HasDigit(digits) || IsIdentChar(At(s, e)) then Stray(s, pos)
            else Piece(Integer(NumberOf(digits, Radix(s, pos)) % WORD), pos, e)
  {
    hide Stray, NumberOf, HasDigit, DigitsEnd;
  }

  lemma PieceKnown(s: string, pos: nat)
    requires pos < |s|
    ensures PieceAt(s, pos) == if IsDigit(s[pos]) then NumberPiece(s, pos)
            else if IsIdentStart(s[pos]) then WordPiece(s, pos) else SymbolPiece(s, pos)
    ensures Stray(s, pos).token == Undefined && Stray(s, pos).start == pos
  {
    hide NumberPiece, WordPiece, SymbolPiece;
  }

  /** One more digit, in 64 bits. */
  lemma NumberStep(t: string, c: char, radix: nat)
    ensures c == '_' ==> NumberOf(t + [c], radix) == NumberOf(t, radix)
    ensures c != '_' ==> NumberOf(t + [c], radix) % WORD == (NumberOf(t, radix) % WORD * radix + ValueOfDigit(c)) % WORD
    ensures HasDigit(t + [c]) <==> HasDigit(t) || c != '_'
  {
    var u := t + [c];
    assert u[..|u| - 1] == t;
    var n, d := NumberOf(t, radix), ValueOfDigit(c);
    if c != '_' {
      assert u[|t|] != '_';
      StepModulo(n, radix, d);
    }
    if HasDigit(t) {
      var k :| 0 <= k < |t| && t[k] != '_';
      assert u[k] != '_';
    }
  }

  lemma StepModulo(n: nat, radix: nat, d: nat)
    ensures (n * radix + d) % WORD == (n % WORD * radix + d) % WORD
  {
    var q, r := n / WORD, n % WORD;
    assert n == q * WORD + r;
    assert n * radix + d == (r * radix + d) + (q * radix) * WORD;
    ModShift(r * radix + d, q * radix, WORD);
  }
}
