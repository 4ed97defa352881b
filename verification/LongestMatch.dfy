/** What a token of any text is, read off the text itself: symbols are the longest that fit, words go on as long
  * as they can, and numerals of every base have the value their digits have by place. */
module LongestMatch {
  import opened Values
  import opened Arith
  import opened Names
  import opened Tokens
  import opened Lexing
  import opened Spelling

  /** The text goes on with `w`, whatever comes after it. */
  predicate GoesOn(s: string, pos: nat, w: string) {
    pos + |w| <= |s| && s[pos..pos + |w|] == w
  }

  lemma LettersOf(s: string, pos: nat, w: string)
    ensures GoesOn(s, pos, w) <==> pos + |w| <= |s| && forall i :: 0 <= i < |w| ==> s[pos + i] == w[i]
  {
    if pos + |w| <= |s| {
      var t := s[pos..pos + |w|];
      assert forall i :: 0 <= i < |t| ==> t[i] == s[pos + i];
    }
  }

  // ---------------------------------------------------------------- symbols

  lemma SpellingLength(k: Token)
    ensures |SymbolSpelling(k)| <= 3
    ensures forall i :: 0 <= i < |SymbolSpelling(k)| ==> SymbolSpelling(k)[i] != '\0'
  {}

  lemma ThreeSpelled(a: char, b: char, c: char)
    ensures Three(a, b, c).Some? ==> SymbolSpelling(Three(a, b, c).value) == [a, b, c]
  {}

  lemma TwoSpelled(a: char, b: char)
    ensures Two(a, b).Some? ==> SymbolSpelling(Two(a, b).value) == [a, b]
  {}

  lemma OneSpelled(a: char)
    ensures One(a).Some? ==> SymbolSpelling(One(a).value) == [a]
  {}

  lemma SymbolParts(k: Token)
    ensures var w := SymbolSpelling(k);
            (|w| == 3 ==> Three(w[0], w[1], w[2]) == Some(k)) &&
            (|w| == 2 ==> Two(w[0], w[1]) == Some(k)) && (|w| == 1 ==> One(w[0]) == Some(k))
  {
    if SymbolSpelling(k) != "" {
      SymbolRead(k, ' ', ' ');
    }
  }

  /** The symbol read spells what is there. */
  lemma SymbolSpelled(s: string, pos: nat)
    requires SymbolAt(s, pos).Some?
    ensures var r := SymbolAt(s, pos).value; |SymbolSpelling(r.0)| == r.1 && GoesOn(s, pos, SymbolSpelling(r.0))
  {
    hide Three, Two, One, SymbolSpelling, GoesOn;
    SymbolFits(s, pos);
    var a, b, c := At(s, pos), At(s, pos + 1), At(s, pos + 2);
    ThreeSpelled(a, b, c);
    TwoSpelled(a, b);
    OneSpelled(a);
    LettersOf(s, pos, SymbolSpelling(SymbolAt(s, pos).value.0));
  }

  /** No longer symbol is there, and if any is, one is read. */
  lemma SymbolLongest(s: string, pos: nat, k: Token)
    requires SymbolSpelling(k) != "" && GoesOn(s, pos, SymbolSpelling(k))
    ensures SymbolAt(s, pos).Some? && |SymbolSpelling(k)| <= SymbolAt(s, pos).value.1
  {
    hide Three, Two, One, SymbolSpelling, GoesOn;
    var w := SymbolSpelling(k);
    LettersOf(s, pos, w);
    SpellingLength(k);
    SymbolParts(k);
  }

  predicate StartsSymbol(c: char) {
    !IsDigit(c) && !IsIdentStart(c) && !IsSpace(c)
  }

  /** In any text, where no word, numeral or white space begins: the token is the longest symbol the text goes on
    * with, and its piece is spelled so; there is a stray run exactly where no symbol is. */
  lemma LongestSymbol(s: string, pos: nat)
    requires pos < |s| && StartsSymbol(s[pos])
    ensures var p := PieceAt(s, pos);
            p.token.Undefined? || (SymbolSpelling(p.token) != "" && s[pos..p.end] == SymbolSpelling(p.token))
    ensures var p := PieceAt(s, pos);
            forall k: Token :: SymbolSpelling(k) != "" && GoesOn(s, pos, SymbolSpelling(k)) ==>
              !p.token.Undefined? && pos + |SymbolSpelling(k)| <= p.end
  {
    hide SymbolAt, GoesOn, SymbolSpelling, RunEnd;
    if SymbolAt(s, pos).Some? {
      SymbolSpelled(s, pos);
      SymbolFits(s, pos);
      SpelledHere(s, pos, SymbolSpelling(SymbolAt(s, pos).value.0));
      NotStray(SymbolAt(s, pos).value.0);
    }
    forall k: Token | SymbolSpelling(k) != "" && GoesOn(s, pos, SymbolSpelling(k))
      ensures !PieceAt(s, pos).token.Undefined? && pos + |SymbolSpelling(k)| <= PieceAt(s, pos).end
    {
      SymbolLongest(s, pos, k);
    }
  }

  lemma SpelledHere(s: string, pos: nat, w: string)
    requires GoesOn(s, pos, w)
    ensures pos + |w| <= |s| && s[pos..pos + |w|] == w
  {}

  lemma NotStray(k: Token)
    ensures |SymbolSpelling(k)| > 0 ==> !k.Undefined?
  {}

  // ---------------------------------------------------------------- words

  lemma ShortWord(w: string)
    requires |w| <= 3
    ensures KeywordOf(w).Ident? || WordSpelling(KeywordOf(w)) == w
  {}

  lemma LongWord(w: string)
    requires |w| > 3
    ensures KeywordOf(w).Ident? || WordSpelling(KeywordOf(w)) == w
  {}

  lemma NameKept(w: string)
    ensures KeywordOf(w).Ident? ==> KeywordOf(w).name == w
  {}

  /** In any text, a word goes on to the next character that cannot be part of it, and its token spells it, as far
    * as a token holds it. */
  lemma WholeWord(s: string, pos: nat)
    requires pos < |s| && IsIdentStart(s[pos])
    ensures var p := PieceAt(s, pos);
            (forall k :: pos <= k < p.end ==> IsIdentChar(s[k])) && (p.end < |s| ==> !IsIdentChar(s[p.end])) &&
            WordSpelling(p.token) == if p.end - pos <= VALUE_MAX then s[pos..p.end] else s[pos..pos + VALUE_MAX]
  {
    hide KeywordOf, WordSpelling;
    var e := WordEnd(s, pos);
    var w := Clipped(s[pos..e]);
    if |w| <= 3 {
      ShortWord(w);
    } else {
      LongWord(w);
    }
    NameKept(w);
    NameSpelled(KeywordOf(w));
    NoLetterAtEnd(s, pos);
    if e - pos > VALUE_MAX {
      assert s[pos..e][..VALUE_MAX] == s[pos..pos + VALUE_MAX];
    }
  }

  lemma NameSpelled(k: Token)
    ensures k.Ident? ==> WordSpelling(k) == k.name
  {}

  lemma NoLetterAtEnd(s: string, pos: nat)
    requires pos < |s| && IsIdentStart(s[pos])
    ensures PieceAt(s, pos).token == KeywordOf(Clipped(s[pos..WordEnd(s, pos)]))
    ensures PieceAt(s, pos).end == WordEnd(s, pos)
  {
    hide KeywordOf;
  }

  // ---------------------------------------------------------------- numerals

  const DIGITS: string := "0123456789abcdef"
  const CAPITALS: string := "0123456789ABCDEF"

  /** The digits of a number, the highest first, each by its place in the list of digits. */
  function Numeral(n: nat, radix: nat): (w: string)
    requires 2 <= radix <= 16
    ensures |w| > 0
    decreases n
  {
    Divided(n, radix);
    if n < radix then [DIGITS[n]] else Numeral(n / radix, radix) + [DIGITS[n % radix]]
  }

  lemma Divided(n: nat, radix: nat)
    requires radix >= 2
    ensures 0 <= n % radix < radix && n == n / radix * radix + n % radix
    ensures n >= radix ==> n / radix < n
  {
    var q := n / radix;
    assert n == radix * q + n % radix;
    if q >= 1 {
      MulMonotone(q, 2, radix);
    }
  }

  predicate EitherCase(c: char, d: char) {
    exists i :: 0 <= i < 16 && d == DIGITS[i] && (c == DIGITS[i] || c == CAPITALS[i])
  }

  /** `t` is `w` with letters of either case, and with underscores anywhere. */
  predicate Writes(t: string, w: string) {
    if |t| == 0 then |w| == 0
    else
      var c := t[|t| - 1];
      if c == '_' then Writes(t[..|t| - 1], w)
      else |w| > 0 && EitherCase(c, w[|w| - 1]) && Writes(t[..|t| - 1], w[..|w| - 1])
  }

  lemma DigitByPlace(i: nat)
    requires i < 16
    ensures ValueOfDigit(DIGITS[i]) == i && ValueOfDigit(CAPITALS[i]) == i
    ensures IsIdentChar(DIGITS[i]) && IsIdentChar(CAPITALS[i]) && DIGITS[i] != '_' && CAPITALS[i] != '_'
  {}

  lemma DigitValue(c: char, i: nat)
    requires i < 16 && EitherCase(c, DIGITS[i])
    ensures ValueOfDigit(c) == i && c != '_'
  {
    hide ValueOfDigit, IsIdentChar;
    DigitByPlace(i);
    var j :| 0 <= j < 16 && DIGITS[i] == DIGITS[j] && (c == DIGITS[j] || c == CAPITALS[j]);
    DigitByPlace(j);
  }

  predicate DigitsOf(t: string, radix: nat) {
    forall k :: 0 <= k < |t| ==> t[k] == '_' || IsDigitOf(t[k], radix)
  }

  lemma NumeralLast(n: nat, radix: nat)
    requires 2 <= radix <= 16
    ensures var w := Numeral(n, radix);
            w[|w| - 1] == DIGITS[n % radix] &&
            (n >= radix ==> w[..|w| - 1] == Numeral(n / radix, radix)) && (n < radix ==> |w| == 1 && n % radix == n)
  {
    if n < radix {
      ModSmall(n, radix);
    }
  }

  /** Digits and underscores of a number are read as it. */
  lemma {:induction false} WrittenNumber(t: string, n: nat, radix: nat)
    requires 2 <= radix <= 16 && Writes(t, Numeral(n, radix))
    ensures NumberOf(t, radix) == n && DigitsOf(t, radix) && HasDigit(t)
    decreases |t|
  {
    hide Numeral, EitherCase, ValueOfDigit;
    Divided(n, radix);
    var w := Numeral(n, radix);
    var c, rest := t[|t| - 1], t[..|t| - 1];
    if c == '_' {
      WrittenNumber(rest, n, radix);
      DigitInside(t);
    } else {
      NumeralLast(n, radix);
      DigitValue(c, n % radix);
      if n < radix {
        assert w[..|w| - 1] == "";
        OnlyUnderscores(rest, radix);
      } else {
        WrittenNumber(rest, n / radix, radix);
      }
      assert t[|t| - 1] != '_';
    }
  }

  lemma DigitInside(t: string)
    requires |t| > 0 && HasDigit(t[..|t| - 1])
    ensures HasDigit(t)
  {
    var k :| 0 <= k < |t| - 1 && t[..|t| - 1][k] != '_';
    assert t[k] != '_';
  }

  lemma {:induction false} OnlyUnderscores(t: string, radix: nat)
    requires Writes(t, "")
    ensures NumberOf(t, radix) == 0 && forall k :: 0 <= k < |t| ==> t[k] == '_'
    decreases |t|
  {
    if |t| > 0 {
      OnlyUnderscores(t[..|t| - 1], radix);
    }
  }

  lemma {:induction false} DigitsEndBefore(s: string, pos: nat, e: nat, radix: nat)
    requires pos <= e <= |s| && radix <= 16 && !IsIdentChar(At(s, e))
    requires forall k :: pos <= k < e ==> s[k] == '_' || IsDigitOf(s[k], radix)
    ensures DigitsEnd(s, pos, radix) == e
    decreases e - pos
  {
    if pos < e {
      DigitsEndBefore(s, pos + 1, e, radix);
    }
  }

  /** The prefix of a numeral, and the base it stands for. */
  predicate Prefix(w: string, radix: nat) {
    (radix == 16 && (w == "0x" || w == "0X")) || (radix == 2 && (w == "0b" || w == "0B")) || (radix == 10 && w == "")
  }

  /** A numeral of base 16, 2 or 10, in either case and with underscores anywhere behind the prefix (and, without
    * one, behind the first digit), is read as its value modulo 2^64, up to the first character that cannot be
    * part of a word. */
  lemma NumeralRead(s: string, pos: nat, prefix: string, t: string, n: nat, radix: nat)
    requires Prefix(prefix, radix) && Writes(t, Numeral(n, radix)) && (radix == 10 ==> |t| > 0 && t[0] != '_')
    requires GoesOn(s, pos, prefix + t) && !IsIdentChar(At(s, pos + |prefix| + |t|))
    ensures pos < |s| && PieceAt(s, pos) == Piece(Integer(n % WORD), pos, pos + |prefix| + |t|)
  {
    hide Writes, Numeral, NumberOf, HasDigit, ValueOfDigit, Stray, WordPiece, SymbolPiece;
    WrittenNumber(t, n, radix);
    var e := pos + |prefix| + |t|;
    LettersOf(s, pos, prefix + t);
    PrefixRead(s, pos, prefix, t, radix);
    forall k | pos + |prefix| <= k < e ensures s[k] == t[k - pos - |prefix|] {
      assert s[pos + (k - pos)] == (prefix + t)[k - pos];
    }
    DigitsEndBefore(s, pos + |prefix|, e, radix);
    assert s[pos + |prefix|..e] == t;
  }

  lemma PrefixRead(s: string, pos: nat, prefix: string, t: string, radix: nat)
    requires Prefix(prefix, radix) && DigitsOf(t, radix) && HasDigit(t) && (radix == 10 ==> |t| > 0 && t[0] != '_')
    requires pos + |prefix| + |t| <= |s| && !IsIdentChar(At(s, pos + |prefix| + |t|))
    requires forall i :: 0 <= i < |prefix + t| ==> s[pos + i] == (prefix + t)[i]
    ensures pos < |s| && IsDigit(s[pos]) && Radix(s, pos) == radix && DigitsStart(s, pos) == pos + |prefix|
  {
    assert |t| > 0;
    assert s[pos + 0] == (prefix + t)[0];
    if radix != 10 {
      assert s[pos + 1] == (prefix + t)[1];
    } else {
      assert IsDigitOf(t[0], 10);
      if |t| > 1 {
        assert s[pos + 1] == (prefix + t)[1] == t[1];
        assert t[1] == '_' || IsDigitOf(t[1], 10);
      } else {
        assert At(s, pos + 1) == At(s, pos + |prefix| + |t|);
      }
    }
  }

  /** Every number has such a numeral in each base: its digits. */
  lemma {:induction false} PlainNumeral(n: nat, radix: nat)
    requires 2 <= radix <= 16
    ensures Writes(Numeral(n, radix), Numeral(n, radix))
    decreases n
  {
    hide EitherCase, Numeral, ValueOfDigit, IsIdentChar;
    Divided(n, radix);
    var w := Numeral(n, radix);
    NumeralLast(n, radix);
    SameCase(n % radix);
    DigitByPlace(n % radix);
    if n >= radix {
      PlainNumeral(n / radix, radix);
    } else {
      assert w[..|w| - 1] == "";
    }
  }

  lemma SameCase(i: nat)
    requires i < 16
    ensures EitherCase(DIGITS[i], DIGITS[i])
  {}
}
