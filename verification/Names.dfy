/** Names written by the compiler: decimal numbers, `name@id` for a variable and `tN` for a
  * temporary. Frame layout and code generation tell operands apart by these strings. */
module Names {

  function Digit(d: nat): char
    requires d < 10
  {
    "0123456789"[d]
  }

  predicate IsDigit(c: char) {
    '0' <= c <= '9'
  }

  function DigitValue(c: char): nat
    requires IsDigit(c)
  {
    (c as int) - ('0' as int)
  }

  predicate AllDigits(s: string) {
    forall i :: 0 <= i < |s| ==> IsDigit(s[i])
  }

  /** The decimal spelling of a number, as `%zu` prints it. */
  function Decimal(n: nat): (s: string)
    ensures |s| > 0 && AllDigits(s)
    ensures s[0] == '0' <==> n == 0
  {
    if n < 10 then [Digit(n)] else Decimal(n / 10) + [Digit(n % 10)]
  }

  /** The number a string of decimal digits spells, as `strtoull` reads it. */
  function ParseDecimal(s: string): nat
    requires AllDigits(s)
  {
    if |s| == 0 then 0 else ParseDecimal(s[..|s| - 1]) * 10 + DigitValue(s[|s| - 1])
  }

  lemma {:induction false} ParseOfDecimal(n: nat)
    ensures ParseDecimal(Decimal(n)) == n
  {
    if n >= 10 {
      ParseOfDecimal(n / 10);
      assert Decimal(n)[..|Decimal(n)| - 1] == Decimal(n / 10);
    }
  }

  lemma DecimalInjective(m: nat, n: nat)
    requires Decimal(m) == Decimal(n)
    ensures m == n
  {
    ParseOfDecimal(m);
    ParseOfDecimal(n);
  }

  function Power10(k: nat): (p: nat)
    ensures p > 0
  {
    if k == 0 then 1 else 10 * Power10(k - 1)
  }

  /** A number below 10^k has at most k digits. */
  lemma {:induction false} DecimalLength(n: nat, k: nat)
    requires k > 0 && n < Power10(k)
    ensures |Decimal(n)| <= k
  {
    assert Power10(1) == 10;
    if n >= 10 {
      DecimalLength(n / 10, k - 1);
    }
  }

  /** `sf_mangle_variable`: the name of a resolved variable. */
  function MangleVariable(name: string, id: nat): string {
    name + "@" + Decimal(id)
  }

  function TemporaryName(id: nat): string {
    "t" + Decimal(id)
  }

  /** The id is what follows the last '@'. */
  lemma LastAt(name: string, id: nat)
    ensures MangleVariable(name, id)[|name|] == '@'
    ensures forall i :: |name| < i < |MangleVariable(name, id)| ==> MangleVariable(name, id)[i] != '@'
  {
    var s, d := MangleVariable(name, id), Decimal(id);
    forall i | |name| < i < |s| ensures s[i] != '@' {
      assert s[i] == d[i - |name| - 1];
    }
  }

  /** Distinct variables have distinct mangled names, whatever characters the names hold. */
  lemma MangleInjective(name1: string, id1: nat, name2: string, id2: nat)
    requires MangleVariable(name1, id1) == MangleVariable(name2, id2)
    ensures name1 == name2 && id1 == id2
  {
    var s := MangleVariable(name1, id1);
    LastAt(name1, id1);
    LastAt(name2, id2);
    assert |name1| == |name2|;
    assert name1 == s[..|name1|] && name2 == s[..|name2|];
    assert Decimal(id1) == s[|name1| + 1..] && Decimal(id2) == s[|name2| + 1..];
    DecimalInjective(id1, id2);
  }

  /** No variable is ever taken for a temporary. */
  lemma VariableIsNotTemporary(name: string, id: nat, temp: nat)
    ensures MangleVariable(name, id) != TemporaryName(temp)
  {
    LastAt(name, id);
    var t, d := TemporaryName(temp), Decimal(temp);
    forall i | 0 <= i < |t| ensures t[i] != '@' {
      assert i == 0 || t[i] == d[i - 1];
    }
  }

  lemma TemporaryInjective(a: nat, b: nat)
    requires TemporaryName(a) == TemporaryName(b)
    ensures a == b
  {
    assert Decimal(a) == TemporaryName(a)[1..];
    assert Decimal(b) == TemporaryName(b)[1..];
    DecimalInjective(a, b);
  }
}
