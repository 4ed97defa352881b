/** The integer functions of the standard library under the fixed-width arithmetic they run with. */
module StdMath {
  import opened Values
  import opened Arith

  const MIN := -0x8000_0000_0000_0000
  const WORD := 0x1_0000_0000_0000_0000

  // ---------------------------------------------------------------- powers

  function Power(b: int, n: nat): int {
    if n == 0 then 1 else b * Power(b, n - 1)
  }

  lemma Associates(a: int, b: int, c: int)
    ensures (a * b) * c == a * (b * c)
  {}

  lemma {:induction false} PowerOfSquare(b: int, n: nat)
    ensures Power(b * b, n) == Power(b, 2 * n)
    decreases n
  {
    if n > 0 {
      PowerOfSquare(b, n - 1);
      assert Power(b, 2 * n) == b * Power(b, 2 * n - 1) == b * (b * Power(b, 2 * n - 2));
      Associates(b, b, Power(b, 2 * n - 2));
    }
  }

  lemma ModTimes(a: int, b: int, c: int, m: int)
    requires m > 0 && a % m == b % m
    ensures (a * c) % m == (b * c) % m
  {
    ModArith(a, c, m);
    ModArith(b, c, m);
  }

  lemma {:induction false} PowerMod(a: int, b: int, n: nat, m: int)
    requires m > 0 && a % m == b % m
    ensures Power(a, n) % m == Power(b, n) % m
    decreases n
  {
    if n > 0 {
      PowerMod(a, b, n - 1, m);
      ModTimes(a, b, Power(a, n - 1), m);
      ModTimes(Power(a, n - 1), Power(b, n - 1), b, m);
      Commutes(b, Power(a, n - 1));
      Commutes(b, Power(b, n - 1));
    }
  }

  lemma Commutes(a: int, b: int)
    ensures a * b == b * a
  {}

  lemma WrapMod(v: int)
    ensures InRange(I64, Wrap(I64, v)) && Wrap(I64, v) % WORD == v % WORD
  {
    WrapInRange(I64, v);
  }

  lemma WrapUnique(v: int, w: int)
    requires InRange(I64, v) && v % WORD == w % WORD
    ensures v == Wrap(I64, w)
  {
    WrapOfInRange(I64, v);
  }

  /** One round: the product of the result and the power of the base stays the same. */
  lemma Round(result: int, b: int, exp: nat)
    requires exp > 0
    ensures var r := if exp / 2 * 2 != exp then Wrap(I64, result * b) else result;
            (r * Power(Wrap(I64, b * b), exp / 2)) % WORD == (result * Power(b, exp)) % WORD
  {
    hide Power;
    var h := exp / 2;
    var p, q := Power(Wrap(I64, b * b), h), Power(b, 2 * h);
    WrapMod(b * b);
    PowerMod(Wrap(I64, b * b), b * b, h, WORD);
    PowerOfSquare(b, h);
    if h * 2 != exp {
      WrapMod(result * b);
      ModTimes(Wrap(I64, result * b), result * b, p, WORD);
      Scaled(result * b, p, q);
      Associates(result, b, q);
      PowerNext(b, 2 * h);
    } else {
      Scaled(result, p, q);
    }
  }

  lemma PowerNext(b: int, n: nat)
    ensures Power(b, n + 1) == b * Power(b, n)
  {}

  lemma Scaled(a: int, p: int, q: int)
    requires p % WORD == q % WORD
    ensures (a * p) % WORD == (a * q) % WORD
  {
    ModTimes(p, q, a, WORD);
    Commutes(a, p);
    Commutes(a, q);
  }

  /** The power, wrapped to 64 bits, for every base and exponent. */
  method Pow(base: int, exp: int) returns (result: int)
    requires InRange(I64, base) && InRange(U64, exp)
    ensures result == Wrap(I64, Power(base, exp))
  {
    hide Power, Wrap;
    var b, e: nat := base, exp;
    result := 1;
    WrapUnique(1, 1);
    while e > 0
      invariant InRange(I64, result) && (result * Power(b, e)) % WORD == Power(base, exp) % WORD
      decreases e
    {
      Round(result, b, e);
      var h := e / 2;
      if h * 2 != e {
        WrapMod(result * b);
        result := Wrap(I64, result * b);
      }
      b := Wrap(I64, b * b);
      e := h;
    }
    PowerZero(b);
    WrapUnique(result, Power(base, exp));
  }

  lemma PowerZero(b: int)
    ensures Power(b, 0) == 1
  {}

  // ---------------------------------------------------------------- absolute value

  /** The absolute value as an unsigned 64-bit integer, the minimum included. */
  method AbsoluteValue(n: int) returns (r: int)
    requires InRange(I64, n)
    ensures r == Abs(n) && InRange(U64, r)
  {
    if n < 0 {
      WrapOfInRange(I64, n + 1);
      WrapOfInRange(I64, -(n + 1));
      WrapOfInRange(U64, -(n + 1));
      WrapOfInRange(U64, -(n + 1) + 1);
      r := Wrap(U64, Convert(U64, ApplyUnary(Negate, I64, Wrap(I64, n + 1))) + 1);
    } else {
      WrapOfInRange(U64, n);
      r := Convert(U64, n);
    }
  }

  // ---------------------------------------------------------------- greatest common divisor

  ghost predicate Divides(d: int, n: int) {
    exists k: int :: n == d * k
  }

  function Gcd(a: nat, b: nat): (g: nat)
    ensures a > 0 || b > 0 ==> g > 0
    decreases b
  {
    if b == 0 then a else Gcd(b, a % b)
  }

  lemma DividesTimes(d: int, n: int, k: int)
    requires Divides(d, n)
    ensures Divides(d, n * k)
  {
    var q :| n == d * q;
    Associates(d, q, k);
    assert n * k == d * (q * k);
  }

  lemma DividesSum(d: int, m: int, n: int)
    requires Divides(d, m) && Divides(d, n)
    ensures Divides(d, m + n)
  {
    var p :| m == d * p;
    var q :| n == d * q;
    assert m + n == d * (p + q);
  }

  lemma {:induction false} GcdDivides(a: nat, b: nat)
    ensures Divides(Gcd(a, b), a) && Divides(Gcd(a, b), b)
    decreases b
  {
    hide Divides;
    if b == 0 {
      DividesSelf(a);
    } else {
      GcdDivides(b, a % b);
      DividesTimes(Gcd(a, b), b, a / b);
      DividesSum(Gcd(a, b), b * (a / b), a % b);
      assert a == b * (a / b) + a % b;
    }
  }

  lemma DividesSelf(a: int)
    ensures Divides(a, a) && Divides(a, 0)
  {
    assert a == a * 1 && 0 == a * 0;
  }

  lemma {:induction false} Bezout(a: nat, b: nat) returns (u: int, v: int)
    ensures Gcd(a, b) == u * a + v * b
    decreases b
  {
    if b == 0 {
      u, v := 1, 0;
    } else {
      var s, t := Bezout(b, a % b);
      u, v := t, s - t * (a / b);
      BezoutStep(a, b, s, t);
    }
  }

  lemma BezoutStep(a: nat, b: nat, s: int, t: int)
    requires b > 0
    ensures t * a + (s - t * (a / b)) * b == s * b + t * (a % b)
  {
    var q, r := a / b, a % b;
    assert a == b * q + r;
    Associates(t, q, b);
    assert t * (b * q + r) == t * (q * b) + t * r;
    assert (s - t * q) * b == s * b - (t * q) * b;
  }

  /** `g` is a common divisor that every common divisor divides. */
  ghost predicate GreatestCommon(g: int, a: int, b: int) {
    Divides(g, a) && Divides(g, b) && forall d: int :: Divides(d, a) && Divides(d, b) ==> Divides(d, g)
  }

  lemma GcdIsGreatest(a: nat, b: nat)
    ensures GreatestCommon(Gcd(a, b), a, b)
  {
    hide Divides, Gcd;
    GcdDivides(a, b);
    var u, v := Bezout(a, b);
    forall d: int | Divides(d, a) && Divides(d, b) ensures Divides(d, Gcd(a, b)) {
      DividesTimes(d, a, u);
      DividesTimes(d, b, v);
      Commutes(a, u);
      Commutes(b, v);
      DividesSum(d, a * u, b * v);
    }
  }

  lemma DividesAbs(d: int, n: int)
    ensures Divides(d, Abs(n)) <==> Divides(d, n)
  {
    if Divides(d, n) {
      DividesTimes(d, n, -1);
    }
    if Divides(d, Abs(n)) {
      DividesTimes(d, Abs(n), -1);
    }
  }

  /** The remainder as the program computes it has the sign of the dividend. */
  function Remainder(a: int, b: int): (r: int)
    requires b != 0
  {
    a - TruncDiv(a, b) * b
  }

  lemma RemainderAbs(a: int, b: int)
    requires b != 0
    ensures Abs(Remainder(a, b)) == Abs(a) % Abs(b)
    ensures Remainder(a, b) != 0 ==> (Remainder(a, b) < 0 <==> a < 0)
    ensures Abs(TruncDiv(a, b) * b) <= Abs(a)
  {
    hide TruncDiv;
    var x: int, y: int := Abs(a), Abs(b);
    TruncTimes(a, b, x / y, y);
    Divided(x, y);
  }

  lemma Divided(x: int, y: int)
    requires x >= 0 && y > 0
    ensures x == y * (x / y) + x % y && 0 <= x % y && 0 <= y * (x / y)
  {
    MulMonotone(y, 0, x / y);
  }

  lemma TruncTimes(a: int, b: int, q: int, y: int)
    requires b != 0 && y == Abs(b) && q == Abs(a) / Abs(b)
    ensures TruncDiv(a, b) * b == if a < 0 then -(y * q) else y * q
  {
    assert (-q) * b == -(q * b) && (-q) * (-y) == q * y && q * (-y) == -(q * y);
  }

  /** What the loop of `gcd` comes to. */
  function Descent(a: int, b: int): int
    decreases Abs(b)
  {
    if b == 0 then a
    else
      RemainderAbs(a, b);
      Descent(b, Remainder(a, b))
  }

  lemma {:induction false} DescentAbs(a: int, b: int)
    ensures Abs(Descent(a, b)) == Gcd(Abs(a), Abs(b))
    decreases Abs(b)
  {
    if b != 0 {
      RemainderAbs(a, b);
      DescentAbs(b, Remainder(a, b));
    }
  }

  function Divisions(a: nat, b: nat): nat
    decreases b
  {
    if b == 0 then 0 else 1 + Divisions(b, a % b)
  }

  /** From operands that are not negative the loop stays there; from a negative dividend the signs take
    * turns, so the number of divisions decides. */
  lemma {:induction false} DescentSign(a: int, b: int)
    ensures a >= 0 && b >= 0 ==> Descent(a, b) >= 0
    ensures a < 0 && b >= 0 ==> (Descent(a, b) < 0 <==> Divisions(Abs(a), Abs(b)) % 2 == 0)
    ensures a > 0 && b <= 0 ==> (Descent(a, b) < 0 <==> Divisions(Abs(a), Abs(b)) % 2 == 1)
    decreases Abs(b)
  {
    if b != 0 {
      RemainderAbs(a, b);
      DescentSign(b, Remainder(a, b));
    }
  }

  /** An operand as the loop starts with it: its absolute value as an `i64`. */
  function Start(n: int): int {
    if n == MIN then MIN else Abs(n)
  }

  lemma StartIsCast(n: int)
    requires InRange(I64, n)
    ensures Convert(I64, Abs(n)) == Start(n) && InRange(I64, Start(n)) && Abs(Start(n)) == Abs(n)
  {
    if n == MIN {
      assert Abs(n) == 0x8000_0000_0000_0000;
      ModSmall(0x8000_0000_0000_0000, WORD);
    } else {
      WrapOfInRange(I64, Abs(n));
    }
  }

  /** The loop never divides the minimum by -1. */
  predicate Safe(a: int, b: int) {
    InRange(I64, a) && InRange(I64, b) && (a == MIN ==> b != -1) && (b == MIN ==> a >= 0 || a == MIN)
  }

  lemma SafeStep(a: int, b: int)
    requires Safe(a, b) && b != 0
    ensures Safe(b, Remainder(a, b)) && Abs(Remainder(a, b)) < Abs(b)
    ensures Apply(Div, I64, a, b) == Some(TruncDiv(a, b)) && Wrap(I64, TruncDiv(a, b) * b) == TruncDiv(a, b) * b
    ensures Wrap(I64, a - TruncDiv(a, b) * b) == Remainder(a, b)
  {
    hide Wrap, TruncDiv;
    SafeNext(a, b);
    QuotientInRange(a, b);
    WrapOfInRange(I64, TruncDiv(a, b) * b);
    WrapOfInRange(I64, Remainder(a, b));
  }

  lemma SafeNext(a: int, b: int)
    requires Safe(a, b) && b != 0
    ensures Safe(b, Remainder(a, b)) && Abs(Remainder(a, b)) < Abs(b)
  {
    hide Remainder;
    RemainderAbs(a, b);
    if a == MIN && b == MIN {
      OneDivision(a);
    }
  }

  lemma QuotientInRange(a: int, b: int)
    requires Safe(a, b) && b != 0
    ensures InRange(I64, TruncDiv(a, b)) && InRange(I64, TruncDiv(a, b) * b)
  {
    RemainderAbs(a, b);
    QuotientSmall(Abs(a), Abs(b));
    TruncTimes(a, b, Abs(a) / Abs(b), Abs(b));
  }

  lemma QuotientSmall(x: nat, y: nat)
    requires y > 0
    ensures x / y <= x && (y > 1 ==> 2 * (x / y) <= x)
  {
    var q, r := x / y, x % y;
    assert x == y * q + r;
    MulMonotone(q, if y > 1 then 2 else 1, y);
  }

  method GreatestCommonDivisor(first: int, second: int) returns (a: int)
    requires InRange(I64, first) && InRange(I64, second)
    ensures a == Descent(Start(first), Start(second)) && InRange(I64, a)
  {
    hide Wrap, Descent, Apply;
    var x := AbsoluteValue(first);
    var y := AbsoluteValue(second);
    StartIsCast(first);
    StartIsCast(second);
    a := Convert(I64, x);
    var b := Convert(I64, y);
    while b != 0
      invariant Safe(a, b) && Descent(a, b) == Descent(Start(first), Start(second))
      decreases Abs(b)
    {
      SafeStep(a, b);
      DescentStep(a, b);
      var q := Apply(Div, I64, a, b).value;
      var r := Wrap(I64, a - Wrap(I64, q * b));
      a := b;
      b := r;
    }
    DescentStep(a, b);
  }

  lemma DescentStep(a: int, b: int)
    ensures Descent(a, b) == if b == 0 then a else Descent(b, Remainder(a, b))
  {
    hide Remainder;
  }

  /** `gcd` gives a negative number for these operands. */
  predicate WrongSign(a: int, b: int) {
    (a == MIN && (b == MIN || Divisions(Abs(MIN), Abs(b)) % 2 == 0)) ||
    (a != MIN && b == MIN && Divisions(Abs(MIN), Abs(a)) % 2 == 0)
  }

  /** `gcd` is a greatest common divisor of all operands, and the positive one exactly if neither operand
    * is the minimum or the divisions from the minimum on are odd in number. */
  lemma GcdCorrect(a: int, b: int)
    requires InRange(I64, a) && InRange(I64, b)
    ensures var g := Descent(Start(a), Start(b)); GreatestCommon(Abs(g), a, b) && (g < 0 <==> WrongSign(a, b))
  {
    hide Divides, Descent, Gcd, Divisions;
    StartIsCast(a);
    StartIsCast(b);
    DescentAbs(Start(a), Start(b));
    GcdIsGreatest(Abs(a), Abs(b));
    DividesAbs(Gcd(Abs(a), Abs(b)), a);
    DividesAbs(Gcd(Abs(a), Abs(b)), b);
    forall d: int | Divides(d, a) && Divides(d, b) ensures Divides(d, Gcd(Abs(a), Abs(b))) {
      DividesAbs(d, a);
      DividesAbs(d, b);
    }
    DescentSign(Start(a), Start(b));
    if b == MIN {
      FromMinimum(a);
    }
  }

  /** With the minimum as divisor the first division only swaps the operands, or leaves nothing. */
  lemma FromMinimum(a: int)
    requires InRange(I64, a)
    ensures Descent(Start(a), MIN) < 0 <==> WrongSign(a, MIN)
  {
    hide Divisions, Descent, Remainder;
    StartIsCast(a);
    DescentStep(Start(a), MIN);
    if a == MIN {
      OneDivision(MIN);
      DescentStep(MIN, 0);
    } else {
      ModSmall(Abs(a), Abs(MIN));
      RemainderAbs(Start(a), MIN);
      DescentSign(MIN, Start(a));
    }
  }

  lemma OneDivision(a: int)
    requires a != 0
    ensures Remainder(a, a) == 0
  {
    assert TruncDiv(a, a) == 1;
  }

  /** So `gcd` of the minimum and 6 is -2. */
  lemma GcdOfMinimum()
    ensures WrongSign(MIN, 6) && Descent(Start(MIN), Start(6)) == -2
  {
    assert Remainder(MIN, 6) == -2;
    assert Remainder(6, -2) == 0;
    assert Descent(6, -2) == Descent(-2, 0) == -2;
    assert Divisions(Abs(MIN), 6) == 1 + Divisions(6, 2) == 2 + Divisions(2, 0);
  }

  // ---------------------------------------------------------------- least common multiple

  /** The least common multiple of two numbers that are not zero. */
  function Lcm(a: nat, b: nat): nat {
    if a == 0 || b == 0 then 0 else a / Gcd(a, b) * b
  }

  /** Dividing by the greatest common divisor leaves nothing over. */
  lemma GcdQuotients(a: nat, b: nat)
    requires a > 0 && b > 0
    ensures var g := Gcd(a, b); a == g * (a / g) && b == g * (b / g)
  {
    hide Gcd;
    GcdDivides(a, b);
    var g: int := Gcd(a, b);
    var p: int :| a == g * p;
    var q: int :| b == g * q;
    ModUnique(p, 0, g);
    ModUnique(q, 0, g);
    Commutes(g, p);
    Commutes(g, q);
  }

  /** A common multiple that divides every common multiple. */
  lemma LcmIsLeast(a: nat, b: nat)
    requires a > 0 && b > 0
    ensures Lcm(a, b) > 0 && Divides(a, Lcm(a, b)) && Divides(b, Lcm(a, b))
    ensures forall m: int :: Divides(a, m) && Divides(b, m) ==> Divides(Lcm(a, b), m)
  {
    hide Gcd, Divides;
    GcdQuotients(a, b);
    var g, x, y: int := Gcd(a, b), a / Gcd(a, b), b / Gcd(a, b);
    DividesSelf(a);
    DividesSelf(b);
    Associates(x, g, y);
    Commutes(x, g);
    DividesTimes(a, a, y);
    DividesTimes(b, b, x);
    Commutes(b, x);
    assert Lcm(a, b) == x * b == a * y;
    Positive(x, b, a, g);
    forall m: int | Divides(a, m) && Divides(b, m) ensures Divides(Lcm(a, b), m) {
      CommonMultiple(a, b, g, x, y, m);
    }
  }

  lemma Positive(x: int, b: int, a: int, g: int)
    requires a > 0 && b > 0 && g > 0 && a == g * x
    ensures x > 0 && x * b > 0
  {
    if x <= 0 {
      MulMonotone(g, x, 0);
    }
    MulMonotone(b, 1, x);
  }

  lemma CommonMultiple(a: nat, b: nat, g: int, x: int, y: int, m: int)
    requires a > 0 && b > 0 && g == Gcd(a, b) && a == g * x && b == g * y && Divides(a, m) && Divides(b, m)
    ensures Divides(x * b, m)
  {
    hide Gcd;
    var u, v := Bezout(a, b);
    var i: int :| m == a * i;
    var j: int :| m == b * j;
    MultipleParts(a, b, g, x, y, m, u, v, i, j);
    assert m == (x * b) * (u * j + v * i);
  }

  lemma MultipleParts(a: int, b: int, g: int, x: int, y: int, m: int, u: int, v: int, i: int, j: int)
    requires g > 0 && a == g * x && b == g * y && g == u * a + v * b && m == a * i && m == b * j
    ensures m == (x * b) * (u * j + v * i)
  {
    // g * m == u * a * m + v * b * m == u * a * b * j + v * b * a * i == g * (x * b) * (u * j + v * i)
    assert g * m == (u * a) * m + (v * b) * m;
    Rearranged(u, a, b, j);
    Rearranged(v, b, a, i);
    assert (u * a) * m == (a * b) * (u * j);
    assert (v * b) * m == (a * b) * (v * i);
    assert (a * b) * (u * j) + (a * b) * (v * i) == (a * b) * (u * j + v * i);
    Associates(g, x, b);
    Associates(g, x * b, u * j + v * i);
    Cancel(g, m, (x * b) * (u * j + v * i));
  }

  lemma Rearranged(u: int, a: int, b: int, j: int)
    ensures (u * a) * (b * j) == (a * b) * (u * j) == (b * a) * (u * j)
  {
    assert (u * a) * (b * j) == a * b * u * j;
  }

  lemma Cancel(g: int, m: int, n: int)
    requires g > 0 && g * m == g * n
    ensures m == n
  {
    if m < n {
      MulMonotone(g, m + 1, n);
    }
    if n < m {
      MulMonotone(g, n + 1, m);
    }
  }

  lemma AbsTimes(q: int, b: int)
    ensures Abs(q * b) == Abs(q) * Abs(b)
  {
    assert (-q) * b == -(q * b) && (-q) * (-b) == q * b && q * (-b) == -(q * b);
    if q >= 0 {
      MulMonotone(q, 0, Abs(b));
    } else {
      MulMonotone(-q, 0, Abs(b));
    }
  }

  /** No operand is above the least common multiple. */
  lemma LcmIsLarge(a: nat, b: nat)
    requires a > 0 && b > 0
    ensures Lcm(a, b) >= a
  {
    hide Lcm, Divides;
    LcmIsLeast(a, b);
    DividedIsLess(a, Lcm(a, b));
  }

  lemma DividedIsLess(d: nat, n: int)
    requires n > 0 && d > 0 && Divides(d, n)
    ensures d <= n
  {
    var k: int :| n == d * k;
    if k <= 0 {
      MulMonotone(d, k, 0);
    } else {
      MulMonotone(d, 1, k);
    }
  }

  /** The product before the last step, when the least common multiple fits. */
  lemma ProductFits(a: int, b: int, g: int)
    requires InRange(I64, a) && InRange(I64, b) && a != 0 && b != 0 && Abs(g) == Gcd(Abs(a), Abs(b)) &&
             Lcm(Abs(a), Abs(b)) < 0x8000_0000_0000_0000
    ensures g != 0 && Apply(Div, I64, a, g) == Some(TruncDiv(a, g)) && a != MIN
    ensures InRange(I64, TruncDiv(a, g) * b) && Abs(TruncDiv(a, g) * b) == Lcm(Abs(a), Abs(b))
  {
    hide Gcd;
    LcmIsLarge(Abs(a), Abs(b));
    AbsTimes(TruncDiv(a, g), b);
    QuotientSmall(Abs(a), Abs(g));
  }

  /** The least common multiple, exactly if an `i64` can hold it. There is no result, the division
    * having overflowed, exactly for the minimum with a `gcd` of -1. */
  method LeastCommonMultiple(a: int, b: int) returns (r: Option<int>)
    requires InRange(I64, a) && InRange(I64, b)
    ensures r == Some(Lcm(Abs(a), Abs(b))) <==> Lcm(Abs(a), Abs(b)) < 0x8000_0000_0000_0000
    ensures r.Some? ==> InRange(I64, r.value)
    ensures r.None? <==> a == MIN && b != 0 && Descent(Start(a), Start(b)) == -1
  {
    hide Wrap, Descent, Gcd, Lcm;
    if a == 0 || b == 0 {
      NoMultiple(Abs(a), Abs(b));
      return Some(0);
    }
    var g := GreatestCommonDivisor(a, b);
    StartIsCast(a);
    StartIsCast(b);
    DescentAbs(Start(a), Start(b));
    QuotientSmall(Abs(a), Abs(g));
    if Lcm(Abs(a), Abs(b)) < 0x8000_0000_0000_0000 {
      ProductFits(a, b, g);
      WrapOfInRange(I64, TruncDiv(a, g) * b);
    }
    var q := Apply(Div, I64, a, g);
    if q.None? {
      return None;
    }
    WrapMod(q.value * b);
    var n := AbsoluteValue(Wrap(I64, q.value * b));
    StartIsCast(Wrap(I64, q.value * b));
    r := Some(Convert(I64, n));
  }

  lemma NoMultiple(a: nat, b: nat)
    ensures a == 0 || b == 0 ==> Lcm(a, b) == 0
  {}
}
