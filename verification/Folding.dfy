/** Constant evaluation agrees with the machine type: an accepted constant expression that the
  * 64-bit evaluator takes to `v` evaluates to `v` at its 8, 16, 32 or 64-bit type too. */
module Folding {
  import opened Values
  import opened Arith
  import opened Scopes
  import opened Constants
  import opened Analysis
  import C = Checked
  import S = Syntax

  // ---------------------------------------------------------------- bitwise operations at two widths

  /** The operation on two's complement numbers of `m` bits and a sign. */
  function SignedBits(k: BitKind, m: nat, a: int, b: int): int {
    if m == 0 then -BitOne(k, a % 2, b % 2) else BitOne(k, a % 2, b % 2) + 2 * SignedBits(k, m - 1, a / 2, b / 2)
  }

  /** A two's complement number of `m` bits and a sign. */
  predicate InBits(m: nat, a: int) {
    0 <= a + Pow2(m) && a < Pow2(m)
  }

  lemma {:induction false} SignedBitsBound(k: BitKind, m: nat, a: int, b: int)
    ensures InBits(m, SignedBits(k, m, a, b))
  {
    if m > 0 {
      SignedBitsBound(k, m - 1, a / 2, b / 2);
    }
  }

  lemma {:induction false} BitsOfSigns(k: BitKind, n: nat, a: int, b: int)
    requires -1 <= a <= 0 && -1 <= b <= 0
    ensures Bits(k, n, a, b) == BitOne(k, a % 2, b % 2) * (Pow2(n) - 1)
  {
    if n > 0 {
      BitsOfSigns(k, n - 1, a, b);
    }
  }

  /** In a register of at least as many bits the result is the same number, up to the sign. */
  lemma {:induction false} BitsAreSigned(k: BitKind, n: nat, m: nat, a: int, b: int)
    requires m <= n && InBits(m, a) && InBits(m, b)
    ensures var v := SignedBits(k, m, a, b); Bits(k, n, a, b) == v || Bits(k, n, a, b) == v + Pow2(n)
  {
    if m == 0 {
      BitsOfSigns(k, n, a, b);
    } else {
      BitsAreSigned(k, n - 1, m - 1, a / 2, b / 2);
    }
  }

  /** Only the low bits of the operands count. */
  lemma {:induction false} BitsOfPattern(k: BitKind, n: nat, a: int, b: int, p: int, q: int)
    requires a == b + p * Pow2(n)
    ensures Bits(k, n, a, q) == Bits(k, n, b, q) && Bits(k, n, q, a) == Bits(k, n, q, b)
  {
    if n > 0 {
      var h := p * Pow2(n - 1);
      assert a == b + 2 * h by {
        assert p * Pow2(n) == p * (2 * Pow2(n - 1));
      }
      HalfShift(a, b, h);
      BitsOfPattern(k, n - 1, a / 2, b / 2, p, q / 2);
    }
  }

  lemma HalfShift(a: int, b: int, h: int)
    requires a == b + 2 * h
    ensures a % 2 == b % 2 && a / 2 == b / 2 + h
  {}

  lemma HalfOfModulus(t: ValueType)
    requires IsInteger(t)
    ensures Pow2(WidthBits(t)) == Modulus(WidthBytes(t)) && Pow2(WidthBits(t) - 1) == Modulus(WidthBytes(t)) / 2
  {
    Pow2Sizes();
    assert Pow2(WidthBits(t)) == 2 * Pow2(WidthBits(t) - 1);
  }

  lemma QuotientRest(a: int, m: int)
    requires m > 0
    ensures a == a % m + (a / m) * m
  {}

  lemma PatternBits(k: BitKind, t: ValueType, a: int, b: int)
    requires IsInteger(t)
    ensures Bits(k, WidthBits(t), Encode(t, a), Encode(t, b)) == Bits(k, WidthBits(t), a, b)
  {
    hide Modulus, Bits, WidthBits, WidthBytes, Pow2;
    HalfOfModulus(t);
    var n, m := WidthBits(t), Modulus(WidthBytes(t));
    QuotientRest(a, m);
    QuotientRest(b, m);
    BitsOfPattern(k, n, a, Encode(t, a), a / m, Encode(t, b));
    BitsOfPattern(k, n, b, Encode(t, b), b / m, a);
  }

  lemma SignedAtWidth(k: BitKind, t: ValueType, m: nat, a: int, b: int)
    requires IsSigned(t) && m < WidthBits(t) && InBits(m, a) && InBits(m, b)
    ensures BitwiseOp(k, t, a, b) == SignedBits(k, m, a, b)
  {
    hide Bits, Encode, SignedBits;
    var n := WidthBits(t);
    PatternBits(k, t, a, b);
    BitsAreSigned(k, n, m, a, b);
    SignedBitsBound(k, m, a, b);
    HalfOfModulus(t);
    PowGrows(m, n - 1);
  }

  lemma {:induction false} PowGrows(m: nat, n: nat)
    requires m <= n
    ensures Pow2(m) <= Pow2(n)
  {
    if m < n {
      PowGrows(m, n - 1);
    }
  }

  lemma {:induction false} UnsignedAtWidth(k: BitKind, n: nat, m: nat, a: int, b: int)
    requires m <= n && 0 <= a < Pow2(m) && 0 <= b < Pow2(m)
    ensures Bits(k, n, a, b) == Bits(k, m, a, b)
  {
    if m == 0 {
      BitsOfZeros(k, n);
    } else {
      UnsignedAtWidth(k, n - 1, m - 1, a / 2, b / 2);
    }
  }

  function KindOf(op: BinaryOp): BitKind
    requires op.BitAnd? || op.BitOr? || op.BitXor?
  {
    if op.BitAnd? then AndBits else if op.BitOr? then OrBits else XorBits
  }

  lemma BitwiseAgrees(op: BinaryOp, t: ValueType, a: int, b: int)
    requires (op.BitAnd? || op.BitOr? || op.BitXor?) && IsInteger(t) && InRange(t, a) && InRange(t, b)
    ensures IsSigned(t) ==> BitwiseOp(KindOf(op), t, a, b) == BitwiseOp(KindOf(op), I64, a, b)
    ensures !IsSigned(t) ==> BitwiseOp(KindOf(op), t, a, b) == Bits(KindOf(op), 64, a, b)
  {
    hide Bits, SignedBits, Modulus, Pow2;
    var k, n := KindOf(op), WidthBits(t);
    HalfOfModulus(t);
    if IsSigned(t) {
      SignedAtWidth(k, t, n - 1, a, b);
      SignedAtWidth(k, I64, n - 1, a, b);
    } else {
      PatternBits(k, t, a, b);
      UnsignedAtWidth(k, 64, n, a, b);
    }
  }

  // ---------------------------------------------------------------- one operator

  predicate IsFolded(op: BinaryOp) {
    IsArithmetic(op) || op.BitAnd? || op.BitOr? || op.BitXor?
  }

  lemma SignedStep(op: BinaryOp, t: ValueType, a: int, b: int)
    requires IsFolded(op) && IsSigned(t) && InRange(t, a) && InRange(t, b)
    requires EvalIntBinary(op, a, b).Some? && SignedFits(t, EvalIntBinary(op, a, b).value)
    ensures Apply(op, t, a, b) == EvalIntBinary(op, a, b) && InRange(t, EvalIntBinary(op, a, b).value)
  {
    hide Wrap, BitwiseOp, TruncDiv;
    var v := EvalIntBinary(op, a, b).value;
    if IsArithmetic(op) {
      IntStepExact(op, a, b);
      assert InRange(t, v);
      WrapOfInRange(t, v);
    } else {
      BitwiseAgrees(op, t, a, b);
      BitwiseInRange(KindOf(op), t, a, b);
    }
  }

  lemma UnsignedStep(op: BinaryOp, t: ValueType, a: int, b: int)
    requires IsFolded(op) && IsUnsigned(t) && InRange(t, a) && InRange(t, b)
    requires EvalUintBinary(op, a, b).Some? && UintLiteralFits(t, EvalUintBinary(op, a, b).value)
    ensures Apply(op, t, a, b) == EvalUintBinary(op, a, b) && InRange(t, EvalUintBinary(op, a, b).value)
  {
    hide Wrap, BitwiseOp;
    var v := EvalUintBinary(op, a, b).value;
    if IsArithmetic(op) {
      UintStepExact(op, a, b);
      assert InRange(t, v);
      WrapOfInRange(t, v);
    } else {
      BitwiseAgrees(op, t, a, b);
      BitwiseInRange(KindOf(op), t, a, b);
    }
  }

  /** The evaluator's operation of the signedness of `t`. */
  function FoldOp(op: BinaryOp, t: ValueType, a: int, b: int): Option<int> {
    if IsSigned(t) then EvalIntBinary(op, a, b) else EvalUintBinary(op, a, b)
  }

  /** Shifting at 64 bits and at the width of the type differ by what falls off in between. */
  lemma ShiftStep(op: BinaryOp, t: ValueType, a: int, b: int)
    requires IsShift(op) && IsInteger(t) && InRange(t, a) && 0 <= b < WidthBits(t)
    ensures FoldOp(op, t, a, b).Some? && Apply(op, t, a, b).Some?
    ensures Apply(op, t, a, b) == FoldOp(op, t, a, b) <==> InRange(t, FoldOp(op, t, a, b).value)
    ensures op.Shr? ==> InRange(t, FoldOp(op, t, a, b).value)
  {
    hide Wrap, Pow2;
    var v := FoldOp(op, t, a, b).value;
    if op.Shr? {
      ShrInRange(t, a, b);
    } else {
      var x := a * Pow2(b);
      WrapInRange(t, x);
      SameLowBits(t, x);
      if InRange(t, v) {
        WrapOfInRange(t, v);
      }
    }
  }

  /** Reducing to 64 bits first does not matter to a narrower type. */
  lemma SameLowBits(t: ValueType, x: int)
    requires IsInteger(t)
    ensures Wrap(t, if IsSigned(t) then Wrap(I64, x) else x % (UINT64_MAX + 1)) == Wrap(t, x)
  {
    hide Decode;
    var m := Modulus(WidthBytes(t));
    var y := x % (UINT64_MAX + 1);
    LowOfLow(x, UINT64_MAX + 1, m);
    if IsSigned(t) {
      WrapInRange(I64, x);
      LowOfLow(Wrap(I64, x), UINT64_MAX + 1, m);
    }
  }

  lemma LowOfLow(x: int, n: int, m: int)
    requires m > 0 && n == UINT64_MAX + 1 && (m == 0x100 || m == 0x1_0000 || m == 0x1_0000_0000 || m == n)
    ensures (x % n) % m == x % m
  {
    var k := n / m;
    assert n == k * m;
    var q := x / n;
    assert x == x % n + q * n;
    assert q * n == (q * k) * m;
    ModShift(x % n, q * k, m);
  }

  // ---------------------------------------------------------------- whole expressions

  /** Literals, negated literals, and the operators on integers. */
  predicate Foldable(e: S.Expr) {
    match e
    case Number(_) => true
    case Unary(Minus, a) => a.Number?
    case Binary(op, l, r) => IsEvaluated(op) && Foldable(l) && Foldable(r)
    case _ => false
  }

  /** The analyser does not check the range of a shift. Here each has a value to the evaluator that fits its type,
    * and a count within the width. */
  predicate ShiftsFit(t: ValueType, c: C.Expr) {
    match c
    case Binary(_, op, l, r) =>
      ShiftsFit(t, l) && ShiftsFit(t, r) &&
      (IsShift(op) && Folded(t, c).Some? ==> InRange(t, Folded(t, c).value) && Folded(t, r).value < WidthBits(t))
    case _ => true
  }

  /** What the evaluator of the signedness of `t` says. */
  function Folded(t: ValueType, c: C.Expr): Option<int> {
    if IsSigned(t) then EvalInt(c) else EvalUint(c)
  }

  lemma LiteralFolds(p: C.Program, n: nat, expected: ValueType, env: C.Env, fuel: C.Fuel)
    ensures ResolveNumber(n, expected).Some? ==>
      var c := ResolveNumber(n, expected).value;
      c.t == TypeFor(expected) && InRange(c.t, n) && Folded(c.t, c) == Some(n) &&
        C.Eval(p, c, env, fuel) == C.Value(n, env)
  {
    hide Wrap;
    var t := TypeFor(expected);
    if ResolveNumber(n, expected).Some? {
      WrapOfInRange(t, n);
    }
  }

  lemma NegatedFolds(p: C.Program, n: int, expected: ValueType, env: C.Env, fuel: C.Fuel)
    requires n >= 0
    ensures ResolveNegatedNumber(n, expected).Some? ==>
      var c := ResolveNegatedNumber(n, expected).value;
      c.t == TypeFor(expected) && InRange(c.t, -n) && Folded(c.t, c) == Some(-n) &&
        C.Eval(p, c, env, fuel) == C.Value(-n, env)
  {
    hide Wrap;
    var t := TypeFor(expected);
    if ResolveNegatedNumber(n, expected).Some? {
      NegatedWrap(t, n);
      var c := ResolveNegatedNumber(n, expected).value;
      assert C.Eval(p, c.operand, env, fuel) == C.Value(Wrap(t, n), env);
    }
  }

  lemma NegatedWrap(t: ValueType, n: int)
    requires n >= 0 && NegatedLiteralFits(t, n)
    ensures InRange(t, -n) && Wrap(t, -Wrap(t, n)) == -n
  {
    hide Decode;
    var m := Modulus(WidthBytes(t));
    WrapInRange(t, n);
    ModArith(0, n, m);
    ModArith(0, Wrap(t, n), m);
    assert Encode(t, -Wrap(t, n)) == Encode(t, -n);
    WrapOfInRange(t, -n);
  }

  function TypeFor(expected: ValueType): ValueType {
    if IsInteger(expected) then expected else I64
  }

  /** `c` has the value the evaluator gives it, if it gives one, and that is in range. */
  ghost predicate Agrees(p: C.Program, t: ValueType, c: C.Expr, env: C.Env, fuel: C.Fuel) {
    Folded(t, c).Some? ==> InRange(t, Folded(t, c).value) && C.Eval(p, c, env, fuel) == C.Value(Folded(t, c).value, env)
  }

  lemma FoldStep(p: C.Program, op: BinaryOp, t: ValueType, l: C.Expr, r: C.Expr, env: C.Env, fuel: C.Fuel)
    requires IsEvaluated(op) && IsInteger(t) && l.t == t && r.t == t && FinishBinary(op, l, r).Some?
    requires Agrees(p, t, l, env, fuel) && Agrees(p, t, r, env, fuel) && ShiftsFit(t, FinishBinary(op, l, r).value)
    ensures FinishBinary(op, l, r).value.t == t && Agrees(p, t, FinishBinary(op, l, r).value, env, fuel)
  {
    hide InRange, Apply, EvalIntBinary, EvalUintBinary, IsConstantZero, SignedFits, UintLiteralFits, ShiftsFit;
    var c := FinishBinary(op, l, r).value;
    assert c == C.Binary(t, op, l, r);
    if Folded(t, c).Some? {
      var a, b := Folded(t, l).value, Folded(t, r).value;
      if IsShift(op) {
        CountFits(t, op, l, r);
        ShiftStep(op, t, a, b);
      } else if IsSigned(t) {
        SignedStep(op, t, a, b);
      } else {
        UnsignedStep(op, t, a, b);
      }
    }
  }

  lemma CountFits(t: ValueType, op: BinaryOp, l: C.Expr, r: C.Expr)
    requires IsShift(op) && ShiftsFit(t, C.Binary(t, op, l, r)) && Folded(t, C.Binary(t, op, l, r)).Some?
    ensures Folded(t, l).Some? && Folded(t, r).Some? && 0 <= Folded(t, r).value < WidthBits(t)
    ensures InRange(t, Folded(t, C.Binary(t, op, l, r)).value)
    ensures Folded(t, C.Binary(t, op, l, r)) == FoldOp(op, t, Folded(t, l).value, Folded(t, r).value)
  {
    hide InRange, WidthBits, Pow2, Wrap;
  }

  lemma FinishNode(op: BinaryOp, l: C.Expr, r: C.Expr)
    requires FinishBinary(op, l, r).Some?
    ensures var c := FinishBinary(op, l, r).value; c == C.Binary(c.t, op, l, r)
  {
    hide EvalInt, NoOverflow, IsConstantZero, SameGroup, Promote, IsInteger, WidthBits, IsSigned, IsShift;
  }

  lemma PartsFit(t: ValueType, op: BinaryOp, l: C.Expr, r: C.Expr)
    requires FinishBinary(op, l, r).Some? && ShiftsFit(t, FinishBinary(op, l, r).value)
    ensures ShiftsFit(t, l) && ShiftsFit(t, r)
  {
    hide InRange, FinishBinary, Folded;
    FinishNode(op, l, r);
  }

  /** The agreement: what the analyser computes is what the program would compute. */
  lemma {:induction false} FoldingAgrees(
    p: C.Program, funcs: Funcs, stack: Stack, e: S.Expr, expected: ValueType, env: C.Env, fuel: C.Fuel)
    requires Foldable(e) && ResolveExpr(funcs, stack, e, expected).Some?
    requires ShiftsFit(TypeFor(expected), ResolveExpr(funcs, stack, e, expected).value)
    ensures var c := ResolveExpr(funcs, stack, e, expected).value;
            c.t == TypeFor(expected) &&
            (Folded(c.t, c).Some? ==>
             InRange(c.t, Folded(c.t, c).value) && C.Eval(p, c, env, fuel) == C.Value(Folded(c.t, c).value, env))
    decreases e
  {
    hide InRange, C.Eval, Folded, FinishBinary, ResolveNumber, ResolveNegatedNumber, ShiftsFit;
    match e
    case Number(n) => LiteralFolds(p, n, expected, env, fuel);
    case Unary(Minus, a) => NegatedFolds(p, a.value, expected, env, fuel);
    case Binary(op, left, right) =>
      var want, t := OperandExpected(op, expected), TypeFor(expected);
      var l := ResolveExpr(funcs, stack, left, want).value;
      var wr := if IsShift(op) || l.t == Unresolved then want else l.t;
      var r := ResolveExpr(funcs, stack, right, wr).value;
      PartsFit(t, op, l, r);
      FoldingAgrees(p, funcs, stack, left, want, env, fuel);
      FoldingAgrees(p, funcs, stack, right, wr, env, fuel);
      FoldStep(p, op, t, l, r, env, fuel);
  }

  /** One shift whose operands agree: the evaluator and the machine type agree on it exactly when its value is in
    * the range of the type. */
  lemma ShiftFolds(p: C.Program, op: BinaryOp, t: ValueType, l: C.Expr, r: C.Expr, env: C.Env, fuel: C.Fuel)
    requires IsShift(op) && IsInteger(t) && l.t == t && Agrees(p, t, l, env, fuel) && Agrees(p, t, r, env, fuel)
    requires Folded(t, l).Some? && Folded(t, r).Some? && 0 <= Folded(t, r).value < WidthBits(t)
    ensures var c := C.Binary(t, op, l, r);
            Folded(t, c).Some? &&
            (C.Eval(p, c, env, fuel) == C.Value(Folded(t, c).value, env) <==> InRange(t, Folded(t, c).value))
  {
    hide InRange, Apply, EvalIntBinary, EvalUintBinary;
    ShiftStep(op, t, Folded(t, l).value, Folded(t, r).value);
  }

  /** A count the analyser accepts may be out of range at run time: in `x << ((1 << 7) >> 5)` at `i8` the count is
    * 4 to the evaluator and -4 to the machine type, so the shift has no value. */
  lemma CountDiffers(p: C.Program, x: S.Expr, funcs: Funcs, stack: Stack, env: C.Env, fuel: C.Fuel)
    requires ResolveExpr(funcs, stack, x, I8).Some? && ResolveExpr(funcs, stack, x, I8).value.t == I8
    ensures var count := S.Binary(Shr, S.Binary(Shl, S.Number(1), S.Number(7)), S.Number(5));
            var c := ResolveExpr(funcs, stack, S.Binary(Shl, x, count), I8);
            c.Some? && c.value.Binary? && EvalInt(c.value.right) == Some(4) &&
            C.Eval(p, c.value.right, env, fuel) == C.Value(-4, env) &&
            forall v: int :: Apply(Shl, I8, v, -4).None?
  {
    hide EvalInt, C.Eval, ResolveExpr, Apply;
    var one, seven, five := C.Literal(I8, 1), C.Literal(I8, 7), C.Literal(I8, 5);
    var inner := C.Binary(I8, Shl, one, seven);
    var count := C.Binary(I8, Shr, inner, five);
    LiteralNumber(funcs, stack, 1);
    LiteralNumber(funcs, stack, 7);
    LiteralNumber(funcs, stack, 5);
    CountEvaluated();
    CountAtRunTime(p, env, fuel);
    ShiftResolved(funcs, stack, S.Number(1), S.Number(7), Shl, one, seven);
    ShiftResolved(funcs, stack, S.Binary(Shl, S.Number(1), S.Number(7)), S.Number(5), Shr, inner, five);
    ShiftResolved(funcs, stack, x, S.Binary(Shr, S.Binary(Shl, S.Number(1), S.Number(7)), S.Number(5)), Shl,
      ResolveExpr(funcs, stack, x, I8).value, count);
    NoNegativeCount();
  }

  lemma NoNegativeCount()
    ensures forall v: int :: Apply(Shl, I8, v, -4).None?
  {}

  lemma CountEvaluated()
    ensures var inner := C.Binary(I8, Shl, C.Literal(I8, 1), C.Literal(I8, 7));
            EvalInt(C.Literal(I8, 7)) == Some(7) && EvalInt(C.Literal(I8, 5)) == Some(5) &&
            EvalInt(C.Binary(I8, Shr, inner, C.Literal(I8, 5))) == Some(4)
  {
    assert Pow2(7) == 128 && Pow2(5) == 32;
    var inner := C.Binary(I8, Shl, C.Literal(I8, 1), C.Literal(I8, 7));
    assert EvalInt(inner) == Some(128);
  }

  lemma CountAtRunTime(p: C.Program, env: C.Env, fuel: C.Fuel)
    ensures var inner := C.Binary(I8, Shl, C.Literal(I8, 1), C.Literal(I8, 7));
            C.Eval(p, C.Binary(I8, Shr, inner, C.Literal(I8, 5)), env, fuel) == C.Value(-4, env)
  {
    assert Pow2(7) == 128 && Pow2(5) == 32;
    var inner := C.Binary(I8, Shl, C.Literal(I8, 1), C.Literal(I8, 7));
    assert Apply(Shl, I8, 1, 7) == Some(-128) && Apply(Shr, I8, -128, 5) == Some(-4);
    assert C.Eval(p, inner, env, fuel) == C.Value(-128, env);
  }

  lemma LiteralNumber(funcs: Funcs, stack: Stack, n: nat)
    requires n <= 127
    ensures ResolveExpr(funcs, stack, S.Number(n), I8) == Some(C.Literal(I8, n))
  {}

  lemma ShiftResolved(funcs: Funcs, stack: Stack, a: S.Expr, b: S.Expr, op: BinaryOp, l: C.Expr, r: C.Expr)
    requires IsShift(op) && ResolveExpr(funcs, stack, a, I8) == Some(l) && ResolveExpr(funcs, stack, b, I8) == Some(r)
    requires l.t == I8 && r.t == I8 && EvalInt(r).Some? && 0 <= EvalInt(r).value < 8
    ensures ResolveExpr(funcs, stack, S.Binary(op, a, b), I8) == Some(C.Binary(I8, op, l, r))
  {
    hide EvalInt;
  }

  /** The negation of a constant that is not a literal is not range-checked: the evaluator and the
    * machine type agree exactly when the evaluator's value is in the range of the type. */
  lemma NegationFolds(p: C.Program, funcs: Funcs, stack: Stack, a: S.Expr, expected: ValueType, env: C.Env,
      fuel: C.Fuel)
    requires Foldable(a) && !a.Number? && ResolveExpr(funcs, stack, S.Unary(S.Minus, a), expected).Some?
    requires var pass := if IsSigned(expected) then expected else I64;
             ResolveExpr(funcs, stack, a, pass).Some? && ShiftsFit(pass, ResolveExpr(funcs, stack, a, pass).value)
    requires EvalInt(ResolveExpr(funcs, stack, S.Unary(S.Minus, a), expected).value).Some?
    ensures var c := ResolveExpr(funcs, stack, S.Unary(S.Minus, a), expected).value;
            C.Eval(p, c, env, fuel) == C.Value(EvalInt(c).value, env) <==> InRange(c.t, EvalInt(c).value)
  {
    hide InRange, ResolveExpr, C.Eval, EvalInt, Foldable;
    NegationShape(funcs, stack, a, expected);
    var pass := if IsSigned(expected) then expected else I64;
    FoldingAgrees(p, funcs, stack, a, pass, env, fuel);
    var inner := ResolveExpr(funcs, stack, a, pass).value;
    NegatedIsNotLiteral(funcs, stack, a, pass);
    NegatedValue(p, inner, env, fuel);
  }

  lemma NegationShape(funcs: Funcs, stack: Stack, a: S.Expr, expected: ValueType)
    requires !a.Number? && ResolveExpr(funcs, stack, S.Unary(S.Minus, a), expected).Some?
    ensures var r := ResolveExpr(funcs, stack, a, if IsSigned(expected) then expected else I64);
            r.Some? && IsSigned(r.value.t) &&
            ResolveExpr(funcs, stack, S.Unary(S.Minus, a), expected) == Some(C.Unary(r.value.t, Negate, r.value))
  {}

  lemma NegatedValue(p: C.Program, inner: C.Expr, env: C.Env, fuel: C.Fuel)
    requires IsSigned(inner.t) && !inner.Literal? && EvalInt(C.Unary(inner.t, Negate, inner)).Some?
    requires EvalInt(inner).Some? ==> C.Eval(p, inner, env, fuel) == C.Value(EvalInt(inner).value, env)
    ensures var c := C.Unary(inner.t, Negate, inner);
            C.Eval(p, c, env, fuel) == C.Value(EvalInt(c).value, env) <==> InRange(c.t, EvalInt(c).value)
  {
    hide InRange, Wrap;
    var v := EvalInt(C.Unary(inner.t, Negate, inner)).value;
    WrapInRange(inner.t, v);
    if InRange(inner.t, v) {
      WrapOfInRange(inner.t, v);
    }
  }

  lemma NegatedIsNotLiteral(funcs: Funcs, stack: Stack, a: S.Expr, expected: ValueType)
    requires Foldable(a) && !a.Number? && ResolveExpr(funcs, stack, a, expected).Some?
    ensures !ResolveExpr(funcs, stack, a, expected).value.Literal?
  {
    hide EvalInt, NoOverflow, IsConstantZero, SameGroup, Promote, WidthBits;
  }

  /** For instance `-(-128)` at `i8` is 128 to the evaluator and -128 to the machine. */
  lemma NegationDiffers()
    ensures var e := S.Unary(S.Minus, S.Unary(S.Minus, S.Number(128)));
            var c := ResolveExpr([], [], e, I8);
            c.Some? && EvalInt(c.value) == Some(128) && !InRange(I8, 128) &&
              C.Eval([], c.value, map[], C.Fuel(0, 0)) == C.Value(-128, map[])
  {
    var inner := C.Unary(I8, Negate, C.Literal(I8, 128));
    assert ResolveExpr([], [], S.Unary(S.Minus, S.Number(128)), I8) == Some(inner);
    assert C.Eval([], inner, map[], C.Fuel(0, 0)) == C.Value(-128, map[]);
  }
}
