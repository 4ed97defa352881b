/** The constant evaluator: 64-bit arithmetic guarded against overflow, and the range checks the
  * analyser makes with it. */
module Constants {
  import opened Values
  import opened Arith
  import C = Checked

  const INT64_MAX: int := 0x7FFF_FFFF_FFFF_FFFF
  const INT64_MIN: int := -0x8000_0000_0000_0000
  const UINT64_MAX: int := 0xFFFF_FFFF_FFFF_FFFF

  predicate IsInt64(v: int) {
    INT64_MIN <= v <= INT64_MAX
  }

  predicate IsUint64(v: int) {
    0 <= v <= UINT64_MAX
  }

  /** The number an integer literal spells, if 64 bits can hold it. */
  function Magnitude(e: C.Expr): Option<int> {
    if e.Literal? && !e.t.Bool? && e.number <= UINT64_MAX then Some(e.number) else None
  }

  // ---------------------------------------------------------------- evaluation

  function EvalUintBinary(op: BinaryOp, l: int, r: int): Option<int> {
    match op
    case Add => if r > UINT64_MAX - l then None else Some(l + r)
    case Sub => if l < r then None else Some(l - r)
    case Mul => if l != 0 && r > UINT64_MAX / l then None else Some(l * r)
    case Div => if r == 0 then None else Some(l / r)
    case Shl => if r >= 64 || r < 0 then None else Some((l * Pow2(r)) % (UINT64_MAX + 1))
    case Shr => if r >= 64 || r < 0 then None else Some(l / Pow2(r))
    case BitAnd => Some(Bits(AndBits, 64, l, r))
    case BitOr => Some(Bits(OrBits, 64, l, r))
    case BitXor => Some(Bits(XorBits, 64, l, r))
    case _ => None
  }

  function EvalIntBinary(op: BinaryOp, l: int, r: int): Option<int> {
    match op
    case Add =>
      if r > 0 && l > INT64_MAX - r then None
      else if r < 0 && l < INT64_MIN - r then None
      else Some(l + r)
    case Sub =>
      if r < 0 && l > INT64_MAX + r then None
      else if r > 0 && l < INT64_MIN + r then None
      else Some(l - r)
    case Mul => if IsInt64(l * r) then Some(l * r) else None
    case Div =>
      if r == 0 then None
      else if l == INT64_MIN && r == -1 then None
      else Some(TruncDiv(l, r))
    case Shl => if r < 0 || r >= 64 then None else Some(Wrap(I64, l * Pow2(r)))
    case Shr => if r < 0 || r >= 64 then None else Some(l / Pow2(r))
    case BitAnd => Some(BitwiseOp(AndBits, I64, l, r))
    case BitOr => Some(BitwiseOp(OrBits, I64, l, r))
    case BitXor => Some(BitwiseOp(XorBits, I64, l, r))
    case _ => None
  }

  function EvalUint(e: C.Expr): Option<int> {
    match e
    case Literal(_, _) => Magnitude(e)
    case Binary(_, op, left, right) =>
      (match EvalUint(left)
       case None => None
       case Some(l) =>
         match EvalUint(right)
         case None => None
         case Some(r) => EvalUintBinary(op, l, r))
    case _ => None
  }

  function EvalInt(e: C.Expr): Option<int> {
    match e
    case Literal(_, _) =>
      (match Magnitude(e)
       case Some(n) => if n > INT64_MAX then None else Some(n)
       case None => None)
    case Unary(_, Negate, a) =>
      if a.Literal? then
        (match Magnitude(a)
         case Some(n) => if n > INT64_MAX + 1 then None else Some(-n)
         case None => None)
      else
        (match EvalInt(a)
         case Some(v) => if v == INT64_MIN then None else Some(-v)
         case None => None)
    case Binary(_, op, left, right) =>
      (match EvalInt(left)
       case None => None
       case Some(l) =>
         match EvalInt(right)
         case None => None
         case Some(r) => EvalIntBinary(op, l, r))
    case _ => None
  }

  // ---------------------------------------------------------------- range checks

  function SignedMax(t: ValueType): int {
    Modulus(WidthBytes(t)) / 2 - 1
  }

  /** A literal without a sign fits its type. */
  predicate UintLiteralFits(t: ValueType, v: int) {
    if IsSigned(t) then v <= SignedMax(t) else IsUnsigned(t) && v < Modulus(WidthBytes(t))
  }

  predicate NegatedLiteralFits(t: ValueType, v: int) {
    IsSigned(t) && v <= SignedMax(t) + 1
  }

  predicate SignedFits(t: ValueType, v: int) {
    if t.I8? || t.I16? || t.I32? then InRange(t, v) else true
  }

  /** The overflow check of an arithmetic node of type `t`. */
  predicate NoOverflow(e: C.Expr, t: ValueType) {
    if IsSigned(t) then
      match EvalInt(e)
      case Some(v) => SignedFits(t, v)
      case None => true
    else
      match EvalUint(e)
      case Some(v) => UintLiteralFits(t, v)
      case None =>
        !(e.Binary? && e.op.Sub? && EvalUint(e.left).Some? && EvalUint(e.right).Some? &&
          EvalUint(e.left).value < EvalUint(e.right).value)
  }

  predicate IsConstantZero(e: C.Expr, signed: bool) {
    if signed then EvalInt(e) == Some(0) else EvalUint(e) == Some(0)
  }

  // ---------------------------------------------------------------- exactness

  predicate IsArithmetic(op: BinaryOp) {
    op.Add? || op.Sub? || op.Mul? || op.Div?
  }

  /** Every operator on integers that delivers one. */
  predicate IsEvaluated(op: BinaryOp) {
    IsArithmetic(op) || IsShift(op) || op.BitAnd? || op.BitOr? || op.BitXor?
  }

  /** Literals, negations and the operators on integers. */
  predicate IsConstantTree(e: C.Expr) {
    match e
    case Literal(t, _) => !t.Bool?
    case Unary(_, Negate, a) => IsConstantTree(a)
    case Binary(_, op, l, r) => IsEvaluated(op) && IsConstantTree(l) && IsConstantTree(r)
    case _ => false
  }

  /** The value in unbounded integers, where a quotient is truncated and needs a divisor; bitwise operations and
    * shifts are those of the 64-bit type `wide`. */
  function Exact(wide: ValueType, e: C.Expr): Option<int> {
    match e
    case Literal(_, n) => Some(n)
    case Unary(_, _, a) => (match Exact(wide, a) case Some(v) => Some(-v) case None => None)
    case Binary(_, op, l, r) =>
      (match (Exact(wide, l), Exact(wide, r))
       case (Some(a), Some(b)) => ExactOp(wide, op, a, b)
       case _ => None)
    case _ => None
  }

  function ExactOp(wide: ValueType, op: BinaryOp, a: int, b: int): Option<int> {
    match op
    case Add => Some(a + b)
    case Sub => Some(a - b)
    case Mul => Some(a * b)
    case Div => if b == 0 then None else Some(TruncDiv(a, b))
    case BitAnd | BitOr | BitXor | Shl | Shr => Apply(op, wide, a, b)
    case _ => None
  }

  /** The exact value exists and fits, and so does that of every part; the operand of a minus sign
    * may be the literal 2^63. */
  predicate FitsSigned(e: C.Expr) {
    Exact(I64, e).Some? && IsInt64(Exact(I64, e).value) &&
    match e
    case Unary(_, _, a) => a.Literal? || FitsSigned(a)
    case Binary(_, _, l, r) => FitsSigned(l) && FitsSigned(r)
    case _ => true
  }

  predicate FitsUnsigned(e: C.Expr) {
    !e.Unary? && Exact(U64, e).Some? && IsUint64(Exact(U64, e).value) &&
    match e
    case Binary(_, _, l, r) => FitsUnsigned(l) && FitsUnsigned(r)
    case _ => true
  }

  lemma TruncDivFits(l: int, r: int)
    requires IsInt64(l) && IsInt64(r) && r != 0
    ensures IsInt64(TruncDiv(l, r)) <==> !(l == INT64_MIN && r == -1)
  {
    QuotientBound(Abs(l), Abs(r));
    if Abs(r) >= 2 {
      QuotientHalf(Abs(l), Abs(r));
    }
  }

  lemma QuotientBound(a: nat, b: nat)
    requires b > 0
    ensures 0 <= a / b <= a && (b == 1 ==> a / b == a)
  {
    MulMonotone(a / b, 1, b);
    assert a == b * (a / b) + a % b;
  }

  lemma QuotientHalf(a: nat, b: nat)
    requires b >= 2
    ensures 2 * (a / b) <= a
  {
    MulMonotone(a / b, 2, b);
    assert a == b * (a / b) + a % b;
  }

  lemma IntStepExact(op: BinaryOp, l: int, r: int)
    requires IsEvaluated(op) && IsInt64(l) && IsInt64(r)
    ensures EvalIntBinary(op, l, r) ==
            if ExactOp(I64, op, l, r).Some? && IsInt64(ExactOp(I64, op, l, r).value) then ExactOp(I64, op, l, r)
              else None
  {
    hide BitwiseOp, Wrap, Pow2, TruncDiv;
    if op.Div? && r != 0 {
      TruncDivFits(l, r);
    }
    if !IsArithmetic(op) && Apply(op, I64, l, r).Some? {
      ApplyInRange(op, I64, l, r);
    }
  }

  /** Signed evaluation succeeds exactly when every exact value exists and fits 64 bits. */
  lemma {:induction false} EvalIntExact(e: C.Expr)
    requires IsConstantTree(e)
    ensures EvalInt(e) == if FitsSigned(e) then Exact(I64, e) else None
  {
    hide EvalIntBinary, ExactOp;
    match e
    case Literal(_, n) =>
    case Unary(_, _, a) => EvalIntExact(a);
    case Binary(_, op, l, r) =>
      EvalIntExact(l);
      EvalIntExact(r);
      if FitsSigned(l) && FitsSigned(r) {
        IntStepExact(op, Exact(I64, l).value, Exact(I64, r).value);
      }
  }

  lemma ProductFits(l: nat, r: nat)
    requires l > 0
    ensures l * r <= UINT64_MAX <==> r <= UINT64_MAX / l
  {
    var q := UINT64_MAX / l;
    assert UINT64_MAX == l * q + UINT64_MAX % l;
    if r <= q {
      MulMonotone(l, r, q);
    } else {
      MulMonotone(l, q + 1, r);
    }
  }

  lemma UintBitwise(k: BitKind, l: int, r: int)
    requires IsUint64(l) && IsUint64(r)
    ensures Bits(k, 64, l, r) == BitwiseOp(k, U64, l, r)
  {
    hide Bits;
    ModSmall(l, Modulus(8));
    ModSmall(r, Modulus(8));
  }

  lemma UintStepExact(op: BinaryOp, l: int, r: int)
    requires IsEvaluated(op) && IsUint64(l) && IsUint64(r)
    ensures EvalUintBinary(op, l, r) ==
            if ExactOp(U64, op, l, r).Some? && IsUint64(ExactOp(U64, op, l, r).value) then ExactOp(U64, op, l, r)
            else None
  {
    hide BitwiseOp, Bits, Pow2;
    match op
    case Mul =>
      if l != 0 {
        ProductFits(l, r);
        MulMonotone(l, 0, r);
      }
    case Div =>
      if r != 0 {
        QuotientBound(l, r);
      }
    case BitAnd | BitOr | BitXor =>
      UintBitwise(AndBits, l, r);
      UintBitwise(OrBits, l, r);
      UintBitwise(XorBits, l, r);
      ApplyInRange(op, U64, l, r);
    case Shl | Shr =>
      if 0 <= r < 64 {
        ApplyInRange(op, U64, l, r);
      }
    case _ =>
  }

  /** Unsigned evaluation succeeds exactly when every exact value exists and fits 64 bits. */
  lemma {:induction false} EvalUintExact(e: C.Expr)
    requires IsConstantTree(e)
    ensures EvalUint(e) == if FitsUnsigned(e) then Exact(U64, e) else None
  {
    hide EvalUintBinary, ExactOp;
    match e
    case Literal(_, n) =>
    case Unary(_, _, a) =>
    case Binary(_, op, l, r) =>
      EvalUintExact(l);
      EvalUintExact(r);
      if FitsUnsigned(l) && FitsUnsigned(r) {
        UintStepExact(op, Exact(U64, l).value, Exact(U64, r).value);
      }
  }
}
