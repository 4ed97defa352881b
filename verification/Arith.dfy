/** What the operators of the language compute on values of a type. The source language, the
  * intermediate code and the machine proof share these definitions: wrap-around `+ - *`,
  * division truncating toward zero, arithmetic or logical right shift by signedness. */
module Arith {
  import opened Values

  datatype Option<T> = None | Some(value: T)

  datatype BinaryOp =
    | Add | Sub | Mul | Div
    | BitAnd | BitOr | BitXor
    | Shr | Shl
    | Eq | Ne | Lt | Le | Gt | Ge
    | LogAnd | LogOr

  datatype UnaryOp = Negate | BitNot | LogNot

  predicate IsRelational(op: BinaryOp) {
    op.Eq? || op.Ne? || op.Lt? || op.Le? || op.Gt? || op.Ge?
  }

  predicate IsLogical(op: BinaryOp) {
    op.LogAnd? || op.LogOr?
  }

  predicate IsShift(op: BinaryOp) {
    op.Shr? || op.Shl?
  }

  /** The type of the result of `op` on a left operand of type `t`. */
  function ResultType(op: BinaryOp, t: ValueType): ValueType {
    if IsRelational(op) || IsLogical(op) then Bool else t
  }

  /** The operand types an operator's instructions take. The analyser casts arguments of calls only, so an
    * accepted expression may have others: see `Widths` and `OperandWidths`. */
  predicate OperandTypes(op: BinaryOp, left: ValueType, right: ValueType) {
    if IsLogical(op) then left.Bool? && right.Bool?
    else if IsRelational(op) then IsScalar(left) && left == right
    else if IsShift(op) then IsInteger(left) && IsInteger(right)
    else IsInteger(left) && left == right
  }

  predicate UnaryType(op: UnaryOp, t: ValueType) {
    match op
    case Negate => IsSigned(t)
    case BitNot => IsInteger(t)
    case LogNot => t.Bool?
  }

  function Abs(a: int): nat {
    if a < 0 then -a else a
  }

  /** Division as C and x86 do it: the quotient is truncated toward zero. */
  function TruncDiv(a: int, b: int): int
    requires b != 0
  {
    var q := Abs(a) / Abs(b);
    if (a < 0) != (b < 0) then -q else q
  }

  function Flag(b: bool): int {
    if b then 1 else 0
  }

  function BitwiseOp(k: BitKind, t: ValueType, a: int, b: int): int {
    Decode(t, Bits(k, WidthBits(t), Encode(t, a), Encode(t, b)))
  }

  /** The value of `a op b` on left operands of type `t`. There is none for a zero divisor, for
    * the one overflowing quotient, and for a shift count outside the width of the type. */
  function Apply(op: BinaryOp, t: ValueType, a: int, b: int): Option<int> {
    match op
    case Add => Some(Wrap(t, a + b))
    case Sub => Some(Wrap(t, a - b))
    case Mul => Some(Wrap(t, a * b))
    case Div =>
      if b == 0 then None
      else if InRange(t, TruncDiv(a, b)) then Some(TruncDiv(a, b)) else None
    case BitAnd => Some(BitwiseOp(AndBits, t, a, b))
    case BitOr => Some(BitwiseOp(OrBits, t, a, b))
    case BitXor => Some(BitwiseOp(XorBits, t, a, b))
    case Shr => if 0 <= b < WidthBits(t) then Some(a / Pow2(b)) else None
    case Shl => if 0 <= b < WidthBits(t) then Some(Wrap(t, a * Pow2(b))) else None
    case _ => Some(Flag(Holds(op, a, b)))
  }

  /** The truth of a comparison or of a logical operation. */
  predicate Holds(op: BinaryOp, a: int, b: int) {
    match op
    case Eq => a == b
    case Ne => a != b
    case Lt => a < b
    case Le => a <= b
    case Gt => a > b
    case Ge => a >= b
    case LogAnd => a == 1 && b == 1
    case LogOr => a == 1 || b == 1
    case _ => false
  }

  function ApplyUnary(op: UnaryOp, t: ValueType, a: int): int {
    match op
    case Negate => Wrap(t, -a)
    case BitNot => Wrap(t, -a - 1)
    case LogNot => 1 - a
  }

  /** The value an assignment or a cast stores: wrapped to the target, unless a `bool`. */
  function Convert(t: ValueType, v: int): int {
    if t.Bool? then v else Wrap(t, v)
  }

  lemma MulMonotone(d: int, q: int, r: int)
    requires d >= 0 && q <= r
    ensures d * q <= d * r
  {}

  lemma FloorBound(a: int, d: int, lo: int, hi: int)
    requires d > 0 && lo <= 0 && hi > 0 && lo <= a < hi
    ensures lo <= a / d < hi
  {
    var q := a / d;
    FloorBoundAux(a, d, q, a % d, lo, hi);
  }

  lemma FloorBoundAux(a: int, d: int, q: int, r: int, lo: int, hi: int)
    requires d > 0 && lo <= 0 && hi > 0 && lo <= a < hi
    requires a == d * q + r && 0 <= r < d
    ensures lo <= q < hi
  {
    if q < lo {
      MulMonotone(d, q + 1, lo);
      MulMonotone(-lo, 1, d);
    }
    if q >= hi {
      MulMonotone(q, 1, d);
    }
  }

  lemma ShrInRange(t: ValueType, a: int, b: nat)
    requires IsInteger(t) && InRange(t, a)
    ensures InRange(t, a / Pow2(b))
  {
    var m := Modulus(WidthBytes(t));
    if IsSigned(t) {
      FloorBound(a, Pow2(b), -(m / 2), m / 2);
    } else {
      FloorBound(a, Pow2(b), 0, m);
    }
  }

  lemma BitwiseInRange(k: BitKind, t: ValueType, a: int, b: int)
    requires IsInteger(t)
    ensures InRange(t, BitwiseOp(k, t, a, b))
    ensures Encode(t, BitwiseOp(k, t, a, b)) == Bits(k, WidthBits(t), Encode(t, a), Encode(t, b))
  {
    BitsBound(k, WidthBytes(t), Encode(t, a), Encode(t, b));
    DecodeInRange(t, Bits(k, WidthBits(t), Encode(t, a), Encode(t, b)));
  }

  /** Every operator delivers a value of its result type. */
  lemma ApplyInRange(op: BinaryOp, t: ValueType, a: int, b: int)
    requires IsScalar(t) && InRange(t, a)
    requires !IsInteger(t) ==> IsRelational(op) || IsLogical(op)
    requires Apply(op, t, a, b).Some?
    ensures InRange(ResultType(op, t), Apply(op, t, a, b).value)
  {
    hide Wrap, InRange, TruncDiv, BitwiseOp, Pow2, Flag;
    match op
    case Add => WrapInRange(t, a + b);
    case Sub => WrapInRange(t, a - b);
    case Mul => WrapInRange(t, a * b);
    case Shl => WrapInRange(t, a * Pow2(b));
    case Shr => ShrInRange(t, a, b);
    case BitAnd => BitwiseInRange(AndBits, t, a, b);
    case BitOr => BitwiseInRange(OrBits, t, a, b);
    case BitXor => BitwiseInRange(XorBits, t, a, b);
    case Div =>
    case _ => FlagInRange(Holds(op, a, b));
  }

  lemma FlagInRange(b: bool)
    ensures InRange(Bool, Flag(b))
  {}

  lemma ApplyUnaryInRange(op: UnaryOp, t: ValueType, a: int)
    requires UnaryType(op, t) && InRange(t, a)
    ensures InRange(t, ApplyUnary(op, t, a))
  {
    match op
    case Negate => WrapInRange(t, -a);
    case BitNot => WrapInRange(t, -a - 1);
    case LogNot =>
  }
}
