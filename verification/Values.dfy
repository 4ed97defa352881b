/** The ten value types, their widths and ranges, and fixed-width arithmetic on them.
  * A run-time value is the mathematical integer the program means (-128 for an `i8`);
  * `Encode` gives the bit pattern a register or a stack slot holds for it. */
module Values {

  datatype ValueType =
    | Unresolved
    | I8 | I16 | I32 | I64
    | U8 | U16 | U32 | U64
    | Bool
    | Void

  function WidthBits(t: ValueType): nat {
    match t
    case I8 | U8 | Bool => 8
    case I16 | U16 => 16
    case I32 | U32 => 32
    case I64 | U64 | Unresolved => 64
    case Void => 0
  }

  function WidthBytes(t: ValueType): nat {
    WidthBits(t) / 8
  }

  predicate IsSigned(t: ValueType) {
    t.I8? || t.I16? || t.I32? || t.I64?
  }

  predicate IsUnsigned(t: ValueType) {
    t.U8? || t.U16? || t.U32? || t.U64?
  }

  predicate IsInteger(t: ValueType) {
    IsSigned(t) || IsUnsigned(t)
  }

  /** A type a variable, a parameter or a temporary can have. */
  predicate IsScalar(t: ValueType) {
    IsInteger(t) || t.Bool?
  }

  predicate SameGroup(a: ValueType, b: ValueType) {
    (IsUnsigned(a) && IsUnsigned(b)) || (IsSigned(a) && IsSigned(b)) || (a.Bool? && b.Bool?)
  }

  function Promote(a: ValueType, b: ValueType): ValueType {
    if WidthBits(a) >= WidthBits(b) then a else b
  }

  predicate Castable(from: ValueType, to: ValueType) {
    from != Unresolved && to != Unresolved &&
    (from == to || (!from.Bool? && !to.Bool? && !from.Void? && !to.Void?))
  }

  // ---------------------------------------------------------------- bit patterns

  /** Operand sizes of the machine, in bytes. */
  predicate IsSize(size: nat) {
    size == 1 || size == 2 || size == 4 || size == 8
  }

  /** Number of patterns of `size` bytes, for a size of 1, 2, 4 or 8. */
  function Modulus(size: nat): (m: int)
    ensures m >= 0x100 && m % 2 == 0
  {
    if size <= 1 then 0x100
    else if size <= 2 then 0x1_0000
    else if size <= 4 then 0x1_0000_0000
    else 0x1_0000_0000_0000_0000
  }

  /** The pattern `p` of `size` bytes read as a two's complement integer. */
  function AsSigned(size: nat, p: int): int {
    if p >= Modulus(size) / 2 then p - Modulus(size) else p
  }

  function Encode(t: ValueType, v: int): (p: int)
    ensures 0 <= p < Modulus(WidthBytes(t))
  {
    v % Modulus(WidthBytes(t))
  }

  function Decode(t: ValueType, p: int): int {
    if IsSigned(t) then AsSigned(WidthBytes(t), p) else p
  }

  predicate InRange(t: ValueType, v: int) {
    if t.Bool? then 0 <= v <= 1
    else if IsSigned(t) then -(Modulus(WidthBytes(t)) / 2) <= v < Modulus(WidthBytes(t)) / 2
    else 0 <= v < Modulus(WidthBytes(t))
  }

  /** The value of type `t` congruent to `v`: two's complement wrap-around. */
  function Wrap(t: ValueType, v: int): int {
    Decode(t, Encode(t, v))
  }

  // ---------------------------------------------------------------- bitwise operations

  datatype BitKind = AndBits | OrBits | XorBits

  function BitOne(k: BitKind, a: int, b: int): (r: int)
    ensures 0 <= r <= 1
  {
    match k
    case AndBits => if a == 1 && b == 1 then 1 else 0
    case OrBits => if a == 1 || b == 1 then 1 else 0
    case XorBits => if a != b then 1 else 0
  }

  function Pow2(n: nat): (p: nat)
    ensures p > 0
  {
    if n == 0 then 1 else 2 * Pow2(n - 1)
  }

  /** The operation on the low `n` bits of `a` and `b`, bit by bit. Euclidean division by two
    * makes this the operation on the two's complement bits when `a` or `b` is negative. */
  function Bits(k: BitKind, n: nat, a: int, b: int): (r: int)
    ensures 0 <= r < Pow2(n)
  {
    if n == 0 then 0 else BitOne(k, a % 2, b % 2) + 2 * Bits(k, n - 1, a / 2, b / 2)
  }

  lemma Pow2Sizes()
    ensures Pow2(8) == 0x100
    ensures Pow2(16) == 0x1_0000
    ensures Pow2(32) == 0x1_0000_0000
    ensures Pow2(64) == 0x1_0000_0000_0000_0000
  {
    assert Pow2(8) == 0x100;
    Pow2Add(8, 8);
    Pow2Add(16, 16);
    Pow2Add(32, 32);
  }

  lemma {:induction false} Pow2Add(m: nat, n: nat)
    ensures Pow2(m + n) == Pow2(m) * Pow2(n)
  {
    if m == 0 {
    } else {
      Pow2Add(m - 1, n);
    }
  }

  lemma BitsBound(k: BitKind, size: nat, a: int, b: int)
    requires IsSize(size)
    ensures 0 <= Bits(k, 8 * size, a, b) < Modulus(size)
  {
    Pow2Sizes();
  }

  /** On 0 and 1 the bitwise operations are the boolean ones, at every width. */
  lemma {:induction false} BitsOfBooleans(k: BitKind, n: nat, a: int, b: int)
    requires n > 0 && 0 <= a <= 1 && 0 <= b <= 1
    ensures Bits(k, n, a, b) == BitOne(k, a, b)
  {
    BitsOfZeros(k, n - 1);
  }

  lemma {:induction false} BitsOfZeros(k: BitKind, n: nat)
    ensures Bits(k, n, 0, 0) == 0
  {
    if n > 0 {
      BitsOfZeros(k, n - 1);
    }
  }

  lemma {:induction false} XorSelf(n: nat, a: int)
    ensures Bits(XorBits, n, a, a) == 0
  {
    if n > 0 {
      XorSelf(n - 1, a / 2);
    }
  }

  // ---------------------------------------------------------------- modular arithmetic

  lemma ModUnique(q: int, r: int, m: int)
    requires 0 <= r < m
    ensures (q * m + r) % m == r && (q * m + r) / m == q
  {
    var x := q * m + r;
    var d := x / m - q;
    assert x == m * (x / m) + x % m;
    assert d * m == r - x % m;
    if d != 0 {
      MultipleIsFar(d, m);
    }
  }

  lemma MultipleIsFar(d: int, m: int)
    requires d != 0 && m > 0
    ensures d * m >= m || d * m <= -m
  {}

  lemma ModShift(x: int, q: int, m: int)
    requires m > 0
    ensures (x + q * m) % m == x % m
  {
    ModUnique(x / m + q, x % m, m);
    assert x + q * m == (x / m + q) * m + x % m;
  }

  /** Sums, differences and products may be reduced before or after. */
  lemma ModArith(a: int, b: int, m: int)
    requires m > 0
    ensures (a % m + b % m) % m == (a + b) % m
    ensures (a % m - b % m) % m == (a - b) % m
    ensures ((a % m) * (b % m)) % m == (a * b) % m
  {
    var qa, ra := a / m, a % m;
    var qb, rb := b / m, b % m;
    assert a == qa * m + ra && b == qb * m + rb;
    assert a + b == (ra + rb) + (qa + qb) * m;
    ModShift(ra + rb, qa + qb, m);
    assert a - b == (ra - rb) + (qa - qb) * m;
    ModShift(ra - rb, qa - qb, m);
    ModProduct(qa, ra, qb, rb, m);
  }

  lemma ModProduct(qa: int, ra: int, qb: int, rb: int, m: int)
    requires m > 0
    ensures (ra * rb) % m == ((qa * m + ra) * (qb * m + rb)) % m
  {
    var k := qa * (qb * m) + qa * rb + ra * qb;
    assert (qa * m + ra) * (qb * m + rb) == ra * rb + k * m;
    ModShift(ra * rb, k, m);
  }

  lemma ModSmall(p: int, m: int)
    requires 0 <= p < m
    ensures p % m == p && (p - m) % m == p
  {
    ModShift(p, -1, m);
  }

  // ---------------------------------------------------------------- encoding

  lemma DecodeInRange(t: ValueType, p: int)
    requires IsInteger(t) && 0 <= p < Modulus(WidthBytes(t))
    ensures InRange(t, Decode(t, p)) && Encode(t, Decode(t, p)) == p
  {
    hide Modulus, WidthBytes;
    ModSmall(p, Modulus(WidthBytes(t)));
  }

  lemma WrapInRange(t: ValueType, v: int)
    requires IsInteger(t)
    ensures InRange(t, Wrap(t, v)) && Encode(t, Wrap(t, v)) == Encode(t, v)
  {
    hide Modulus, WidthBytes, InRange;
    DecodeInRange(t, Encode(t, v));
  }

  lemma DecodeEncode(t: ValueType, v: int)
    requires IsScalar(t) && InRange(t, v)
    ensures Decode(t, Encode(t, v)) == v
  {
    hide WidthBytes;
    var m := Modulus(WidthBytes(t));
    if v >= 0 {
      ModSmall(v, m);
    } else {
      ModSmall(v + m, m);
    }
  }

  lemma WrapOfInRange(t: ValueType, v: int)
    requires IsInteger(t) && InRange(t, v)
    ensures Wrap(t, v) == v
  {
    hide InRange, Decode, Encode;
    DecodeEncode(t, v);
  }
}
