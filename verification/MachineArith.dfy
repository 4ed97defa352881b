/** What machine instructions compute on bit patterns is what the language computes on values. */
module MachineArith {
  import opened Values
  import opened Arith
  import opened Memory
  import opened Machine
  import Codegen

  lemma SizeOfScalar(t: ValueType)
    requires IsScalar(t)
    ensures IsSize(WidthBytes(t)) && 8 * WidthBytes(t) == WidthBits(t)
  {}

  lemma EncodeSmall(t: ValueType, v: int)
    requires IsScalar(t) && InRange(t, v) && v >= 0
    ensures Encode(t, v) == v
  {
    ModSmall(v, Modulus(WidthBytes(t)));
  }

  /** Signed or unsigned, a pattern read by the signedness of its type is the value. */
  lemma ReadBack(t: ValueType, v: int)
    requires IsScalar(t) && InRange(t, v)
    ensures (if IsSigned(t) then AsSigned(WidthBytes(t), Encode(t, v)) else Encode(t, v)) == v
  {
    hide Encode, InRange;
    DecodeEncode(t, v);
  }

  lemma AddSub(t: ValueType, a: int, b: int)
    requires IsInteger(t)
    ensures AluValueOf(ADD, t, a, b) == Encode(t, Wrap(t, a + b))
    ensures AluValueOf(SUB, t, a, b) == Encode(t, Wrap(t, a - b))
  {
    hide Modulus, WidthBytes, Wrap, InRange;
    SizeOfScalar(t);
    ModArith(a, b, Modulus(WidthBytes(t)));
    WrapInRange(t, a + b);
    WrapInRange(t, a - b);
  }

  function AluValueOf(op: AluOp, t: ValueType, a: int, b: int): int
    requires IsScalar(t)
  {
    SizeOfScalar(t);
    AluValue(op, WidthBytes(t), Encode(t, a), Encode(t, b))
  }

  lemma Bitwise(t: ValueType, a: int, b: int)
    requires IsInteger(t)
    ensures AluValueOf(AND, t, a, b) == Encode(t, BitwiseOp(AndBits, t, a, b))
    ensures AluValueOf(OR, t, a, b) == Encode(t, BitwiseOp(OrBits, t, a, b))
    ensures AluValueOf(XOR, t, a, b) == Encode(t, BitwiseOp(XorBits, t, a, b))
  {
    hide Encode, BitwiseOp, Bits;
    SizeOfScalar(t);
    BitwiseInRange(AndBits, t, a, b);
    BitwiseInRange(OrBits, t, a, b);
    BitwiseInRange(XorBits, t, a, b);
  }

  lemma Logical(a: int, b: int)
    requires 0 <= a <= 1 && 0 <= b <= 1
    ensures AluValueOf(AND, Bool, a, b) == Encode(Bool, Flag(a == 1 && b == 1))
    ensures AluValueOf(OR, Bool, a, b) == Encode(Bool, Flag(a == 1 || b == 1))
    ensures AluValueOf(XOR, Bool, a, 1) == Encode(Bool, 1 - a)
  {
    hide Bits;
    BitsOfBooleans(AndBits, 8, a, b);
    BitsOfBooleans(OrBits, 8, a, b);
    BitsOfBooleans(XorBits, 8, a, 1);
  }

  lemma AsSignedMod(size: nat, p: int)
    requires 0 <= p < Modulus(size)
    ensures AsSigned(size, p) % Modulus(size) == p
  {
    hide Modulus;
    ModSmall(p, Modulus(size));
  }

  lemma Multiply(t: ValueType, a: int, b: int)
    requires IsInteger(t)
    ensures var size := WidthBytes(t);
            (AsSigned(size, Encode(t, a)) * AsSigned(size, Encode(t, b))) % Modulus(size) == Encode(t, Wrap(t, a * b))
    ensures (Encode(t, a) * Encode(t, b)) % Modulus(WidthBytes(t)) == Encode(t, Wrap(t, a * b))
  {
    hide Modulus, WidthBytes, Wrap, InRange, AsSigned;
    var size := WidthBytes(t);
    var m := Modulus(size);
    var x, y := Encode(t, a), Encode(t, b);
    AsSignedMod(size, x);
    AsSignedMod(size, y);
    ModArith(AsSigned(size, x), AsSigned(size, y), m);
    ModArith(a, b, m);
    WrapInRange(t, a * b);
  }

  /** The low byte of a 16-bit product. */
  lemma LowByte(x: int)
    ensures (x % 0x1_0000) % 0x100 == x % 0x100
  {}

  lemma Negation(t: ValueType, a: int)
    requires IsInteger(t)
    ensures (-Encode(t, a)) % Modulus(WidthBytes(t)) == Encode(t, Wrap(t, -a))
    ensures (-Encode(t, a) - 1) % Modulus(WidthBytes(t)) == Encode(t, Wrap(t, -a - 1))
  {
    hide Modulus, WidthBytes, Wrap, InRange;
    var m := Modulus(WidthBytes(t));
    ModArith(0, a, m);
    ModArith(-1, a, m);
    ModArith(-1, Encode(t, a), m);
    ModArith(0, Encode(t, a), m);
    ModSmall(Encode(t, a), m);
    WrapInRange(t, -a);
    WrapInRange(t, -a - 1);
  }

  /** A dividend extended by sign or by zero is the value itself. */
  lemma ExtendedDividend(t: ValueType, a: int, hi: int)
    requires IsInteger(t) && InRange(t, a)
    requires hi == if IsSigned(t) && a < 0 then Modulus(WidthBytes(t)) - 1 else 0
    ensures Dividend(IsSigned(t), Modulus(WidthBytes(t)), hi, Encode(t, a)) == a
  {
    hide WidthBytes, Modulus;
    var m := Modulus(WidthBytes(t));
    if a < 0 {
      ModSmall(a + m, m);
      assert Encode(t, a) == a + m by {
        ModShift(a, 1, m);
      }
      assert (m - 1) * m + (a + m) - m * m == a;
    } else {
      ModSmall(a, m);
    }
  }

  lemma Divide(t: ValueType, a: int, b: int, hi: int)
    requires IsInteger(t) && InRange(t, a) && InRange(t, b) && Apply(Div, t, a, b).Some?
    requires hi == if IsSigned(t) && a < 0 then Modulus(WidthBytes(t)) - 1 else 0
    ensures var r := DivValue(IsSigned(t), WidthBytes(t), hi, Encode(t, a), Encode(t, b));
            r.Some? && r.value.0 == Encode(t, Apply(Div, t, a, b).value)
  {
    hide WidthBytes, Modulus, Dividend, AsSigned, TruncDiv;
    ExtendedDividend(t, a, hi);
    ReadBack(t, b);
  }

  lemma ShiftCount(t: ValueType, b: int)
    requires IsInteger(t) && 0 <= b < WidthBits(t)
    ensures (if WidthBytes(t) == 8 then b % 64 else b % 32) == b
  {}

  lemma ShiftLeft(t: ValueType, a: int, b: int)
    requires IsInteger(t) && InRange(t, a) && 0 <= b < WidthBits(t)
    ensures ShiftValue(SHL, WidthBytes(t), Encode(t, a), b) == Encode(t, Wrap(t, a * Pow2(b)))
  {
    hide Modulus, Wrap, InRange, Pow2;
    ShiftCount(t, b);
    var m := Modulus(WidthBytes(t));
    ModArith(Encode(t, a), Pow2(b), m);
    ModArith(a, Pow2(b), m);
    ModSmall(Encode(t, a), m);
    WrapInRange(t, a * Pow2(b));
  }

  lemma ShiftRight(t: ValueType, a: int, b: int)
    requires IsInteger(t) && InRange(t, a) && 0 <= b < WidthBits(t)
    ensures ShiftValue(if IsSigned(t) then SAR else SHR, WidthBytes(t), Encode(t, a), b) == Encode(t, a / Pow2(b))
  {
    hide Modulus, Wrap, InRange, Pow2, AsSigned;
    ShiftCount(t, b);
    ReadBack(t, a);
  }

  /** A shift count below 64 is the low byte of its pattern. */
  lemma CountByte(t: ValueType, b: int)
    requires IsInteger(t) && InRange(t, b) && 0 <= b < 64
    ensures Encode(t, b) % 0x100 == b
  {
    EncodeSmall(t, b);
  }

  // ---------------------------------------------------------------- conversion

  lemma Reencode(t: ValueType, from: ValueType, v: int)
    requires IsScalar(t) && IsScalar(from) && InRange(from, v) && Castable(from, t)
    ensures Encode(t, Convert(t, v)) == v % Modulus(WidthBytes(t))
  {
    hide Modulus, WidthBytes;
    if !t.Bool? {
      WrapInRange(t, v);
    }
  }

  /** Low bytes of a wider pattern. */
  lemma Truncation(size: nat, wide: nat, v: int)
    requires IsSize(size) && IsSize(wide) && size <= wide
    ensures (v % Modulus(wide)) % Modulus(size) == v % Modulus(size)
  {
    var m, w := Modulus(size), Modulus(wide);
    var k := w / m;
    assert w == k * m;
    assert v == w * (v / w) + v % w;
    assert w * (v / w) == (k * (v / w)) * m;
    ModShift(v % w, k * (v / w), m);
  }

  // ---------------------------------------------------------------- comparison

  /** The flags of a comparison decide every condition, by the signedness of the type. */
  lemma Compare(t: ValueType, a: int, b: int, op: BinaryOp)
    requires IsScalar(t) && InRange(t, a) && InRange(t, b) && IsRelational(op)
    ensures var f := CompareFlags(WidthBytes(t), Encode(t, a), Encode(t, b));
            CondHolds(Codegen.Condition(op, IsSigned(t)), f) == Holds(op, a, b)
  {
    hide Encode, AsSigned, InRange;
    SizeOfScalar(t);
    ReadBack(t, a);
    ReadBack(t, b);
    SameEncoding(t, a, b);
    if IsSigned(t) {
      SignedLess(t, a, b);
    }
  }

  lemma SameEncoding(t: ValueType, a: int, b: int)
    requires IsScalar(t) && InRange(t, a) && InRange(t, b)
    ensures Encode(t, a) == Encode(t, b) <==> a == b
  {
    DecodeEncode(t, a);
    DecodeEncode(t, b);
  }

  /** Sign differs from overflow exactly when the signed difference is negative. */
  lemma SignedLess(t: ValueType, a: int, b: int)
    requires IsSigned(t) && InRange(t, a) && InRange(t, b)
    ensures var size := WidthBytes(t);
            var d := (Encode(t, a) - Encode(t, b)) % Modulus(size);
            (AsSigned(size, d) < 0) != (AsSigned(size, d) != a - b) <==> a < b
  {
    hide Modulus, WidthBytes;
    var m := Modulus(WidthBytes(t));
    ModArith(a, b, m);
    var d := (a - b) % m;
    var e := a - b;
    assert -m < e < m;
    if 0 <= e {
      ModSmall(e, m);
    } else {
      ModSmall(e + m, m);
      ModShift(e, 1, m);
    }
  }
}
