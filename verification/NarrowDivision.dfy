/** A division whose divisor lies in a slot narrower than the destination. The divide instruction takes
  * its width from the divisor, so it divides the low part of the dividend only. What is stored then, and
  * exactly when that is the quotient. */
module NarrowDivision {
  import opened Values
  import opened Arith
  import opened Memory
  import opened Machine
  import opened MachineArith
  import opened MachineRun
  import opened Frame
  import opened Codegen
  import opened CodegenOps
  import I = Ir

  // ---------------------------------------------------------------- what is stored

  /** Bytes of `rax` the division writes: a byte division leaves the remainder beside the quotient. */
  function Written(size: nat): nat {
    if size == 1 then 2 else size
  }

  /** Quotient and remainder, at the width of the divisor, of a dividend whose pattern is `n` and that was
    * extended to the register above by ones if it is negative. */
  function LowDivision(signed: bool, size: nat, negative: bool, n: nat, b: int): Option<(int, int)> {
    if size == 1 then DivValue(signed, 1, n % 0x1_0000 / 0x100, n % 0x100, b)
      else DivValue(signed, size, if negative then Modulus(size) - 1 else 0, n % Modulus(size), b)
  }

  function WrittenValue(size: nat, qr: (int, int)): int {
    if size == 1 then (qr.1 * 0x100 + qr.0) % 0x1_0000 else qr.0 % Modulus(size)
  }

  /** The pattern stored for a dividend with the pattern `n`. */
  function Stored(signed: bool, size: nat, negative: bool, n: nat, b: int): Option<int> {
    match LowDivision(signed, size, negative, n, b)
    case None => None
    case Some(qr) =>
      var v := WrittenValue(size, qr);
      Some(if size == 4 then v else n - n % 0x1_0000 + v)
  }

  lemma LowBytesOf(n: nat)
    ensures n % 0x1_0000 % 0x100 == n % 0x100
  {
    Truncation(1, 2, n);
  }

  /** Writing the low bytes of a register keeps the bytes above, or clears them for four bytes. */
  lemma MergedInto(prev: Word, size: nat, wide: nat, v: int)
    requires (size == 2 || size == 4) && IsSize(wide) && size <= wide && 0 <= v < Modulus(size)
    ensures size == 2 ==>
            Merge(prev, 2, v) % Modulus(wide) == prev % Modulus(wide) - prev % Modulus(wide) % 0x1_0000 + v
    ensures size == 4 ==> Merge(prev, 4, v) % Modulus(wide) == v
  {
    var m := Modulus(wide);
    if size == 4 {
      ModSmall(v, m);
    } else {
      Truncation(2, wide, prev);
      var n := prev % m;
      assert prev - prev % 0x1_0000 + v == (n - n % 0x1_0000 + v) + (prev / m) * m;
      HighAndLow(n, wide, v);
      ModShift(n - n % 0x1_0000 + v, prev / m, m);
      ModSmall(n - n % 0x1_0000 + v, m);
    }
  }

  lemma HighAndLow(n: nat, wide: nat, v: int)
    requires IsSize(wide) && wide >= 2 && n < Modulus(wide) && 0 <= v < 0x1_0000
    ensures 0 <= n - n % 0x1_0000 + v < Modulus(wide)
  {}

  lemma OnesBelow(size: nat, wide: nat)
    requires IsSize(size) && IsSize(wide) && size < wide
    ensures (Modulus(wide) - 1) % Modulus(size) == Modulus(size) - 1
  {
    var m := Modulus(size);
    var k := if size == 1 then (if wide == 2 then 0xFF else if wide == 4 then 0xFF_FFFF else 0xFF_FFFF_FFFF_FFFF)
             else if size == 2 then (if wide == 4 then 0xFFFF else 0xFFFF_FFFF_FFFF) else 0xFFFF_FFFF;
    assert Modulus(wide) - 1 == k * m + (m - 1);
    ModUnique(k, m - 1, m);
  }

  lemma DivideNarrow(s: State, signed: bool, size: nat, wide: nat, negative: bool, n: nat, src: Arg)
    requires IsSize(size) && IsSize(wide) && size < wide && src.M? && src.size == size && n < Modulus(wide)
    requires ReadArg(s, R(RAX, wide), wide) == n && ReadArg(s, R(RDX, wide), wide) ==
             (if negative then Modulus(wide) - 1 else 0)
    ensures var b := ReadArg(s, src, size); var r := Exec(DivA(signed, src), s);
            if Stored(signed, size, negative, n, b).None? then r.None?
            else r.Some? && SameMemory(s, r.value) &&
                 ReadArg(r.value, R(RAX, wide), wide) == Stored(signed, size, negative, n, b).value
  {
    hide DivValue, Merge, Load;
    Truncation(size, wide, s.rax);
    Truncation(size, wide, s.rdx);
    Truncation(2, wide, s.rax);
    LowBytesOf(n);
    ModSmall(0, Modulus(size));
    OnesBelow(size, wide);
    var qr := LowDivision(signed, size, negative, n, ReadArg(s, src, size));
    if qr.Some? {
      WrittenBound(size, qr.value);
      MergedInto(s.rax, Written(size), wide, WrittenValue(size, qr.value));
    }
  }

  lemma WrittenBound(size: nat, qr: (int, int))
    requires IsSize(size)
    ensures 0 <= WrittenValue(size, qr) < Modulus(Written(size))
  {}

  lemma StoredBound(signed: bool, size: nat, wide: nat, negative: bool, n: nat, b: int)
    requires IsSize(size) && IsSize(wide) && size < wide && n < Modulus(wide)
    ensures var r := Stored(signed, size, negative, n, b); r.Some? ==> 0 <= r.value < Modulus(wide)
  {
    hide LowDivision, WrittenValue;
    var qr := LowDivision(signed, size, negative, n, b);
    if qr.Some? {
      WrittenBound(size, qr.value);
      if size != 4 {
        HighAndLow(n, wide, WrittenValue(size, qr.value));
      }
    }
  }

  /** The whole sequence, for every dividend, with a divisor in memory narrower than it. */
  lemma NarrowCode(es: seq<Entry>, dst: I.Operand, a: I.Operand, b: I.Operand, s: State, x: int)
    requires I.IsPlace(dst) && IsInteger(dst.t) && I.IsPlace(b) && OperandSize(b, SizeOf(b)) && SizeOf(b) < SizeOf(dst)
    requires OperandSize(dst, SizeOf(dst)) && !a.NoOperand? && (I.IsPlace(a) ==> SizeOf(a) == SizeOf(dst))
    requires InRange(dst.t, x) && ReadArg(s, Operand(es, a), SizeOf(dst)) == Encode(dst.t, x)
    ensures var n := Encode(dst.t, x);
            var r := Stored(IsSigned(dst.t), SizeOf(b), x < 0, n, ReadArg(s, Operand(es, b), SizeOf(b)));
            if r.None? then ExecBlock(DivCode(es, dst, a, b), s).None?
            else exists s' :: Stores(DivCode(es, dst, a, b), s, s', SlotOffset(es, dst), SizeOf(dst), r.value)
  {
    hide ReadArg, Exec, ExecBlock, WriteBack, Operand, Stored, Encode, InRange, DividendExtension, Store, Get, Modulus;
    var wide, signed, q := SizeOf(dst), IsSigned(dst.t), Operand(es, b);
    SlotArg(es, b);
    SlotArg(es, dst);
    var p := Operand(es, a);
    SourceArg(es, a, wide);
    MovRegister(s, RAX, wide, p);
    var s1 := WriteBack(s, R(RAX, wide), ReadArg(s, p, wide));
    Exec1(Mov(R(RAX, wide), p), s);
    var s2 := ExtendWide(s1, dst.t, x);
    var n := Extended(dst.t, x);
    ExecBlockConcat([Mov(R(RAX, wide), p)], DividendExtension(wide, signed), s);
    var first := [Mov(R(RAX, wide), p)] + DividendExtension(wide, signed);
    ReadKept(s, s2, q, SizeOf(b));
    DivideNarrow(s2, signed, SizeOf(b), wide, x < 0, n, q);
    FinishNarrow(first, DivA(signed, q), s, s2, wide, SlotOffset(es, dst),
                 Stored(signed, SizeOf(b), x < 0, n, ReadArg(s, q, SizeOf(b))));
    DivShape(es, dst, a, b);
  }

  lemma Extended(t: ValueType, x: int) returns (n: nat)
    requires IsInteger(t) && InRange(t, x)
    ensures n == Encode(t, x) < Modulus(WidthBytes(t))
    ensures HighPart(t, x) == if x < 0 then Modulus(WidthBytes(t)) - 1 else 0
  {
    n := Encode(t, x);
  }

  lemma SlotArg(es: seq<Entry>, o: I.Operand)
    requires I.IsPlace(o) && IsSize(SizeOf(o))
    ensures Operand(es, o).M? && Operand(es, o).size == SizeOf(o) && Operand(es, o) == M(SizeOf(o), SlotOffset(es, o))
    ensures RegisterSize(SizeOf(o)) == SizeOf(o)
  {}

  lemma SourceArg(es: seq<Entry>, o: I.Operand, size: nat)
    requires IsSize(size) && !o.NoOperand? && (I.IsPlace(o) ==> SizeOf(o) == size)
    ensures HasSize(Operand(es, o), size) && Acc(size) == R(RAX, size)
  {}

  lemma DivShape(es: seq<Entry>, dst: I.Operand, a: I.Operand, b: I.Operand)
    requires !dst.NoOperand? && I.IsPlace(b) && IsSize(SizeOf(dst))
    ensures var wide := SizeOf(dst);
            DivCode(es, dst, a, b) ==
            [Mov(R(RAX, wide), Operand(es, a))] + DividendExtension(wide, IsSigned(dst.t)) +
            ([DivA(IsSigned(dst.t), Operand(es, b))] + [Mov(Operand(es, dst), R(RAX, wide))])
  {
    hide Operand, DividendExtension;
    var wide := SizeOf(dst);
    var x := [Mov(R(RAX, wide), Operand(es, a))] + DividendExtension(wide, IsSigned(dst.t));
    var y, z := [DivA(IsSigned(dst.t), Operand(es, b))], [Mov(Operand(es, dst), R(RAX, wide))];
    assert x + y + z == x + (y + z);
  }

  lemma FinishNarrow(first: seq<Instr>, div: Instr, s: State, s2: State, wide: nat, off: int, r: Option<int>)
    requires IsSize(wide) && ExecBlock(first, s) == Some(s2) && SameMemory(s, s2)
    requires if r.None? then Exec(div, s2).None?
             else Exec(div, s2).Some? && SameMemory(s2, Exec(div, s2).value) &&
                  ReadArg(Exec(div, s2).value, R(RAX, wide), wide) == r.value
    ensures var code := first + ([div] + [Mov(M(wide, off), R(RAX, wide))]);
            if r.None? then ExecBlock(code, s).None? else exists s' :: Stores(code, s, s', off, wide, r.value)
  {
    hide Exec, ReadArg, Store;
    var put := Mov(M(wide, off), R(RAX, wide));
    assert [div] + [put] == [div, put];
    if r.None? {
      FailsAfter(first, [div, put], s);
    } else {
      var s3 := Exec(div, s2).value;
      MovToSlot(s3, wide, off, RAX);
      Exec2(div, put, s2);
      var s' := Exec(put, s3).value;
      StoresAfter(first, [div, put], s, s2, s', off, wide, r.value);
    }
  }

  lemma FailsAfter(first: seq<Instr>, rest: seq<Instr>, s: State)
    requires ExecBlock(first, s).Some? && |rest| > 0 && Exec(rest[0], ExecBlock(first, s).value).None?
    ensures ExecBlock(first + rest, s).None?
  {
    hide Exec;
    ExecBlockConcat(first, rest, s);
  }

  // ---------------------------------------------------------------- when that is the quotient

  /** The dividends a narrower divisor divides right, whatever its value: zero, or any that fit the width
    * of the divisor if nothing but the quotient is written and there is no sign. */
  predicate SmallDividend(signed: bool, size: nat, x: int) {
    x == 0 || (!signed && size > 1 && x < Modulus(size))
  }

  /** The pattern of the quotient at the width of the destination. */
  function Quotient(wide: nat, x: int, y: int): int
    requires y != 0
  {
    TruncDiv(x, y) % Modulus(wide)
  }

  predicate AtWidth(signed: bool, size: nat, x: int) {
    var m := Modulus(size);
    if signed then -(m / 2) <= x < m / 2 else 0 <= x < m
  }

  lemma SmallIsRight(signed: bool, size: nat, wide: nat, n: nat, y: int)
    requires IsSize(size) && IsSize(wide) && size < wide && SmallDividend(signed, size, n)
    requires y != 0 && AtWidth(signed, size, y)
    ensures Stored(signed, size, false, n, y % Modulus(size)) == Some(Quotient(wide, n, y))
  {
    var m := Modulus(size);
    PatternOf(signed, size, y);
    if n == 0 {
      ZeroDivided(y);
      ModSmall(0, Modulus(wide));
      ModSmall(0, m);
    } else {
      ModSmall(n, m);
      ModSmall(n, Modulus(wide));
      DividesDown(n, y);
      var q: int := n / y;
      ModSmall(q, m);
      ModSmall(q, Modulus(wide));
      if size == 2 {
        assert n % 0x1_0000 == n;
      }
    }
  }

  lemma PatternOf(signed: bool, size: nat, y: int)
    requires IsSize(size)
    requires AtWidth(signed, size, y)
    ensures (if signed then AsSigned(size, y % Modulus(size)) else y % Modulus(size)) == y
  {
    var m := Modulus(size);
    if y >= 0 {
      ModSmall(y, m);
    } else {
      ModSmall(y + m, m);
    }
  }

  lemma ZeroDivided(y: int)
    requires y != 0
    ensures TruncDiv(0, y) == 0
  {}

  lemma DividesDown(n: nat, y: int)
    requires y > 0
    ensures TruncDiv(n, y) == n / y && 0 <= n / y <= n
  {
    FloorBound(n, y, 0, n + 1);
  }

  /** A divisor that shows it, for every other dividend. */
  function Breaker(signed: bool, size: nat, wide: nat, x: int): int {
    if signed && x >= 0 then -1
    else if signed then
      if size == 4 || wide == 2 then 1 else if x == -(Modulus(wide) / 2) then -2 else -1
    else if size > 1 || x >= 0x1_0000 then 2
    else if x < 0xFF then x + 1
    else if x == 0xFF then 2
    else 1
  }

  /** For every other dividend, negative or not, some divisor in range, with a quotient in range, makes the
    * code fault or store something else. */
  lemma LargeIsWrong(signed: bool, size: nat, wide: nat, x: int)
    requires IsSize(size) && IsSize(wide) && size < wide && !SmallDividend(signed, size, x) && AtWidth(signed, wide, x)
    ensures var y := Breaker(signed, size, wide, x);
            y != 0 && AtWidth(signed, size, y) && AtWidth(signed, wide, TruncDiv(x, y)) &&
            Stored(signed, size, x < 0, x % Modulus(wide), y % Modulus(size)) != Some(Quotient(wide, x, y))
  {
    hide Stored;
    BreakerFits(signed, size, wide, x);
    if x >= 0 {
      ModSmall(x, Modulus(wide));
    }
    if signed && x >= 0 {
      NegatedIsWrong(size, wide, x);
    } else if signed {
      NegativeIsWrong(size, wide, x);
    } else if size > 1 {
      HalvedIsWrong(size, wide, x);
    } else {
      ByteIsWrong(wide, x);
    }
  }

  lemma BreakerFits(signed: bool, size: nat, wide: nat, x: int)
    requires IsSize(size) && IsSize(wide) && size < wide && !SmallDividend(signed, size, x) && AtWidth(signed, wide, x)
    ensures var y := Breaker(signed, size, wide, x);
            y != 0 && AtWidth(signed, size, y) && AtWidth(signed, wide, TruncDiv(x, y))
  {
    var y := Breaker(signed, size, wide, x);
    if signed {
      Halves(x);
    } else {
      DividesDown(x, y);
    }
  }

  lemma Halves(x: int)
    ensures TruncDiv(x, 1) == x && TruncDiv(x, -1) == -x
    ensures x < 0 ==> TruncDiv(x, -2) == -x / 2
  {}

  /** A negative dividend: the sign stays behind in the bytes that are kept, or is lost with those cleared. */
  lemma NegativeIsWrong(size: nat, wide: nat, x: int)
    requires IsSize(size) && IsSize(wide) && size < wide && -(Modulus(wide) / 2) <= x < 0
    ensures var y := Breaker(true, size, wide, x);
            y != 0 && Stored(true, size, true, x % Modulus(wide), y % Modulus(size)) != Some(Quotient(wide, x, y))
  {
    hide Stored;
    var n := x + Modulus(wide);
    ModUnique(-1, n, Modulus(wide));
    Halves(x);
    if size == 4 || wide == 2 {
      SignLost(size, wide, n);
    } else {
      SignKept(size, wide, n, Breaker(true, size, wide, x) % Modulus(size));
      ModSmall(TruncDiv(x, Breaker(true, size, wide, x)), Modulus(wide));
    }
  }

  /** Divided by 1: what is stored is not negative. */
  lemma SignLost(size: nat, wide: nat, n: nat)
    requires IsSize(size) && IsSize(wide) && size < wide && (size == 4 || wide == 2) && n < Modulus(wide)
    ensures var r := Stored(true, size, true, n, 1 % Modulus(size)); r.Some? ==> r.value < Modulus(wide) / 2
  {
    hide LowDivision, WrittenValue;
    var qr := LowDivision(true, size, true, n, 1 % Modulus(size));
    if qr.Some? {
      WrittenBound(size, qr.value);
      if size == 1 {
        RemainderOfUnit(n, 1 % Modulus(1));
        NoRemainder(qr.value);
      }
    }
  }

  lemma SignKept(size: nat, wide: nat, n: nat, b: int)
    requires (size == 1 || size == 2) && (wide == 4 || wide == 8) && Modulus(wide) / 2 <= n < Modulus(wide)
    ensures var r := Stored(true, size, true, n, b); r.Some? ==> r.value >= Modulus(wide) / 2
  {
    hide LowDivision, WrittenValue;
    var qr := LowDivision(true, size, true, n, b);
    if qr.Some? {
      WrittenBound(size, qr.value);
    }
  }

  /** A byte division by 1 leaves no remainder. */
  lemma RemainderOfUnit(n: nat, b: int)
    requires b == 1 && LowDivision(true, 1, true, n, b).Some?
    ensures var qr := LowDivision(true, 1, true, n, b).value; qr.1 == 0 && 0 <= qr.0 < 0x100
  {
    var d := Dividend(true, 0x100, n % 0x1_0000 / 0x100, n % 0x100);
    Halves(d);
  }

  lemma NoRemainder(qr: (int, int))
    requires qr.1 == 0 && 0 <= qr.0 < 0x100
    ensures WrittenValue(1, qr) == qr.0
  {
    ModSmall(qr.0, 0x1_0000);
  }

  /** Divided by -1: what is stored has no sign bit. */
  lemma NegatedIsWrong(size: nat, wide: nat, n: nat)
    requires IsSize(size) && IsSize(wide) && size < wide && 0 < n < Modulus(wide) / 2
    ensures Stored(true, size, false, n, (-1) % Modulus(size)) != Some(Quotient(wide, n, -1))
  {
    hide DivValue;
    var m, x: int := Modulus(wide), n;
    assert TruncDiv(x, -1) == -x;
    ModSmall(m - n, m);
    assert Quotient(wide, n, -1) == m - n;
    var qr := LowDivision(true, size, false, n, (-1) % Modulus(size));
    if qr.Some? {
      RemainderOfOne(size, n);
      StoredIsLow(size, wide, n, qr.value);
    }
  }

  lemma RemainderOfOne(size: nat, n: nat)
    requires IsSize(size) && LowDivision(true, size, false, n, (-1) % Modulus(size)).Some?
    ensures var qr := LowDivision(true, size, false, n, (-1) % Modulus(size)).value;
            qr.1 == 0 && 0 <= qr.0 < Modulus(size)
  {
    PatternOf(true, size, -1);
    var m := Modulus(size);
    var d := if size == 1 then Dividend(true, m, n % 0x1_0000 / 0x100, n % 0x100) else Dividend(true, m, 0, n % m);
    Halves(d);
  }

  lemma StoredIsLow(size: nat, wide: nat, n: nat, qr: (int, int))
    requires IsSize(size) && IsSize(wide) && size < wide && n < Modulus(wide) / 2 && qr.1 == 0 &&
             0 <= qr.0 < Modulus(size)
    ensures (if size == 4 then WrittenValue(size, qr) else n - n % 0x1_0000 + WrittenValue(size, qr)) <
            Modulus(wide) / 2
  {
    ModSmall(qr.0, Modulus(size));
    if size == 1 {
      ModSmall(qr.0, 0x1_0000);
    }
  }

  /** Halved: the high part is kept or lost, not halved. */
  lemma HalvedIsWrong(size: nat, wide: nat, n: nat)
    requires (size == 2 || size == 4) && IsSize(wide) && size < wide && Modulus(size) <= n < Modulus(wide)
    ensures Stored(false, size, false, n, 2 % Modulus(size)) != Some(Quotient(wide, n, 2))
  {
    var m := Modulus(size);
    var low := n % m;
    DividesDown(n, 2);
    DividesDown(low, 2);
    ModSmall(n / 2, Modulus(wide));
    ModSmall(low / 2, m);
    assert DivValue(false, size, 0, low, 2) == Some((low / 2 % m, (low - low / 2 * 2) % m));
  }

  lemma ByteIsWrong(wide: nat, n: nat)
    requires IsSize(wide) && wide > 1 && 0 < n < Modulus(wide)
    ensures var y := Breaker(false, 1, wide, n);
            0 < y < 0x100 && Stored(false, 1, false, n, y % 0x100) != Some(Quotient(wide, n, y))
  {
    var y := Breaker(false, 1, wide, n);
    var low := n % 0x1_0000;
    LowBytesOf(n);
    ModSmall(y, 0x100);
    DividesDown(n, y);
    DividesDown(low, y);
    ModSmall(n / y, Modulus(wide));
    assert low / 0x100 * 0x100 + n % 0x100 == low;
    if low / y < 0x100 {
      var q, r := low / y, low - low / y * y;
      RemainderBound(low, y);
      assert DivValue(false, 1, low / 0x100, n % 0x100, y) == Some((q, r)) by {
        ModSmall(q, 0x100);
        ModSmall(r, 0x100);
      }
      ModSmall(r * 0x100 + q, 0x1_0000);
      ByteStored(wide, n, low, y, q, r);
    }
  }

  lemma RemainderBound(n: nat, y: int)
    requires y > 0
    ensures 0 <= n - n / y * y < y
  {
    assert n == y * (n / y) + n % y;
  }

  lemma ByteStored(wide: nat, n: nat, low: nat, y: int, q: int, r: int)
    requires n > 0 && low == n % 0x1_0000 && y == Breaker(false, 1, wide, n) && q == low / y < 0x100 && r == low - q * y
    ensures n - low + (r * 0x100 + q) != n / y
  {
    if n >= 0x1_0000 {
      assert y == 2 && n / 2 < n - low + low / 2;
    } else {
      assert n == low;
    }
  }
}
