/** Byte-addressed memory with little-endian loads and stores of any number of bytes. */
module Memory {
  import opened Values

  type Byte = b: int | 0 <= b < 0x100

  /** Bytes never written read as zero. */
  type Mem = map<int, Byte>

  function ByteAt(m: Mem, a: int): Byte {
    if a in m then m[a] else 0
  }

  function Pow256(n: nat): (p: int)
    ensures p > 0
  {
    if n == 0 then 1 else 0x100 * Pow256(n - 1)
  }

  function Load(m: Mem, a: int, n: nat): (v: int)
    ensures 0 <= v < Pow256(n)
    decreases n
  {
    if n == 0 then 0 else ByteAt(m, a) + 0x100 * Load(m, a + 1, n - 1)
  }

  function Store(m: Mem, a: int, n: nat, v: int): Mem
    decreases n
  {
    if n == 0 then m else Store(m[a := v % 0x100], a + 1, n - 1, v / 0x100)
  }

  lemma Pow256Sizes(size: nat)
    requires IsSize(size)
    ensures Pow256(size) == Modulus(size)
  {
    assert Pow256(4) == 0x1_0000_0000;
    assert Pow256(8) == 0x100 * (0x100 * (0x100 * (0x100 * Pow256(4))));
  }

  lemma LoadBound(m: Mem, a: int, size: nat)
    requires IsSize(size)
    ensures 0 <= Load(m, a, size) < Modulus(size)
  {
    Pow256Sizes(size);
  }

  /** A store changes no byte outside the bytes it writes. */
  lemma {:induction false} StoreElsewhere(m: Mem, a: int, n: nat, v: int, b: int)
    requires b < a || a + n <= b
    ensures ByteAt(Store(m, a, n, v), b) == ByteAt(m, b)
    decreases n
  {
    if n > 0 {
      StoreElsewhere(m[a := v % 0x100], a + 1, n - 1, v / 0x100, b);
    }
  }

  lemma {:induction false} LoadSame(m: Mem, m': Mem, a: int, n: nat)
    requires forall b :: a <= b < a + n ==> ByteAt(m', b) == ByteAt(m, b)
    ensures Load(m', a, n) == Load(m, a, n)
    decreases n
  {
    if n > 0 {
      assert ByteAt(m', a) == ByteAt(m, a);
      LoadSame(m, m', a + 1, n - 1);
    }
  }

  lemma LoadElsewhere(m: Mem, a: int, n: nat, v: int, b: int, k: nat)
    requires b + k <= a || a + n <= b
    ensures Load(Store(m, a, n, v), b, k) == Load(m, b, k)
  {
    forall c | b <= c < b + k ensures ByteAt(Store(m, a, n, v), c) == ByteAt(m, c) {
      StoreElsewhere(m, a, n, v, c);
    }
    LoadSame(m, Store(m, a, n, v), b, k);
  }

  /** The low `k` bytes of a stored value read back as the value modulo 256^k. */
  lemma {:induction false} LoadStored(m: Mem, a: int, n: nat, v: int, k: nat)
    requires k <= n && v >= 0
    ensures Load(Store(m, a, n, v), a, k) == v % Pow256(k)
    decreases n
  {
    if k > 0 {
      var m1 := m[a := v % 0x100];
      var m2 := Store(m1, a + 1, n - 1, v / 0x100);
      StoreElsewhere(m1, a + 1, n - 1, v / 0x100, a);
      LoadStored(m1, a + 1, n - 1, v / 0x100, k - 1);
      ModDigit(v, Pow256(k - 1));
    }
  }

  lemma ModDigit(v: int, p: int)
    requires v >= 0 && p > 0
    ensures v % 0x100 + 0x100 * ((v / 0x100) % p) == v % (0x100 * p)
  {
    var q, r := (v / 0x100) / p, (v / 0x100) % p;
    assert v / 0x100 == p * q + r;
    assert v == 0x100 * (p * q + r) + v % 0x100;
    assert 0x100 * (p * q) == q * (0x100 * p);
    ModUnique(q, v % 0x100 + 0x100 * r, 0x100 * p);
  }
}
