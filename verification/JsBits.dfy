/**
 JavaScript's 32-bit integer operators, written on the unsigned representative of a 32-bit word, and bit strings
 (most significant bit first) to say what they compute.
 */
module JsBits {

  type Bits = seq<bool>

  type byte = x: int | 0 <= x < 256

  const TWO_TO_THE_32 := 0x1_0000_0000

  function Pow2(n: nat): (r: nat)
    ensures r >= 1
  {
    if n == 0 then 1 else 2 * Pow2(n - 1)
  }

  // ---------- the operators ----------

  function ToUint32(x: int): (r: nat)
    ensures r < TWO_TO_THE_32
  {
    x % TWO_TO_THE_32
  }

  /** `x | y` on unsigned words, bit by bit. */
  function Or(x: nat, y: nat): nat
    decreases x + y
  {
    if x == 0 && y == 0 then 0
    else (if x % 2 == 1 || y % 2 == 1 then 1 else 0) + 2 * Or(x / 2, y / 2)
  }

  /** `x & y` on unsigned words, bit by bit. */
  function And(x: nat, y: nat): nat
    decreases x
  {
    if x == 0 then 0
    else (if x % 2 == 1 && y % 2 == 1 then 1 else 0) + 2 * And(x / 2, y / 2)
  }

  /** `x << k`: the bits shifted past position 31 are lost. */
  function Shl(x: nat, k: nat): nat {
    ToUint32(x * Pow2(k))
  }

  /** `x >>> k` of a 32-bit word. */
  function Ushr(x: nat, k: nat): nat
    decreases k
  {
    if k == 0 then x else Ushr(x / 2, k - 1)
  }

  // ---------- bit strings ----------

  /** The low n bits of x. */
  function LowBits(x: nat, n: nat): (bits: Bits)
    ensures |bits| == n
    decreases n
  {
    if n == 0 then [] else LowBits(x / 2, n - 1) + [x % 2 == 1]
  }

  /** The number a bit string spells. */
  function Val(bits: Bits): (v: nat)
    ensures v < Pow2(|bits|)
  {
    if bits == [] then 0
    else 2 * Val(bits[..|bits| - 1]) + if bits[|bits| - 1] then 1 else 0
  }

  function Zeros(n: nat): (bits: Bits)
    ensures |bits| == n
  {
    seq(n, _ => false)
  }

  lemma {:induction false} ValOfLowBits(x: nat, n: nat)
    ensures Val(LowBits(x, n)) == x % Pow2(n)
  {
    if n == 0 {
      assert x % 1 == 0;
    } else {
      var bits := LowBits(x, n);
      assert bits[..n - 1] == LowBits(x / 2, n - 1);
      ValOfLowBits(x / 2, n - 1);
      ModSplit(x, Pow2(n - 1));
    }
  }

  lemma {:induction false} LowBitsOfVal(bits: Bits)
    ensures LowBits(Val(bits), |bits|) == bits
  {
    if bits != [] {
      var front := bits[..|bits| - 1];
      LowBitsOfVal(front);
      assert Val(bits) / 2 == Val(front);
      assert bits == front + [bits[|bits| - 1]];
    }
  }

  /** Halving commutes with truncation to a power of two. */
  lemma ModSplit(x: nat, m: nat)
    requires m > 0
    ensures x % (2 * m) == 2 * ((x / 2) % m) + x % 2
  {
    var q, r := (x / 2) / m, (x / 2) % m;
    assert x / 2 == q * m + r;
    assert x == 2 * (x / 2) + x % 2;
    assert x == q * (2 * m) + (2 * r + x % 2);
    DivModUnique(x, 2 * m, q, 2 * r + x % 2);
  }

  lemma DivModUnique(x: int, m: int, q: int, r: int)
    requires m > 0 && x == q * m + r && 0 <= r < m
    ensures x / m == q && x % m == r
  {
    var q' := x / m;
    assert x == m * q' + x % m;
    assert (q' - q) * m == r - x % m;
    if q' > q {
      MulAtLeast(q' - q, m);
    } else if q' < q {
      MulAtLeast(q - q', m);
    }
  }

  lemma MulAtLeast(d: nat, m: nat)
    requires d >= 1
    ensures d * m >= m
  {
    assert d * m == (d - 1) * m + m;
  }

  /** Truncation keeps the low bits: the accumulator may overflow 32 bits without harm. */
  lemma {:induction false} LowBitsOfTruncated(x: nat, n: nat, width: nat)
    requires n <= width
    ensures LowBits(x % Pow2(width), n) == LowBits(x, n)
    decreases n
  {
    if n > 0 {
      ModSplit(x, Pow2(width - 1));
      var t := x % Pow2(width);
      assert t / 2 == (x / 2) % Pow2(width - 1) && t % 2 == x % 2;
      LowBitsOfTruncated(x / 2, n - 1, width - 1);
    }
  }

  /** Appending k bits at the right. */
  lemma {:induction false} LowBitsOfAppend(x: nat, b: nat, n: nat, k: nat)
    requires b < Pow2(k)
    ensures LowBits(x * Pow2(k) + b, n + k) == LowBits(x, n) + LowBits(b, k)
    decreases k
  {
    if k == 0 {
      assert LowBits(x, n) + [] == LowBits(x, n);
    } else {
      var y := x * Pow2(k) + b;
      var h := x * Pow2(k - 1);
      assert x * Pow2(k) == 2 * h;
      assert y / 2 == h + b / 2 && y % 2 == b % 2;
      LowBitsOfAppend(x, b / 2, n, k - 1);
      assert LowBits(x, n) + (LowBits(b / 2, k - 1) + [b % 2 == 1]) == LowBits(x, n) + LowBits(b / 2, k - 1) + [b % 2 == 1];
    }
  }

  /** Splitting n + k bits into the high n and the low k. */
  lemma {:induction false} LowBitsSplit(x: nat, n: nat, k: nat)
    ensures LowBits(x, n + k) == LowBits(Ushr(x, k), n) + LowBits(x, k)
    decreases k
  {
    if k == 0 {
      assert LowBits(x, n) + [] == LowBits(x, n);
    } else {
      LowBitsSplit(x / 2, n, k - 1);
      var high, low := LowBits(Ushr(x, k), n), LowBits(x / 2, k - 1);
      assert n + k - 1 == n + (k - 1);
      assert high + (low + [x % 2 == 1]) == high + low + [x % 2 == 1];
    }
  }

  lemma {:induction false} LowBitsOfZero(n: nat)
    ensures LowBits(0, n) == Zeros(n)
  {
    if n > 0 {
      LowBitsOfZero(n - 1);
      assert Zeros(n) == Zeros(n - 1) + [false];
    }
  }

  /** `x & (2^k - 1)` keeps the low k bits. */
  lemma {:induction false} AndMask(x: nat, k: nat)
    ensures And(x, Pow2(k) - 1) == x % Pow2(k)
    decreases k
  {
    if k == 0 {
      AndZero(x);
      assert x % 1 == 0;
    } else {
      ModSplit(x, Pow2(k - 1));
      assert (Pow2(k) - 1) % 2 == 1 && (Pow2(k) - 1) / 2 == Pow2(k - 1) - 1;
      AndMask(x / 2, k - 1);
    }
  }

  lemma {:induction false} AndZero(x: nat)
    ensures And(x, 0) == 0
    decreases x
  {
    if x > 0 {
      AndZero(x / 2);
    }
  }

  /** `|` of two words whose set bits are apart is their sum. */
  lemma {:induction false} OrDisjoint(h: nat, b: nat, k: nat)
    requires b < Pow2(k)
    ensures Or(h * Pow2(k), b) == h * Pow2(k) + b
    decreases k
  {
    if k == 0 {
      OrZero(h);
      assert h * 1 == h;
    } else {
      var x := h * Pow2(k);
      assert x == 2 * (h * Pow2(k - 1));
      assert x % 2 == 0 && x / 2 == h * Pow2(k - 1);
      OrDisjoint(h, b / 2, k - 1);
    }
  }

  lemma {:induction false} OrZero(x: nat)
    ensures Or(x, 0) == x
    decreases x
  {
    if x > 0 {
      OrZero(x / 2);
    }
  }

  lemma Pow2Values()
    ensures Pow2(1) == 2 && Pow2(2) == 4 && Pow2(3) == 8 && Pow2(4) == 16 && Pow2(5) == 32 && Pow2(7) == 128
    ensures Pow2(8) == 256 && Pow2(16) == 65536 && Pow2(24) == 16777216 && Pow2(27) == 134217728 && Pow2(32) == TWO_TO_THE_32
  {
    assert Pow2(4) == 16;
    assert Pow2(8) == 256;
    assert Pow2(12) == 4096;
    assert Pow2(16) == 65536;
    assert Pow2(20) == 1048576;
    assert Pow2(24) == 16777216;
    assert Pow2(27) == 134217728;
    assert Pow2(30) == 1073741824;
  }

  lemma {:induction false} Pow2Sum(m: nat, n: nat)
    ensures Pow2(m + n) == Pow2(m) * Pow2(n)
    decreases m
  {
    if m > 0 {
      Pow2Sum(m - 1, n);
    }
  }

  lemma ScaledMod(x: nat, m: nat, p: nat)
    requires m > 0 && p > 0
    ensures m * p > 0 && (x * p) % (m * p) == (x % m) * p
  {
    var q, h := x / m, x % m;
    MulAtLeast(m, p);
    assert x == q * m + h;
    assert x * p == q * (m * p) + h * p;
    assert (m - h) * p >= p by { MulAtLeast(m - h, p); }
    assert h * p < m * p;
    DivModUnique(x * p, m * p, q, h * p);
  }

  lemma WordSplit(k: nat)
    requires k <= 32
    ensures Pow2(32 - k) * Pow2(k) == TWO_TO_THE_32
  {
    Pow2Values();
    Pow2Sum(32 - k, k);
  }

  /** `(x << k) | b` for a k-bit b: the low n + k bits are the low n bits of x followed by b's k bits. */
  lemma ShiftInLowBits(x: nat, b: nat, n: nat, k: nat)
    requires b < Pow2(k) && n + k <= 32
    ensures LowBits(Or(Shl(x, k), b), n + k) == LowBits(x, n) + LowBits(b, k)
  {
    var h := x % Pow2(32 - k);
    WordSplit(k);
    ScaledMod(x, Pow2(32 - k), Pow2(k));
    OrDisjoint(h, b, k);
    LowBitsOfAppend(h, b, n, k);
    LowBitsOfTruncated(x, n, 32 - k);
  }

  /** `(x >>> k) & (2^n - 1)`: the n bits above the low k. */
  lemma FieldValue(x: nat, n: nat, k: nat)
    ensures And(Ushr(x, k), Pow2(n) - 1) == Val(LowBits(x, n + k)[..n])
  {
    AndMask(Ushr(x, k), n);
    ValOfLowBits(Ushr(x, k), n);
    LowBitsSplit(x, n, k);
    assert LowBits(x, n + k)[..n] == LowBits(Ushr(x, k), n);
  }

  /** `|` cannot set a bit above the width of its operands. */
  lemma {:induction false} OrBelow(x: nat, y: nat, width: nat)
    requires x < Pow2(width) && y < Pow2(width)
    ensures Or(x, y) < Pow2(width)
    decreases width
  {
    if x != 0 || y != 0 {
      OrBelow(x / 2, y / 2, width - 1);
    }
  }

  /** The value of a group of five bits. */
  function Val5(group: Bits): (v: nat)
    requires |group| == 5
    ensures v < 32
  {
    Pow2Values();
    Val(group)
  }

  /** The value of a group of eight bits. */
  function Val8(group: Bits): (v: byte)
    requires |group| == 8
  {
    Pow2Values();
    Val(group)
  }

  lemma Val5Inverse(group: Bits)
    requires |group| == 5
    ensures LowBits(Val5(group), 5) == group
  {
    LowBitsOfVal(group);
  }

  lemma Val8Inverse(b: byte)
    ensures Val8(LowBits(b, 8)) == b
  {
    Pow2Values();
    ValOfLowBits(b, 8);
  }

  /** Shifting a byte into the accumulator. */
  lemma ShiftInByte(value: nat, b: byte, n: nat)
    requires n <= 24
    ensures Or(Shl(value, 8), b) < TWO_TO_THE_32
    ensures LowBits(Or(Shl(value, 8), b), n + 8) == LowBits(value, n) + LowBits(b, 8)
  {
    Pow2Values();
    ShiftInLowBits(value, b, n, 8);
    OrBelow(Shl(value, 8), b, 32);
  }

  /** Shifting a five-bit symbol into the accumulator. */
  lemma ShiftInSymbol(value: nat, idx: nat, n: nat)
    requires n <= 27 && idx < 32
    ensures Or(Shl(value, 5), idx) < TWO_TO_THE_32
    ensures LowBits(Or(Shl(value, 5), idx), n + 5) == LowBits(value, n) + LowBits(idx, 5)
  {
    Pow2Values();
    ShiftInLowBits(value, idx, n, 5);
    OrBelow(Shl(value, 5), idx, 32);
  }

  /** `(value >>> k) & 0x1f` reads the five bits above the low k. */
  lemma ReadSymbol(value: nat, k: nat)
    ensures And(Ushr(value, k), 0x1f) == Val5(LowBits(value, 5 + k)[..5])
    ensures LowBits(value, 5 + k)[5..] == LowBits(value, k)
  {
    Pow2Values();
    FieldValue(value, 5, k);
    LowBitsSplit(value, 5, k);
  }

  /** `(value >>> k) & 0xff` reads the eight bits above the low k. */
  lemma ReadByte(value: nat, k: nat)
    ensures And(Ushr(value, k), 0xff) == Val8(LowBits(value, 8 + k)[..8])
    ensures LowBits(value, 8 + k)[8..] == LowBits(value, k)
  {
    Pow2Values();
    FieldValue(value, 8, k);
    LowBitsSplit(value, 8, k);
  }

  /** `(value << (5 - bits)) & 0x1f` reads the low bits followed by zeros. */
  lemma ReadLastSymbol(value: nat, bits: nat)
    requires 0 < bits < 5
    ensures And(Shl(value, 5 - bits), 0x1f) == Val5(LowBits(value, bits) + Zeros(5 - bits))
  {
    Pow2Values();
    var k := 5 - bits;
    var w := Shl(value, k);
    OrZero(w);
    ShiftInLowBits(value, 0, bits, k);
    LowBitsOfZero(k);
    AndMask(w, 5);
    ValOfLowBits(w, 5);
  }
}
