/** Bitwise operators on unsigned machine words, seen as naturals. */
module Bits {

  function BitAnd(x: nat, y: nat): nat {
    if x == 0 || y == 0 then 0
    else 2 * BitAnd(x / 2, y / 2) + (if x % 2 == 1 && y % 2 == 1 then 1 else 0)
  }

  function BitOr(x: nat, y: nat): nat
    decreases x + y
  {
    if x == 0 then y
    else if y == 0 then x
    else 2 * BitOr(x / 2, y / 2) + (if x % 2 == 1 || y % 2 == 1 then 1 else 0)
  }

  function Pow2(k: nat): (p: nat)
    ensures p > 0
  {
    if k == 0 then 1 else 2 * Pow2(k - 1)
  }

  /** Masking with one less than a power of two is reduction modulo that power. */
  lemma {:induction false} MaskIsMod(x: nat, k: nat)
    ensures BitAnd(x, Pow2(k) - 1) == x % Pow2(k)
  {
    if k > 0 {
      hide BitAnd;
      var p := Pow2(k - 1);
      MaskIsMod(x / 2, k - 1);
      HalfMod(x, p);
      AndHalves(x, p);
    }
  }

  lemma AndHalves(x: nat, p: nat)
    requires p > 0
    ensures BitAnd(x, 2 * p - 1) == 2 * BitAnd(x / 2, p - 1) + x % 2
  {
    AndBit(x / 2, x % 2, p - 1, 1);
    hide BitAnd;
    assert 2 * (x / 2) + x % 2 == x && 2 * (p - 1) + 1 == 2 * p - 1;
  }

  lemma HalfMod(x: nat, p: nat)
    requires p > 0
    ensures x % (2 * p) == 2 * ((x / 2) % p) + x % 2
  {
    var q, r := (x / 2) / p, (x / 2) % p;
    assert x == 2 * (q * p + r) + x % 2;
    assert x == q * (2 * p) + (2 * r + x % 2);
    ModUnique(x, 2 * p, q, 2 * r + x % 2);
  }

  lemma ModUnique(x: int, m: int, q: int, r: int)
    requires m > 0 && 0 <= r < m && x == q * m + r
    ensures x % m == r && x / m == q
  {
    var d, e := x / m, x % m;
    assert x == d * m + e;
    if d > q {
      assert (d - q) * m == r - e;
      AtLeastOnce(d - q, m);
    } else if d < q {
      assert (q - d) * m == e - r;
      AtLeastOnce(q - d, m);
    }
  }

  lemma AtLeastOnce(k: int, m: int)
    requires k >= 1 && m > 0
    ensures k * m >= m
  {
  }

  /** `(code | 0x80) & 0xBF` sets bit 7, clears bit 6 and everything above bit 7. */
  lemma ContinuationBits(code: nat)
    ensures BitAnd(BitOr(code, 0x80), 0xBF) == 0x80 + code % 64
  {
    OrBit7(code);
    MaskBF(BitOr(code, 0x80));
  }

  lemma OrBit7(code: nat)
    ensures (BitOr(code, 0x80) / 128) % 2 == 1 && BitOr(code, 0x80) % 64 == code % 64
  {
    assert Pow2(7) == 128;
    OrBit(code, 7);
    SetBit7(code, BitOr(code, 0x80));
  }

  lemma SetBit7(code: nat, x: nat)
    requires x == if (code / 128) % 2 == 1 then code else code + 128
    ensures (x / 128) % 2 == 1 && x % 64 == code % 64
  {
  }

  lemma MaskBF(x: nat)
    ensures BitAnd(x, 0xBF) == 128 * ((x / 128) % 2) + x % 64
  {
    SplitBits(x);
    KeepsLowSix(x / 64, (x / 8) % 8, x % 8, 2);
    HighTwo(x / 128 / 2, (x / 128) % 2, (x / 64) % 2);
  }

  lemma HighTwo(h: nat, b: nat, a: nat)
    requires b < 2 && a < 2
    ensures BitAnd(2 * (2 * h + b) + a, 2) == 2 * b
  {
    AndBit(h, b, 0, 1);
    AndBit(2 * h + b, a, 1, 0);
  }

  lemma SplitBits(x: nat)
    ensures x == 64 * (x / 64) + 8 * ((x / 8) % 8) + x % 8
    ensures x / 64 == 2 * (x / 128) + (x / 64) % 2
    ensures x / 128 == 2 * (x / 128 / 2) + (x / 128) % 2
    ensures x % 64 == 8 * ((x / 8) % 8) + x % 8
  {
  }

  lemma AndBit(h: nat, bit: nat, m: nat, mask: nat)
    requires bit < 2 && mask < 2
    ensures BitAnd(2 * h + bit, 2 * m + mask) == 2 * BitAnd(h, m) + (if bit == 1 && mask == 1 then 1 else 0)
  {
    var x, y := 2 * h + bit, 2 * m + mask;
    assert x / 2 == h && y / 2 == m && x % 2 == bit && y % 2 == mask;
  }

  lemma KeepsLowSix(h: nat, high: nat, low: nat, m: nat)
    requires high < 8 && low < 8
    ensures BitAnd(8 * (8 * h + high) + low, 8 * (8 * m + 7) + 7) == 8 * (8 * BitAnd(h, m) + high) + low
  {
    KeepsLowThree(8 * h + high, low, 8 * m + 7);
    KeepsLowThree(h, high, m);
  }

  lemma KeepsLowThree(h: nat, low: nat, m: nat)
    requires low < 8
    ensures BitAnd(8 * h + low, 8 * m + 7) == 8 * BitAnd(h, m) + low
  {
    hide BitAnd;
    var b, a, z := low / 4, (low / 2) % 2, low % 2;
    LowBits(low, b, a, z);
    AndBit(h, b, m, 1);
    AndBit(2 * h + b, a, 2 * m + 1, 1);
    AndBit(4 * h + (2 * b + a), z, 4 * m + 3, 1);
    assert 8 * h + low == 2 * (4 * h + (2 * b + a)) + z && 8 * m + 7 == 2 * (4 * m + 3) + 1;
  }

  lemma LowBits(low: nat, b: nat, a: nat, z: nat)
    requires low < 8 && b == low / 4 && a == (low / 2) % 2 && z == low % 2
    ensures b < 2 && a < 2 && z < 2 && low == 4 * b + 2 * a + z
  {
  }

  /** Or-ing bit `k` in adds it exactly when it was clear. */
  lemma {:induction false} OrBit(x: nat, k: nat)
    ensures BitOr(x, Pow2(k)) == if (x / Pow2(k)) % 2 == 1 then x else x + Pow2(k)
  {
    if k == 0 {
      OrZero(x / 2);
      assert BitOr(x, 1) == if x == 0 then 1 else 2 * BitOr(x / 2, 0) + 1;
    } else {
      OrBit(x / 2, k - 1);
      HalfDiv(x, Pow2(k - 1));
    }
  }

  lemma OrZero(x: nat)
    ensures BitOr(x, 0) == x
  {
  }

  lemma HalfDiv(x: nat, p: nat)
    requires p > 0
    ensures (x / 2) / p == x / (2 * p)
  {
    HalfMod(x, p);
    var q := (x / 2) / p;
    assert x == q * (2 * p) + (2 * ((x / 2) % p) + x % 2);
    ModUnique(x, 2 * p, q, 2 * ((x / 2) % p) + x % 2);
  }

  /** Or-ing a marker above bit `k` into a number of at most `k` bits adds it. */
  lemma {:induction false} OrMarker(x: nat, marker: nat, k: nat)
    requires x < Pow2(k) && marker % Pow2(k) == 0
    ensures BitOr(x, marker) == x + marker
  {
    if k > 0 {
      HalfMod(marker, Pow2(k - 1));
      OrMarker(x / 2, marker / 2, k - 1);
      OrHalves(x, marker);
    }
  }

  lemma OrHalves(x: nat, y: nat)
    requires y % 2 == 0 && BitOr(x / 2, y / 2) == x / 2 + y / 2
    ensures BitOr(x, y) == x + y
  {
  }
}
