/**
  Bitwise conjunction on naturals and the masks the sources build from powers of two.
 */
module Bits {

  function Pow2(k: nat): (p: nat)
    ensures p > 0
  {
    if k == 0 then 1 else 2 * Pow2(k - 1)
  }

  /** Bitwise and, one bit at a time. */
  function And(x: nat, y: nat): (r: nat) {
    if x == 0 || y == 0 then 0 else 2 * And(x / 2, y / 2) + (if x % 2 == 1 && y % 2 == 1 then 1 else 0)
  }

  lemma {:induction false} AndSym(x: nat, y: nat)
    ensures And(x, y) == And(y, x)
  {
    if x != 0 && y != 0 { AndSym(x / 2, y / 2); }
  }

  lemma {:induction false} MulStrict(m: nat, a: nat, b: nat)
    requires a < b
    ensures m * a + m <= m * b
    decreases b
  {
    assert m * b == m * (b - 1) + m;
    if a < b - 1 { MulStrict(m, a, b - 1); }
  }

  /** Quotient and remainder are determined by their equation. */
  lemma ModUnique(x: nat, m: nat, q: nat, r: nat)
    requires m > 0 && r < m && x == m * q + r
    ensures x % m == r && x / m == q
  {
    var q' := x / m;
    if q < q' { MulStrict(m, q, q'); }
    else if q' < q { MulStrict(m, q', q); }
  }

  /** The remainder, by subtraction. */
  function Rem(x: nat, m: nat): (r: nat)
    requires m > 0
    ensures r < m
  {
    if x < m then x else Rem(x - m, m)
  }

  lemma {:induction false} RemIsMod(x: nat, m: nat)
    requires m > 0
    ensures Rem(x, m) == x % m
  {
    var q := Quotient(x, m);
    ModUnique(x, m, q, Rem(x, m));
  }

  lemma {:induction false} Quotient(x: nat, m: nat) returns (q: nat)
    requires m > 0
    ensures x == m * q + Rem(x, m)
  {
    q := 0;
    if x >= m {
      var p := Quotient(x - m, m);
      assert m * (p + 1) == m * p + m;
      q := p + 1;
    }
  }

  lemma {:induction false} HalveRem(x: nat, p: nat)
    requires p > 0
    ensures Rem(x, 2 * p) == 2 * Rem(x / 2, p) + x % 2
  {
    if x >= 2 * p {
      assert (x - 2 * p) / 2 == x / 2 - p && (x - 2 * p) % 2 == x % 2;
      HalveRem(x - 2 * p, p);
    }
  }

  /** And with an odd or an even number, whose last bit is taken off. */
  lemma AndDouble(x: nat, y: nat)
    ensures And(x, 2 * y + 1) == 2 * And(x / 2, y) + x % 2
    ensures And(x, 2 * y) == 2 * And(x / 2, y)
  {
    assert (2 * y + 1) / 2 == y && (2 * y) / 2 == y;
  }

  lemma Quarter(x: nat)
    ensures x / 2 / 2 == x / 4 && x % 4 == 2 * (x / 2 % 2) + x % 2
  {
  }

  /** The same two bits at a time. */
  lemma AndOnes(x: nat, y: nat)
    ensures And(x, 4 * y + 3) == 4 * And(x / 4, y) + x % 4
  {
    var z := 2 * y + 1;
    AndDouble(x, z);
    AndDouble(x / 2, y);
    Quarter(x);
    assert 4 * y + 3 == 2 * z + 1;
  }

  lemma AndZeros(x: nat, y: nat)
    ensures And(x, 4 * y) == 4 * And(x / 4, y)
  {
    var z := 2 * y;
    AndDouble(x, z);
    AndDouble(x / 2, y);
    Quarter(x);
    assert 4 * y == 2 * z;
  }

  /** And with 2^k - 1 is the remainder modulo 2^k. */
  lemma {:induction false} AndLowMask(x: nat, k: nat)
    ensures And(x, Pow2(k) - 1) == Rem(x, Pow2(k))
  {
    if k == 0 {
      RemOne(x);
    } else {
      AndLowMask(x / 2, k - 1);
      AndDouble(x, Pow2(k - 1) - 1);
      HalveRem(x, Pow2(k - 1));
    }
  }

  lemma {:induction false} RemOne(x: nat)
    ensures Rem(x, 1) == 0
  {
    if x > 0 { RemOne(x - 1); }
  }

  /** And with 2^w - 2^k, the complement of 2^k - 1 in w bits, clears the remainder modulo 2^k. */
  lemma {:induction false} AndHighMask(x: nat, w: nat, k: nat)
    requires k <= w && x < Pow2(w)
    ensures Pow2(k) <= Pow2(w) && And(x, Pow2(w) - Pow2(k)) == x - Rem(x, Pow2(k))
  {
    if k == 0 {
      AllOnes(x, w);
    } else {
      AndHighMask(x / 2, w - 1, k - 1);
      HighStep(x, Pow2(w - 1), Pow2(k - 1));
    }
  }

  lemma AllOnes(x: nat, w: nat)
    requires x < Pow2(w)
    ensures And(x, Pow2(w) - 1) == x && Rem(x, 1) == 0
  {
    AndLowMask(x, w);
    RemOne(x);
  }

  lemma HighStep(x: nat, q: nat, p: nat)
    requires 0 < p <= q && And(x / 2, q - p) == x / 2 - Rem(x / 2, p)
    ensures And(x, 2 * q - 2 * p) == x - Rem(x, 2 * p)
  {
    AndDouble(x, q - p);
    HalveRem(x, p);
    assert x == 2 * (x / 2) + x % 2;
  }

  lemma AndHighMod(x: nat, w: nat, k: nat)
    requires k <= w && x < Pow2(w)
    ensures Pow2(k) <= Pow2(w) && And(x, Pow2(w) - Pow2(k)) == x - x % Pow2(k)
  {
    AndHighMask(x, w, k);
    RemIsMod(x, Pow2(k));
  }

  lemma SmallMod(x: nat, m: nat)
    requires x < m
    ensures x % m == x
  {}

  lemma {:induction false} Pow2Mono(a: nat, b: nat)
    requires a <= b
    ensures Pow2(a) <= Pow2(b)
    decreases b
  {
    if a < b { Pow2Mono(a, b - 1); }
  }

  lemma Double(x: nat, y: nat, z: nat)
    requires x * y == z
    ensures x * (2 * y) == 2 * z
  {
  }

  lemma {:induction false} Pow2Add(a: nat, b: nat)
    ensures Pow2(a) * Pow2(b) == Pow2(a + b)
    decreases b
  {
    if b > 0 {
      Pow2Add(a, b - 1);
      Double(Pow2(a), Pow2(b - 1), Pow2(a + b - 1));
    }
  }

  lemma Pow2Of16()
    ensures Pow2(15) == 32768 && Pow2(16) == 65536
  {
    assert Pow2(2) == 4 && Pow2(4) == 4 * Pow2(2);
    Pow2Add(4, 4);
    Pow2Add(8, 8);
    assert Pow2(16) == 2 * Pow2(15);
  }

  lemma Pow2Of22()
    ensures Pow2(22) == 0x40_0000
  {
    Pow2Of16();
    assert Pow2(2) == 4 && Pow2(4) == 4 * Pow2(2) && Pow2(6) == 4 * Pow2(4);
    Pow2Add(16, 6);
  }
}
