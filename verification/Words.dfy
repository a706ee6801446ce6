/** Unsigned machine words as natural numbers, read bit by bit.  Every use says how wide its
    word is; nothing here wraps on its own. */
module Words {

  // How many values a 32-bit word has.
  const WORD: nat := 0x1_0000_0000

  function Pow2(n: nat): (p: nat)
    ensures p >= 1
  {
    if n == 0 then 1 else 2 * Pow2(n - 1)
  }

  // ((x >> n) & 1) != 0
  predicate Bit(x: nat, n: nat)
  {
    if n == 0 then x % 2 == 1 else Bit(x / 2, n - 1)
  }

  // x | (1 << n)
  function SetBit(x: nat, n: nat): nat
  {
    if n == 0 then x / 2 * 2 + 1 else 2 * SetBit(x / 2, n - 1) + x % 2
  }

  // x & y
  function And(x: nat, y: nat): (r: nat)
    ensures r <= x
    decreases x
  {
    if x == 0 then 0 else 2 * And(x / 2, y / 2) + (if x % 2 == 1 && y % 2 == 1 then 1 else 0)
  }

  lemma {:induction false} ZeroHasNoBits(n: nat)
    ensures !Bit(0, n)
  {
    if n != 0 { ZeroHasNoBits(n - 1); }
  }

  lemma {:induction false} SetBitBits(x: nat, n: nat, m: nat)
    ensures Bit(SetBit(x, n), m) <==> m == n || Bit(x, m)
  {
    if n != 0 && m != 0 { SetBitBits(x / 2, n - 1, m - 1); }
  }

  lemma {:induction false} SetBitOfZero(n: nat)
    ensures SetBit(0, n) == Pow2(n)
  {
    if n != 0 { SetBitOfZero(n - 1); }
  }

  lemma {:induction false} SetBitBound(x: nat, n: nat, w: nat)
    requires x < Pow2(w) && n < w
    ensures SetBit(x, n) < Pow2(w)
  {
    var half := Pow2(w - 1);
    assert Pow2(w) == 2 * half && x / 2 < half;
    if n == 0 {
      assert SetBit(x, n) == x / 2 * 2 + 1;
    } else {
      SetBitBound(x / 2, n - 1, w - 1);
      assert SetBit(x, n) == 2 * SetBit(x / 2, n - 1) + x % 2;
    }
  }

  lemma {:induction false} AndBits(x: nat, y: nat, n: nat)
    ensures Bit(And(x, y), n) <==> Bit(x, n) && Bit(y, n)
  {
    if x == 0 {
      ZeroHasNoBits(n);
    } else if n != 0 {
      AndBits(x / 2, y / 2, n - 1);
      assert And(x, y) / 2 == And(x / 2, y / 2);
    }
  }

  // A word is its bits.
  lemma {:induction false} SameBits(x: nat, y: nat, w: nat)
    requires x < Pow2(w) && y < Pow2(w)
    requires forall i :: 0 <= i < w ==> (Bit(x, i) <==> Bit(y, i))
    ensures x == y
  {
    if w != 0 {
      assert Bit(x, 0) <==> Bit(y, 0);
      forall i | 0 <= i < w - 1
        ensures Bit(x / 2, i) <==> Bit(y / 2, i)
      {
        assert Bit(x, i + 1) <==> Bit(y, i + 1);
      }
      SameBits(x / 2, y / 2, w - 1);
    }
  }

  // Bits at or above a word's width are clear.
  lemma {:induction false} NoBitsAbove(x: nat, w: nat, n: nat)
    requires x < Pow2(w) && w <= n
    ensures !Bit(x, n)
  {
    if w == 0 {
      ZeroHasNoBits(n);
    } else {
      NoBitsAbove(x / 2, w - 1, n - 1);
    }
  }

  // x % 2^w keeps exactly the low w bits.
  lemma {:induction false} LowBits(x: nat, w: nat, n: nat)
    ensures Bit(x % Pow2(w), n) <==> n < w && Bit(x, n)
  {
    if w == 0 {
      ZeroHasNoBits(n);
    } else {
      ModHalves(x, Pow2(w - 1));
      if n != 0 { LowBits(x / 2, w - 1, n - 1); }
    }
  }

  lemma DivMod(x: nat, p: nat)
    requires p >= 1
    ensures x == p * (x / p) + x % p && x % p < p && x / p >= 0
  {
  }

  lemma MulMonotone(a: int, b: int, p: nat)
    requires a <= b
    ensures a * p <= b * p
  {
  }

  lemma MulSuccessor(a: int, p: int)
    ensures (a + 1) * p == a * p + p
  {
  }

  lemma MulCommutes(a: int, b: int)
    ensures a * b == b * a
  {
  }

  lemma MulDistributes(a: int, b: int, p: int)
    ensures (a + b) * p == a * p + b * p
  {
  }

  lemma MulTwice(p: int, q: int)
    ensures (2 * p) * q == 2 * (p * q)
  {
  }

  lemma Halves(x: nat, m: int, r: nat)
    requires x == 2 * m + r
    ensures x / 2 == m + r / 2 && x % 2 == r % 2
  {
  }

  lemma ModHalves(x: nat, p: nat)
    requires p >= 1
    ensures (x % (2 * p)) / 2 == (x / 2) % p
    ensures (x % (2 * p)) % 2 == x % 2
  {
    DivMod(x, 2 * p);
    var q, r := x / (2 * p), x % (2 * p);
    MulTwice(p, q);
    Halves(x, p * q, r);
    ModIs(x / 2, p, q, r / 2);
  }

  lemma ModIs(x: nat, p: nat, q: nat, r: nat)
    requires p >= 1 && r < p && x == p * q + r
    ensures x % p == r && x / p == q
  {
    var d := x / p - q;
    assert p * d == r - x % p;
    MulAtLeast(p, d);
  }

  lemma MulAtLeast(p: int, d: int)
    requires p >= 1
    ensures d >= 1 ==> p * d >= p
    ensures d <= -1 ==> p * d <= -p
  {
  }

  // x >> k
  function Shr(x: nat, k: nat): (r: nat)
    ensures r == x / Pow2(k)
  {
    if k == 0 then x else DivTwice(x, Pow2(k - 1)); Shr(x / 2, k - 1)
  }

  lemma {:induction false} ShiftedBits(x: nat, k: nat, n: nat)
    ensures Bit(Shr(x, k), n) <==> Bit(x, n + k)
  {
    if k != 0 { ShiftedBits(x / 2, k - 1, n); }
  }

  lemma DivTwice(x: nat, p: nat)
    requires p >= 1
    ensures x / (2 * p) == (x / 2) / p
  {
    DivMod(x, 2 * p);
    var q, r := x / (2 * p), x % (2 * p);
    MulTwice(p, q);
    Halves(x, p * q, r);
    ModIs(x / 2, p, q, r / 2);
  }

  lemma {:induction false} Pow2Adds(a: nat, b: nat)
    ensures Pow2(a + b) == Pow2(a) * Pow2(b)
  {
    if a != 0 {
      Pow2Adds(a - 1, b);
      assert Pow2(a + b) == 2 * (Pow2(a - 1) * Pow2(b)) == (2 * Pow2(a - 1)) * Pow2(b);
    }
  }

  lemma {:induction false} Pow2Monotone(a: nat, b: nat)
    requires a <= b
    ensures Pow2(a) <= Pow2(b)
  {
    if a < b { Pow2Monotone(a, b - 1); }
  }

  lemma Pow2Values()
    ensures Pow2(8) == 0x100 && Pow2(16) == 0x1_0000
    ensures Pow2(29) == 0x2000_0000 && Pow2(30) == 0x4000_0000 && Pow2(32) == WORD
  {
    assert Pow2(8) == 0x100;
    Pow2Adds(8, 8);
    Pow2Adds(16, 8);
    Pow2Adds(24, 5);
    Pow2Adds(24, 6);
    Pow2Adds(24, 8);
    assert Pow2(5) == 32 && Pow2(6) == 64;
  }
}
