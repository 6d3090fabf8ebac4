/** Bitwise operations on naturals, and the shift-and-or arithmetic built on them. */
module Bits {
  import opened Bytes

  function Pow2(n: nat): (r: nat)
    ensures r > 0
  {
    if n == 0 then 1 else 2 * Pow2(n - 1)
  }

  function BitAnd(a: nat, b: nat): nat {
    if a == 0 || b == 0 then 0
    else 2 * BitAnd(a / 2, b / 2) + if a % 2 == 1 && b % 2 == 1 then 1 else 0
  }

  function BitOr(a: nat, b: nat): nat
    decreases a
  {
    if a == 0 then b
    else if b == 0 then a
    else 2 * BitOr(a / 2, b / 2) + if a % 2 == 1 || b % 2 == 1 then 1 else 0
  }

  /** `a << k` in a `w`-bit unsigned word: bits shifted out are lost. */
  function Shl(a: nat, k: nat, w: nat): (r: nat)
    ensures r < Pow2(w)
  {
    (a * Pow2(k)) % Pow2(w)
  }

  function Shr(a: nat, k: nat): nat {
    QuotientNonnegative(a, Pow2(k));
    a / Pow2(k)
  }

  lemma QuotientNonnegative(a: nat, m: nat)
    requires m > 0
    ensures a / m >= 0
  {
  }

  lemma PowersOf2()
    ensures Pow2(0) == 1 && Pow2(1) == 2 && Pow2(2) == 4 && Pow2(3) == 8 && Pow2(4) == 16
    ensures Pow2(5) == 32 && Pow2(6) == 64 && Pow2(7) == 128 && Pow2(8) == 256
  {
    assert Pow2(2) == 2 * Pow2(1);
    assert Pow2(4) == 2 * Pow2(3);
    assert Pow2(6) == 2 * Pow2(5);
  }

  lemma {:induction false} Pow2Add(a: nat, b: nat)
    ensures Pow2(a + b) == Pow2(a) * Pow2(b)
  {
    if a > 0 {
      hide Pow2;
      Pow2Add(a - 1, b);
      Pow2Unfold(a);
      Pow2Unfold(a + b);
      DoubledProduct(Pow2(a - 1), Pow2(b), Pow2(a), Pow2(a - 1 + b), Pow2(a + b));
    }
  }

  lemma Pow2Unfold(n: nat)
    requires n > 0
    ensures Pow2(n) == 2 * Pow2(n - 1)
  {
  }

  lemma DoubledProduct(p: nat, q: nat, p2: nat, pq: nat, pq2: nat)
    requires p2 == 2 * p && pq == p * q && pq2 == 2 * pq
    ensures pq2 == p2 * q
  {
    assert (2 * p) * q == 2 * (p * q);
  }

  lemma {:induction false} Pow256IsPow2(n: nat)
    ensures Pow256(n) == Pow2(8 * n)
  {
    if n > 0 {
      Pow256IsPow2(n - 1);
      Pow2Add(8, 8 * (n - 1));
      PowersOf2();
    }
  }

  lemma WordPowers()
    ensures Pow2(16) == 0x1_0000 && Pow2(24) == 0x100_0000
    ensures Pow2(32) == 0x1_0000_0000 && Pow2(64) == 0x1_0000_0000_0000_0000
  {
    Pow256IsPow2(2);
    Pow256IsPow2(3);
    Pow256IsPow2(4);
    Pow256IsPow2(8);
    PowersOf256();
    assert Pow256(3) == 256 * Pow256(2);
  }

  lemma ProductAtLeast(d: nat, m: nat)
    requires d >= 1
    ensures d * m >= m
  {
  }

  lemma SameProductSameQuotient(m: nat, q: nat, r: nat, q': nat, r': nat)
    requires r < m && r' < m && q * m + r == q' * m + r'
    ensures q == q' && r == r'
  {
    assert (q' - q) * m == q' * m - q * m && (q - q') * m == q * m - q' * m;
    if q < q' {
      ProductAtLeast(q' - q, m);
    } else if q' < q {
      ProductAtLeast(q - q', m);
    }
  }

  lemma DivModUnique(a: nat, m: nat, q: nat, r: nat)
    requires r < m && a == q * m + r
    ensures a / m == q && a % m == r
  {
    DivModSplit(a, m);
    SameProductSameQuotient(m, q, r, a / m, a % m);
  }

  lemma DivModSplit(a: nat, m: nat)
    requires m > 0
    ensures a == (a / m) * m + a % m && a % m < m
  {
  }

  /** Masking with `2^k - 1` keeps the low `k` bits. */
  lemma {:induction false} AndMask(a: nat, k: nat)
    ensures BitAnd(a, Pow2(k) - 1) == a % Pow2(k)
  {
    if k > 0 {
      var p := Pow2(k - 1);
      AndMask(a / 2, k - 1);
      AndOdd(a, p - 1);
      HalfMod(a, p);
    }
  }

  lemma AndOdd(a: nat, b: nat)
    ensures BitAnd(a, 2 * b + 1) == 2 * BitAnd(a / 2, b) + a % 2
  {
  }

  lemma HalfMod(a: nat, p: nat)
    requires p > 0
    ensures a % (2 * p) == 2 * ((a / 2) % p) + a % 2
  {
    var q, r := (a / 2) / p, (a / 2) % p;
    DivModSplit(a / 2, p);
    assert q * (2 * p) == 2 * (q * p);
    DivModUnique(a, 2 * p, q, 2 * r + a % 2);
  }

  lemma OrStep(a: nat, b: nat)
    requires a % 2 == 0
    ensures BitOr(a, b) == 2 * BitOr(a / 2, b / 2) + b % 2
  {
    assert b == 2 * (b / 2) + b % 2;
  }

  lemma ProductWithDouble(a: nat, p: nat)
    ensures a * (2 * p) == 2 * (a * p)
  {
  }

  lemma HalfBelow(b: nat, p: nat)
    requires b < 2 * p
    ensures b / 2 < p
  {
  }

  /** Or-ing a value into cleared low bits adds it. */
  lemma {:induction false} OrDisjoint(a: nat, k: nat, b: nat)
    requires b < Pow2(k)
    ensures BitOr(a * Pow2(k), b) == a * Pow2(k) + b
  {
    if k == 0 {
      OrZero(a);
    } else {
      hide BitOr, Pow2;
      var p := Pow2(k - 1);
      Pow2Unfold(k);
      ProductWithDouble(a, p);
      HalfBelow(b, p);
      OrDisjoint(a, k - 1, b / 2);
      OrDoubled(a * p, b);
    }
  }

  lemma OrZero(a: nat)
    ensures BitOr(a * Pow2(0), 0) == a
  {
    assert Pow2(0) == 1 && a * 1 == a;
  }

  lemma OrDoubled(x: nat, b: nat)
    requires BitOr(x, b / 2) == x + b / 2
    ensures BitOr(2 * x, b) == 2 * x + b
  {
    hide BitOr;
    OrStep(2 * x, b);
  }
}
