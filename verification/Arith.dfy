/** Bits of unsigned machine words, stated on natural numbers: `x << s` on an
    n-bit word is `x * Pow2(s) % Pow2(n)`, and setting a bit that is clear adds
    its power of two. */
module Arith {
  function Pow2(n: nat): (p: nat)
    ensures p >= 1
  {
    if n == 0 then 1 else 2 * Pow2(n - 1)
  }

  predicate BitAt(m: nat, i: nat) {
    if i == 0 then m % 2 == 1 else BitAt(m / 2, i - 1)
  }

  /** `m | (1 << k)` */
  function WithBit(m: nat, k: nat): nat {
    if BitAt(m, k) then m else m + Pow2(k)
  }

  lemma {:induction false} PowSum(a: nat, b: nat)
    ensures Pow2(a + b) == Pow2(a) * Pow2(b)
  {
    if a == 0 {
    } else {
      PowSum(a - 1, b);
    }
  }

  lemma HalfMod(x: nat, p: nat)
    requires p >= 1
    ensures (x % (2 * p)) / 2 == (x / 2) % p && (x % (2 * p)) % 2 == x % 2
  {
    var q, r := (x / 2) / p, (x / 2) % p;
    assert x / 2 == p * q + r;
    assert x == (2 * p) * q + (2 * r + x % 2);
    ModOf(q, 2 * p, 2 * r + x % 2);
  }

  /** Quotient and remainder are unique. */
  lemma ModOf(q: nat, d: nat, r: nat)
    requires r < d
    ensures (d * q + r) % d == r && (d * q + r) / d == q
  {
    var z := d * q + r;
    var q', r' := z / d, z % d;
    assert z == d * q' + r';
    if q > q' {
      TimesAtLeast(d, q, q');
    } else if q' > q {
      TimesAtLeast(d, q', q);
    }
  }

  lemma TimesAtLeast(d: nat, a: nat, b: nat)
    requires a > b
    ensures d * a >= d * b + d
  {
    assert d * a == d * b + d * (a - b);
    assert d * (a - b) == d + d * (a - b - 1);
  }

  lemma {:induction false} ModBit(x: nat, n: nat, i: nat)
    ensures BitAt(x % Pow2(n), i) <==> i < n && BitAt(x, i)
  {
    if n == 0 {
      ZeroBit(i);
    } else {
      HalfMod(x, Pow2(n - 1));
      if i != 0 {
        ModBit(x / 2, n - 1, i - 1);
      }
    }
  }

  lemma {:induction false} ZeroBit(i: nat)
    ensures !BitAt(0, i)
  {
    if i == 0 {
    } else {
      ZeroBit(i - 1);
    }
  }

  lemma {:induction false} ShiftedBit(m: nat, s: nat, i: nat)
    ensures BitAt(m * Pow2(s), i) <==> i >= s && BitAt(m, i - s)
  {
    if s != 0 {
      assert m * Pow2(s) == 2 * (m * Pow2(s - 1));
      if i != 0 {
        ShiftedBit(m, s - 1, i - 1);
      }
    } else {
      assert m * Pow2(s) == m;
    }
  }

  /** Bits of a word shifted left: `m << s` on n bits. */
  lemma ShiftedWordBit(m: nat, s: nat, n: nat, i: nat)
    ensures BitAt(m * Pow2(s) % Pow2(n), i) <==> i < n && i >= s && BitAt(m, i - s)
  {
    ModBit(m * Pow2(s), n, i);
    ShiftedBit(m, s, i);
  }

  lemma WithBitHalves(m: nat, k: nat)
    requires k > 0
    ensures WithBit(m, k) / 2 == WithBit(m / 2, k - 1) && WithBit(m, k) % 2 == m % 2
  {
  }

  lemma {:induction false} WithBitBits(m: nat, k: nat, i: nat)
    ensures BitAt(WithBit(m, k), i) <==> i == k || BitAt(m, i)
  {
    if k == 0 {
      if i != 0 {
        assert WithBit(m, 0) / 2 == m / 2;
      }
    } else {
      WithBitHalves(m, k);
      if i != 0 {
        WithBitBits(m / 2, k - 1, i - 1);
      }
    }
  }

  lemma {:induction false} WithBitFits(m: nat, k: nat, n: nat)
    requires m < Pow2(n) && k < n
    ensures WithBit(m, k) < Pow2(n)
  {
    var half := Pow2(n - 1);
    assert Pow2(n) == 2 * half && m / 2 < half;
    if k == 0 {
      assert WithBit(m, 0) <= m / 2 * 2 + 1;
    } else {
      WithBitHalves(m, k);
      WithBitFits(m / 2, k - 1, n - 1);
      var w := WithBit(m, k);
      assert w / 2 < half && w == 2 * (w / 2) + w % 2;
    }
  }

  /** `a | b` */
  function Or(a: nat, b: nat): nat
    decreases a + b
  {
    if a == 0 then b
    else if b == 0 then a
    else (if a % 2 == 1 || b % 2 == 1 then 1 else 0) + 2 * Or(a / 2, b / 2)
  }

  lemma {:induction false} OrBit(a: nat, b: nat, i: nat)
    ensures BitAt(Or(a, b), i) <==> BitAt(a, i) || BitAt(b, i)
    decreases i
  {
    if a == 0 || b == 0 {
      ZeroBit(i);
    } else {
      assert Or(a, b) / 2 == Or(a / 2, b / 2);
      if i != 0 {
        OrBit(a / 2, b / 2, i - 1);
      }
    }
  }

  /** Or of a number with one whose bits all lie above it. */
  lemma {:induction false} OrAdds(a: nat, c: nat, k: nat)
    requires a < Pow2(k)
    ensures Or(a, c * Pow2(k)) == a + c * Pow2(k)
  {
    if k != 0 && a != 0 && c != 0 {
      var b := c * Pow2(k - 1);
      assert c * Pow2(k) == 2 * b;
      OrAdds(a / 2, c, k - 1);
    } else if c == 0 {
      assert c * Pow2(k) == 0;
    }
  }

  /** All ones: the largest n-bit number has every bit set. */
  lemma {:induction false} OnesSet(n: nat, i: nat)
    requires i < n
    ensures BitAt(Pow2(n) - 1, i)
  {
    var h := Pow2(n - 1);
    assert Pow2(n) - 1 == 2 * (h - 1) + 1;
    if i == 0 {
    } else {
      assert (Pow2(n) - 1) / 2 == h - 1;
      OnesSet(n - 1, i - 1);
    }
  }

  /** And it is the only one. */
  lemma {:induction false} AllSet(m: nat, n: nat)
    requires m < Pow2(n) && forall i: nat | i < n :: BitAt(m, i)
    ensures m == Pow2(n) - 1
  {
    if n == 0 {
    } else {
      assert BitAt(m, 0);
      forall i: nat | i < n - 1 ensures BitAt(m / 2, i) {
        assert BitAt(m, i + 1);
      }
      AllSet(m / 2, n - 1);
    }
  }

  lemma {:induction false} HighBitsClear(m: nat, r: nat, n: nat)
    requires m < Pow2(n) && r <= n && forall i: nat | r <= i < n :: !BitAt(m, i)
    ensures m < Pow2(r)
  {
    if r == 0 {
      NoBits(m, n);
    } else {
      forall i: nat | r - 1 <= i < n - 1 ensures !BitAt(m / 2, i) {
        assert !BitAt(m, i + 1);
      }
      HighBitsClear(m / 2, r - 1, n - 1);
    }
  }

  lemma {:induction false} NoBits(m: nat, n: nat)
    requires m < Pow2(n) && forall i: nat | i < n :: !BitAt(m, i)
    ensures m == 0
  {
    if n == 0 {
    } else {
      assert !BitAt(m, 0);
      forall i: nat | i < n - 1 ensures !BitAt(m / 2, i) {
        assert !BitAt(m, i + 1);
      }
      NoBits(m / 2, n - 1);
    }
  }
}
