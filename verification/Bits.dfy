/** Bitwise operations on unsigned words of any width, as the machine defines them, and the
    arithmetic the program expects from its mask tricks. */
module Bits {

  function Pow2(k: nat): (r: nat)
    ensures r > 0
  {
    if k == 0 then 1 else 2 * Pow2(k - 1)
  }

  function And(x: nat, y: nat): nat
    decreases x
  {
    if x == 0 || y == 0 then 0 else (x % 2) * (y % 2) + 2 * And(x / 2, y / 2)
  }

  function Or(x: nat, y: nat): nat
    decreases x + y
  {
    if x == 0 then y
    else if y == 0 then x
    else (if x % 2 == 1 || y % 2 == 1 then 1 else 0) + 2 * Or(x / 2, y / 2)
  }

  /** The complement of `x` in a word of `w` bits. */
  function Not(x: nat, w: nat): nat
    requires x < Pow2(w)
  {
    Pow2(w) - 1 - x
  }

  /** Whether bit `i` of `x` is one. */
  predicate Bit(x: nat, i: nat)
    decreases i
  {
    if i == 0 then x % 2 == 1 else Bit(x / 2, i - 1)
  }

  lemma {:induction false} ZeroHasNoBits(i: nat)
    ensures !Bit(0, i)
  {
    if i > 0 {
      ZeroHasNoBits(i - 1);
    }
  }

  lemma {:induction false} OrBit(x: nat, y: nat, i: nat)
    ensures Bit(Or(x, y), i) <==> Bit(x, i) || Bit(y, i)
    decreases i
  {
    ZeroHasNoBits(i);
    if x > 0 && y > 0 && i > 0 {
      assert Or(x, y) / 2 == Or(x / 2, y / 2);
      OrBit(x / 2, y / 2, i - 1);
    }
  }

  lemma {:induction false} Pow2Bit(k: nat, i: nat)
    ensures Bit(Pow2(k), i) <==> i == k
    decreases i
  {
    if i == 0 {
    } else if k == 0 {
      ZeroHasNoBits(i - 1);
    } else {
      assert Pow2(k) / 2 == Pow2(k - 1);
      Pow2Bit(k - 1, i - 1);
    }
  }

  lemma {:induction false} HalfMod(x: nat, p: nat)
    requires p > 0
    ensures x % (2 * p) == x % 2 + 2 * ((x / 2) % p)
  {
    var q := x / 2 / p;
    assert x / 2 == q * p + (x / 2) % p;
    assert x == (2 * p) * q + (x % 2 + 2 * ((x / 2) % p));
    ModUnique(x, 2 * p, q, x % 2 + 2 * ((x / 2) % p));
  }

  lemma OneMoreTime(m: nat, a: int)
    ensures m * (a + 1) == m * a + m
  {
  }

  lemma {:induction false} MulGap(m: nat, a: int, b: int)
    requires a < b
    ensures m * a + m <= m * b
    decreases b - a
  {
    OneMoreTime(m, b - 1);
    if a < b - 1 {
      MulGap(m, a, b - 1);
    }
  }

  lemma ModUnique(x: nat, m: nat, q: nat, r: nat)
    requires r < m && x == m * q + r
    ensures x / m == q && x % m == r
  {
    var q' := x / m;
    assert x == m * q' + x % m;
    if q < q' {
      MulGap(m, q, q');
    } else if q' < q {
      MulGap(m, q', q);
    }
  }

  lemma {:induction false} Pow2Monotone(j: nat, k: nat)
    requires j <= k
    ensures Pow2(j) <= Pow2(k)
  {
    if j < k {
      Pow2Monotone(j, k - 1);
    }
  }

  lemma {:induction false} AndTwice(x: nat, h: nat)
    ensures And(x, 2 * h) == 2 * And(x / 2, h)
  {
    assert (2 * h) / 2 == h && (2 * h) % 2 == 0;
    AndEven(x, 2 * h);
  }

  lemma {:induction false} AndTwiceAndOne(x: nat, h: nat)
    ensures And(x, 2 * h + 1) == x % 2 + 2 * And(x / 2, h)
  {
    assert (2 * h + 1) / 2 == h && (2 * h + 1) % 2 == 1;
    AndOdd(x, 2 * h + 1);
  }

  /** The low `k` bits. */
  function Low(x: nat, k: nat): nat
    decreases k
  {
    if k == 0 then 0 else x % 2 + 2 * Low(x / 2, k - 1)
  }

  lemma {:induction false} LowIsMod(x: nat, k: nat)
    ensures Low(x, k) == x % Pow2(k)
    decreases k
  {
    if k == 0 {
      assert Pow2(0) == 1;
    } else {
      LowIsMod(x / 2, k - 1);
      HalfMod(x, Pow2(k - 1));
    }
  }

  lemma {:induction false} AndHighLow(x: nat, k: nat, w: nat)
    requires k <= w && x < Pow2(w)
    ensures Pow2(k) <= Pow2(w)
    ensures And(x, Pow2(w) - Pow2(k)) == x - Low(x, k)
    decreases w
  {
    Pow2Monotone(k, w);
    if k == 0 {
      AndOnes(x, w);
    } else {
      var h := Pow2(w - 1) - Pow2(k - 1);
      AndHighLow(x / 2, k - 1, w - 1);
      AndTwice(x, h);
      assert Pow2(w) - Pow2(k) == 2 * h;
    }
  }

  lemma {:induction false} AndLow(x: nat, k: nat)
    ensures And(x, Pow2(k) - 1) == Low(x, k)
    decreases k
  {
    if k > 0 {
      AndLow(x / 2, k - 1);
      AndTwiceAndOne(x, Pow2(k - 1) - 1);
    }
  }

  /** Masking with a block of `w - k` high ones clears the low `k` bits. */
  lemma AndHighMask(x: nat, k: nat, w: nat)
    requires k <= w && x < Pow2(w)
    ensures Pow2(k) <= Pow2(w)
    ensures And(x, Pow2(w) - Pow2(k)) == x - x % Pow2(k)
  {
    AndHighLow(x, k, w);
    LowIsMod(x, k);
  }

  /** Masking with `k` low ones keeps the remainder modulo `2^k`. */
  lemma AndLowMask(x: nat, k: nat)
    ensures And(x, Pow2(k) - 1) == x % Pow2(k)
  {
    AndLow(x, k);
    LowIsMod(x, k);
  }

  lemma AndOdd(x: nat, y: nat)
    requires y % 2 == 1
    ensures And(x, y) == x % 2 + 2 * And(x / 2, y / 2)
  {
  }

  lemma AndEven(x: nat, y: nat)
    requires y % 2 == 0
    ensures And(x, y) == 2 * And(x / 2, y / 2)
  {
  }

  lemma {:induction false} AndOnes(x: nat, w: nat)
    requires x < Pow2(w)
    ensures And(x, Pow2(w) - 1) == x
    decreases w
  {
    if w > 0 {
      AndTwiceAndOne(x, Pow2(w - 1) - 1);
      AndOnes(x / 2, w - 1);
    }
  }

  /** Setting the top bit of a word. */
  lemma {:induction false} OrTopBit(x: nat, k: nat)
    requires x < Pow2(k + 1)
    ensures Or(x, Pow2(k)) == if x < Pow2(k) then x + Pow2(k) else x
    decreases k
  {
    if k == 0 {
      assert x == 0 || x == 1;
    } else if x > 0 {
      assert Pow2(k) / 2 == Pow2(k - 1) && Pow2(k) % 2 == 0;
      OrTopBit(x / 2, k - 1);
    }
  }

  predicate Multiple(m: nat, a: nat)
    requires a > 0
  {
    m % a == 0
  }

  /** `r` is the least multiple of `a` that is at least `x`. */
  ghost predicate IsLeastMultiple(x: nat, a: nat, r: nat)
    requires a > 0
  {
    x <= r && Multiple(r, a) && forall m: nat :: Multiple(m, a) && x <= m ==> r <= m
  }

  /** Rounding down to a multiple of `a` after adding `a - 1` gives the least multiple of `a`
      that is at least `x`. */
  lemma LeastMultiple(x: nat, a: nat)
    requires a > 0
    ensures var y := x + a - 1; y % a <= y && y - y % a < x + a && IsLeastMultiple(x, a, y - y % a)
  {
    var y := x + a - 1;
    var q := y / a;
    var r := y - y % a;
    assert r == a * q + 0;
    ModUnique(r, a, q, 0);
    forall m: nat | Multiple(m, a) && x <= m
      ensures r <= m
    {
      assert m == a * (m / a);
      if m < r {
        if m / a >= q {
          MulAtMost(a, q, m / a);
        } else {
          MulGap(a, m / a, q);
        }
      }
    }
  }

  lemma MulAtMost(m: nat, a: int, b: int)
    requires a <= b
    ensures m * a <= m * b
  {
    if a < b {
      MulGap(m, a, b);
    }
  }

  /** The power-of-two round-up: `(x + a - 1) & !(a - 1)` with `a == 2^k` is the least
      multiple of `a` that is at least `x`. */
  lemma RoundUp(x: nat, k: nat, w: nat)
    requires k <= w && x + Pow2(k) - 1 < Pow2(w)
    ensures var a := Pow2(k); var r := And(x + a - 1, Not(a - 1, w));
            r < x + a && IsLeastMultiple(x, a, r)
  {
    var a := Pow2(k);
    Pow2Monotone(k, w);
    AndHighMask(x + a - 1, k, w);
    assert Not(a - 1, w) == Pow2(w) - a;
    LeastMultiple(x, a);
  }
}
