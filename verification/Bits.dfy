// Words of 64 bits as natural numbers, with the bit operations the queues use: `|`, `&` and `>>`
// on unsigned integers.  Masking with 2^p - 1 is the remainder by 2^p, also of a wrapped counter.
module Bits {

  function Pow2(n: nat): (r: nat)
    ensures r > 0
  {
    if n == 0 then 1 else 2 * Pow2(n - 1)
  }

  ghost predicate IsPow2(c: int)
  {
    exists p: nat :: c == Pow2(p)
  }

  function Bit(a: nat, j: nat): nat
  {
    if j == 0 then a % 2 else Bit(a / 2, j - 1)
  }

  function Or(a: nat, b: nat): nat
    decreases a + b
  {
    if a == 0 && b == 0 then 0
    else (if a % 2 == 1 || b % 2 == 1 then 1 else 0) + 2 * Or(a / 2, b / 2)
  }

  function And(a: nat, b: nat): (r: nat)
    ensures r <= b
  {
    if a == 0 then 0
    else (if a % 2 == 1 && b % 2 == 1 then 1 else 0) + 2 * And(a / 2, b / 2)
  }

  function Shr(a: nat, i: nat): nat
  {
    if i == 0 then a else Shr(a / 2, i - 1)
  }

  // The number of bits needed to write `a`.
  function Width(a: nat): nat
  {
    if a == 0 then 0 else 1 + Width(a / 2)
  }

  lemma {:induction false} OrBit(a: nat, b: nat, j: nat)
    ensures Bit(Or(a, b), j) == if Bit(a, j) == 1 || Bit(b, j) == 1 then 1 else 0
    decreases j
  {
    if j == 0 {
    } else {
      OrBit(a / 2, b / 2, j - 1);
      if a == 0 && b == 0 {
        assert Or(a / 2, b / 2) == 0;
      }
    }
  }

  lemma {:induction false} ShrBit(a: nat, i: nat, j: nat)
    ensures Bit(Shr(a, i), j) == Bit(a, i + j)
    decreases i
  {
    if i > 0 {
      ShrBit(a / 2, i - 1, j);
    }
  }

  lemma {:induction false} BitsAboveWidth(a: nat, j: nat)
    requires j >= Width(a)
    ensures Bit(a, j) == 0
    decreases j
  {
    if j > 0 {
      BitsAboveWidth(a / 2, j - 1);
    }
  }

  lemma {:induction false} TopBit(a: nat)
    requires a > 0
    ensures Bit(a, Width(a) - 1) == 1
  {
    if a / 2 > 0 {
      TopBit(a / 2);
    }
  }

  lemma {:induction false} WidthBounds(a: nat)
    ensures a < Pow2(Width(a))
    ensures a > 0 ==> Pow2(Width(a) - 1) <= a
  {
    if a > 0 {
      WidthBounds(a / 2);
    }
  }

  lemma {:induction false} WidthAtMost(a: nat, n: nat)
    ensures a < Pow2(n) <==> Width(a) <= n
  {
    if a > 0 && n > 0 {
      WidthAtMost(a / 2, n - 1);
    }
  }

  lemma {:induction false} Pow2Monotone(m: nat, n: nat)
    requires m <= n
    ensures Pow2(m) <= Pow2(n)
    decreases n
  {
    if m < n {
      Pow2Monotone(m, n - 1);
    }
  }

  lemma {:induction false} Pow2Strict(m: nat, n: nat)
    requires m < n
    ensures 2 * Pow2(m) <= Pow2(n)
  {
    Pow2Monotone(m + 1, n);
  }

  lemma {:induction false} Pow2Sum(m: nat, n: nat)
    ensures Pow2(m + n) == Pow2(m) * Pow2(n)
  {
    if m == 0 {
      MulOne(Pow2(n));
    } else {
      Pow2Sum(m - 1, n);
      MulTwo(Pow2(m - 1), Pow2(n));
    }
  }

  lemma MulOne(n: int)
    ensures 1 * n == n
  {
  }

  lemma MulTwo(a: int, b: int)
    ensures (2 * a) * b == 2 * (a * b)
  {
  }

  // A number is determined by its bits: with the low `w` bits set and no other, it is 2^w - 1.
  lemma {:induction false} OnesAre(m: nat, w: nat)
    requires forall j: nat :: Bit(m, j) == if j < w then 1 else 0
    ensures m == Pow2(w) - 1
    decreases w + m
  {
    forall j: nat
      ensures Bit(m / 2, j) == if j < w - 1 then 1 else 0
    {
      assert Bit(m, j + 1) == Bit(m / 2, j);
    }
    assert Bit(m, 0) == m % 2;
    if w > 0 {
      OnesAre(m / 2, w - 1);
    } else if m > 0 {
      OnesAre(m / 2, 0);
    }
  }

  lemma {:induction false} AndMask(k: nat, p: nat)
    ensures And(k, Pow2(p) - 1) == k % Pow2(p)
    decreases p
  {
    if p == 0 {
      AndZero(k);
    } else if k == 0 {
      ModSmall(0, Pow2(p));
    } else {
      var half := Pow2(p - 1);
      AndMask(k / 2, p - 1);
      HalfMod(k, half);
      AndOdd(k, half - 1);
      assert Pow2(p) == 2 * half;
    }
  }

  lemma AndOdd(k: nat, h: nat)
    requires k > 0
    ensures And(k, 2 * h + 1) == k % 2 + 2 * And(k / 2, h)
  {
    assert (2 * h + 1) / 2 == h && (2 * h + 1) % 2 == 1;
  }

  lemma {:induction false} AndZero(k: nat)
    ensures And(k, 0) == 0
  {
    if k > 0 {
      AndZero(k / 2);
    }
  }

  lemma HalfMod(k: nat, m: nat)
    requires m > 0
    ensures k % (2 * m) == k % 2 + 2 * ((k / 2) % m)
  {
    var h := k / 2;
    var q := h / m;
    DivMod(h, m);
    assert k == 2 * h + k % 2;
    assert q * (2 * m) == 2 * (q * m);
    ModUnique(k, 2 * m, q, k % 2 + 2 * (h % m));
  }

  lemma MulAtLeast(x: int, m: int)
    requires x >= 1 && m >= 0
    ensures x * m >= m
  {
    assert x * m == (x - 1) * m + m;
    MulNonNegative(x - 1, m);
  }

  lemma {:induction false} MulNonNegative(x: nat, m: nat)
    ensures x * m >= 0
  {
  }

  lemma ModUnique(k: int, m: int, q: int, r: int)
    requires m > 0 && k == q * m + r && 0 <= r < m
    ensures k % m == r && k / m == q
  {
    DivMod(k, m);
    var q' := k / m;
    if q' < q {
      MulAtLeast(q - q', m);
      Distribute(q, q', m);
    } else if q' > q {
      MulAtLeast(q' - q, m);
      Distribute(q', q, m);
    }
  }

  lemma DivMod(k: int, m: int)
    requires m > 0
    ensures k == (k / m) * m + k % m
    ensures 0 <= k % m < m
  {
  }

  lemma Distribute(x: int, y: int, m: int)
    ensures (x - y) * m == x * m - y * m
  {
  }

  lemma ModShift(a: int, m: int)
    requires m > 0
    ensures (a + m) % m == a % m
    ensures (a - m) % m == a % m
  {
    DivMod(a, m);
    var q := a / m;
    ModUnique(a + m, m, q + 1, a % m);
    ModUnique(a - m, m, q - 1, a % m);
  }

  lemma ModSmall(a: int, m: int)
    requires 0 <= a < m
    ensures a % m == a
  {
  }

  // Reducing first by a multiple of the modulus changes nothing.
  lemma {:induction false} ModOfMod(k: nat, p: nat, n: nat)
    requires p <= n
    ensures (k % Pow2(n)) % Pow2(p) == k % Pow2(p)
    decreases n
  {
    if p == n {
      DivMod(k, Pow2(n));
      ModSmall(k % Pow2(n), Pow2(n));
    } else {
      ModOfMod(k, p, n - 1);
      ModOfDouble(k, Pow2(n - 1));
      ModOfMod(k % Pow2(n), p, n - 1);
    }
  }

  lemma ModOfDouble(k: nat, m: nat)
    requires m > 0
    ensures (k % (2 * m)) % m == k % m
  {
    var r := k % (2 * m);
    DivMod(k, 2 * m);
    var q := k / (2 * m);
    assert q * (2 * m) == (2 * q) * m;
    DivMod(r, m);
    Distribute(2 * q, -(r / m), m);
    ModUnique(k, m, 2 * q + r / m, r % m);
  }

  lemma {:induction false} OrFits(a: nat, b: nat, n: nat)
    requires a < Pow2(n) && b < Pow2(n)
    ensures Or(a, b) < Pow2(n)
    decreases n
  {
    if n > 0 && !(a == 0 && b == 0) {
      OrFits(a / 2, b / 2, n - 1);
    }
  }

  lemma {:induction false} ShrShrinks(a: nat, i: nat)
    ensures Shr(a, i) <= a
    decreases i
  {
    if i > 0 {
      ShrShrinks(a / 2, i - 1);
    }
  }

  // ---------- Masks that are not one less than a power of two ----------

  // The value of the lowest zero bit of `m`.
  function LowestZero(m: nat): (r: nat)
    ensures r > 0
  {
    if m % 2 == 0 then 1 else 2 * LowestZero(m / 2)
  }

  // Below that bit the mask changes nothing; the bit itself is masked away.
  lemma {:induction false} MaskBelow(k: nat, m: nat)
    requires k < LowestZero(m)
    ensures And(k, m) == k
    decreases m
  {
    if m % 2 == 1 && k > 0 {
      MaskBelow(k / 2, m / 2);
    }
  }

  lemma {:induction false} MaskAtZero(m: nat)
    ensures And(LowestZero(m), m) == 0
    decreases m
  {
    if m % 2 == 1 {
      MaskAtZero(m / 2);
    } else {
      assert And(0, m / 2) == 0;
    }
  }

  // The lowest zero bit lies inside the mask, unless the mask is all ones.
  lemma {:induction false} LowestZeroInside(m: nat)
    ensures LowestZero(m) <= m || m + 1 == LowestZero(m)
    ensures IsPow2(LowestZero(m))
    decreases m
  {
    if m % 2 == 1 {
      LowestZeroInside(m / 2);
      var p: nat :| LowestZero(m / 2) == Pow2(p);
      assert LowestZero(m) == Pow2(p + 1);
    } else {
      assert LowestZero(m) == Pow2(0);
    }
  }
}
