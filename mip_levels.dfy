/** The integer arithmetic of the mip chain in src/ofxTextureArray.cpp: the
    level count `std::max<int>(1, (int)log2(min(w, h)))` and the halving step
    `max(1, x / 2)`. */
module MipLevels {
  import opened Pixels

  function Min(a: int, b: int): int {
    if a <= b then a else b
  }

  function Max(a: int, b: int): int {
    if a <= b then b else a
  }

  function Pow2(k: nat): (p: nat)
    ensures p >= 1
  {
    if k == 0 then 1 else 2 * Pow2(k - 1)
  }

  /** `(int)log2(n)` for a positive integer n: the exponent of the largest
      power of two that does not exceed n. */
  function FloorLog2(n: nat): (r: nat)
    requires n >= 1
    ensures Pow2(r) <= n < 2 * Pow2(r)
  {
    if n == 1 then 0 else 1 + FloorLog2(n / 2)
  }

  lemma {:induction false} Pow2Monotone(a: nat, b: nat)
    requires a < b
    ensures 2 * Pow2(a) <= Pow2(b)
  {
    if a + 1 < b {
      Pow2Monotone(a, b - 1);
    }
  }

  /** FloorLog2 is the only exponent whose power of two brackets n. */
  lemma FloorLog2Unique(n: nat, k: nat)
    requires n >= 1 && Pow2(k) <= n < 2 * Pow2(k)
    ensures FloorLog2(n) == k
  {
    var r := FloorLog2(n);
    if r < k {
      Pow2Monotone(r, k);
    } else if k < r {
      Pow2Monotone(k, r);
    }
  }

  lemma FloorLog2OfPow2(k: nat)
    ensures FloorLog2(Pow2(k)) == k
  {
    FloorLog2Unique(Pow2(k), k);
  }

  lemma FloorLog2Monotone(m: nat, n: nat)
    requires 1 <= m <= n
    ensures FloorLog2(m) <= FloorLog2(n)
  {
    if FloorLog2(n) < FloorLog2(m) {
      Pow2Monotone(FloorLog2(n), FloorLog2(m));
    }
  }

  /** The number of levels reserved and filled for a `w` x `h` base level. */
  function LevelCount(w: int, h: int): (n: nat)
    requires w >= 1 && h >= 1
    ensures n >= 1
  {
    Max(1, FloorLog2(Min(w, h)))
  }

  /** The count is the floor of log2 of the smaller side, except that a side
      below 4 still gets one level. */
  lemma LevelCountBrackets(w: int, h: int)
    requires w >= 1 && h >= 1
    ensures LevelCount(w, h) == 1 <==> Min(w, h) < 4
    ensures LevelCount(w, h) >= 2 ==>
              Pow2(LevelCount(w, h)) <= Min(w, h) < 2 * Pow2(LevelCount(w, h))
  {
    var r := FloorLog2(Min(w, h));
    assert Pow2(2) == 4;
    if r >= 2 {
      Pow2Monotone(1, r);
    }
  }

  lemma LevelCountExamples()
    ensures LevelCount(1, 1) == 1
    ensures LevelCount(256, 256) == 8
    ensures LevelCount(256, 64) == 6
  {
    assert Pow2(8) == 256;
    FloorLog2OfPow2(8);
    assert Pow2(6) == 64;
    FloorLog2OfPow2(6);
  }

  /** A smaller base never gets more levels. */
  lemma LevelCountMonotone(w: int, h: int, w2: int, h2: int)
    requires 1 <= w <= w2 && 1 <= h <= h2
    ensures LevelCount(w, h) <= LevelCount(w2, h2)
  {
    FloorLog2Monotone(Min(w, h), Min(w2, h2));
  }

  /** The level count never exceeds `floor(log2(max(w, h))) + 1`, the most
      levels a `w` x `h` texture can have. */
  lemma LevelCountWithinFullChain(w: int, h: int)
    requires w >= 1 && h >= 1
    ensures LevelCount(w, h) <= FloorLog2(Max(w, h)) + 1
  {
    FloorLog2Monotone(Min(w, h), Max(w, h));
  }

  /** One step of the chain: `max(1, x / 2)`. */
  function Halve(x: int): (r: int)
    requires x >= 1
    ensures 1 <= r <= x
    ensures x >= 2 ==> 2 * r <= x <= 2 * r + 1
  {
    Max(1, x / 2)
  }

  /** The side of level `k` of the chain built from side `x`. */
  function HalveN(x: int, k: nat): (r: int)
    requires x >= 1
    ensures 1 <= r <= x
  {
    if k == 0 then x else Halve(HalveN(x, k - 1))
  }

  /** The side of mip level `k` of a base of side `x` in the OpenGL size
      rule: `max(1, floor(x / 2^k))`. */
  function MipSide(x: int, k: nat): int
    requires x >= 1
  {
    Max(1, x / Pow2(k))
  }

  lemma MipSideZero(x: int)
    requires x >= 1
    ensures MipSide(x, 0) == x
  {
    assert Pow2(0) == 1;
  }

  /** `a * m <= x < a * (m + 1)` pins down `x / a`. */
  lemma DivUnique(x: nat, a: nat, m: nat)
    requires a >= 1 && a * m <= x < a * (m + 1)
    ensures x / a == m
  {
    var q := x / a;
    assert a * q <= x < a * (q + 1);
    if q < m {
      MulMonotone(q + 1, m, a);
    }
  }

  /** Dividing twice is dividing by the product. */
  lemma DivDivTwo(x: nat, a: nat)
    requires a >= 1
    ensures x / a / 2 == x / (2 * a)
  {
    var q := x / a;
    var q2 := q / 2;
    DivBounds(x, a);
    HalfBounds(q);
    MulMonotone(2 * q2, q, a);
    MulMonotone(q + 1, 2 * q2 + 2, a);
    Regroup(a, q2);
    assert (2 * a) * q2 <= x < (2 * a) * (q2 + 1);
    DivUnique(x, 2 * a, q2);
  }

  lemma HalfBounds(q: nat)
    ensures 2 * (q / 2) <= q && q + 1 <= 2 * (q / 2) + 2
  {
  }

  /** `x / a` is the number of whole `a`s in x. */
  lemma DivBounds(x: nat, a: nat)
    requires a >= 1
    ensures (x / a) * a <= x < (x / a + 1) * a
  {
  }

  /** `a` taken `2 * q` or `2 * q + 2` times is `2 * a` taken `q` or `q + 1` times. */
  lemma Regroup(a: nat, q: nat)
    ensures (2 * q) * a == (2 * a) * q && (2 * q + 2) * a == (2 * a) * (q + 1)
  {
  }

  /** Halving step by step gives exactly the OpenGL level sizes: the
      `max(1, ...)` only ever holds a side at 1. */
  lemma {:induction false} HalveNIsMipSide(x: int, k: nat)
    requires x >= 1
    ensures HalveN(x, k) == MipSide(x, k)
  {
    if k > 0 {
      HalveNIsMipSide(x, k - 1);
      var p := Pow2(k - 1);
      assert Pow2(k) == 2 * p;
      DivDivTwo(x, p);
      if x / p == 0 {
        assert x / (2 * p) == 0;
      }
    }
  }

  /** A smaller base side never gives a larger level side. */
  lemma MipSideMonotone(x: int, x2: int, k: nat)
    requires 1 <= x <= x2
    ensures MipSide(x, k) <= MipSide(x2, k)
  {
    var p := Pow2(k);
    var q, q2 := x / p, x2 / p;
    assert p * q <= x;
    assert x2 < p * (q2 + 1);
    if q2 < q {
      MulMonotone(q2 + 1, q, p);
    }
  }

  /** Below the level count both sides are at least 2 on every level but the
      last, so every level of the chain is a true halving. */
  lemma ChainHalvesExactly(w: int, h: int, k: nat)
    requires w >= 1 && h >= 1 && k + 1 < LevelCount(w, h)
    ensures MipSide(w, k) >= 2 && MipSide(h, k) >= 2
    ensures MipSide(w, k + 1) == MipSide(w, k) / 2 && MipSide(h, k + 1) == MipSide(h, k) / 2
  {
    var m := Min(w, h);
    var r := FloorLog2(m);
    assert k + 1 < r;
    Pow2Monotone(k, r);
    var p := Pow2(k);
    assert 2 * p <= m;
    assert Pow2(k + 1) == 2 * p;
    SideAtLeastTwo(w, p);
    SideAtLeastTwo(h, p);
    DivDivTwo(w, p);
    DivDivTwo(h, p);
  }

  lemma SideAtLeastTwo(x: int, p: nat)
    requires p >= 1 && x >= 2 * p
    ensures x / p >= 2
  {
  }
}
