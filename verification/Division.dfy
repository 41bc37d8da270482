// The 64-bit division of the 32-bit build (lib.c:163-180): shift both operands into 32 bits, divide, shift back.
module Division {
  const MAX32: nat := 0xFFFF_FFFF
  const U32: nat := 0x1_0000_0000
  const U64: nat := 0x1_0000_0000_0000_0000

  // c is the final value of the shift count; the processor traps when the 32-bit divisor is 0.
  datatype DivResult = Quotient(r: nat, c: nat) | DivideError

  function Pow2(k: nat): (r: nat)
    ensures r > 0
  {
    if k == 0 then 1 else 2 * Pow2(k - 1)
  }

  function BitLength(x: nat): nat
  {
    if x == 0 then 0 else 1 + BitLength(x / 2)
  }

  // How many bits of x are beyond the lower 32 places.
  function Excess(x: nat): nat
  {
    if BitLength(x) <= 32 then 0 else BitLength(x) - 32
  }

  lemma {:induction false} BitLengthBounds(x: nat)
    ensures x < Pow2(BitLength(x))
    ensures x > 0 ==> Pow2(BitLength(x) - 1) <= x
  {
    if x > 0 { BitLengthBounds(x / 2); }
  }

  lemma {:induction false} Pow2Monotone(a: nat, b: nat)
    requires a <= b
    ensures Pow2(a) <= Pow2(b)
    decreases b
  {
    if a < b { Pow2Monotone(a, b - 1); }
  }

  lemma TwiceProduct(x: nat, y: nat)
    ensures 2 * (x * y) == 2 * x * y
  {
  }

  lemma {:induction false} Pow2Add(a: nat, b: nat)
    ensures Pow2(a + b) == Pow2(a) * Pow2(b)
  {
    if a > 0 {
      assert Pow2(a + b) == 2 * Pow2(a - 1 + b) && Pow2(a) == 2 * Pow2(a - 1);
      hide Pow2;
      Pow2Add(a - 1, b);
      TwiceProduct(Pow2(a - 1), Pow2(b));
    }
  }

  lemma Pow8()
    ensures Pow2(7) == 0x80 && Pow2(8) == 0x100
  {
    assert Pow2(4) == 0x10;
  }

  lemma Pow32()
    ensures Pow2(31) == 0x8000_0000 && Pow2(32) == U32 && Pow2(64) == U64
  {
    Pow8();
    hide Pow2;
    Pow2Add(8, 8);
    Pow2Add(16, 16);
    Pow2Add(32, 32);
    Pow2Add(16, 8);
    Pow2Add(24, 7);
  }

  lemma FitsExactlyWhen(x: nat)
    ensures x <= MAX32 <==> BitLength(x) <= 32
  {
    BitLengthBounds(x);
    Pow32();
    if BitLength(x) <= 32 { Pow2Monotone(BitLength(x), 32); } else { Pow2Monotone(32, BitLength(x) - 1); }
  }

  // x shifted to the right by k places.
  function Shr(x: nat, k: nat): nat
    decreases k
  {
    if k == 0 then x else Shr(x / 2, k - 1)
  }

  lemma {:induction false} ShrStep(x: nat, k: nat)
    ensures Shr(x, k) / 2 == Shr(x, k + 1)
    decreases k
  {
    if k > 0 { ShrStep(x / 2, k - 1); }
  }

  lemma {:induction false} ShrBounds(x: nat, k: nat)
    ensures Shr(x, k) * Pow2(k) <= x < (Shr(x, k) + 1) * Pow2(k)
    decreases k
  {
    if k > 0 {
      ShrBounds(x / 2, k - 1);
      Doubled(x, x / 2, Shr(x, k), Pow2(k - 1));
    }
  }

  lemma Doubled(x: nat, a: nat, q: nat, p: nat)
    requires 2 * a <= x <= 2 * a + 1 && q * p <= a < (q + 1) * p
    ensures q * (2 * p) <= x < (q + 1) * (2 * p)
  {
    assert q * (2 * p) == 2 * (q * p) && (q + 1) * (2 * p) == 2 * ((q + 1) * p);
  }

  lemma {:induction false} ShrBitLength(x: nat, k: nat)
    requires k <= BitLength(x)
    ensures BitLength(Shr(x, k)) == BitLength(x) - k
    decreases k
  {
    if k > 0 { ShrBitLength(x / 2, k - 1); }
  }

  function Quot(n: nat, d: nat): (q: nat)
    requires d > 0
    ensures d * q <= n < d * (q + 1) && q <= n
  {
    QuotBounds(n, d);
    n / d
  }

  lemma QuotBounds(n: nat, d: nat)
    requires d > 0
    ensures 0 <= n / d <= n && d * (n / d) <= n < d * (n / d + 1)
  {
    DivMod(n, d);
    FromDivMod(n, d, n / d, n % d);
  }

  lemma DivMod(n: nat, d: nat)
    requires d > 0
    ensures n == d * (n / d) + n % d && 0 <= n % d < d
  {
  }

  lemma Product(d: nat, p: nat)
    ensures d * p >= 0
  {
  }

  lemma Negative(d: nat, q: int)
    requires q < 0
    ensures d * q + d <= 0
  {
    var p := -q - 1;
    Product(d, p);
    assert d * q == d * (-p - 1) == -(d * p) - d;
  }

  lemma AtLeast(d: nat, q: nat)
    requires d > 0
    ensures d * q >= q
  {
  }

  lemma FromDivMod(n: nat, d: nat, q: int, r: int)
    requires d > 0 && n == d * q + r && 0 <= r < d
    ensures 0 <= q <= n && d * q <= n < d * (q + 1)
  {
    if q < 0 { Negative(d, q); } else { AtLeast(d, q); }
    assert d * (q + 1) == d * q + d;
  }

  // What the function returns, in closed form.
  function Divided(n: nat, d: nat): DivResult
  {
    var c0 := Excess(n);
    var j := if Excess(d) <= c0 then Excess(d) else c0;
    var d32 := Shr(d, j) % U32;
    if d32 == 0 then DivideError else Quotient(Quot(Shr(n, c0), d32) * Pow2(c0 - j), c0 - j)
  }

  method Udivdi3(n0: nat, d0: nat) returns (result: DivResult)
    requires n0 < U64 && d0 < U64
    ensures result == Divided(n0, d0)
  {
    hide Pow2, Shr, BitLength, Quot;
    var n, d, c := n0, d0, 0;
    ShrZero(n0);
    ShrZero(d0);
    while n > MAX32
      invariant n == Shr(n0, c) && c <= Excess(n0)
      invariant n > MAX32 <==> c < Excess(n0)
      decreases n
    {
      n := n / 2;
      ShrStep(n0, c);
      c := c + 1;
      ShrFits(n0, c);
    }
    var n32 := n;
    ghost var j := 0;
    while d > MAX32 && c >= 1
      invariant d == Shr(d0, j) && c + j == Excess(n0) && j <= Excess(d0)
      invariant d > MAX32 <==> j < Excess(d0)
      decreases d
    {
      d := d / 2;
      ShrStep(d0, j);
      j := j + 1;
      ShrFits(d0, j);
      c := c - 1;
    }
    var d32 := d % U32;
    if d32 == 0 {
      return DivideError;
    }
    var r32 := Quot(n32, d32);
    NoOverflow(n0, n32, d32, c, j);
    return Quotient((r32 * Pow2(c)) % U64, c);
  }

  lemma ShrZero(x: nat)
    ensures Shr(x, 0) == x && (x > MAX32 <==> 0 < Excess(x))
  {
    FitsExactlyWhen(x);
  }

  lemma ShrFits(x: nat, k: nat)
    requires 0 < k <= Excess(x)
    ensures Shr(x, k) > MAX32 <==> k < Excess(x)
  {
    ShrBitLength(x, k);
    FitsExactlyWhen(Shr(x, k));
  }

  // The final shift to the left stays within 64 bits.
  lemma NoOverflow(n0: nat, n32: nat, d32: nat, c: nat, j: nat)
    requires n0 < U64 && n32 == Shr(n0, c + j) && d32 > 0
    ensures Quot(n32, d32) * Pow2(c) < U64
  {
    hide Quot, Pow2, Shr;
    Pow2Monotone(c, c + j);
    ShrBounds(n0, c + j);
    Times(Quot(n32, d32), n32, Pow2(c), Pow2(c + j));
  }

  lemma Times(a: nat, b: nat, c: nat, d: nat)
    requires a <= b && c <= d
    ensures a * c <= b * d
  {
    assert a * c <= b * c;
    assert b * c <= b * d;
  }

  // k is the least shift that brings x into 32 bits.
  predicate IsLeast(x: nat, k: nat)
  {
    x / Pow2(k) < U32 && (k > 0 ==> x / Pow2(k - 1) >= U32)
  }

  lemma ShrIs(x: nat, k: nat)
    ensures Shr(x, k) == x / Pow2(k)
  {
    hide Pow2, Shr;
    ShrBounds(x, k);
    QuotientIs(x, Pow2(k), Shr(x, k));
  }

  lemma QuotientIs(x: nat, p: nat, q: nat)
    requires p > 0 && q * p <= x < (q + 1) * p
    ensures x / p == q
  {
    QuotBounds(x, p);
    var r := x / p;
    if r > q { Times(q + 1, r, p, p); }
    if r < q { Times(r + 1, q, p, p); }
  }

  lemma {:induction false} ShrLater(x: nat, a: nat, b: nat)
    requires a <= b
    ensures Shr(x, b) <= Shr(x, a)
    decreases b
  {
    if a < b {
      ShrLater(x, a, b - 1);
      ShrStep(x, b - 1);
    }
  }

  lemma ExcessIsLeast(x: nat, k: nat)
    ensures x / Pow2(k) < U32 <==> k >= Excess(x)
  {
    hide Pow2, Shr, BitLength;
    ShrIs(x, k);
    ShrZero(x);
    if k < Excess(x) {
      if k > 0 { ShrFits(x, k); }
    } else {
      ShrLater(x, Excess(x), k);
      if Excess(x) > 0 { ShrFits(x, Excess(x)); }
    }
  }

  lemma LeastIsExcess(x: nat, k: nat)
    requires IsLeast(x, k)
    ensures k == Excess(x)
  {
    hide Pow2, Excess;
    ExcessIsLeast(x, k);
    if k > 0 { ExcessIsLeast(x, k - 1); }
  }

  // The result is the quotient of the shifted operands, shifted back: the dividend is shifted by the least number of
  // places that brings it into 32 bits, the divisor too, but no further than the dividend, and cut to 32 bits.
  lemma QuotientOfShifted(n: nat, d: nat, c: nat, k: nat)
    requires IsLeast(n, c) && IsLeast(d, k)
    ensures var j, result := if k < c then k else c, Divided(n, d);
            var d32 := d / Pow2(j) % U32;
            && (d32 == 0 <==> result == DivideError)
            && (d32 != 0 ==> result.c == c - j && result.r == n / Pow2(c) / d32 * Pow2(c - j))
  {
    LeastIsExcess(n, c);
    LeastIsExcess(d, k);
    var j := if k < c then k else c;
    ShrIs(n, c);
    ShrIs(d, j);
    hide Pow2, Shr, BitLength, Excess;
    var d32 := d / Pow2(j) % U32;
    assert d32 > 0 ==> Quot(n / Pow2(c), d32) == n / Pow2(c) / d32;
    hide Quot;
  }

  // ---------------------------------------------------------------- the error bound

  // The result is off by less than 2^c from below and by at most 1 from above: n/d < r + 2^c and r <= n/d + 1.
  predicate Close(n: nat, d: nat, result: DivResult)
  {
    && result.Quotient?
    && n < d * (result.r + Pow2(result.c)) && (result.r == 0 || d * (result.r - 1) <= n)
  }

  // For a divisor of 32 bits the result is never too large, and without a shift it is exact.
  lemma SmallDivisor(n: nat, d: nat)
    requires 0 < d <= MAX32
    ensures var result := Divided(n, d);
            && result.Quotient? && n < d * (result.r + Pow2(result.c)) && d * result.r <= n
            && (forall k | n / Pow2(k) < U32 :: result.c <= k)
            && (n <= MAX32 ==> result == Quotient(Quot(n, d), 0))
  {
    hide Quot, Pow2, Shr, BitLength;
    ShrZero(d);
    ShrZero(n);
    PowZero();
    FitsExactlyWhen(d);
    FitsExactlyWhen(n);
    var c := Excess(n);
    ShrBounds(n, c);
    SmallBound(n, d, Shr(n, c), Quot(Shr(n, c), d), Pow2(c));
    assert d % U32 == d;
    TimesOne(Quot(n, d));
    forall k | n / Pow2(k) < U32 ensures c <= k { ExcessIsLeast(n, k); }
  }

  lemma TimesOne(x: nat)
    ensures x * 1 == x
  {
  }

  lemma SmallBound(n: nat, d: nat, n32: nat, q: nat, p: nat)
    requires n32 * p <= n < (n32 + 1) * p && d * q <= n32 < d * (q + 1)
    ensures n < d * (q * p + p) && d * (q * p) <= n
  {
    Times(n32 + 1, d * (q + 1), p, p);
    assert d * (q + 1) * p == d * (q * p + p);
    Times(d * q, n32, p, p);
    assert d * q * p == d * (q * p);
  }

  // With n at least as long as a longer d, both keep their upper 32 bits.
  lemma LongDivisor(n: nat, d: nat)
    requires n < U64 && MAX32 < d && BitLength(d) <= BitLength(n)
    ensures Close(n, d, Divided(n, d))
  {
    hide Quot, Pow2, Shr, BitLength;
    var c0, j := Excess(n), Excess(d);
    FitsExactlyWhen(d);
    FitsExactlyWhen(n);
    var n32, d32, c := Shr(n, c0), Shr(d, j), c0 - j;
    UpperBits(d);
    UpperBits(n);
    ShiftIsSmall(n, j);
    assert d32 % U32 == d32;
    var r32 := Quot(n32, d32);
    assert Divided(n, d) == Quotient(r32 * Pow2(c), c);
    ShrBounds(n, c0);
    ShrBounds(d, j);
    Pow2Add(c, j);
    LongBound(n, d, n32, d32, r32, Pow2(c), Pow2(j));
  }

  // The upper 32 bits of a longer number.
  lemma UpperBits(x: nat)
    requires BitLength(x) > 32
    ensures 0x8000_0000 <= Shr(x, Excess(x)) <= MAX32
  {
    ShrBitLength(x, Excess(x));
    BitLengthBounds(Shr(x, Excess(x)));
    Pow32();
  }

  lemma ShiftIsSmall(n: nat, j: nat)
    requires n < U64 && 0 < j <= Excess(n)
    ensures Pow2(Excess(n) - j) <= 0x8000_0000
  {
    Pow32();
    BitLengthBounds(n);
    if BitLength(n) > 64 { Pow2Monotone(64, BitLength(n) - 1); }
    Pow2Monotone(Excess(n) - j, 31);
  }

  // The arithmetic of the long case; p = 2^c and s = 2^j.
  lemma LongBound(n: nat, d: nat, n32: nat, d32: nat, r: nat, p: nat, s: nat)
    requires 0x8000_0000 <= n32 <= MAX32 && 0x8000_0000 <= d32 <= MAX32 && d32 * r <= n32 < d32 * (r + 1)
    requires n32 * (p * s) <= n < (n32 + 1) * (p * s) && d32 * s <= d < (d32 + 1) * s
    requires 0 < p <= 0x8000_0000 && s > 0
    ensures n < d * (r * p + p) && (r * p == 0 || d * (r * p - 1) <= n)
  {
    LongBelow(n, d, n32, d32, r, p, s);
    AtMostOne(n32, d32, r);
    if r == 0 { assert r * p == 0; } else { LongAbove(n, d, n32, d32, p, s); }
  }

  lemma LongBelow(n: nat, d: nat, n32: nat, d32: nat, r: nat, p: nat, s: nat)
    requires n32 < d32 * (r + 1) && n < (n32 + 1) * (p * s) && d32 * s <= d
    ensures n < d * (r * p + p)
  {
    Times(n32 + 1, d32 * (r + 1), p * s, p * s);
    Regroup(d32, r + 1, p, s);
    OneMoreTime(r, p);
    Times(d32 * s, d, (r + 1) * p, (r + 1) * p);
  }

  lemma Regroup(a: nat, b: nat, p: nat, s: nat)
    ensures a * b * (p * s) == a * s * (b * p)
  {
    var bp := b * p;
    assert a * b * (p * s) == a * bp * s;
    assert a * bp * s == a * s * bp;
  }

  lemma OneMoreTime(r: nat, p: nat)
    ensures (r + 1) * p == r * p + p
  {
  }

  lemma AtMostOne(n32: nat, d32: nat, r: nat)
    requires d32 * r <= n32 <= MAX32 && 0x8000_0000 <= d32
    ensures r < 2
  {
    if r >= 2 { Times(d32, d32, 2, r); }
  }

  lemma LongAbove(n: nat, d: nat, n32: nat, d32: nat, p: nat, s: nat)
    requires n32 * (p * s) <= n && d < (d32 + 1) * s && d32 <= n32 && 0 < p <= d32 && s > 0
    ensures d * (p - 1) <= n
  {
    assert (d32 + 1) * (p - 1) <= d32 * p;
    Times(d, (d32 + 1) * s, p - 1, p - 1);
    assert (d32 + 1) * s * (p - 1) == (d32 + 1) * (p - 1) * s;
    Times((d32 + 1) * (p - 1), d32 * p, s, s);
    Times(d32, n32, p * s, p * s);
    assert d32 * p * s == d32 * (p * s);
  }

  // When neither holds, the quotient is 0 but the divisor loses its upper bits.
  lemma LostBits(n: nat, d: nat)
    requires MAX32 < d && BitLength(d) > BitLength(n)
    ensures var m := Shr(d, Excess(n)) % U32;
            Close(n, d, Divided(n, d)) <==> Shr(n, Excess(n)) < 2 * m
  {
    hide Quot, Pow2, Shr, BitLength;
    FitsExactlyWhen(d);
    FitsExactlyWhen(n);
    var c0 := Excess(n);
    var n32, m := Shr(n, c0), Shr(d, c0) % U32;
    assert c0 <= Excess(d);
    Shorter(n, d);
    assert Pow2(0) == 1 by { PowZero(); }
    if m > 0 {
      var r := Quot(n32, m);
      assert Divided(n, d) == Quotient(r, 0) by { assert r * 1 == r; }
      LostBound(n, d, n32, m, r);
    }
  }

  lemma PowZero()
    ensures Pow2(0) == 1
  {
  }

  lemma LostBound(n: nat, d: nat, n32: nat, m: nat, r: nat)
    requires n < d && m > 0 && m * r <= n32 < m * (r + 1)
    ensures n < d * (r + 1) && (r == 0 || d * (r - 1) <= n <==> n32 < 2 * m)
  {
    assert d * (r + 1) >= d;
    if r >= 2 {
      assert m * r >= m * 2;
      assert d * (r - 1) >= d;
    } else {
      assert m * (r + 1) <= m * 2;
      assert r == 1 ==> d * (r - 1) == 0;
    }
  }

  lemma Shorter(n: nat, d: nat)
    requires BitLength(n) < BitLength(d)
    ensures n < d
  {
    BitLengthBounds(n);
    BitLengthBounds(d);
    Pow2Monotone(BitLength(n), BitLength(d) - 1);
  }

  // The bound holds exactly when the divisor has 32 bits, or no more bits than the dividend, or what the truncation
  // of lib.c:176 leaves of it is, doubled, more than the shifted dividend.
  lemma CloseExactlyWhen(n: nat, d: nat)
    requires n < U64 && 0 < d < U64
    ensures Close(n, d, Divided(n, d)) <==>
              d <= MAX32 || BitLength(d) <= BitLength(n) || Shr(n, Excess(n)) < 2 * (Shr(d, Excess(n)) % U32)
  {
    hide Pow2, Shr, BitLength, Excess, Divided;
    if d <= MAX32 {
      SmallDivisor(n, d);
      var result := Divided(n, d);
      Times(d, d, if result.r == 0 then 0 else result.r - 1, result.r);
    } else if BitLength(d) <= BitLength(n) {
      LongDivisor(n, d);
    } else {
      LostBits(n, d);
    }
  }

  // Two such inputs: 1 / 2^32 traps, and 100 / (2^32 + 1) gives 100.
  lemma LostBitsExamples()
    ensures Divided(1, U32) == DivideError && Divided(100, U32 + 1) == Quotient(100, 0)
  {
    FitsExactlyWhen(1);
    FitsExactlyWhen(100);
    assert Pow2(0) == 1;
    assert Excess(1) == 0 && Excess(100) == 0;
    hide BitLength;
  }
}
