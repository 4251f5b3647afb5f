/**
 Machine words as numbers: powers of two, the bitwise operators the ring uses, and 64-bit
 wrap-around.
 */
module Bits {

  function Pow2(k: nat): (p: nat)
    ensures p >= 1
  {
    if k == 0 then 1 else 2 * Pow2(k - 1)
  }

  lemma Pow2Double(k: nat)
    ensures Pow2(k + 1) == 2 * Pow2(k) && Pow2(0) == 1
  {
  }

  const WORD: nat := 0x1_0000_0000_0000_0000

  lemma WordIsPow2()
    ensures Pow2(64) == WORD && Pow2(63) == WORD / 2 && Pow2(32) == 0x1_0000_0000
  {
    hide Pow2;
    Pow2Double(0);
    Pow2Double(63);
    Pow2Add(1, 1);
    Pow2Add(2, 2);
    Pow2Add(4, 4);
    Pow2Add(8, 8);
    Pow2Add(16, 16);
    Pow2Add(32, 32);
  }

  lemma Products(a: nat, b: nat, c: nat)
    ensures 2 * (a * b) == (2 * a) * b == a * (2 * b)
    ensures a * (b - c) == a * b - a * c
    ensures a == 0 ==> a * b == 0
  {
  }

  lemma {:induction false} Pow2Add(a: nat, b: nat)
    ensures Pow2(a + b) == Pow2(a) * Pow2(b)
  {
    hide Pow2;
    Pow2Double(0);
    if a > 0 {
      Pow2Double(a - 1);
      Pow2Double(a + b - 1);
      Pow2Add(a - 1, b);
      Products(Pow2(a - 1), Pow2(b), 0);
    }
  }

  lemma {:induction false} Pow2Mono(a: nat, b: nat)
    requires a <= b
    ensures Pow2(a) <= Pow2(b)
    ensures a < b ==> 2 * Pow2(a) <= Pow2(b)
  {
    if a < b {
      Pow2Mono(a, b - 1);
    }
  }

  /** a | b */
  function Or(a: nat, b: nat): nat {
    if a == 0 then b else if b == 0 then a
    else (if a % 2 == 1 || b % 2 == 1 then 1 else 0) + 2 * Or(a / 2, b / 2)
  }

  /** a & b */
  function And(a: nat, b: nat): nat {
    if a == 0 || b == 0 then 0
    else (if a % 2 == 1 && b % 2 == 1 then 1 else 0) + 2 * And(a / 2, b / 2)
  }

  /** a >> k */
  function Shr(a: nat, k: nat): nat {
    if k == 0 then a else Shr(a / 2, k - 1)
  }

  /** The wrapped value of a counter. */
  function Wrap(n: nat): nat { n % WORD }

  /** 64-bit a - b of two words. */
  function WrapSub(a: nat, b: nat): nat
    requires a < WORD && b < WORD
  {
    if a >= b then a - b else a + WORD - b
  }

  // ---------- or ----------

  lemma {:induction false} OrAtLeast(a: nat, b: nat)
    ensures Or(a, b) >= a && Or(a, b) >= b
  {
    if a != 0 && b != 0 {
      OrAtLeast(a / 2, b / 2);
    }
  }

  lemma {:induction false} OrBelow(a: nat, b: nat, k: nat)
    requires a < Pow2(k) && b < Pow2(k)
    ensures Or(a, b) < Pow2(k)
  {
    if a != 0 && b != 0 {
      OrBelow(a / 2, b / 2, k - 1);
    }
  }

  /** Bits above position p are untouched by an operand below it. */
  lemma {:induction false} OrHigh(x: nat, a: nat, b: nat, p: nat)
    requires a < Pow2(p) && b < Pow2(p)
    ensures Or(x * Pow2(p) + a, b) == x * Pow2(p) + Or(a, b)
    decreases p
  {
    hide Or, Pow2;
    Pow2Double(0);
    OrUnfold(x * Pow2(p) + a, b);
    OrUnfold(a, b);
    Products(x, Pow2(p), 0);
    if p > 0 && b > 0 && (a > 0 || x > 0) {
      Pow2Double(p - 1);
      Products(x, Pow2(p - 1), 0);
      HalfOf(x, a, p);
      OrHigh(x, a / 2, b / 2, p - 1);
    }
  }

  lemma OrUnfold(a: nat, b: nat)
    ensures Or(a, b) == (if a % 2 == 1 || b % 2 == 1 then 1 else 0) + 2 * Or(a / 2, b / 2)
    ensures (a == 0 ==> Or(a, b) == b) && (b == 0 ==> Or(a, b) == a)
  {
  }

  lemma HalfOf(x: nat, a: nat, p: nat)
    requires p > 0
    ensures (x * Pow2(p) + a) / 2 == x * Pow2(p - 1) + a / 2
    ensures (x * Pow2(p) + a) % 2 == a % 2
  {
    assert x * Pow2(p) == 2 * (x * Pow2(p - 1));
  }

  // ---------- and ----------

  /** The k low bits of w. */
  function LowBits(w: nat, k: nat): nat { w % Pow2(k) }

  lemma LowBitsUnfold(w: nat, k: nat)
    ensures LowBits(w, k) == if k == 0 then 0 else 2 * LowBits(w / 2, k - 1) + w % 2
  {
    hide Pow2;
    Pow2Double(0);
    if k == 0 {
      ModUnique(w, 1, w, 0);
    } else {
      Pow2Double(k - 1);
      ModDouble(w, Pow2(k - 1));
    }
  }

  lemma AllLow(w: nat, k: nat)
    requires w < Pow2(k)
    ensures LowBits(w, k) == w
  {
    hide Pow2;
    ModUnique(w, Pow2(k), 0, w);
  }

  lemma {:induction false} MaskIsLow(w: nat, k: nat)
    ensures And(w, Pow2(k) - 1) == LowBits(w, k)
  {
    hide And, Pow2, LowBits;
    Pow2Double(0);
    LowBitsUnfold(w, k);
    if k == 0 {
      AndOdd(w, 0);
    } else {
      Pow2Double(k - 1);
      MaskIsLow(w / 2, k - 1);
      AndOdd(w, Pow2(k - 1) - 1);
    }
  }

  /** w & (2^k - 1) is w mod 2^k: indexing by mask is indexing modulo the capacity. */
  lemma MaskIsMod(w: nat, k: nat)
    ensures And(w, Pow2(k) - 1) == w % Pow2(k)
  {
    MaskIsLow(w, k);
  }

  lemma AndOdd(w: nat, m: nat)
    ensures And(w, 2 * m + 1) == w % 2 + 2 * And(w / 2, m) && And(w, 0) == 0
  {
    assert w == 0 ==> And(w / 2, m) == 0;
    assert (2 * m + 1) / 2 == m;
  }

  lemma ModDouble(w: nat, p: nat)
    requires p >= 1
    ensures w % (2 * p) == 2 * (w / 2 % p) + w % 2
  {
    var q, r := w / 2 / p, w / 2 % p;
    DivMod(w / 2, p);
    assert 2 * p * q == 2 * (p * q);
    ModUnique(w, 2 * p, q, 2 * r + w % 2);
  }

  lemma ModUnique(n: nat, d: nat, q: nat, r: nat)
    requires d >= 1 && r < d && n == d * q + r
    ensures n % d == r && n / d == q
  {
    var q0, r0 := n / d, n % d;
    DivMod(n, d);
    if q0 < q {
      MulStep(d, q0, q);
    } else if q < q0 {
      MulStep(d, q, q0);
    }
  }

  lemma DivMod(n: nat, d: nat)
    requires d >= 1
    ensures n == d * (n / d) + n % d && n % d < d
  {
  }

  lemma MulStep(d: nat, x: nat, y: nat)
    requires x < y
    ensures d * x + d <= d * y
  {
    MulPos(d, y - x);
    assert d * y == d * x + d * (y - x);
  }

  lemma {:induction false} MulPos(d: nat, k: nat)
    requires k >= 1
    ensures d * k >= d
  {
    if k > 1 {
      MulPos(d, k - 1);
      assert d * k == d * (k - 1) + d;
    }
  }

  /** Division by bounds: which multiples of d fit in n. */
  lemma DivAtLeast(n: nat, d: nat, m: nat)
    requires d >= 1 && d * m <= n
    ensures n / d >= m
  {
    DivMod(n, d);
    if n / d < m {
      MulStep(d, n / d, m);
    }
  }

  lemma DivBelow(n: nat, d: nat, m: nat)
    requires d >= 1 && n < d * m
    ensures n / d < m
  {
    DivMod(n, d);
    if m == n / d {
    } else if m < n / d {
      MulStep(d, m, n / d);
    }
  }

  // ---------- wrapped counters ----------

  /** Differences of nearby counters survive the wrap. */
  lemma WrapSubExact(a: nat, b: nat)
    requires b <= a < b + WORD
    ensures WrapSub(Wrap(a), Wrap(b)) == a - b
  {
    var q := b / WORD;
    var r := b % WORD;
    assert b == WORD * q + r;
    if r + (a - b) < WORD {
      ModUnique(a, WORD, q, r + (a - b));
    } else {
      ModUnique(a, WORD, q + 1, r + (a - b) - WORD);
    }
  }

  lemma WrapSucc(n: nat)
    ensures Wrap(n) < WORD && Wrap(n + 1) == (Wrap(n) + 1) % WORD
  {
    var q := n / WORD;
    assert n == WORD * q + Wrap(n);
    if Wrap(n) + 1 < WORD {
      ModUnique(n + 1, WORD, q, Wrap(n) + 1);
    } else {
      ModUnique(n + 1, WORD, q + 1, 0);
    }
  }

  /** The slot of a wrapped counter is the slot of the counter. */
  lemma WrapIndex(n: nat, k: nat)
    requires k <= 63
    ensures And(Wrap(n), Pow2(k) - 1) == n % Pow2(k)
  {
    MaskIsMod(Wrap(n), k);
    WordIsPow2();
    Pow2Add(k, 64 - k);
    ModMod(n, Pow2(k), Pow2(64 - k));
  }

  lemma ModMod(n: nat, a: nat, b: nat)
    requires a >= 1 && b >= 1
    ensures a * b >= 1 && n % (a * b) % a == n % a
  {
    MulPos(a, b);
    var m := a * b;
    DivMod(n, m);
    DivMod(n % m, a);
    Regroup(a, b, n / m, n % m / a, n % m % a, n);
    ModUnique(n, a, b * (n / m) + n % m / a, n % m % a);
  }

  lemma Regroup(a: nat, b: nat, q: nat, t: nat, u: nat, n: nat)
    requires n == (a * b) * q + (a * t + u)
    ensures n == a * (b * q + t) + u
  {
  }

  // ---------- rounding up to a power of two ----------

  /** The top j bits of the k-bit number n are ones. */
  predicate TopOnes(n: nat, k: nat, j: nat) {
    n < Pow2(k) && (if j >= k then n == Pow2(k) - 1 else n >= Pow2(k) - Pow2(k - j))
  }

  lemma {:induction false} ShrIsDiv(n: nat, j: nat)
    ensures Shr(n, j) == n / Pow2(j)
  {
    if j > 0 {
      ShrIsDiv(n / 2, j - 1);
      DivDiv(n, 2, Pow2(j - 1));
    }
  }

  lemma DivDiv(n: nat, a: nat, b: nat)
    requires a >= 1 && b >= 1
    ensures a * b >= 1 && n / a / b == n / (a * b)
  {
    var q, r := n / a, n % a;
    var q2, r2 := q / b, q % b;
    DivMod(n, a);
    DivMod(q, b);
    assert a * q == a * (b * q2) + a * r2;
    assert a * (b * q2) == a * b * q2;
    MulStep(a, r2, b);
    MulPos(a, b);
    ModUnique(n, a * b, q2, a * r2 + r);
  }

  /** One smearing step doubles the run of ones. */
  lemma Smear(n: nat, k: nat, j: nat)
    requires TopOnes(n, k, j) && j >= 1 && n > 0
    ensures TopOnes(Or(n, Shr(n, j)), k, 2 * j)
  {
    ShrIsDiv(n, j);
    SmearDiv(n, k, j, n / Pow2(j));
  }

  lemma SmearDiv(n: nat, k: nat, j: nat, s: nat)
    requires TopOnes(n, k, j) && j >= 1 && n > 0 && s == n / Pow2(j)
    ensures TopOnes(Or(n, s), k, 2 * j)
  {
    DivShrinks(n, Pow2(j));
    OrBelow(n, s, k);
    OrAtLeast(n, s);
    if j < k {
      SmearLow(n, k, j, s);
    }
  }

  lemma DivShrinks(n: nat, d: nat)
    requires d >= 1
    ensures n / d <= n
  {
    DivMod(n, d);
    if n / d >= 1 {
      MulPos(n / d, d);
    }
  }

  lemma SmearLow(n: nat, k: nat, j: nat, s: nat)
    requires 1 <= j < k && Pow2(k) - Pow2(k - j) <= n < Pow2(k) && s == n / Pow2(j)
    requires Or(n, s) < Pow2(k)
    ensures TopOnes(Or(n, s), k, 2 * j)
  {
    var p := k - j;
    Pow2Add(j, p);
    var x := Pow2(j) - 1;
    var a := n - (Pow2(k) - Pow2(p));
    TopPart(j, p);
    DivBelow(n, Pow2(j), Pow2(p));
    OrHigh(x, a, s, p);
    OrAtLeast(a, s);
    if 2 * j < k {
      LowerHalf(n, k, j);
    } else {
      OnesBelow(n, j, p);
    }
  }

  lemma TopPart(j: nat, p: nat)
    ensures (Pow2(j) - 1) * Pow2(p) == Pow2(j + p) - Pow2(p)
  {
    Pow2Add(j, p);
  }

  lemma LowerHalf(n: nat, k: nat, j: nat)
    requires 2 * j < k && n >= Pow2(k) - Pow2(k - j)
    ensures n / Pow2(j) >= Pow2(k - j) - Pow2(k - 2 * j)
    ensures Pow2(k - j) >= Pow2(k - 2 * j)
  {
    hide Pow2;
    var m := Pow2(k - j) - Pow2(k - 2 * j);
    Pow2Mono(k - 2 * j, k - j);
    Pow2Add(j, k - j);
    Pow2Add(j, k - 2 * j);
    Products(Pow2(j), Pow2(k - j), Pow2(k - 2 * j));
    DivAtLeast(n, Pow2(j), m);
  }

  /** With more than half of the bits set from the top, shifting fills the rest. */
  lemma OnesBelow(n: nat, j: nat, p: nat)
    requires 1 <= p <= j && Pow2(j + p) - Pow2(p) <= n < Pow2(j + p)
    ensures n / Pow2(j) == Pow2(p) - 1
  {
    Pow2Add(j, p);
    Pow2Mono(p, j);
    DivBelow(n, Pow2(j), Pow2(p));
    assert Pow2(j) * (Pow2(p) - 1) == Pow2(j + p) - Pow2(j);
    DivAtLeast(n, Pow2(j), Pow2(p) - 1);
  }

  /** The number of bits of n. */
  function BitLength(n: nat): (k: nat)
    ensures n < Pow2(k)
    ensures n > 0 ==> k >= 1 && Pow2(k - 1) <= n
  {
    if n == 0 then 0 else 1 + BitLength(n / 2)
  }

  /** r is the least power of two not below n. */
  ghost predicate LeastPow2(r: nat, n: nat) {
    (exists k: nat :: r == Pow2(k)) && r >= n && forall k: nat :: Pow2(k) >= n ==> r <= Pow2(k)
  }

  lemma OneIsLeast(n: nat)
    requires n <= 1
    ensures LeastPow2(1, n)
  {
    Pow2Double(0);
  }

  lemma TopOne(n: nat)
    requires n > 0
    ensures TopOnes(n, BitLength(n), 1)
  {
    Pow2Double(BitLength(n) - 1);
  }

  /** Round up to a power of two by smearing the highest bit to the right. For n up to 2^63 the
      result is the least power of two not below n; above that, the final increment wraps to 0. */
  method NextPowerOfTwo(n: nat) returns (r: nat)
    requires n < WORD
    ensures n <= WORD / 2 ==> LeastPow2(r, n)
    ensures n > WORD / 2 ==> r == 0
  {
    hide TopOnes, Or, Shr, Pow2, LeastPow2;
    if n <= 1 {
      OneIsLeast(n);
      return 1;
    }
    var m := n - 1;
    ghost var k := BitLength(m);
    TopOne(m);
    Smear(m, k, 1);
    OrAtLeast(m, Shr(m, 1));
    m := Or(m, Shr(m, 1));
    Smear(m, k, 2);
    OrAtLeast(m, Shr(m, 2));
    m := Or(m, Shr(m, 2));
    Smear(m, k, 4);
    OrAtLeast(m, Shr(m, 4));
    m := Or(m, Shr(m, 4));
    Smear(m, k, 8);
    OrAtLeast(m, Shr(m, 8));
    m := Or(m, Shr(m, 8));
    Smear(m, k, 16);
    OrAtLeast(m, Shr(m, 16));
    m := Or(m, Shr(m, 16));
    Smear(m, k, 32);
    m := Or(m, Shr(m, 32));
    r := (m + 1) % WORD;
    Rounded(n, k, m);
  }

  lemma Rounded(n: nat, k: nat, m: nat)
    requires 2 <= n < WORD && k == BitLength(n - 1) && TopOnes(m, k, 64)
    ensures n <= WORD / 2 ==> (m + 1) % WORD == Pow2(k) && LeastPow2(Pow2(k), n)
    ensures n > WORD / 2 ==> (m + 1) % WORD == 0
  {
    if n > WORD / 2 {
      RoundedHigh(n, k, m);
    } else {
      RoundedLow(n, k, m);
      LeastLength(n, k);
    }
  }

  lemma RoundedHigh(n: nat, k: nat, m: nat)
    requires WORD / 2 < n < WORD && k == BitLength(n - 1) && TopOnes(m, k, 64)
    ensures m + 1 == WORD
  {
    WordIsPow2();
    hide Pow2;
    LengthIff(n - 1, 64);
    LengthIff(n - 1, 63);
  }

  lemma RoundedLow(n: nat, k: nat, m: nat)
    requires 2 <= n <= WORD / 2 && k == BitLength(n - 1) && TopOnes(m, k, 64)
    ensures m + 1 == Pow2(k) < WORD
  {
    WordIsPow2();
    hide Pow2;
    LengthIff(n - 1, 63);
    Pow2Mono(k, 63);
  }

  lemma LengthIff(n: nat, j: nat)
    ensures n < Pow2(j) <==> BitLength(n) <= j
  {
    hide Pow2;
    var k := BitLength(n);
    if k <= j {
      Pow2Mono(k, j);
    } else if n > 0 {
      Pow2Mono(j, k - 1);
    }
  }

  lemma LeastLength(n: nat, k: nat)
    requires n >= 2 && k == BitLength(n - 1)
    ensures LeastPow2(Pow2(k), n)
  {
    forall j: nat | Pow2(j) >= n
      ensures Pow2(k) <= Pow2(j)
    {
      LengthIff(n - 1, j);
      Pow2Mono(k, j);
    }
  }
}
