/** Index arithmetic of the DSP rings: unsigned 32-bit subtraction followed by
    `& (capacity - 1)`, and the facts about remainders that arithmetic rests on. */
module Indices {

  const TWO_TO_THE_32 := 0x1_0000_0000

  /** The value an unsigned 32-bit variable holds after being assigned x. */
  function U32(x: int): (r: nat)
    ensures r < TWO_TO_THE_32
  {
    x % TWO_TO_THE_32
  }

  /** Bitwise conjunction of two unsigned numbers. */
  function BitAnd(x: nat, y: nat): nat {
    if x == 0 || y == 0 then 0
    else 2 * BitAnd(x / 2, y / 2) + (if x % 2 == 1 && y % 2 == 1 then 1 else 0)
  }

  /** Bitwise disjunction of two unsigned numbers. */
  function BitOr(x: nat, y: nat): nat {
    if x == 0 then y else if y == 0 then x
    else 2 * BitOr(x / 2, y / 2) + (if x % 2 == 1 || y % 2 == 1 then 1 else 0)
  }

  predicate IsPowerOfTwo(n: nat) {
    n == 1 || (n > 1 && n % 2 == 0 && IsPowerOfTwo(n / 2))
  }

  /** A legal ring capacity: the check ua_dsp_ring_alloc() makes, with 32-bit indices. */
  predicate IsCapacity(n: nat) {
    1 < n <= TWO_TO_THE_32 && IsPowerOfTwo(n)
  }

  /** `x & (capacity - 1)` on 32-bit operands is the remainder modulo the capacity. */
  function Masked(x: int, capacity: nat): (r: nat)
    requires IsCapacity(capacity)
    ensures r == x % capacity
    ensures r < capacity
  {
    MaskIsRemainder(U32(x), capacity);
    WordIsPowerOfTwo();
    CapacityDividesWord(capacity, TWO_TO_THE_32);
    RemainderOfRemainder(x, TWO_TO_THE_32, capacity);
    BitAnd(U32(x), capacity - 1)
  }

  // ---------- remainders ----------

  lemma RemainderIsUnique(x: int, n: nat, q: int, r: int)
    requires n > 0 && x == q * n + r && 0 <= r < n
    ensures x % n == r && x / n == q
  {
    var q', r' := x / n, x % n;
    assert x == q' * n + r';
    assert (q - q') * n == r' - r;
    if q - q' >= 1 {
      MulMonotone(1, q - q', n);
    } else if q - q' <= -1 {
      MulMonotone(q - q', -1, n);
    }
  }

  lemma MulMonotone(a: int, b: int, n: nat)
    requires a <= b
    ensures a * n <= b * n
  {
    assert (b - a) * n >= 0;
  }

  lemma RemainderShift(x: int, k: int, n: nat)
    requires n > 0
    ensures (x + k * n) % n == x % n
  {
    RemainderIsUnique(x + k * n, n, x / n + k, x % n);
  }

  /** Subtracting stored indices and reducing gives the reduced difference of the counters. */
  lemma RemainderOfDifference(a: int, b: int, c: int, n: nat)
    requires n > 0
    ensures (a % n - b % n + c) % n == (a - b + c) % n
  {
    var qa, qb := a / n, b / n;
    assert a == qa * n + a % n && b == qb * n + b % n;
    assert a - b + c == (a % n - b % n + c) + (qa - qb) * n;
    RemainderShift(a % n - b % n + c, qa - qb, n);
  }

  lemma SmallRemainder(x: int, n: nat)
    requires 0 <= x < n
    ensures x % n == x
  {
    RemainderIsUnique(x, n, 0, x);
  }

  /** What a distance modulo n says about a distance known to lie in [0, n). */
  lemma RingDistance(a: int, b: int, n: nat)
    requires n > 0 && 0 <= a - b < n
    ensures (a % n - b % n) % n == a - b
  {
    RemainderOfDifference(a, b, 0, n);
    SmallRemainder(a - b, n);
  }

  /** Two counters less than n apart share an index only if they are equal. */
  lemma SameIndexSameCounter(a: int, b: int, n: nat)
    requires n > 0 && a % n == b % n && a - b < n && b - a < n
    ensures a == b
  {
    var k := a / n - b / n;
    assert a - b == k * n by {
      assert a == (a / n) * n + a % n && b == (b / n) * n + b % n;
    }
    if k >= 1 { MulMonotone(1, k, n); } else if k <= -1 { MulMonotone(k, -1, n); }
  }

  lemma RemainderOfRemainder(x: int, m: nat, n: nat)
    requires m > 0 && n > 0 && m % n == 0
    ensures (x % m) % n == x % n
  {
    var k := m / n;
    assert m == k * n;
    assert x == (x / m) * m + x % m;
    assert (x / m) * m == ((x / m) * k) * n;
    RemainderShift(x % m, (x / m) * k, n);
  }

  lemma {:induction false} MaskIsRemainder(x: nat, capacity: nat)
    requires IsPowerOfTwo(capacity)
    ensures BitAnd(x, capacity - 1) == x % capacity
    decreases capacity
  {
    if x == 0 {
      SmallRemainder(0, capacity);
    } else if capacity == 2 {
      assert BitAnd(x / 2, 0) == 0;
    } else if capacity > 1 {
      var half := capacity / 2;
      MaskIsRemainder(x / 2, half);
      HalfRemainder(x, half);
      assert (capacity - 1) / 2 == half - 1 && (capacity - 1) % 2 == 1;
    }
  }

  lemma HalfRemainder(x: nat, half: nat)
    requires half > 0
    ensures x % (2 * half) == 2 * ((x / 2) % half) + x % 2
  {
    var q, r := (x / 2) / half, (x / 2) % half;
    assert x / 2 == q * half + r;
    assert x == q * (2 * half) + (2 * r + x % 2);
    RemainderIsUnique(x, 2 * half, q, 2 * r + x % 2);
  }

  lemma DoubleOfPower(n: nat)
    requires IsPowerOfTwo(n)
    ensures IsPowerOfTwo(2 * n)
  {
  }

  lemma {:induction false} ProductOfPowers(a: nat, b: nat)
    requires IsPowerOfTwo(a) && IsPowerOfTwo(b)
    ensures IsPowerOfTwo(a * b)
    decreases a
  {
    if a > 1 {
      var h := a / 2;
      ProductOfPowers(h, b);
      MulMonotone(1, h, b);
      DoubleOfPower(h * b);
      assert a * b == (2 * h) * b == 2 * (h * b);
    }
  }

  lemma WordIsPowerOfTwo()
    ensures IsPowerOfTwo(TWO_TO_THE_32)
  {
    assert IsPowerOfTwo(16);
    ProductOfPowers(16, 16);
    ProductOfPowers(256, 256);
    ProductOfPowers(65536, 65536);
  }

  lemma {:induction false} CapacityDividesWord(capacity: nat, word: nat)
    requires IsPowerOfTwo(capacity) && IsPowerOfTwo(word) && capacity <= word
    ensures word % capacity == 0
    decreases capacity
  {
    if capacity > 1 {
      CapacityDividesWord(capacity / 2, word / 2);
      var q := (word / 2) / (capacity / 2);
      assert word / 2 == q * (capacity / 2);
      assert word == q * capacity;
      RemainderIsUnique(word, capacity, q, 0);
    }
  }

  /** Or-ing a number into the low bits another number leaves free adds it. */
  lemma {:induction false} BitOrAdds(low: nat, high: nat, span: nat)
    requires IsPowerOfTwo(span) && low < span && high % span == 0
    ensures BitOr(low, high) == low + high
    decreases span
  {
    if span > 1 && low > 0 && high > 0 {
      HalfMultiple(high, span / 2);
      BitOrAdds(low / 2, high / 2, span / 2);
    }
  }

  lemma HalfMultiple(x: nat, half: nat)
    requires half > 0 && x % (2 * half) == 0
    ensures x % 2 == 0 && (x / 2) % half == 0
  {
    HalfRemainder(x, half);
  }

  /** Or-ing in a bit another number leaves free adds it. */
  lemma {:induction false} BitOrFreeBit(p: nat, y: nat)
    requires IsPowerOfTwo(p) && y / p % 2 == 0
    ensures BitOr(p, y) == p + y
    decreases p
  {
    if p > 1 && y > 0 {
      HalfQuotient(y, p / 2);
      BitOrFreeBit(p / 2, y / 2);
    }
  }

  lemma HalfQuotient(y: nat, half: nat)
    requires half > 0
    ensures (y / 2) / half == y / (2 * half)
  {
    var q, r := (y / 2) / half, (y / 2) % half;
    assert y / 2 == q * half + r;
    assert y == q * (2 * half) + (2 * r + y % 2);
    RemainderIsUnique(y, 2 * half, q, 2 * r + y % 2);
  }
}
