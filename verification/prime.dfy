/**
 * The trial-division primality test of the valentine example, on 32-bit
 * signed ints: k runs from 2 while k * k <= n, and any k dividing n makes
 * the answer 0.
 */
module Prime {
  const IntMax: int := 0x7fff_ffff
  const IntMin: int := -0x8000_0000

  /** The largest k whose square fits in an int: 46340 * 46340 <= IntMax < 46341 * 46341. */
  const RootMax: int := 46340

  /** The outcome of prime(n): its value, or the signed overflow of k * k. */
  datatype PrimeResult = Value(v: int) | Overflow

  /** n has a divisor k with 2 <= k and k * k <= n. */
  predicate HasSmallDivisor(n: int)
  {
    exists k :: 2 <= k <= n && k * k <= n && n % k == 0
  }

  /** The reference definition: n >= 2 has no divisor strictly between 1 and n. */
  predicate IsPrime(n: int)
  {
    n >= 2 && forall k :: 2 <= k < n ==> n % k != 0
  }

  /**
   * prime(n).  The loop returns 0 on the first divisor; otherwise it stops
   * once k * k exceeds n and returns 1, except that for n at or above
   * 46340 * 46340 without a divisor up to 46340 the next square, 46341 *
   * 46341, does not fit in an int.
   */
  method PrimeTest(n: int) returns (r: PrimeResult)
    requires IntMin <= n <= IntMax
    ensures r == Overflow <==> n >= RootMax * RootMax && forall k :: 2 <= k <= RootMax ==> n % k != 0
    ensures r.Value? ==> (r.v == 0 <==> HasSmallDivisor(n)) && (r.v == 0 || r.v == 1)
    ensures r.Value? && n >= 2 ==> (r.v == 1 <==> IsPrime(n))
  {
    var k := 2;
    while true
      invariant 2 <= k <= RootMax + 1
      invariant forall j :: 2 <= j < k ==> n % j != 0
      invariant k > 2 ==> (k - 1) * (k - 1) <= n
      decreases RootMax + 1 - k
    {
      if k == RootMax + 1 {
        // 46341 * 46341 = 2147488281 > IntMax
        return Overflow;
      }
      if k * k > n {
        NoSmallDivisor(n, k);
        SquareMono(k, RootMax);
        if n >= 2 {
          PrimeCharacterisation(n);
        }
        return Value(1);
      }
      if n % k == 0 {
        SquareBound(k, n);
        if n >= 2 {
          PrimeCharacterisation(n);
        }
        return Value(0);
      }
      k := k + 1;
    }
  }

  /** If no j in [2, k) divides n and k * k > n, n has no divisor whose square is at most n. */
  lemma NoSmallDivisor(n: int, k: int)
    requires k >= 2 && k * k > n
    requires forall j :: 2 <= j < k ==> n % j != 0
    ensures !HasSmallDivisor(n)
  {
    forall j | 2 <= j && j * j <= n ensures n % j != 0 {
      SquareMono(k, j);
    }
  }

  /** Multiplying by k >= 0 preserves <=. */
  lemma MulMono(k: int, a: int, b: int)
    requires k >= 0
    ensures a <= b ==> k * a <= k * b
  {
    assert k * b - k * a == k * (b - a);
  }

  /** Squaring preserves <= on the non-negative numbers. */
  lemma SquareMono(a: int, b: int)
    requires 0 <= a
    ensures a <= b ==> a * a <= b * b
  {
    MulMono(a, a, b);
    if a <= b {
      MulMono(b, a, b);
    }
  }

  /** 2 <= k and k * k <= n give k + k <= n, so k < n. */
  lemma SquareBound(k: int, n: int)
    requires 2 <= k && k * k <= n
    ensures k + k <= n
  {
    MulMono(k, 2, k);
  }

  /** A multiple of c leaves no remainder on division by c. */
  lemma MultipleMod(c: int, k: int)
    requires c > 0
    ensures (c * k) % c == 0
  {
    var n := c * k;
    var q, r := n / c, n % c;
    assert n == c * q + r && 0 <= r < c;
    var m := q - k;
    assert c * m == -r by {
      assert c * q - c * k == c * (q - k);
    }
    MulMono(c, 1, m);
    MulMono(c, m, -1);
  }

  /** A divisor at or above the square root pairs with one at or below it. */
  lemma CofactorSmall(n: int, k: int)
    requires n >= 2 && 2 <= k < n && n % k == 0 && k * k > n
    ensures 2 <= n / k && (n / k) * (n / k) <= n && n % (n / k) == 0
  {
    var c := n / k;
    assert n == k * c;
    MulMono(k, c, 1);
    assert c >= 2;
    MulMono(k, k, c);
    assert c < k;
    MulMono(c, c, k);
    MultipleMod(c, k);
    assert c * k == n;
  }

  /** For n >= 2, a small divisor exists exactly when n is not prime. */
  lemma PrimeCharacterisation(n: int)
    requires n >= 2
    ensures !HasSmallDivisor(n) <==> IsPrime(n)
  {
    if HasSmallDivisor(n) {
      var k :| 2 <= k <= n && k * k <= n && n % k == 0;
      SquareBound(k, n);
    }
    if !IsPrime(n) {
      var k :| 2 <= k < n && n % k == 0;
      if k * k > n {
        CofactorSmall(n, k);
        SquareBound(n / k, n);
      }
    }
  }

  /** prime(0) and prime(1) (and every negative n) answer 1: the loop never runs. */
  lemma SmallInputsAnswerOne(n: int)
    requires n < 2
    ensures !HasSmallDivisor(n)
  {
    NoSmallDivisor(n, 2);
  }
}
