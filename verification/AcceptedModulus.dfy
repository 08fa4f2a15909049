/** What the strong test says about the divisors of an accepted number, and when that makes it a prime. */
module AcceptedModulus {
  import opened NumberTheory
  import opened Primality
  import opened ModulusRules

  /** The smallest divisor above 1 is prime, and if it is proper its square is at most n. */
  lemma {:induction false} SmallestDivisor(n: int, from: int) returns (q: int)
    requires 2 <= from <= n && forall d | 2 <= d < from :: !Divides(d, n)
    ensures from <= q <= n && Divides(q, n) && forall d | 2 <= d < q :: !Divides(d, n)
    decreases n - from
  {
    if n % from == 0 {
      q := from;
    } else {
      assert from < n by {
        if from == n {
          ModUnique(n, n, 1, 0);
        }
      }
      q := SmallestDivisor(n, from + 1);
    }
  }

  lemma DivisorOfDivisor(d: int, q: int, n: int)
    requires d > 0 && q > 0 && Divides(d, q) && Divides(q, n)
    ensures Divides(d, n)
  {
    var i, j := q / d, n / q;
    assert n == (d * i) * j;
    assert (d * i) * j == d * (i * j);
    MultipleDivides(d, i * j);
  }

  lemma PrimeDivisor(n: int) returns (q: int)
    requires n >= 2 && !IsPrime(n)
    ensures IsPrime(q) && Divides(q, n) && q < n && q * q <= n
  {
    q := SmallestDivisor(n, 2);
    forall d | 2 <= d < q
      ensures !Divides(d, q)
    {
      if Divides(d, q) {
        DivisorOfDivisor(d, q, n);
      }
    }
    assert q < n;
    var e := Cofactor(n, q);
    MultipleDivides(e, q);
    Commute(1, q, e);
    assert Divides(e, n) && e >= q;
    MulBounds(q, e - q);
    assert q * (e - q) == q * e - q * q;
  }

  lemma EqDivisor(a: int, b: int, q: int, n: int)
    requires q > 0 && n > 0 && Divides(q, n) && Eq(a, b, n)
    ensures Eq(a, b, q)
  {
    EqDiff(a, b, n);
    DivisorOfDivisor(q, n, a - b);
    EqDiff(a, b, q);
  }

  /** If a base reaches -1 at the term with exponent d * 2^r, every prime divisor of n is 1 modulo 2^(r + 1). */
  lemma DivisorsAreOneModulo(n: int, b: int, d: nat, r: nat, q: int)
    requires n >= 3 && n % 2 == 1 && Pow(b, d * Pow2(r)) % n == n - 1
    requires IsPrime(q) && Divides(q, n)
    ensures q % Pow2(r + 1) == 1
  {
    var psi := Pow(b, d);
    PowMul(b, d, Pow2(r));
    MinusOne(Pow(b, d * Pow2(r)), n);
    EqDivisor(Pow(psi, Pow2(r)), -1, q, n);
    OrderOfRootOfMinusOne(q, psi, r);
    OrderDivides(q, psi, Pow2(r + 1));
    var m := Pow2(r + 1);
    PowTwoMonotone(1, r + 1);
    assert Pow(2, 1) == 2 * Pow(2, 0);
    ModUnique(q, m, (q - 1) / m, 1);
  }

  /** A number that reaches -1 so late that twice the exponent of two covers its width is a prime. */
  lemma LateMinusOneIsPrime(n: int, b: int, d: nat, r: nat, bits: nat)
    requires n >= 3 && n % 2 == 1 && Pow(b, d * Pow2(r)) % n == n - 1
    requires n < Pow(2, bits) && bits <= 2 * (r + 1)
    ensures IsPrime(n)
  {
    if !IsPrime(n) {
      var q := PrimeDivisor(n);
      DivisorsAreOneModulo(n, b, d, r, q);
      var m := Pow2(r + 1);
      LargeSquare(q, m);
      PowAdd(2, r + 1, r + 1);
      PowTwoMonotone(bits, (r + 1) + (r + 1));
    }
  }

  lemma LargeSquare(q: int, m: int)
    requires q >= 2 && m >= 1 && q % m == 1
    ensures q * q > m * m
  {
    var k := q / m;
    assert q == m * k + 1;
    MulBounds(m, k - 1);
    assert m * (k - 1) == m * k - m;
    assert k >= 1 by {
      if k <= 0 {
        MulBounds(m, k);
      }
    }
    assert q > m;
    assert q * q > m * m;
  }

  lemma AcceptedIsOdd(p: int)
    requires Accepts(p)
    ensures p == 2 || (p >= 3 && p % 2 == 1)
  {
    if p !in SMALL_PRIMES {
      assert 2 in SMALL_PRIMES;
    }
  }

  lemma HalfExponent(p: int) returns (d: nat, r: nat)
    requires p >= 3 && p % 2 == 1
    ensures r + 1 == TwoAdicity(p - 1) && (p - 1) / 2 == d * Pow2(r)
  {
    OddTimesPower(p - 1);
    d, r := OddPart(p - 1), TwoAdicity(p - 1) - 1;
    Commute(d, 2, Pow2(r));
  }

  /** When a recorded modulus is a prime for certain: its odd part is at most as wide as its two-adicity and
      one of the bases is not a square. Then the validation is a proof, and the root rules apply. */
  lemma ValidatedIsPrime(spec: Spec, b: int)
    requires ValidSpec(spec) && spec.bits <= 2 * spec.twoAdicity
    requires Pow(b, (spec.modulus - 1) / 2) % spec.modulus == spec.modulus - 1
    ensures PrimeSpec(spec)
  {
    var p := spec.modulus;
    AcceptedIsOdd(p);
    if p != 2 {
      var d, r := HalfExponent(p);
      LateMinusOneIsPrime(p, b, d, r, spec.bits);
    }
  }
}
