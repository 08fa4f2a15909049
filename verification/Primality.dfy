/** The strong pseudoprime test, the two-adicity of a modulus and the search for
    the first modulus of the form odd * 2^a + 1 with a given bit width. */
module Primality {
  import opened NumberTheory

  /** How a Python call ends: with a value or by raising. */
  datatype Outcome<+T> = Ok(value: T) | ValueError | RuntimeError

  const SMALL_PRIMES: seq<int> := [2, 3, 5, 7, 11, 13, 17, 19, 23, 29, 31, 37]
  const BASES: seq<int> := [2, 325, 9375, 28178, 450775, 9780504, 1795265022]

  // ------------------------------------------------------------ two-adicity

  function TwoAdicity(v: int): nat
    requires v != 0
    decreases if v < 0 then -v else v
  {
    if v % 2 == 0 then 1 + TwoAdicity(v / 2) else 0
  }

  function OddPart(v: int): int
    requires v != 0
    decreases if v < 0 then -v else v
  {
    if v % 2 == 0 then OddPart(v / 2) else v
  }

  lemma {:induction false} OddTimesPower(v: int)
    requires v != 0
    ensures v == OddPart(v) * Pow(2, TwoAdicity(v)) && OddPart(v) % 2 == 1
    ensures v > 0 ==> OddPart(v) > 0
    decreases if v < 0 then -v else v
  {
    if v % 2 == 0 {
      OddTimesPower(v / 2);
      Commute(OddPart(v), 2, Pow(2, TwoAdicity(v / 2)));
    }
  }

  /** An odd number times 2^k determines both. */
  lemma {:induction false} TwoAdicityUnique(v: int, d: int, k: nat)
    requires d % 2 == 1 && v == d * Pow(2, k)
    ensures v != 0 && TwoAdicity(v) == k && OddPart(v) == d
    decreases k
  {
    if k > 0 {
      Commute(d, 2, Pow(2, k - 1));
      assert v == 2 * (d * Pow(2, k - 1));
      TwoAdicityUnique(v / 2, d, k - 1);
    }
  }

  /** The two-adicity is the exponent of the largest power of two dividing v. */
  lemma {:induction false} TwoAdicityIsLargest(v: int, k: nat)
    requires v != 0
    ensures Pow(2, k) > 0
    ensures Divides(Pow(2, k), v) <==> k <= TwoAdicity(v)
  {
    var s, d := TwoAdicity(v), OddPart(v);
    OddTimesPower(v);
    PowTwoPositive(k);
    if k <= s {
      PowAdd(2, k, s - k);
      Commute(d, Pow(2, k), Pow(2, s - k));
      ModUnique(v, Pow(2, k), d * Pow(2, s - k), 0);
    } else if Divides(Pow(2, k), v) {
      var q := v / Pow(2, k);
      assert v == q * Pow(2, k);
      PowAdd(2, k - s, s);
      var t, w := Pow(2, s), Pow(2, k - s);
      PowTwoPositive(s);
      PowTwoPositive(k - s);
      assert d * t == (q * w) * t by {
        assert q * (w * t) == (q * w) * t;
      }
      CancelFactor(t, d, q * w);
      assert w % 2 == 0;
      EvenProduct(q, w);
    }
  }

  lemma CancelFactor(t: int, a: int, b: int)
    requires t > 0 && a * t == b * t
    ensures a == b
  {
    assert t * (a - b) == 0;
    MulBounds(t, a - b);
  }

  lemma EvenProduct(q: int, w: int)
    requires w % 2 == 0
    ensures (q * w) % 2 == 0
  {
    Commute(q, 2, w / 2);
    ModUnique(q * w, 2, q * (w / 2), 0);
  }

  method ComputeTwoAdicity(value: int) returns (count: nat)
    requires value != 0
    ensures count == TwoAdicity(value)
  {
    count := 0;
    var v := value;
    while v % 2 == 0
      invariant v != 0
      invariant TwoAdicity(value) == count + TwoAdicity(v)
      decreases if v < 0 then -v else v
    {
      v := v / 2;
      count := count + 1;
    }
  }

  // -------------------------------------------------- strong pseudoprime test

  /** b^(d * 2^r) where n - 1 == d * 2^s with d odd. */
  function Chain(n: int, b: int, r: nat): int
    requires n >= 2
  {
    OddTimesPower(n - 1);
    PowTwoPositive(r);
    Pow(b, OddPart(n - 1) * Pow(2, r))
  }

  /** n passes the strong test to base b: the base vanishes modulo n, or
      the chain starts at 1, or some term before the last is -1. */
  ghost predicate PassesBase(n: int, b: int)
    requires n >= 2
  {
    || Divides(n, b)
    || Eq(Chain(n, b, 0), 1, n)
    || exists r: nat :: r < TwoAdicity(n - 1) && Eq(Chain(n, b, r), -1, n)
  }

  /** What an answer True means, without reference to the loops. */
  ghost predicate Accepts(n: int) {
    && n >= 2
    && (n in SMALL_PRIMES ||
        (&& (forall p | p in SMALL_PRIMES :: n % p != 0)
         && (forall b | b in BASES :: PassesBase(n, b))))
  }

  lemma ChainSquares(n: int, b: int, r: nat)
    requires n >= 2
    ensures Chain(n, b, r + 1) == Chain(n, b, r) * Chain(n, b, r)
  {
    OddTimesPower(n - 1);
    PowTwoPositive(r);
    var e := OddPart(n - 1) * Pow(2, r);
    Commute(OddPart(n - 1), 2, Pow(2, r));
    PowAdd(b, e, e);
  }

  lemma MinusOne(x: int, n: int)
    requires n >= 2
    ensures Eq(x, -1, n) <==> x % n == n - 1
    ensures Eq(x, 1, n) <==> x % n == 1
  {
    ModUnique(-1, n, -1, n - 1);
    ModUnique(1, n, 0, 1);
  }

  lemma BaseReduced(n: int, b: int, r: nat)
    requires n >= 2
    ensures Eq(Chain(n, b % n, r), Chain(n, b, r), n)
  {
    EqReduce(b, n);
    OddTimesPower(n - 1);
    PowTwoPositive(r);
    EqPow(b % n, b, OddPart(n - 1) * Pow(2, r), n);
  }

  /** One pass of the loop over the bases. */
  method StrongTest(n: int, b: int, d: nat, s: nat) returns (passes: bool)
    requires n >= 2 && s >= 1
    requires d == OddPart(n - 1) && s == TwoAdicity(n - 1)
    ensures passes <==> PassesBase(n, b)
  {
    var base := b % n;
    if base == 0 {
      return true;
    }
    assert Pow(2, 0) == 1;
    var value := Pow(base, d) % n;
    assert Pow(base, d) == Chain(n, base, 0);
    BaseReduced(n, b, 0);
    MinusOne(Chain(n, b, 0), n);
    if value == 1 || value == n - 1 {
      return true;
    }
    for r := 1 to s
      invariant value == Chain(n, b, r - 1) % n
      invariant forall q: nat | q < r :: !Eq(Chain(n, b, q), -1, n)
    {
      var c := Chain(n, b, r - 1);
      EqReduce(c, n);
      EqMul(value, c, value, c, n);
      ChainSquares(n, b, r - 1);
      value := value * value % n;
      MinusOne(Chain(n, b, r), n);
      if value == n - 1 {
        return true;
      }
    }
    return false;
  }

  method MillerRabin(n: int) returns (accepted: bool)
    ensures accepted <==> Accepts(n)
  {
    if n < 2 {
      return false;
    }
    if n in SMALL_PRIMES {
      return true;
    }
    if exists p | p in SMALL_PRIMES :: n % p == 0 {
      return false;
    }
    assert 2 in SMALL_PRIMES;
    assert (n - 1) % 2 == 0;
    var d, s := n - 1, 0;
    while d % 2 == 0
      invariant d > 0
      invariant TwoAdicity(n - 1) == s + TwoAdicity(d)
      invariant OddPart(n - 1) == OddPart(d)
      decreases d
    {
      d := d / 2;
      s := s + 1;
    }
    for i := 0 to |BASES|
      invariant forall j | 0 <= j < i :: PassesBase(n, BASES[j])
    {
      var passes := StrongTest(n, BASES[i], d, s);
      if !passes {
        assert BASES[i] in BASES;
        return false;
      }
    }
    return true;
  }

  // ------------------------------------------------------ what acceptance rules out

  /** The squares b^d, b^(2d), ..., b^(n - 1) end at 1 and none of them shows a square root of 1 other
      than 1 and n - 1. */
  ghost predicate NoStrangeRoot(n: int, b: int, d: nat, s: nat)
    requires n >= 2
  {
    && Pow(b, n - 1) % n == 1
    && forall r: nat | r < s ::
         Pow(b, d * Pow2(r + 1)) % n == 1 ==> Pow(b, d * Pow2(r)) % n == 1 || Pow(b, d * Pow2(r)) % n == n - 1
  }

  lemma OneIsNotMinusOne(n: int, x: int)
    requires n >= 3
    ensures !(Eq(x, 1, n) && Eq(x, -1, n))
  {
    MinusOne(x, n);
  }

  /** After a term that is 1 or -1 all later terms are 1. */
  lemma {:induction false} StaysOne(n: int, b: int, q: nat, r: nat)
    requires n >= 3 && q <= r && (Eq(Chain(n, b, q), 1, n) || (q < r && Eq(Chain(n, b, q), -1, n)))
    ensures Eq(Chain(n, b, r), 1, n)
    decreases r - q
  {
    if q < r {
      var c := Chain(n, b, q);
      ChainSquares(n, b, q);
      if Eq(c, 1, n) {
        EqMul(c, 1, c, 1, n);
      } else {
        EqMul(c, -1, c, -1, n);
      }
      StaysOne(n, b, q + 1, r);
    }
  }

  lemma {:induction false} RootDescent(n: int, b: int, r: nat)
    requires n >= 2 && Eq(Chain(n, b, r), 1, n)
    requires forall q: nat | q < r && Eq(Chain(n, b, q + 1), 1, n) ::
               Eq(Chain(n, b, q), 1, n) || Eq(Chain(n, b, q), -1, n)
    ensures Eq(Chain(n, b, 0), 1, n) || exists q: nat :: q < r && Eq(Chain(n, b, q), -1, n)
  {
    if r > 0 && Eq(Chain(n, b, r - 1), 1, n) {
      RootDescent(n, b, r - 1);
    }
  }

  /** The chain in terms of the number's own decomposition. */
  lemma ChainIs(n: int, b: int, d: nat, s: nat, r: nat)
    requires n >= 2 && d % 2 == 1 && n - 1 == d * Pow2(s)
    ensures Chain(n, b, r) == Pow(b, d * Pow2(r)) && s == TwoAdicity(n - 1)
    ensures Eq(Chain(n, b, r), 1, n) <==> Pow(b, d * Pow2(r)) % n == 1
    ensures Eq(Chain(n, b, r), -1, n) <==> Pow(b, d * Pow2(r)) % n == n - 1
  {
    TwoAdicityUnique(n - 1, d, s);
    MinusOne(Chain(n, b, r), n);
  }

  lemma BaseMeaning(n: int, b: int, d: nat, s: nat)
    requires n >= 3 && d % 2 == 1 && n - 1 == d * Pow2(s)
    ensures PassesBase(n, b) <==> b % n == 0 || NoStrangeRoot(n, b, d, s)
  {
    forall r: nat
      ensures Chain(n, b, r) == Pow(b, d * Pow2(r)) && s == TwoAdicity(n - 1)
      ensures Eq(Chain(n, b, r), 1, n) <==> Pow(b, d * Pow2(r)) % n == 1
      ensures Eq(Chain(n, b, r), -1, n) <==> Pow(b, d * Pow2(r)) % n == n - 1
    {
      ChainIs(n, b, d, s, r);
    }
    if NoStrangeRoot(n, b, d, s) {
      RootDescent(n, b, s);
    }
    if PassesBase(n, b) && b % n != 0 {
      PassingHasNoStrangeRoot(n, b, s);
    }
  }

  /** Once some term q is 1 from the start or -1, a square that is 1 comes from 1 or -1. */
  lemma SquareOfPassing(n: int, b: int, q: nat, r: nat)
    requires n >= 3 && Eq(Chain(n, b, r + 1), 1, n)
    requires Eq(Chain(n, b, q), -1, n) || (q == 0 && Eq(Chain(n, b, 0), 1, n))
    ensures Eq(Chain(n, b, r), 1, n) || Eq(Chain(n, b, r), -1, n)
  {
    if q < r || (q == r && Eq(Chain(n, b, q), 1, n)) || (q == 0 && Eq(Chain(n, b, 0), 1, n)) {
      StaysOne(n, b, q, r);
    } else if r < q {
      StaysOne(n, b, r + 1, q);
      OneIsNotMinusOne(n, Chain(n, b, q));
    }
  }

  lemma PassingHasNoStrangeRoot(n: int, b: int, s: nat)
    requires n >= 3 && s == TwoAdicity(n - 1) && PassesBase(n, b) && !Divides(n, b)
    ensures Eq(Chain(n, b, s), 1, n)
    ensures forall r: nat | r < s && Eq(Chain(n, b, r + 1), 1, n) ::
              Eq(Chain(n, b, r), 1, n) || Eq(Chain(n, b, r), -1, n)
  {
    var q: nat := 0;
    if !Eq(Chain(n, b, 0), 1, n) {
      q :| q < TwoAdicity(n - 1) && Eq(Chain(n, b, q), -1, n);
    }
    StaysOne(n, b, q, s);
    forall r: nat | r < s && Eq(Chain(n, b, r + 1), 1, n)
      ensures Eq(Chain(n, b, r), 1, n) || Eq(Chain(n, b, r), -1, n)
    {
      SquareOfPassing(n, b, q, r);
    }
  }

  predicate UpTo37(p: int) {
    p in {2, 3, 5, 7, 11, 13, 17, 19, 23, 29, 31, 37}
  }

  predicate PublishedBase(b: int) {
    b in {2, 325, 9375, 28178, 450775, 9780504, 1795265022}
  }

  lemma ListsAreLiteral(x: int)
    ensures x in SMALL_PRIMES <==> UpTo37(x)
    ensures x in BASES <==> PublishedBase(x)
  {
  }

  /** Acceptance without reference to the test: n is one of the primes up to 37, or none of them divides it
      and each of the seven published bases is a multiple of n or leads to 1 without a strange square root. */
  lemma AcceptanceMeaning(n: int, d: nat, s: nat)
    requires n >= 2 && d % 2 == 1 && n - 1 == d * Pow2(s)
    ensures Accepts(n) <==>
            || UpTo37(n)
            || (&& (forall p | UpTo37(p) :: n % p != 0)
                && forall b | PublishedBase(b) :: b % n == 0 || NoStrangeRoot(n, b, d, s))
  {
    forall x: int
      ensures x in SMALL_PRIMES <==> UpTo37(x)
      ensures x in BASES <==> PublishedBase(x)
      ensures n > 2 ==> (PassesBase(n, x) <==> x % n == 0 || NoStrangeRoot(n, x, d, s))
    {
      ListsAreLiteral(x);
      if n > 2 {
        BaseMeaning(n, x, d, s);
      }
    }
    assert UpTo37(2);
  }

  // ------------------------------------------------- primes are never rejected

  /** If the last term of the chain is 1 then, walking back, either every term
      is 1 or the first term from the right that is not 1 is -1. */
  lemma {:induction false} ChainDescent(p: int, b: int, r: nat)
    requires IsPrime(p) && Eq(Chain(p, b, r), 1, p)
    ensures Eq(Chain(p, b, 0), 1, p) || exists q: nat :: q < r && Eq(Chain(p, b, q), -1, p)
  {
    if r > 0 {
      ChainSquares(p, b, r - 1);
      SquareRootOfOne(p, Chain(p, b, r - 1));
      if Eq(Chain(p, b, r - 1), 1, p) {
        ChainDescent(p, b, r - 1);
      }
    }
  }

  lemma PrimePassesBase(p: int, b: int)
    requires IsPrime(p)
    ensures PassesBase(p, b)
  {
    if !Divides(p, b) {
      OddTimesPower(p - 1);
      Fermat(p, b);
      ChainDescent(p, b, TwoAdicity(p - 1));
    }
  }

  /** Every prime, of any size, is accepted; so a False answer proves that n is
      composite or below 2. */
  lemma PrimesAccepted(p: int)
    requires IsPrime(p)
    ensures Accepts(p)
  {
    forall q | q in SMALL_PRIMES && p !in SMALL_PRIMES
      ensures p % q != 0
    {
      if p % q == 0 {
        if q < p {
          assert Divides(q, p);
        } else {
          ModUnique(p, q, 0, p);
        }
      }
    }
    forall b | b in BASES
      ensures PassesBase(p, b)
    {
      PrimePassesBase(p, b);
    }
  }

  lemma SmallFactor(m: int) returns (q: int)
    requires 2 <= m < 41
    ensures q in SMALL_PRIMES && m % q == 0
  {
    if m % 2 == 0 { q := 2; }
    else if m % 3 == 0 { q := 3; }
    else if m % 5 == 0 { q := 5; }
    else { q := m; }
    assert q == 2 || q == 3 || q == 5 ||
           m == 7 || m == 11 || m == 13 || m == 17 || m == 19 || m == 23 || m == 29 || m == 31 || m == 37;
  }

  lemma Square41(d: int, e: int)
    requires d >= 41 && e >= 41
    ensures d * e >= 41 * 41
  {
    MulBounds(d, e - 40);
    assert d * e >= 41 * d;
  }

  /** The smaller of two cofactors of n < 41^2 has a factor among the trial divisors. */
  lemma SmallCofactor(n: int, m: int, k: int) returns (q: int)
    requires n == m * k && 2 <= m <= k && n < 41 * 41
    ensures q in SMALL_PRIMES && n % q == 0
  {
    if m >= 41 {
      Square41(m, k);
    }
    q := SmallFactor(m);
    FactorOfFactor(n, m, k, q);
  }

  lemma FactorOfFactor(n: int, m: int, k: int, q: int)
    requires n == m * k && q > 0 && m % q == 0
    ensures n % q == 0
  {
    var c := m / q;
    assert (q * c) * k == q * (c * k);
    ModUnique(n, q, c * k, 0);
  }

  lemma Cofactor(n: int, d: int) returns (e: int)
    requires 2 <= d < n && Divides(d, n)
    ensures n == d * e && e >= 2
  {
    e := n / d;
    assert n == d * e;
    MulBounds(d, 1 - e);
    assert d * (1 - e) == d - d * e;
  }

  /** Below 41^2 the trial divisions alone decide, so there the test is exact. */
  lemma ExactBelow1681(n: int)
    requires n < 41 * 41
    ensures Accepts(n) <==> IsPrime(n)
  {
    if IsPrime(n) {
      PrimesAccepted(n);
    } else if Accepts(n) {
      var d :| 2 <= d < n && Divides(d, n);
      var e := Cofactor(n, d);
      if d <= e {
        var q := SmallCofactor(n, d, e);
      } else {
        var q := SmallCofactor(n, e, d);
      }
      SmallPrimesArePrime(n, d);
    }
  }

  lemma SmallPrimesArePrime(n: int, d: int)
    requires n in SMALL_PRIMES && 2 <= d < n
    ensures n % d != 0
  {
  }

  // ----------------------------------------------------- search for a modulus

  /** q = odd * 2^a + 1 with exactly `bits` bits. */
  ghost predicate HasShape(bits: nat, a: nat, q: int)
    requires bits >= 1
  {
    q >= 2 && Pow(2, bits - 1) <= q < Pow(2, bits) && TwoAdicity(q - 1) == a
  }

  lemma CeilDiv(x: int, t: int, k: int)
    requires t > 0
    ensures (x + t - 1) / t <= k <==> x <= k * t
  {
    var q := (x + t - 1) / t;
    assert x + t - 1 == t * q + (x + t - 1) % t;
    MulBounds(t, k - q);
    assert t * (k - q) == k * t - t * q;
    MulBounds(t, q - 1 - k);
    assert t * (q - k - 1) == t * q - k * t - t;
  }

  lemma FloorDiv(x: int, t: int, k: int)
    requires t > 0
    ensures k <= x / t <==> k * t <= x
  {
    var q := x / t;
    MulBounds(t, q - k);
    assert t * (q - k) == t * q - k * t;
    MulBounds(t, k - q);
  }

  function LowIndex(bits: nat, a: nat): int
    requires 1 <= bits
  {
    PowTwoPositive(a);
    (Pow(2, bits - 1) + Pow(2, a) - 1) / Pow(2, a)
  }

  function HighIndex(bits: nat, a: nat): int {
    PowTwoPositive(a);
    (Pow(2, bits) - 2) / Pow(2, a)
  }

  function Candidate(a: nat, k: int): int {
    k * Pow(2, a) + 1
  }

  /** k is an odd index inside the range the search enumerates. */
  ghost predicate InRange(bits: nat, a: nat, k: int)
    requires 1 <= bits
  {
    k >= 1 && k % 2 == 1 && LowIndex(bits, a) <= k <= HighIndex(bits, a)
  }

  lemma IndexBounds(bits: nat, a: nat, k: int)
    requires 1 <= bits
    ensures LowIndex(bits, a) <= k <==> Pow(2, bits - 1) < Candidate(a, k)
    ensures k <= HighIndex(bits, a) <==> Candidate(a, k) < Pow(2, bits)
  {
    PowTwoPositive(a);
    CeilDiv(Pow(2, bits - 1), Pow(2, a), k);
    FloorDiv(Pow(2, bits) - 2, Pow(2, a), k);
  }

  /** An odd multiple of 2^a plus 1 is odd, and its predecessor has two-adicity a. */
  lemma CandidateShape(a: nat, k: int)
    requires 1 <= a && k % 2 == 1
    ensures Candidate(a, k) % 2 == 1 && (Candidate(a, k) >= 2 <==> k >= 1)
    ensures k >= 1 ==> TwoAdicity(Candidate(a, k) - 1) == a
  {
    var t := Pow(2, a);
    PowTwoPositive(a);
    EvenProduct(k, t);
    assert t * k == k * t;
    CandidateSign(t, k);
    if k >= 1 {
      TwoAdicityUnique(k * t, k, a);
    }
  }

  lemma CandidateSign(t: int, k: int)
    requires t >= 1
    ensures k >= 1 ==> k * t >= t
    ensures k <= 0 ==> k * t <= 0
  {
    if k >= 1 {
      MulBounds(t, k);
      Commute(t, 1, k);
    } else {
      MulBounds(t, -k);
      assert t * -k == -(k * t);
    }
  }

  /** The indices the search enumerates are exactly the shapes. */
  lemma ShapeIndex(bits: nat, a: nat, k: int)
    requires 1 <= bits && 1 <= a && k % 2 == 1
    ensures InRange(bits, a, k) <==> HasShape(bits, a, Candidate(a, k))
  {
    IndexBounds(bits, a, k);
    CandidateShape(a, k);
    PowTwoPositive(bits - 1);
    assert bits == 1 || Pow(2, bits - 1) == 2 * Pow(2, bits - 2);
  }

  lemma ShapeHasIndex(bits: nat, a: nat, q: int) returns (k: int)
    requires 1 <= bits && 1 <= a && HasShape(bits, a, q)
    ensures InRange(bits, a, k) && q == Candidate(a, k)
  {
    OddTimesPower(q - 1);
    k := OddPart(q - 1);
    ShapeIndex(bits, a, k);
  }

  /** Indices and shapes are in the same order. */
  lemma IndexBefore(bits: nat, a: nat, q: int, k: int) returns (j: int)
    requires 1 <= bits && 1 <= a && HasShape(bits, a, q)
    ensures InRange(bits, a, j) && q == Candidate(a, j)
    ensures q < Candidate(a, k) <==> j < k
  {
    j := ShapeHasIndex(bits, a, q);
    CandidateOrder(a, j, k);
  }

  lemma IndexOrder(k: int, j: int, t: int)
    requires t > 0
    ensures k * t < j * t <==> k < j
  {
    MulBounds(t, j - k);
    MulBounds(t, k - j);
    assert t * (j - k) == j * t - k * t;
  }

  /** The search has rejected every shape before index k. */
  ghost predicate NoneBelow(bits: nat, a: nat, k: int)
    requires 1 <= bits
  {
    forall q | HasShape(bits, a, q) && q < Candidate(a, k) :: !Accepts(q)
  }

  /** Nothing precedes the first index. */
  lemma NothingBelow(bits: nat, a: nat, k: int)
    requires 1 <= bits && 1 <= a && k % 2 == 1
    requires forall j: int {:trigger InRange(bits, a, j)} :: InRange(bits, a, j) ==> j >= k
    ensures NoneBelow(bits, a, k)
  {
    forall q | HasShape(bits, a, q)
      ensures q >= Candidate(a, k)
    {
      var j := IndexBefore(bits, a, q, k);
    }
  }

  lemma CandidateOrder(a: nat, i: int, j: int)
    ensures Candidate(a, i) < Candidate(a, j) <==> i < j
  {
    PowTwoPositive(a);
    IndexOrder(i, j, Pow(2, a));
  }

  lemma IndexStep(bits: nat, a: nat, q: int, k: int)
    requires 1 <= bits && 1 <= a && k % 2 == 1 && HasShape(bits, a, q)
    ensures q < Candidate(a, k + 2) ==> q < Candidate(a, k) || q == Candidate(a, k)
  {
    var j := ShapeHasIndex(bits, a, q);
    CandidateOrder(a, j, k + 2);
    CandidateOrder(a, j, k);
    if j < k + 2 {
      OddBelow(j, k);
    }
  }

  lemma OddBelow(j: int, k: int)
    requires j % 2 == 1 && k % 2 == 1 && j < k + 2
    ensures j <= k
  {
  }

  lemma ExtendNone(bits: nat, a: nat, k: int)
    requires 1 <= bits && 1 <= a && k % 2 == 1
    requires NoneBelow(bits, a, k) && !Accepts(Candidate(a, k))
    ensures NoneBelow(bits, a, k + 2)
  {
    forall q | HasShape(bits, a, q)
      ensures q < Candidate(a, k + 2) ==> q < Candidate(a, k) || q == Candidate(a, k)
    {
      IndexStep(bits, a, q, k);
    }
  }

  lemma NothingAbove(bits: nat, a: nat, k: int)
    requires 1 <= bits && 1 <= a
    requires NoneBelow(bits, a, k)
    requires forall j: int {:trigger InRange(bits, a, j)} :: InRange(bits, a, j) ==> j < k
    ensures forall q | HasShape(bits, a, q) :: !Accepts(q)
  {
    forall q | HasShape(bits, a, q)
      ensures !Accepts(q)
    {
      var j := IndexBefore(bits, a, q, k);
    }
  }

  lemma OddStep(k: int)
    requires k % 2 == 1
    ensures (k + 2) % 2 == 1
  {
  }

  /** Every smaller prime of the form odd * 2^a + 1 has fewer bits. */
  ghost predicate FirstPrimeOfWidth(bits: nat, a: nat, p: int)
    requires bits >= 1
  {
    forall q | IsPrime(q) && TwoAdicity(q - 1) == a && q < p :: q < Pow(2, bits - 1)
  }

  lemma SmallerPrimesAreNarrower(bits: nat, a: nat, p: int)
    requires bits >= 1 && HasShape(bits, a, p)
    requires forall q | HasShape(bits, a, q) && q < p :: !Accepts(q)
    ensures FirstPrimeOfWidth(bits, a, p)
  {
    forall q | IsPrime(q) && TwoAdicity(q - 1) == a && q < p
      ensures q < Pow(2, bits - 1)
    {
      PrimesAccepted(q);
      assert !HasShape(bits, a, q);
    }
  }

  lemma NoPrimeOfShape(bits: nat, a: nat)
    requires bits >= 1 && forall q | HasShape(bits, a, q) :: !Accepts(q)
    ensures forall q | HasShape(bits, a, q) :: !IsPrime(q)
  {
    forall q | HasShape(bits, a, q)
      ensures !IsPrime(q)
    {
      if IsPrime(q) {
        PrimesAccepted(q);
      }
    }
  }

  /** The first accepted number of the shape, or an error when no number of the shape is
      accepted; hence every smaller prime odd * 2^a + 1 is narrower and, on RuntimeError,
      there is no prime of the shape at all.
      bits < 1 fails in Python's shift by a negative count. */
  method FindPrime(bits: int, a: int) returns (r: Outcome<int>)
    ensures r.ValueError? <==> bits >= 64 || a < 1 || bits < 1
    ensures r.Ok? ==> HasShape(bits, a, r.value) && Accepts(r.value)
    ensures r.Ok? ==> forall q | HasShape(bits, a, q) && q < r.value :: !Accepts(q)
    ensures r.Ok? ==> FirstPrimeOfWidth(bits, a, r.value)
    ensures r.RuntimeError? ==> forall q | HasShape(bits, a, q) :: !Accepts(q) && !IsPrime(q)
  {
    if bits >= 64 || a < 1 || bits < 1 {
      return ValueError;
    }
    var low, high := LowIndex(bits, a), HighIndex(bits, a);
    var k := if low > 1 then low else 1;
    k := if k % 2 == 0 then k + 1 else k;
    NothingBelow(bits, a, k);
    while k <= high
      invariant k >= 1 && k >= low
      invariant k % 2 == 1
      invariant NoneBelow(bits, a, k)
      decreases high - k
    {
      var candidate := Candidate(a, k);
      ShapeIndex(bits, a, k);
      var accepted := MillerRabin(candidate);
      if accepted {
        SmallerPrimesAreNarrower(bits, a, candidate);
        return Ok(candidate);
      }
      ExtendNone(bits, a, k);
      OddStep(k);
      k := k + 2;
    }
    NothingAbove(bits, a, k);
    NoPrimeOfShape(bits, a);
    return RuntimeError;
  }
}
