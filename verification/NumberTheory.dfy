/** Powers and residues: the facts about Z_p on which the modulus rules rest.
    Everything is stated over `int` with Dafny's Euclidean `%`, which agrees
    with Python's `%` for the positive moduli used here. */
module NumberTheory {
  import opened Sets

  function Pow(b: int, e: nat): int {
    if e == 0 then 1 else b * Pow(b, e - 1)
  }

  predicate Divides(d: int, n: int)
    requires d > 0
  {
    n % d == 0
  }

  ghost predicate IsPrime(p: int) {
    && p >= 2
    && forall d: int | 2 <= d < p :: !Divides(d, p)
  }

  /** Congruence modulo m. */
  predicate Eq(a: int, b: int, m: int)
    requires m > 0
  {
    a % m == b % m
  }

  // ---------------------------------------------------------------- residues

  lemma MulBounds(m: int, k: int)
    requires m > 0
    ensures k >= 1 ==> m * k >= m
    ensures k <= -1 ==> m * k <= -m
  {
    if k <= -1 {
      assert m * (-k) >= m;
    }
  }

  /** (a*b)*(x*y) regrouped; kept apart so that no proof below mixes this
      algebra with unfoldings of Pow. */
  lemma Regroup(a: int, b: int, x: int, y: int)
    ensures (a * b) * (x * y) == (a * x) * (b * y)
  {
    calc {
      (a * b) * (x * y);
      a * (b * (x * y));
      a * (x * (b * y));
      (a * x) * (b * y);
    }
  }

  lemma Commute(x: int, y: int, z: int)
    ensures x * (y * z) == y * (x * z)
  {
  }

  lemma MulDifference(b: int, d: int, m: int, i: int, j: int)
    ensures (b + m * i) * (d + m * j) == b * d + m * (i * (d + m * j) + b * j)
  {
    var c := d + m * j;
    assert (b + m * i) * c == b * c + (m * i) * c;
    assert b * c == b * d + b * (m * j);
    assert b * (m * j) == m * (b * j);
    assert (m * i) * c == m * (i * c);
    assert m * (i * c + b * j) == m * (i * c) + m * (b * j);
  }

  lemma ModUnique(x: int, m: int, q: int, r: int)
    requires m > 0 && 0 <= r < m && x == m * q + r
    ensures x % m == r && x / m == q
  {
    var k := q - x / m;
    assert m * k == x % m - r by {
      assert m * k == m * q - m * (x / m);
    }
    MulBounds(m, k);
  }

  lemma ModShift(x: int, m: int, k: int)
    requires m > 0
    ensures (x + m * k) % m == x % m
  {
    assert x + m * k == m * (x / m + k) + x % m;
    ModUnique(x + m * k, m, x / m + k, x % m);
  }

  lemma EqDiff(a: int, b: int, m: int)
    requires m > 0
    ensures Eq(a, b, m) <==> Divides(m, a - b)
  {
    if Divides(m, a - b) {
      var k := (a - b) / m;
      assert a == b + m * k;
      ModShift(b, m, k);
    }
    if Eq(a, b, m) {
      SameRemainder(a, b, m);
    }
  }

  lemma SameRemainder(a: int, b: int, m: int)
    requires m > 0 && a % m == b % m
    ensures (a - b) % m == 0
  {
    var q, r := a / m, b / m;
    assert a == m * q + a % m && b == m * r + b % m;
    assert m * q - m * r == m * (q - r);
    ModUnique(a - b, m, q - r, 0);
  }

  lemma EqMul(a: int, b: int, c: int, d: int, m: int)
    requires m > 0 && Eq(a, b, m) && Eq(c, d, m)
    ensures Eq(a * c, b * d, m)
  {
    EqDiff(a, b, m);
    EqDiff(c, d, m);
    var i, j := (a - b) / m, (c - d) / m;
    assert a == b + m * i && c == d + m * j;
    MulDifference(b, d, m, i, j);
    ModShift(b * d, m, i * c + b * j);
  }

  lemma EqReduce(a: int, m: int)
    requires m > 0
    ensures Eq(a % m, a, m)
  {
    ModUnique(a % m, m, 0, a % m);
  }

  lemma {:induction false} EqPow(a: int, b: int, e: nat, m: int)
    requires m > 0 && Eq(a, b, m)
    ensures Eq(Pow(a, e), Pow(b, e), m)
  {
    if e > 0 {
      EqPow(a, b, e - 1, m);
      EqMul(a, b, Pow(a, e - 1), Pow(b, e - 1), m);
    }
  }

  lemma {:induction false} PowAdd(b: int, e: nat, f: nat)
    ensures Pow(b, e + f) == Pow(b, e) * Pow(b, f)
  {
    if e > 0 {
      PowAdd(b, e - 1, f);
      assert Pow(b, e + f) == b * (Pow(b, e - 1) * Pow(b, f));
    }
  }

  lemma {:induction false} PowMul(b: int, e: nat, f: nat)
    ensures Pow(b, e * f) == Pow(Pow(b, e), f)
  {
    if f == 0 {
      assert e * f == 0;
    } else {
      assert e * f == e + e * (f - 1);
      PowAdd(b, e, e * (f - 1));
      PowMul(b, e, f - 1);
    }
  }

  lemma {:induction false} PowProduct(a: int, b: int, e: nat)
    ensures Pow(a * b, e) == Pow(a, e) * Pow(b, e)
  {
    if e > 0 {
      PowProduct(a, b, e - 1);
      var x, y := Pow(a, e - 1), Pow(b, e - 1);
      Regroup(a, b, x, y);
      assert Pow(a * b, e) == (a * b) * (x * y);
    }
  }

  lemma {:induction false} PowOne(e: nat)
    ensures Pow(1, e) == 1
  {
    if e > 0 {
      PowOne(e - 1);
    }
  }

  /** Odd powers of -1. */
  lemma {:induction false} PowMinusOne(e: nat)
    requires e % 2 == 1
    ensures Pow(-1, e) == -1
  {
    if e > 1 {
      PowMinusOne(e - 2);
      assert Pow(-1, e) == -1 * (-1 * Pow(-1, e - 2));
    }
  }

  lemma {:induction false} PowTwoPositive(e: nat)
    ensures Pow(2, e) > 0
    ensures e > 0 ==> Pow(2, e) % 2 == 0
  {
    if e > 0 {
      PowTwoPositive(e - 1);
    }
  }

  function Pow2(k: nat): (r: nat)
    ensures r > 0 && r == Pow(2, k)
  {
    PowTwoPositive(k);
    Pow(2, k)
  }

  lemma {:induction false} PowTwoMonotone(e: nat, f: nat)
    requires e <= f
    ensures Pow(2, e) <= Pow(2, f)
    ensures e < f ==> Pow(2, e) < Pow(2, f)
    decreases f
  {
    PowTwoPositive(e);
    if e < f {
      PowTwoMonotone(e, f - 1);
    }
  }

  // ------------------------------------------------------------ prime moduli

  /** The least positive m with p | m*b divides every other one. */
  lemma Annihilators(p: int, b: int, m: nat, n: nat)
    requires p > 0 && 0 < m && Divides(p, m * b) && Divides(p, n * b)
    requires forall k: nat | 0 < k < m :: !Divides(p, k * b)
    ensures n % m == 0
  {
    var q, r := n / m, n % m;
    if r > 0 {
      var i, j := (n * b) / p, (m * b) / p;
      assert r == n - m * q;
      assert r * b == n * b - q * (m * b) by {
        assert r * b == n * b - (m * q) * b;
        assert (m * q) * b == q * (m * b);
      }
      assert q * (m * b) == p * (q * j) by {
        assert m * b == p * j;
      }
      assert n * b == p * i;
      assert r * b == p * (i - q * j) + 0 by {
        assert p * (i - q * j) == p * i - p * (q * j);
      }
      ModUnique(r * b, p, i - q * j, 0);
      assert Divides(p, r * b);
    }
  }

  lemma MultipleDivides(p: int, b: int)
    requires p > 0
    ensures Divides(p, p * b)
  {
    ModUnique(p * b, p, b, 0);
  }

  ghost function LeastAnnihilator(p: int, b: int, from: nat): (m: nat)
    requires p > 0 && 0 < from <= p
    requires forall k: nat | 0 < k < from :: !Divides(p, k * b)
    ensures 0 < m <= p && Divides(p, m * b)
    ensures forall k: nat | 0 < k < m :: !Divides(p, k * b)
    decreases p - from
  {
    if Divides(p, from * b) then from
    else
      MultipleDivides(p, b);
      LeastAnnihilator(p, b, from + 1)
  }

  /** Euclid's lemma. */
  lemma Euclid(p: int, a: int, b: int)
    requires IsPrime(p) && Divides(p, a * b)
    ensures Divides(p, a) || Divides(p, b)
  {
    if !Divides(p, b) {
      var m := LeastAnnihilator(p, b, 1);
      assert m != 1;
      ModUnique(p * b, p, b, 0);
      Annihilators(p, b, m, p);
      assert Divides(m, p);
      assert m == p;
      var r := a % p;
      EqReduce(a, p);
      EqMul(r, a, b, b, p);
      Annihilators(p, b, m, r);
      ModUnique(r, p, 0, r);
    }
  }

  /** A common factor prime to the modulus cancels. */
  lemma Cancel(p: int, c: int, a: int, b: int)
    requires IsPrime(p) && !Divides(p, c) && Eq(c * a, c * b, p)
    ensures Eq(a, b, p)
  {
    EqDiff(c * a, c * b, p);
    assert c * a - c * b == c * (a - b);
    Euclid(p, c, a - b);
    EqDiff(a, b, p);
  }

  /** The only square roots of 1 modulo a prime are 1 and -1. */
  lemma SquareRootOfOne(p: int, y: int)
    requires IsPrime(p) && Eq(y * y, 1, p)
    ensures Eq(y, 1, p) || Eq(y, -1, p)
  {
    EqDiff(y * y, 1, p);
    assert y * y - 1 == (y - 1) * (y + 1);
    Euclid(p, y - 1, y + 1);
    EqDiff(y, 1, p);
    EqDiff(y, -1, p);
    assert y - (-1) == y + 1;
  }

  // ------------------------------------------------- Fermat's little theorem

  ghost function Product(s: set<int>): int {
    if s == {} then 1 else Pick(s) * Product(s - {Pick(s)})
  }

  lemma {:induction false} ProductPick(s: set<int>, y: int)
    requires y in s
    ensures Product(s) == y * Product(s - {y})
    decreases |s|
  {
    var x := Pick(s);
    if x != y {
      ProductPick(s - {x}, y);
      ProductPick(s - {y}, x);
      assert s - {x} - {y} == s - {y} - {x};
      var rest := Product(s - {x} - {y});
      Commute(x, y, rest);
    }
  }

  /** {a*1 % p, ..., a*k % p}. */
  ghost function Multiples(a: int, p: int, k: nat): set<int>
    requires p > 0
  {
    if k == 0 then {} else Multiples(a, p, k - 1) + {(a * k) % p}
  }

  function Factorial(k: nat): int {
    if k == 0 then 1 else k * Factorial(k - 1)
  }

  ghost function UpTo(k: nat): set<int> {
    if k == 0 then {} else UpTo(k - 1) + {k}
  }

  lemma {:induction false} UpToMember(k: nat, v: int)
    ensures v in UpTo(k) <==> 1 <= v <= k
  {
    if k > 0 {
      UpToMember(k - 1, v);
    }
  }

  lemma {:induction false} MultiplesMember(a: int, p: int, k: nat, v: int) returns (j: nat)
    requires p > 0 && v in Multiples(a, p, k)
    ensures 1 <= j <= k && v == (a * j) % p
  {
    if v == (a * k) % p {
      j := k;
    } else {
      j := MultiplesMember(a, p, k - 1, v);
    }
  }

  lemma {:induction false} MultiplesFacts(a: int, p: int, k: nat)
    requires IsPrime(p) && !Divides(p, a) && k < p
    ensures |Multiples(a, p, k)| == k
    ensures Multiples(a, p, k) <= UpTo(p - 1)
    ensures Eq(Product(Multiples(a, p, k)), Pow(a, k) * Factorial(k), p)
  {
    if k > 0 {
      MultiplesFacts(a, p, k - 1);
      var s, v := Multiples(a, p, k - 1), (a * k) % p;
      assert v != 0 by {
        if v == 0 {
          Euclid(p, a, k);
          ModUnique(k, p, 0, k);
        }
      }
      if v in s {
        var j := MultiplesMember(a, p, k - 1, v);
        Cancel(p, a, k, j);
        ModUnique(k, p, 0, k);
        ModUnique(j, p, 0, j);
        assert false;
      }
      assert s + {v} - {v} == s;
      UpToMember(p - 1, v);
      ProductPick(s + {v}, v);
      EqReduce(a * k, p);
      EqMul(v, a * k, Product(s), Pow(a, k - 1) * Factorial(k - 1), p);
      var x, f := Pow(a, k - 1), Factorial(k - 1);
      Regroup(a, k, x, f);
    }
  }

  lemma {:induction false} ProductUpTo(k: nat)
    ensures |UpTo(k)| == k
    ensures Product(UpTo(k)) == Factorial(k)
  {
    if k == 0 {
      assert UpTo(k) == {};
    } else {
      ProductUpTo(k - 1);
      UpToMember(k - 1, k);
      assert UpTo(k) - {k} == UpTo(k - 1);
      ProductPick(UpTo(k), k);
    }
  }

  lemma {:induction false} FactorialNotDivisible(p: int, k: nat)
    requires IsPrime(p) && k < p
    ensures !Divides(p, Factorial(k))
  {
    if k == 0 {
      ModUnique(1, p, 0, 1);
    } else {
      FactorialNotDivisible(p, k - 1);
      if Divides(p, Factorial(k)) {
        Euclid(p, k, Factorial(k - 1));
        ModUnique(k, p, 0, k);
      }
    }
  }

  lemma Fermat(p: int, a: int)
    requires IsPrime(p) && !Divides(p, a)
    ensures Eq(Pow(a, p - 1), 1, p)
  {
    var k := p - 1;
    MultiplesFacts(a, p, k);
    ProductUpTo(k);
    SubsetOfSameSize(Multiples(a, p, k), UpTo(k));
    var f := Factorial(k);
    assert Eq(f, Pow(a, k) * f, p);
    FactorialNotDivisible(p, k);
    assert f * Pow(a, k) == Pow(a, k) * f && f * 1 == f;
    Cancel(p, f, Pow(a, k), 1);
  }
}
