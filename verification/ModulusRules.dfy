/** Which power-of-two transforms a modulus admits: the recorded facts about a
    modulus, the root-availability rule and the coset rule. */
module ModulusRules {
  import opened Sets
  import opened NumberTheory
  import opened Primality

  const LIMIT31: int := 0x8000_0000
  const LIMIT63: int := 0x8000_0000_0000_0000

  datatype Spec = Spec(modulus: int, bits: int, wordBits: int, twoAdicity: int)

  // ------------------------------------------------------- recorded modulus

  function Abs(v: int): nat {
    if v < 0 then -v else v
  }

  /** Python's int.bit_length. */
  function BitLength(v: int): nat
    decreases Abs(v)
  {
    if v == 0 then 0 else 1 + BitLength(Abs(v) / 2)
  }

  lemma {:induction false} BitLengthIsWidth(v: int, b: nat)
    requires v > 0 && b > 0
    ensures BitLength(v) == b <==> Pow(2, b - 1) <= v < Pow(2, b)
    decreases b
  {
    PowTwoPositive(b - 1);
    if v == 1 {
      if b > 1 {
        PowTwoPositive(b - 2);
      }
    } else if b == 1 {
      assert BitLength(v) == 1 + BitLength(v / 2);
      assert Pow(2, 1) == 2 * Pow(2, 0);
    } else {
      BitLengthIsWidth(v / 2, b - 1);
      assert Pow(2, b) == 2 * Pow(2, b - 1) && Pow(2, b - 1) == 2 * Pow(2, b - 2);
    }
  }

  /** Exactly `bits` binary digits. */
  ghost predicate HasWidth(v: int, bits: int) {
    bits >= 1 && Pow(2, bits - 1) <= v < Pow(2, bits)
  }

  lemma WidthRule(v: int, bits: int)
    requires v > 0
    ensures BitLength(v) == bits <==> HasWidth(v, bits)
  {
    if bits > 0 {
      BitLengthIsWidth(v, bits);
    }
  }

  lemma NoWidth(v: int, bits: int)
    requires v <= 0
    ensures !HasWidth(v, bits)
  {
    if bits >= 1 {
      PowTwoPositive(bits - 1);
    }
  }

  ghost predicate ValidSpec(spec: Spec) {
    var p := spec.modulus;
    && Accepts(p)
    && HasWidth(p, spec.bits)
    && TwoAdicity(p - 1) == spec.twoAdicity
    && p < LIMIT63
    && (spec.wordBits == 64 || (spec.wordBits == 32 && p < LIMIT31))
  }

  /** Ok exactly for the specifications whose recorded facts are right; the checks come
      in the order of the original, whose every failure raises ValueError. */
  method ValidateSpec(spec: Spec) returns (r: Outcome<()>)
    ensures r == (if ValidSpec(spec) then Ok(()) else ValueError)
  {
    var p := spec.modulus;
    if BitLength(p) != spec.bits {
      if p > 0 {
        WidthRule(p, spec.bits);
      } else {
        NoWidth(p, spec.bits);
      }
      return ValueError;
    }
    var accepted := MillerRabin(p);
    if !accepted {
      return ValueError;
    }
    WidthRule(p, spec.bits);
    var adicity := ComputeTwoAdicity(p - 1);
    if adicity != spec.twoAdicity {
      return ValueError;
    }
    if p >= LIMIT63 {
      return ValueError;
    }
    if spec.wordBits == 32 && p >= LIMIT31 {
      return ValueError;
    }
    if spec.wordBits != 32 && spec.wordBits != 64 {
      return ValueError;
    }
    return Ok(());
  }

  lemma LimitIsPower()
    ensures Pow(2, 63) == LIMIT63
  {
    assert Pow(2, 7) == 128;
    PowMul(2, 7, 9);
    assert Pow(128, 9) == LIMIT63;
  }

  lemma Limit31IsPower()
    ensures Pow(2, 31) == LIMIT31
  {
    assert Pow(2, 1) == 2 * Pow(2, 0);
    assert Pow(2, 6) == 64;
    PowMul(2, 6, 5);
    assert Pow(64, 5) == 0x4000_0000;
  }

  /** What a valid specification records, in powers of two. */
  lemma ValidSpecMeaning(spec: Spec)
    ensures var p := spec.modulus;
      ValidSpec(spec) <==>
        && Accepts(p)
        && spec.bits >= 1 && Pow(2, spec.bits - 1) <= p < Pow(2, spec.bits)
        && spec.twoAdicity >= 0 && (exists d :: d % 2 == 1 && p - 1 == d * Pow(2, spec.twoAdicity))
        && p < Pow(2, 63) && spec.wordBits in {32, 64} && (spec.wordBits == 32 ==> p < Pow(2, 31))
  {
    LimitIsPower();
    Limit31IsPower();
    var p := spec.modulus;
    if Accepts(p) {
      OddTimesPower(p - 1);
      if spec.twoAdicity >= 0 && exists d :: d % 2 == 1 && p - 1 == d * Pow(2, spec.twoAdicity) {
        var d :| d % 2 == 1 && p - 1 == d * Pow(2, spec.twoAdicity);
        TwoAdicityUnique(p - 1, d, spec.twoAdicity);
      }
    }
  }

  /** The searched moduli always pass the validation applied to them afterwards. */
  method SyntheticSpec(bits: int, a: int) returns (r: Outcome<Spec>)
    ensures r.Ok? ==> ValidSpec(r.value) && r.value.bits == bits && r.value.twoAdicity == a
    ensures !r.Ok? ==> bits < 1 || bits >= 64 || a < 1 || forall q | HasShape(bits, a, q) :: !IsPrime(q)
  {
    var found := FindPrime(bits, a);
    if !found.Ok? {
      return if found.ValueError? then ValueError else RuntimeError;
    }
    var spec := Spec(found.value, bits, 64, a);
    PowTwoMonotone(bits, 63);
    LimitIsPower();
    var checked := ValidateSpec(spec);
    assert ValidSpec(spec);
    return Ok(spec);
  }

  // ------------------------------------------------------- root availability

  function ValidLogN(spec: Spec, logN: int, mode: string): bool {
    var required := logN + (if mode == "negacyclic" then 1 else 0);
    0 <= logN && required <= spec.twoAdicity
  }

  /** g has multiplicative order exactly n modulo p. */
  ghost predicate HasOrder(p: int, g: int, n: nat)
    requires p > 0
  {
    && n > 0
    && Eq(Pow(g, n), 1, p)
    && forall m: nat | 0 < m < n :: !Eq(Pow(g, m), 1, p)
  }

  /** psi is an n-th root of -1 modulo p. */
  ghost predicate IsRootOfMinusOne(p: int, psi: int, n: nat)
    requires p > 0
  {
    Eq(Pow(psi, n), -1, p)
  }

  /** The recorded facts the rule relies on, for a genuine odd prime. */
  ghost predicate PrimeSpec(spec: Spec) {
    && IsPrime(spec.modulus) && spec.modulus % 2 == 1
    && spec.twoAdicity == TwoAdicity(spec.modulus - 1)
  }

  // --- polynomials over Z_p, lowest coefficient first

  function Eval(c: seq<int>, x: int): int {
    if c == [] then 0 else c[0] + x * Eval(c[1..], x)
  }

  /** Synthetic division of c by (X - r). */
  function Quotient(c: seq<int>, r: int): (q: seq<int>)
    ensures |q| == if |c| == 0 then 0 else |c| - 1
    ensures |c| >= 2 ==> q[|q| - 1] == c[|c| - 1]
  {
    if |c| <= 1 then []
    else
      assert |c| == 2 ==> Eval(c[1..], r) == c[1] + r * Eval(c[1..][1..], r);
      [Eval(c[1..], r)] + Quotient(c[1..], r)
  }

  lemma {:induction false} DivisionIdentity(c: seq<int>, r: int, x: int)
    ensures Eval(c, x) - Eval(c, r) == (x - r) * Eval(Quotient(c, r), x)
  {
    if |c| <= 1 {
      if |c| == 1 {
        assert c[1..] == [];
      }
    } else {
      var t := c[1..];
      DivisionIdentity(t, r, x);
      var q := Quotient(c, r);
      assert q[1..] == Quotient(t, r);
      var ex, er, eq := Eval(t, x), Eval(t, r), Eval(Quotient(t, r), x);
      DivisionStep(x, r, ex, er, eq);
      assert Eval(q, x) == er + x * eq;
    }
  }

  lemma DivisionStep(x: int, r: int, ex: int, er: int, eq: int)
    requires ex - er == (x - r) * eq
    ensures x * ex - r * er == (x - r) * (er + x * eq)
  {
    assert x * ex - r * er == (x - r) * er + x * (ex - er);
    Commute(x, x - r, eq);
  }

  lemma ConstantValue(c: seq<int>, x: int)
    requires |c| > 0
    ensures |c| == 1 ==> Eval(c, x) == c[0]
  {
    if |c| == 1 {
      assert c[1..] == [];
    }
  }

  /** Dividing a root out leaves the others. */
  lemma OtherRoot(p: int, c: seq<int>, r: int, x: int)
    requires IsPrime(p) && |c| > 1 && 0 <= r < p && 0 <= x < p && x != r
    requires Divides(p, Eval(c, r)) && Divides(p, Eval(c, x))
    ensures Divides(p, Eval(Quotient(c, r), x))
  {
    DivisionIdentity(c, r, x);
    EqDiff(Eval(c, x), 0, p);
    EqDiff(Eval(c, r), 0, p);
    ModUnique(0, p, 0, 0);
    EqDiff(Eval(c, x), Eval(c, r), p);
    Euclid(p, x - r, Eval(Quotient(c, r), x));
    EqDiff(x, r, p);
    ModUnique(x, p, 0, x);
    ModUnique(r, p, 0, r);
  }

  /** A polynomial of degree d whose leading coefficient is not 0 modulo the prime p
      has at most d roots among the residues. */
  lemma {:induction false} RootBound(p: int, c: seq<int>, roots: set<int>)
    requires IsPrime(p) && |c| > 0 && !Divides(p, c[|c| - 1])
    requires forall x | x in roots :: 0 <= x < p && Divides(p, Eval(c, x))
    ensures |roots| <= |c| - 1
    decreases |c|
  {
    if roots != {} {
      var r := Pick(roots);
      ConstantValue(c, r);
      if |c| > 1 {
        var q, rest := Quotient(c, r), roots - {r};
        forall x | x in rest
          ensures 0 <= x < p && Divides(p, Eval(q, x))
        {
          OtherRoot(p, c, r, x);
        }
        RootBound(p, q, rest);
        assert roots == rest + {r};
      }
    }
  }

  /** X^n - 1. */
  function Zeros(n: nat): seq<int> {
    seq(n, _ => 0)
  }

  lemma {:induction false} EvalMonomial(n: nat, x: int)
    ensures Eval(Zeros(n) + [1], x) == Pow(x, n)
  {
    var c := Zeros(n) + [1];
    if n == 0 {
      assert c[1..] == [];
    } else {
      assert c[1..] == Zeros(n - 1) + [1];
      EvalMonomial(n - 1, x);
    }
  }

  /** Some residue is not a square: the (p-1)/2-th power of one of them is -1. */
  lemma NonResidue(p: int) returns (x: int)
    requires IsPrime(p) && p % 2 == 1
    ensures Eq(Pow(x, (p - 1) / 2), -1, p)
  {
    var h := (p - 1) / 2;
    var c := [-1] + Zeros(h - 1) + [1];
    var all := UpTo(p - 1);
    ProductUpTo(p - 1);
    ModUnique(1, p, 0, 1);
    if forall y | y in all :: Divides(p, Eval(c, y)) {
      forall y | y in all ensures 0 <= y < p {
        UpToMember(p - 1, y);
      }
      RootBound(p, c, all);
      assert false;
    }
    x :| x in all && !Divides(p, Eval(c, x));
    UpToMember(p - 1, x);
    assert c[1..] == Zeros(h - 1) + [1];
    EvalMonomial(h - 1, x);
    assert Eval(c, x) == Pow(x, h) - 1;
    EqDiff(Pow(x, h), 1, p);
    ModUnique(x, p, 0, x);
    Fermat(p, x);
    PowAdd(x, h, h);
    SquareRootOfOne(p, Pow(x, h));
  }

  // --- consequences for powers of two

  /** From psi^(2^k) = -1 follows that psi has order exactly 2^(k+1). */
  lemma OrderOfRootOfMinusOne(p: int, psi: int, k: nat)
    requires p > 2 && IsRootOfMinusOne(p, psi, Pow2(k))
    ensures HasOrder(p, psi, Pow2(k + 1))
  {
    var e := Pow2(k);
    PowAdd(psi, e, e);
    EqMul(Pow(psi, e), -1, Pow(psi, e), -1, p);
    forall m: nat | 0 < m < Pow2(k + 1)
      ensures !Eq(Pow(psi, m), 1, p)
    {
      NoSmallerOrder(p, psi, k, m);
    }
  }

  lemma NoSmallerOrder(p: int, psi: int, k: nat, m: nat)
    requires p > 2 && IsRootOfMinusOne(p, psi, Pow2(k)) && 0 < m < Pow2(k + 1)
    ensures !Eq(Pow(psi, m), 1, p)
  {
    OddTimesPower(m);
    MultipleOfPower(m, OddPart(m), TwoAdicity(m), k);
    OddMultiple(p, psi, k, m, OddPart(m), TwoAdicity(m));
  }

  lemma MultipleOfPower(m: nat, o: nat, t: nat, k: nat)
    requires o > 0 && m == o * Pow(2, t) && m < Pow2(k + 1)
    ensures t <= k
  {
    if t > k {
      PowTwoMonotone(k + 1, t);
      MulBounds(Pow(2, t), o);
    }
  }

  /** psi^(m * 2^(k-t)) with m = 2^t * o is 1 when psi^m is, but it is also
      psi^(2^k * o) = (-1)^o = -1. */
  lemma OddMultiple(p: int, psi: int, k: nat, m: nat, o: nat, t: nat)
    requires p > 2 && IsRootOfMinusOne(p, psi, Pow2(k))
    requires m == o * Pow(2, t) && o % 2 == 1 && t <= k
    ensures !Eq(Pow(psi, m), 1, p)
  {
    if Eq(Pow(psi, m), 1, p) {
      var w := Pow2(k - t);
      PowersMeet(m, o, t, k);
      OneToThe(p, psi, m, w);
      MinusOneToThe(p, psi, Pow2(k), o);
      EqDiff(1, -1, p);
      ModUnique(2, p, 0, 2);
    }
  }

  lemma PowersMeet(m: nat, o: nat, t: nat, k: nat)
    requires m == o * Pow(2, t) && t <= k
    ensures m * Pow2(k - t) == Pow2(k) * o
  {
    PowAdd(2, t, k - t);
    Commute(Pow2(k - t), o, Pow(2, t));
  }

  lemma OneToThe(p: int, g: int, m: nat, w: nat)
    requires p > 0 && Eq(Pow(g, m), 1, p)
    ensures m * w >= 0 && Eq(Pow(g, m * w), 1, p)
  {
    PowMul(g, m, w);
    EqPow(Pow(g, m), 1, w, p);
    PowOne(w);
  }

  lemma MinusOneToThe(p: int, g: int, e: nat, o: nat)
    requires p > 0 && Eq(Pow(g, e), -1, p) && o % 2 == 1
    ensures e * o >= 0 && Eq(Pow(g, e * o), -1, p)
  {
    PowMul(g, e, o);
    EqPow(Pow(g, e), -1, o, p);
    PowMinusOne(o);
  }

  /** Within the two-adicity a 2^k-th root of -1 exists. */
  lemma RootOfMinusOneExists(p: int, k: nat) returns (psi: int)
    requires IsPrime(p) && p % 2 == 1 && k < TwoAdicity(p - 1)
    ensures IsRootOfMinusOne(p, psi, Pow2(k))
  {
    var s, d := TwoAdicity(p - 1), OddPart(p - 1);
    OddTimesPower(p - 1);
    var x := NonResidue(p);
    var e: nat := d * Pow2(s - 1 - k);
    HalfSplits(p - 1, d, s, k);
    psi := Pow(x, e);
    PowMul(x, e, Pow2(k));
  }

  lemma HalfSplits(v: nat, d: nat, s: nat, k: nat)
    requires k < s && v == d * Pow(2, s)
    ensures v / 2 == (d * Pow2(s - 1 - k)) * Pow2(k)
  {
    Commute(d, 2, Pow2(s - 1));
    PowAdd(2, s - 1 - k, k);
    var x, y := Pow2(s - 1 - k), Pow2(k);
    assert (d * x) * y == d * (x * y);
  }

  /** Orders divide p - 1. */
  lemma OrderDivides(p: int, g: int, n: nat)
    requires IsPrime(p) && HasOrder(p, g, n)
    ensures (p - 1) % n == 0
  {
    UnitHasOrder(p, g, n);
    Fermat(p, g);
    var q, r := (p - 1) / n, (p - 1) % n;
    assert p - 1 == n * q + r;
    MulBounds(n, q);
    OneToThe(p, g, n, q);
    PowAdd(g, n * q, r);
    EqMul(Pow(g, n * q), 1, Pow(g, r), Pow(g, r), p);
  }

  /** A multiple of p has no power equal to 1. */
  lemma UnitHasOrder(p: int, g: int, n: nat)
    requires IsPrime(p) && n > 0 && Eq(Pow(g, n), 1, p)
    ensures !Divides(p, g)
  {
    if Divides(p, g) {
      ModUnique(1, p, 0, 1);
      ModUnique(0, p, 0, 0);
      EqDiff(g, 0, p);
      EqMul(g, 0, Pow(g, n - 1), Pow(g, n - 1), p);
    }
  }

  /** Every mode but the negacyclic one answers true exactly when Z_p has an element of order 2^logN. */
  lemma CyclicRootAvailability(spec: Spec, logN: int, mode: string)
    requires PrimeSpec(spec) && mode != "negacyclic"
    ensures ValidLogN(spec, logN, mode) <==> logN >= 0 && exists g :: HasOrder(spec.modulus, g, Pow2(logN))
  {
    var p := spec.modulus;
    if ValidLogN(spec, logN, mode) {
      if logN == 0 {
        assert Pow(1, 1) == 1 * Pow(1, 0);
        assert HasOrder(p, 1, Pow2(0));
      } else {
        var psi := RootOfMinusOneExists(p, logN - 1);
        OrderOfRootOfMinusOne(p, psi, logN - 1);
      }
    }
    if logN >= 0 && exists g :: HasOrder(p, g, Pow2(logN)) {
      var g :| HasOrder(p, g, Pow2(logN));
      OrderDivides(p, g, Pow2(logN));
      TwoAdicityIsLargest(p - 1, logN);
    }
  }

  /** Negacyclic mode answers true exactly when some psi satisfies psi^(2^logN) = -1. */
  lemma NegacyclicRootAvailability(spec: Spec, logN: int)
    requires PrimeSpec(spec)
    ensures ValidLogN(spec, logN, "negacyclic") <==>
            logN >= 0 && exists psi :: IsRootOfMinusOne(spec.modulus, psi, Pow2(logN))
  {
    var p := spec.modulus;
    if ValidLogN(spec, logN, "negacyclic") {
      var psi := RootOfMinusOneExists(p, logN);
    }
    if logN >= 0 && exists psi :: IsRootOfMinusOne(p, psi, Pow2(logN)) {
      var psi :| IsRootOfMinusOne(p, psi, Pow2(logN));
      OrderOfRootOfMinusOne(p, psi, logN);
      OrderDivides(p, psi, Pow2(logN + 1));
      TwoAdicityIsLargest(p - 1, logN + 1);
    }
  }

  // --------------------------------------------------------------- cosets

  function ValidCosetGenerator(spec: Spec, logN: nat, generator: int): bool
    requires spec.modulus > 0
  {
    generator % spec.modulus != 0 && Pow(generator, Pow2(logN)) % spec.modulus != 1
  }

  /** A generator is accepted exactly when the coset it spans consists of units and
      avoids every N-th root of unity, so that X^N - 1 vanishes nowhere on it. */
  lemma CosetAvoidsRoots(spec: Spec, logN: nat, g: int)
    requires IsPrime(spec.modulus)
    ensures ValidCosetGenerator(spec, logN, g) <==>
            && !Divides(spec.modulus, g)
            && forall x | Eq(Pow(x, Pow2(logN)), 1, spec.modulus) ::
                 !Eq(Pow(g * x, Pow2(logN)), 1, spec.modulus)
  {
    var p, n := spec.modulus, Pow2(logN);
    ModUnique(1, p, 0, 1);
    forall x | Eq(Pow(x, n), 1, p)
      ensures Eq(Pow(g * x, n), Pow(g, n), p)
    {
      PowProduct(g, x, n);
      EqMul(Pow(g, n), Pow(g, n), Pow(x, n), 1, p);
    }
    PowOne(n);
    assert Eq(Pow(1, n), 1, p);
    assert g * 1 == g;
  }
}
