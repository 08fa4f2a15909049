/** The two reference reorderings of a bit-reversed transform: the benchmark gathers
    from the reversed index, the stage probe scatters to it. */
module BitReversal {
  import opened Numbers
  import opened NumberTheory

  /** (v >> k) & 1. */
  function Bit(v: nat, k: nat): (b: nat)
    ensures b <= 1
  {
    (v / Pow2(k)) % 2
  }

  /** The low b bits of v in opposite order. */
  function Rev(v: nat, b: nat): nat {
    if b == 0 then 0 else 2 * Rev(v, b - 1) + Bit(v, b - 1)
  }

  // ------------------------------------------------------------- involution

  lemma {:induction false} RevBound(v: nat, b: nat)
    ensures Rev(v, b) < Pow2(b)
  {
    if b > 0 {
      RevBound(v, b - 1);
      assert Pow2(b) == 2 * Pow2(b - 1);
    }
  }

  lemma DivDiv(v: nat, t: int)
    requires t > 0
    ensures (v / 2) / t == v / (2 * t)
  {
    var q, r := v / (2 * t), v % (2 * t);
    assert v == (2 * t) * q + r;
    assert (2 * t) * q == 2 * (t * q);
    assert v / 2 == t * q + r / 2;
    ModUnique(v / 2, t, q, r / 2);
  }

  lemma BitOfHalf(v: nat, k: nat)
    ensures Bit(v / 2, k) == Bit(v, k + 1)
  {
    DivDiv(v, Pow2(k));
    assert Pow2(k + 1) == 2 * Pow2(k);
  }

  /** Reading the same reversal from the other end: bit 0 of v goes to the top. */
  lemma {:induction false} RevFromLow(v: nat, b: nat)
    requires b > 0
    ensures Rev(v, b) == Bit(v, 0) * Pow2(b - 1) + Rev(v / 2, b - 1)
  {
    assert Pow2(0) == 1;
    if b > 1 {
      RevFromLow(v, b - 1);
      BitOfHalf(v, b - 2);
      assert Pow2(b - 1) == 2 * Pow2(b - 2);
      var bit0 := Bit(v, 0);
      assert 2 * (bit0 * Pow2(b - 2)) == bit0 * Pow2(b - 1);
    }
  }

  lemma BitBelow(e: nat, u: nat, b: nat, k: nat)
    requires k < b
    ensures e * Pow2(b) + u >= 0 && Bit(e * Pow2(b) + u, k) == Bit(u, k)
  {
    var t, w := Pow2(k), Pow2(b - k - 1);
    PowAdd(2, k, b - k);
    assert Pow2(b) == t * (2 * w);
    var q, r := u / t, u % t;
    var m := e * (2 * w) + q;
    assert e * Pow2(b) == t * (e * (2 * w)) by {
      Commute(e, t, 2 * w);
    }
    assert e * Pow2(b) + u == t * m + r;
    ModUnique(e * Pow2(b) + u, t, m, r);
    assert e * (2 * w) == 2 * (e * w);
    ModShift(q, 2, e * w);
  }

  lemma {:induction false} RevIgnoresHighBits(v: nat, e: nat, u: nat, b: nat, k: nat)
    requires k <= b && v == e * Pow2(b) + u
    ensures Rev(v, k) == Rev(u, k)
    decreases k
  {
    if k > 0 {
      RevIgnoresHighBits(v, e, u, b, k - 1);
      BitBelow(e, u, b, k - 1);
    }
  }

  /** A bit put on top of the b - 1 low bits ends up at the bottom. */
  lemma RevOfHighBit(v: nat, e: nat, u: nat, b: nat)
    requires b > 0 && e <= 1 && u < Pow2(b - 1) && v == e * Pow2(b - 1) + u
    ensures Rev(v, b) == 2 * Rev(u, b - 1) + e
  {
    RevIgnoresHighBits(v, e, u, b - 1, b - 1);
    TopBit(v, e, u, b - 1);
  }

  lemma TopBit(v: nat, e: nat, u: nat, k: nat)
    requires e <= 1 && u < Pow2(k) && v == e * Pow2(k) + u
    ensures Bit(v, k) == e
  {
    assert e * Pow2(k) == Pow2(k) * e;
    ModUnique(v, Pow2(k), e, u);
  }

  lemma {:induction false} RevInvolution(v: nat, b: nat)
    requires v < Pow2(b)
    ensures Rev(v, b) < Pow2(b) && Rev(Rev(v, b), b) == v
  {
    RevBound(v, b);
    if b > 0 {
      assert Pow2(b) == 2 * Pow2(b - 1);
      RevInvolution(v / 2, b - 1);
      RevFromLow(v, b);
      LowBit(v);
      RevOfHighBit(Rev(v, b), v % 2, Rev(v / 2, b - 1), b);
    }
  }

  lemma LowBit(v: nat)
    ensures Bit(v, 0) == v % 2 && v == 2 * (v / 2) + v % 2
  {
    assert Pow2(0) == 1;
  }

  lemma RevInjective(v: nat, w: nat, b: nat)
    requires v < Pow2(b) && w < Pow2(b) && Rev(v, b) == Rev(w, b)
    ensures v == w
  {
    RevInvolution(v, b);
    RevInvolution(w, b);
  }

  lemma HalfOfRev(v: nat, b: nat)
    requires b > 0
    ensures Rev(v, b) / 2 == Rev(v, b - 1) && Bit(Rev(v, b), 0) == Bit(v, b - 1)
  {
    assert Pow2(0) == 1;
  }

  lemma {:induction false} RevBit(v: nat, b: nat, i: nat)
    requires i < b
    ensures Bit(Rev(v, b), i) == Bit(v, b - 1 - i)
  {
    HalfOfRev(v, b);
    if i > 0 {
      RevBit(v, b - 1, i - 1);
      BitOfHalf(Rev(v, b), i - 1);
    }
  }

  /** Bit i of the reversal is bit b - 1 - i of the original. */
  lemma RevBits(v: nat, b: nat, i: nat)
    requires i < b
    ensures Rev(v, b) / Pow2(i) % 2 == v / Pow2(b - 1 - i) % 2
  {
    RevBit(v, b, i);
  }

  // -------------------------------------------------- the two implementations

  /** The unsigned result of (x << 1) | bit in a word of the given modulus: the shifted word
      has its lowest bit clear, so the disjunction is a sum. */
  function ShiftIn(x: nat, bit: nat, word: int): int
    requires word > 0
  {
    (2 * x) % word + bit
  }

  lemma ShiftInExact(v: nat, k: nat, b: nat, word: int)
    requires k < b && Pow2(b) <= word
    ensures ShiftIn(Rev(v, k), Bit(v, k), word) == Rev(v, k + 1)
  {
    RevBound(v, k);
    PowTwoMonotone(k + 1, b);
    ModUnique(2 * Rev(v, k), word, 0, 2 * Rev(v, k));
  }

  lemma WordIsPower()
    ensures Pow2(32) == WORD32
  {
    assert Pow(2, 8) == 256;
    PowMul(2, 8, 4);
    assert Pow(256, 4) == WORD32;
  }

  /** The benchmark's 32-bit loop; no bit is lost for any width up to 32. */
  method ReverseBits(value: nat, bits: nat) returns (reversed: nat)
    requires value < WORD32 && bits <= 32
    ensures reversed == Rev(value, bits)
  {
    WordIsPower();
    PowTwoMonotone(bits, 32);
    reversed := 0;
    for bit := 0 to bits
      invariant reversed == Rev(value, bit)
    {
      ShiftInExact(value, bit, bits, WORD32);
      reversed := ShiftIn(reversed, Bit(value, bit), WORD32);
    }
  }

  /** Entry i of the bit-reversed order. */
  function BitReversed<T>(s: seq<T>, b: nat): (r: seq<T>)
    requires |s| == Pow2(b)
    ensures |r| == |s|
    ensures forall i: nat | i < |s| :: Rev(i, b) < |s| && r[i] == s[Rev(i, b)]
  {
    RevWithin(b);
    seq(|s|, i requires 0 <= i < |s| => s[Rev(i, b)])
  }

  lemma RevWithin(b: nat)
    ensures forall i: nat | i < Pow2(b) :: Rev(i, b) < Pow2(b)
  {
    forall i: nat | i < Pow2(b)
      ensures Rev(i, b) < Pow2(b)
    {
      RevBound(i, b);
    }
  }

  /** Reordering twice restores the natural order. */
  lemma BitReversedTwice<T>(s: seq<T>, b: nat)
    requires |s| == Pow2(b)
    ensures BitReversed(BitReversed(s, b), b) == s
  {
    forall i: nat | i < |s|
      ensures BitReversed(BitReversed(s, b), b)[i] == s[i]
    {
      RevInvolution(i, b);
    }
  }

  /** verify_output: a fresh vector gathers from the reversed index. */
  method GatherReordered(expected: array<int>, logN: nat) returns (reordered: array<int>)
    requires logN <= 32 && expected.Length == Pow2(logN)
    ensures fresh(reordered) && reordered[..] == BitReversed(expected[..], logN)
  {
    WordIsPower();
    PowTwoMonotone(logN, 32);
    var n := expected.Length;
    reordered := new int[n];
    for index := 0 to n
      invariant forall i: nat | i < index :: Rev(i, logN) < n && reordered[i] == expected[Rev(i, logN)]
    {
      var reversed := ReverseBits(index, logN);
      RevBound(index, logN);
      reordered[index] := expected[reversed];
    }
    assert forall i: nat | i < n :: reordered[..][i] == BitReversed(expected[..], logN)[i];
  }

  /** The entries scattered by the first `done` iterations. */
  ghost predicate Placed(values: seq<int>, natural: seq<int>, done: nat, b: nat) {
    && |values| == |natural| == Pow2(b) && done <= |natural|
    && forall k: nat | k < done :: Rev(k, b) < |values| && values[Rev(k, b)] == natural[k]
  }

  lemma PlaceNext(values: seq<int>, natural: seq<int>, i: nat, b: nat)
    requires Placed(values, natural, i, b) && i < |natural|
    ensures Rev(i, b) < |values| && Placed(values[Rev(i, b) := natural[i]], natural, i + 1, b)
  {
    RevBound(i, b);
    forall k: nat | k < i
      ensures Rev(k, b) != Rev(i, b)
    {
      if Rev(k, b) == Rev(i, b) {
        RevInjective(k, i, b);
      }
    }
  }

  lemma AllPlaced(values: seq<int>, natural: seq<int>, b: nat)
    requires Placed(values, natural, |natural|, b)
    ensures values == BitReversed(natural, b)
  {
    forall j: nat | j < |values|
      ensures values[j] == BitReversed(natural, b)[j]
    {
      RevInvolution(j, b);
      var k := Rev(j, b);
      assert values[Rev(k, b)] == natural[k];
    }
  }

  /** The probe's bit loop, in 64-bit arithmetic. */
  method ScatterIndex(i: nat, logN: nat) returns (index: nat)
    requires logN <= 32
    ensures index == Rev(i, logN)
  {
    WordIsPower();
    PowTwoMonotone(logN, 32);
    index := 0;
    for bit := 0 to logN
      invariant index == Rev(i, bit)
    {
      ShiftInExact(i, bit, logN, WORD64);
      index := ShiftIn(index, Bit(i, bit), WORD64);
    }
  }

  /** The stage probe: each natural entry is scattered into `values` at the reversed
      index; the outcome is the same array the benchmark gathers. */
  method ScatterReordered(natural: array<int>, values: array<int>, logN: nat)
    requires logN <= 32 && natural.Length == values.Length == Pow2(logN) && natural != values
    modifies values
    ensures values[..] == BitReversed(natural[..], logN)
  {
    var n := natural.Length;
    for i := 0 to n
      invariant natural[..] == old(natural[..])
      invariant Placed(values[..], natural[..], i, logN)
    {
      var index := ScatterIndex(i, logN);
      PlaceNext(values[..], natural[..], i, logN);
      ghost var before := values[..];
      values[index] := natural[i];
      assert values[..] == before[index := natural[i]];
    }
    AllPlaced(values[..], natural[..], logN);
  }
}
