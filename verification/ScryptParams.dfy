/**
  `pickparams` of scripts/extract-updater-seed.py: the cost N, the block size r
  and the parallelism p that scrypt is run with.  Both branches, and the capped
  loop, compute the one optimum under the two limits, and the result meets
  section 2 of RFC 7914.
 */
module ScryptParams {

  datatype Params = Params(n: nat, r: nat, p: nat)

  /** The block size. */
  const R := 8

  const U64 := 0x1_0000_0000_0000_0000

  function Pow2(k: nat): (n: nat)
    ensures n > 0
  {
    if k == 0 then 1 else 2 * Pow2(k - 1)
  }

  lemma {:induction false} Pow2Grows(j: nat, k: nat)
    requires j <= k
    ensures Pow2(j) <= Pow2(k) && (j < k ==> 2 * Pow2(j) <= Pow2(k))
    decreases k
  {
    if j < k {
      Pow2Grows(j, k - 1);
    }
  }

  /** The smaller limit is never below 32768. */
  function Ops(opslimit: nat): (ops: nat)
    ensures ops >= 32768 && ops >= opslimit
  {
    if opslimit < 32768 then 32768 else opslimit
  }

  /** A cost that the loop can reach without its cap. */
  ghost predicate IsCost(n: nat) {
    exists k :: 1 <= k < 63 && n == Pow2(k)
  }

  /** The loop over `n_log2`, and the cost it yields. */
  method Cost(maxN: nat) returns (n: nat)
    requires maxN < U64 / 32
    ensures IsCost(n) && maxN < 2 * n && n >= 2 && (n == 2 || n <= maxN)
  {
    LimitIsSmall(maxN);
    var k := 1;
    while k < 63 && Pow2(k) <= maxN / 2
      invariant 1 <= k < 63 && (k == 1 || Pow2(k) <= maxN)
    {
      k := k + 1;
    }
    Pow2Grows(1, k);
    return Pow2(k);
  }

  lemma LimitIsSmall(limit: nat)
    requires limit < U64 / 32
    ensures limit < Pow2(62)
  {
    assert Pow2(10) == 1024;
    assert Pow2(20) == 0x10_0000;
    assert Pow2(30) == 0x4000_0000;
    assert Pow2(40) == 0x100_0000_0000;
    assert Pow2(50) == 0x4_0000_0000_0000;
    assert Pow2(60) == 0x1000_0000_0000_0000;
  }

  // ---------- the optimum ----------

  /** Enough memory and time for the cost; the smallest cost is always allowed. */
  predicate CostFits(n: nat, ops: nat, memlimit: nat) {
    n == 2 || (32 * n <= ops && 1024 * n <= memlimit)
  }

  predicate ParallelFits(n: nat, p: nat, ops: nat) {
    32 * n * p <= ops && 8 * p < 0x4000_0000
  }

  /** N is the largest power of two that fits, and p the largest parallelism that then fits. */
  ghost predicate Optimal(q: Params, ops: nat, memlimit: nat) {
    && q.r == 8
    && IsCost(q.n)
    && CostFits(q.n, ops, memlimit) && !CostFits(2 * q.n, ops, memlimit)
    && ParallelFits(q.n, q.p, ops) && !ParallelFits(q.n, q.p + 1, ops)
  }

  /** The limits decide the parameters. */
  lemma OptimumIsUnique(a: Params, b: Params, ops: nat, memlimit: nat)
    requires Optimal(a, ops, memlimit) && Optimal(b, ops, memlimit)
    ensures a == b
  {
    var j :| 1 <= j < 63 && a.n == Pow2(j);
    var k :| 1 <= k < 63 && b.n == Pow2(k);
    if j < k {
      Pow2Grows(j, k);
    } else if k < j {
      Pow2Grows(k, j);
    }
    assert a.n == b.n;
    if a.p < b.p {
      ParallelShrinks(a.n, a.p + 1, b.p, ops);
    } else if b.p < a.p {
      ParallelShrinks(a.n, b.p + 1, a.p, ops);
    }
  }

  lemma ParallelShrinks(n: nat, p: nat, q: nat, ops: nat)
    requires p <= q && ParallelFits(n, q, ops)
    ensures ParallelFits(n, p, ops)
  {
    assert 32 * n * p <= 32 * n * q;
  }

  lemma {:induction false} CostExists(maxN: nat) returns (n: nat)
    requires maxN < U64 / 32
    ensures IsCost(n) && maxN < 2 * n && n >= 2 && (n == 2 || n <= maxN)
  {
    if maxN < 4 {
      n := 2;
      assert Pow2(1) == 2;
    } else {
      var half := CostExists(maxN / 2);
      var k :| 1 <= k < 63 && half == Pow2(k);
      n := 2 * half;
      LimitIsSmall(maxN);
      if k >= 62 { Pow2Grows(62, k); }
      assert n == Pow2(k + 1);
    }
  }

  lemma OptimumExists(ops: nat, memlimit: nat)
    requires 32768 <= ops < U64 && memlimit < U64
    ensures exists q :: Optimal(q, ops, memlimit)
  {
    if ops < memlimit / 32 {
      var n := CostExists(ops / 32);
      assert Optimal(Params(n, 8, 1), ops, memlimit);
    } else {
      var n := CostExists(memlimit / 1024);
      MemoryBound(n, ops, memlimit);
      var m := if ops / 4 / n < 0x3FFF_FFFF then ops / 4 / n else 0x3FFF_FFFF;
      ParallelIs(n, ops);
      assert Optimal(Params(n, 8, m / 8), ops, memlimit);
    }
  }

  /** The parameters that the limits stand for. */
  ghost function Best(opslimit: nat, memlimit: nat): (q: Params)
    requires opslimit < U64 && memlimit < U64
    ensures Optimal(q, Ops(opslimit), memlimit)
  {
    OptimumExists(Ops(opslimit), memlimit);
    var q :| Optimal(q, Ops(opslimit), memlimit);
    q
  }

  method Lanes(n: nat, ops: nat) returns (p: nat)
    requires n > 0 && 32 * n <= ops
    ensures ParallelFits(n, p, ops) && !ParallelFits(n, p + 1, ops)
  {
    ParallelIs(n, ops);
    var maxrp := (ops / 4) / n;
    maxrp := if maxrp < 0x3FFF_FFFF then maxrp else 0x3FFF_FFFF;
    p := maxrp / R;
  }

  method PickParams(opslimit: nat, memlimit: nat) returns (q: Params)
    requires opslimit < U64 && memlimit < U64
    ensures Optimal(q, Ops(opslimit), memlimit) && q == Best(opslimit, memlimit)
  {
    var ops := opslimit;
    if ops < 32768 {
      ops := 32768;
    }
    var n, p: nat;
    if ops < memlimit / 32 {
      p := 1;
      var maxN := ops / (R * 4);
      n := Cost(maxN);
    } else {
      var maxN := memlimit / (R * 128);
      n := Cost(maxN);
      MemoryBound(n, ops, memlimit);
      p := Lanes(n, ops);
    }
    q := Params(n, R, p);
    OptimumIsUnique(q, Best(opslimit, memlimit), ops, memlimit);
  }

  lemma MemoryBound(n: nat, ops: nat, memlimit: nat)
    requires ops >= memlimit / 32 && ops >= 32768 && memlimit / 1024 < 2 * n && (n == 2 || n <= memlimit / 1024)
    ensures CostFits(n, ops, memlimit) && (n >= 2 ==> !CostFits(2 * n, ops, memlimit)) && 32 * n <= ops
  {
  }

  lemma ParallelIs(n: nat, ops: nat)
    requires n > 0 && 32 * n <= ops
    ensures var m := if ops / 4 / n < 0x3FFF_FFFF then ops / 4 / n else 0x3FFF_FFFF;
            ParallelFits(n, m / 8, ops) && !ParallelFits(n, m / 8 + 1, ops) && m / 8 >= 1
  {
    var d := ops / 4 / n;
    var m := if d < 0x3FFF_FFFF then d else 0x3FFF_FFFF;
    var p := m / 8;
    assert n * d <= ops / 4 < n * (d + 1);
    MultiplyUp(n, 8 * p, d);
    assert 32 * n * p == 4 * (n * (8 * p));
    assert d >= 8 by { if d < 8 { MultiplyUp(n, d + 1, 8); } }
    if d < 0x3FFF_FFFF {
      MultiplyUp(n, d + 1, 8 * (p + 1));
      assert 32 * n * (p + 1) == 4 * (n * (8 * (p + 1)));
    }
  }

  lemma MultiplyUp(n: nat, a: int, b: int)
    requires a <= b
    ensures n * a <= n * b
  {
  }

  // ---------- section 2 of RFC 7914 ----------

  /** N is larger than 1, a power of two and below 2^(128 * r / 8); p is between 1 and
      (2^32 - 1) * 32 / (128 * r). */
  ghost predicate MeetsRfc7914(q: Params) {
    && q.n > 1 && q.n < Pow2(128 * q.r / 8) && IsCost(q.n)
    && 1 <= q.p && q.p * (128 * q.r) <= 0xFFFF_FFFF * 32
    && q.r * q.p < 0x4000_0000
  }

  lemma OptimumMeetsRfc7914(q: Params, ops: nat, memlimit: nat)
    requires Optimal(q, ops, memlimit) && ops >= 32768
    ensures MeetsRfc7914(q)
    ensures 32 * q.n * q.p <= ops && q.p <= 0x7FF_FFFF
  {
    CostIsInRange(q.n);
    assert 128 * q.r / 8 == 128;
    assert ParallelFits(q.n, 1, ops);
  }

  lemma CostIsInRange(n: nat)
    requires IsCost(n)
    ensures 2 <= n < Pow2(128)
  {
    var k :| 1 <= k < 63 && n == Pow2(k);
    Pow2Grows(1, k);
    Pow2Grows(k, 128);
  }

  /** scrypt's memory of 128 * r * N bytes stays within the limit exactly when the limit allows the
      smallest cost. */
  lemma MemoryIsRespectedIff(q: Params, ops: nat, memlimit: nat)
    requires Optimal(q, ops, memlimit)
    ensures 128 * q.r * q.n <= memlimit <==> memlimit >= 2048
  {
    CostIsInRange(q.n);
  }
}
