/** How many shards a manager has, and which of them a key belongs to. */
module ShardIndex {
  const WORD := 0x1_0000_0000
  const HALF_WORD := 0x8000_0000
  const DEFAULT_SHARD_COUNT := 32

  type uint32 = n: int | 0 <= n < WORD

  function Pow2(k: nat): (p: nat)
    ensures 1 <= p
  {
    if k == 0 then 1 else 2 * Pow2(k - 1)
  }

  /** The conversion of a machine integer to 32 bits. */
  function Truncated(n: int): uint32 {
    n % WORD
  }

  /** A left shift by one in 32 bits: the top bit is lost. */
  function Doubled(n: uint32): uint32 {
    (2 * n) % WORD
  }

  /** The shard counts the doubling loop tries, one after the other. */
  function Candidate(k: nat): uint32 {
    if k == 0 then 1 else Doubled(Candidate(k - 1))
  }

  ghost predicate LeastPow2(count: nat, wanted: nat) {
    && (exists k: nat :: Pow2(k) == count)
    && wanted <= count
    && forall k: nat :: wanted <= Pow2(k) ==> count <= Pow2(k)
  }

  lemma {:induction false} Pow2Grows(j: nat, k: nat)
    requires j <= k
    ensures Pow2(j) <= Pow2(k)
  {
    if j < k {
      Pow2Grows(j, k - 1);
    }
  }

  lemma Pow2Of31()
    ensures Pow2(31) == HALF_WORD
  {
    assert Pow2(8) == 0x100;
    assert Pow2(16) == 0x1_0000;
    assert Pow2(24) == 0x100_0000;
  }

  lemma {:induction false} CandidatesDouble(k: nat)
    requires k < 32
    ensures Candidate(k) == Pow2(k) <= HALF_WORD
  {
    Pow2Of31();
    Pow2Grows(k, 31);
    if k > 0 {
      CandidatesDouble(k - 1);
    }
  }

  lemma {:induction false} CandidatesVanish(k: nat)
    requires 32 <= k
    ensures Candidate(k) == 0
  {
    if k == 32 {
      CandidatesDouble(31);
      Pow2Of31();
    } else {
      CandidatesVanish(k - 1);
    }
  }

  /** What the doubling loop compares with: a count that is not positive has been replaced by the default. */
  function Wanted(shardCount: int): uint32 {
    if shardCount <= 0 then DEFAULT_SHARD_COUNT else Truncated(shardCount)
  }

  lemma DoublingReaches(wanted: uint32)
    ensures (exists k: nat :: wanted <= Candidate(k)) <==> wanted <= HALF_WORD
  {
    CandidatesDouble(31);
    Pow2Of31();
    if wanted <= HALF_WORD {
      assert wanted <= Candidate(31);
    }
    forall k: nat | wanted <= Candidate(k) ensures wanted <= HALF_WORD {
      if k < 32 {
        CandidatesDouble(k);
      } else {
        CandidatesVanish(k);
      }
    }
  }

  /**
    The loop ends for a requested count exactly when its low 32 bits ask for at most 2^31 shards. Beyond
    that every candidate is too small, and from the 33rd on they are all 0.
   */
  lemma DoublingEnds(shardCount: int)
    ensures (exists k: nat :: Wanted(shardCount) <= Candidate(k)) <==>
            shardCount <= 0 || Truncated(shardCount) <= HALF_WORD
  {
    DoublingReaches(Wanted(shardCount));
  }

  /** One more than 2^31 shards are never reached. */
  lemma DoublingNeverEnds(k: nat)
    ensures Candidate(k) < Wanted(HALF_WORD + 1)
  {
    DoublingEnds(HALF_WORD + 1);
  }

  lemma MayDouble(k: nat, wanted: nat)
    requires k <= 31 && Pow2(k) < wanted <= HALF_WORD
    ensures k < 31 && Doubled(Pow2(k)) == Pow2(k + 1) <= HALF_WORD
  {
    Pow2Of31();
    Pow2Grows(k + 1, 31);
  }

  lemma LeastReached(k: nat, wanted: nat)
    requires wanted <= Pow2(k)
    requires forall j: nat :: j < k ==> Pow2(j) < wanted
    ensures LeastPow2(Pow2(k), wanted)
  {
    forall j: nat | wanted <= Pow2(j) ensures Pow2(k) <= Pow2(j) {
      if k <= j {
        Pow2Grows(k, j);
      }
    }
  }

  lemma LeastIsClose(count: nat, wanted: nat)
    requires 1 <= wanted && LeastPow2(count, wanted)
    ensures wanted <= count < 2 * wanted
    ensures wanted == 32 ==> count == 32
  {
    var k: nat :| Pow2(k) == count;
    if 0 < k {
      assert Pow2(k) == 2 * Pow2(k - 1);
    }
    assert Pow2(5) == 32;
  }

  /** For a count that fits, the result is less than twice as many; for none, it is 32. */
  lemma RoundedUp(shardCount: int, count: nat)
    requires LeastPow2(count, Wanted(shardCount))
    ensures shardCount <= 0 ==> count == 32
    ensures 0 < shardCount <= HALF_WORD ==> shardCount <= count < 2 * shardCount
  {
    if shardCount <= HALF_WORD {
      LeastIsClose(count, Wanted(shardCount));
    }
  }

  method RoundUpShardCount(shardCount: int) returns (count: uint32)
    requires shardCount <= 0 || Truncated(shardCount) <= HALF_WORD
    ensures LeastPow2(count, Wanted(shardCount))
    ensures 1 <= count <= HALF_WORD
    ensures shardCount <= 0 ==> count == 32
    ensures 0 < shardCount <= HALF_WORD ==> shardCount <= count < 2 * shardCount
  {
    hide Candidate, LeastPow2;
    var wanted := Wanted(shardCount);
    count := 1;
    ghost var k := 0;
    while count < wanted
      invariant 0 <= k <= 31 && count == Pow2(k) <= HALF_WORD
      invariant forall j: nat :: j < k ==> Pow2(j) < wanted
      decreases 31 - k
    {
      MayDouble(k, wanted);
      count := Doubled(count);
      k := k + 1;
    }
    LeastReached(k, wanted);
    RoundedUp(shardCount, count);
  }

  // ----- Masking -----

  /** Bitwise and. */
  function BitAnd(x: nat, y: nat): nat
    decreases x
  {
    if x == 0 || y == 0 then 0 else 2 * BitAnd(x / 2, y / 2) + (x % 2) * (y % 2)
  }

  lemma MaskStep(x: nat, half: nat)
    requires 1 <= half
    ensures BitAnd(x, 2 * half - 1) == 2 * BitAnd(x / 2, half - 1) + x % 2
  {
    assert (2 * half - 1) / 2 == half - 1 && (2 * half - 1) % 2 == 1;
  }

  lemma AtLeastOnce(a: int, m: nat)
    requires 1 <= a
    ensures m <= a * m
  {
  }

  lemma RemainderUnique(x: nat, m: nat, q: int, r: nat)
    requires r < m && x == q * m + r
    ensures x % m == r
  {
    var p, s := x / m, x % m;
    assert x == p * m + s;
    assert (q - p) * m == s - r && (p - q) * m == r - s;
    if p < q {
      AtLeastOnce(q - p, m);
    } else if q < p {
      AtLeastOnce(p - q, m);
    }
  }

  lemma HalvedRemainder(x: nat, m: nat)
    requires 0 < m
    ensures x % (2 * m) == 2 * ((x / 2) % m) + x % 2
  {
    var q, r := x / 2 / m, (x / 2) % m;
    assert x / 2 == q * m + r;
    assert q * (2 * m) == 2 * (q * m);
    RemainderUnique(x, 2 * m, q, 2 * r + x % 2);
  }

  /** Masking with one less than a power of two is the remainder by that power. */
  lemma {:induction false} MaskIsRemainder(hash: nat, k: nat)
    ensures BitAnd(hash, Pow2(k) - 1) == hash % Pow2(k)
  {
    if k == 0 {
      assert hash % 1 == 0;
    } else {
      var half := Pow2(k - 1);
      assert Pow2(k) == 2 * half;
      hide BitAnd, Pow2;
      MaskStep(hash, half);
      MaskIsRemainder(hash / 2, k - 1);
      HalvedRemainder(hash, half);
    }
  }

  /** The index of a key's shard, from the hash of the key. */
  function ShardIndexOf(hash: uint32, shardCount: uint32): (index: nat)
    requires 1 <= shardCount
  {
    BitAnd(hash, shardCount - 1)
  }

  lemma IndexInRange(hash: uint32, shardCount: uint32)
    requires exists k: nat :: Pow2(k) == shardCount
    ensures ShardIndexOf(hash, shardCount) == hash % shardCount
    ensures ShardIndexOf(hash, shardCount) < shardCount
  {
    var k: nat :| Pow2(k) == shardCount;
    MaskIsRemainder(hash, k);
  }
}
