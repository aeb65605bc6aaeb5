/**
 * The target and the work of the first bits of the chain, 0x1d00ffff, and of bits for a quarter of that
 * target, 0x1c3fffc0. Both are given by their size and mantissa.
 */
module WorkExamples {
  import opened Wrappers
  import opened Bytes
  import opened Arithmetic
  import opened Compact
  import opened Retarget

  const GENESIS_MANTISSA := 0xffff
  const QUARTER_MANTISSA := 0x3fffc0

  predicate IsGenesisBits(bits: U32) {
    bits == 29 * 0x100_0000 + GENESIS_MANTISSA
  }

  predicate IsQuarterBits(bits: U32) {
    bits == 28 * 0x100_0000 + QUARTER_MANTISSA
  }

  const GENESIS_WORK: nat := 4_295_032_833
  const QUARTER_WORK: nat := 17_180_131_332

  lemma {:induction false} BothBits() returns (genesis: U32, quarter: U32)
    ensures IsGenesisBits(genesis) && IsQuarterBits(quarter)
    ensures genesis == 0x1d00_ffff && quarter == 0x1c3f_ffc0
  {
    genesis, quarter := 0x1d00_ffff, 0x1c3f_ffc0;
  }

  lemma {:induction false} ShlIsProduct(c: nat, k: nat)
    ensures Shl(c, k) == c * Shl(1, k)
  {
    if k > 0 {
      ShlIsProduct(c, k - 1);
      Reassociate(c, Shl(1, k - 1));
    }
  }

  lemma {:induction false} Reassociate(c: nat, p: nat)
    ensures 256 * (c * p) == c * (256 * p)
  {
  }

  /** A target of at most 28 bytes is the mantissa in units of a power of 256. */
  lemma {:induction false} TargetOf(bits: U32, word: nat, k: nat)
    requires 0 < word < 0x80_0000 && k > 0 && bits == (k + 3) * 0x100_0000 + word && ByteLength(word) + k <= 28
    ensures FromCompact(bits) == word * Shl(1, k) && FromCompact(bits) <= POW_LIMIT
  {
    SizeAndWord(bits, word, k + 3);
    ShlLength(word, k);
    LowOfShort(Shl(word, k), 32);
    BelowPower(Shl(word, k), 28);
    ShlIsProduct(word, k);
  }

  lemma {:induction false} SizeAndWord(bits: U32, word: nat, size: nat)
    requires word < 0x80_0000 && bits == size * 0x100_0000 + word
    ensures bits / 0x100_0000 == size && bits % 0x80_0000 == word
  {
  }

  /** Both targets in units of 256^25, and 2^256 in the same units, which are far above the work. */
  lemma {:induction false} Units(genesis: U32, quarter: U32) returns (u: nat)
    requires IsGenesisBits(genesis) && IsQuarterBits(quarter)
    ensures FromCompact(genesis) == 0xffff00 * u && FromCompact(quarter) == 0x3fffc0 * u
    ensures FromCompact(genesis) <= POW_LIMIT && FromCompact(quarter) <= POW_LIMIT
    ensures Shl(1, 32) == 0x100_0000_0000_0000 * u && u > QUARTER_WORK
  {
    var k := TwentyFive();
    u := Shl(1, k);
    GenesisTarget(genesis, k);
    QuarterTarget(quarter, k);
    ModulusUnits(k);
  }

  lemma {:induction false} GenesisTarget(bits: U32, k: nat)
    requires IsGenesisBits(bits) && k + 3 == 28
    ensures FromCompact(bits) == 0xffff00 * Shl(1, k) && FromCompact(bits) <= POW_LIMIT
  {
    Mantissas();
    Rescale(k);
    TargetOf(bits, GENESIS_MANTISSA, k + 1);
  }

  lemma {:induction false} QuarterTarget(bits: U32, k: nat)
    requires IsQuarterBits(bits) && k + 3 == 28
    ensures FromCompact(bits) == 0x3fffc0 * Shl(1, k) && FromCompact(bits) <= POW_LIMIT
  {
    Mantissas();
    TargetOf(bits, QUARTER_MANTISSA, k);
  }

  lemma {:induction false} Rescale(k: nat)
    ensures 0xffff * Shl(1, k + 1) == 0xffff00 * Shl(1, k)
  {
  }

  lemma {:induction false} ModulusUnits(k: nat)
    requires k + 7 == 32
    ensures Shl(1, 32) == 0x100_0000_0000_0000 * Shl(1, k) && Shl(1, k) > QUARTER_WORK
  {
    SevenBytes();
    ShlShl(1, 7, k);
    ShlIsProduct(Shl(1, 7), k);
    ShlShl(1, 7, k - 7);
    ShlIsProduct(Shl(1, 7), k - 7);
  }

  lemma {:induction false} TwentyFive() returns (k: nat)
    ensures k + 7 == 32
  {
    k := 25;
  }

  lemma {:induction false} Mantissas()
    ensures ByteLength(GENESIS_MANTISSA) == 2 && ByteLength(QUARTER_MANTISSA) == 3
  {
    assert ByteLength(0xffff / 256) == 1 && ByteLength(0x3fffc0 / 256) == 1 + ByteLength(0x3fff / 256);
  }

  lemma {:induction false} SevenBytes()
    ensures Shl(1, 7) == 0x100_0000_0000_0000
  {
    assert Shl(1, 3) == 256 * Shl(1, 2) == 256 * (256 * Shl(1, 1));
    assert Shl(1, 5) == 256 * Shl(1, 4) == 256 * (256 * Shl(1, 3));
    assert Shl(1, 7) == 256 * Shl(1, 6) == 256 * (256 * Shl(1, 5));
  }

  /** A quotient is the number whose multiple fits and whose successor's does not. */
  lemma {:induction false} QuotientIs(n: nat, d: nat, q: nat)
    requires d >= 1 && q * d <= n < (q + 1) * d
    ensures n / d == q
  {
    QuotientAtLeast(n, d, q);
    QuotientAtLeast(n, d, q + 1);
  }

  lemma {:induction false} GenesisQuotient(n: nat, u: nat)
    requires n == 0x100_0000_0000_0000 * u && u > QUARTER_WORK
    ensures n / (0xffff00 * u + 1) == GENESIS_WORK
  {
    QuotientIs(n, 0xffff00 * u + 1, GENESIS_WORK);
  }

  lemma {:induction false} QuarterQuotient(n: nat, u: nat)
    requires n == 0x100_0000_0000_0000 * u && u > QUARTER_WORK
    ensures n / (0x3fffc0 * u + 1) == QUARTER_WORK
  {
    QuotientIs(n, 0x3fffc0 * u + 1, QUARTER_WORK);
  }

  lemma {:induction false} WorkIs(genesis: U32, quarter: U32)
    requires IsGenesisBits(genesis) && IsQuarterBits(quarter)
    ensures GetWork(genesis) == GENESIS_WORK && GetWork(quarter) == QUARTER_WORK
  {
    var u := Units(genesis, quarter);
    WorksAre(genesis, quarter, Shl(1, 32), u);
  }

  lemma {:induction false} WorksAre(genesis: U32, quarter: U32, n: nat, u: nat)
    requires n == Shl(1, 32) == 0x100_0000_0000_0000 * u && u > QUARTER_WORK
    requires FromCompact(genesis) == 0xffff00 * u && FromCompact(quarter) == 0x3fffc0 * u
    ensures GetWork(genesis) == GENESIS_WORK && GetWork(quarter) == QUARTER_WORK
  {
    WorkOf(genesis, n, 0xffff00 * u);
    WorkOf(quarter, n, 0x3fffc0 * u);
    GenesisQuotient(n, u);
    QuarterQuotient(n, u);
  }

  lemma {:induction false} WorkOf(bits: U32, n: nat, t: nat)
    requires n == Shl(1, 32) && t == FromCompact(bits)
    ensures GetWork(bits) == n / (t + 1)
  {
    WorkIsExpectedHashes(bits);
  }

  /** A period of half a week or less quarters the target. */
  lemma {:induction false} FastPeriodQuarters(last: U32, first: U32, bits: U32, quarter: U32)
    requires first <= last <= first + POW_TARGET_TIMESPAN / 4
    requires FromCompact(bits) == 4 * FromCompact(quarter) && FromCompact(bits) <= POW_LIMIT && Normal(quarter)
    ensures NextWorkRequired(last, first, bits) == Some(quarter)
  {
    ShortestTimespan(last, first);
    QuarterNextTarget(FromCompact(bits), FromCompact(quarter), ClampedTimespan(last, first));
    ReencodeIffNormal(quarter);
  }

  lemma {:induction false} ShortestTimespan(last: U32, first: U32)
    requires first <= last <= first + POW_TARGET_TIMESPAN / 4
    ensures 4 * ClampedTimespan(last, first) == POW_TARGET_TIMESPAN
  {
  }

  lemma {:induction false} QuarterNextTarget(t: U256, q: U256, timespan: nat)
    requires t == 4 * q && q <= POW_LIMIT && t <= POW_LIMIT && 4 * timespan == POW_TARGET_TIMESPAN
    ensures NextTarget(t, timespan) == Some(q)
  {
    QuarterScale(t, q, timespan, POW_LIMIT);
    BelowPower(t, 28);
    ProductLength(t, timespan, 28);
  }

  lemma {:induction false} QuarterScale(t: nat, q: nat, timespan: nat, limit: nat)
    requires t == 4 * q && q <= limit && 4 * timespan == POW_TARGET_TIMESPAN
    ensures Scale(t, timespan, limit) == q
  {
    MoveFour(q, timespan);
    QuotientOfProduct(q, POW_TARGET_TIMESPAN);
  }

  lemma {:induction false} MoveFour(q: nat, timespan: nat)
    ensures (4 * q) * timespan == q * (4 * timespan)
  {
  }

  /** What the two kinds of bits are good for: the work they prove, and how the first period changes them. */
  ghost predicate AreSamples(genesis: U32, quarter: U32) {
    && GetWork(genesis) == GENESIS_WORK && GetWork(quarter) == QUARTER_WORK
    && Normal(genesis) && FromCompact(genesis) <= POW_LIMIT
    && Normal(quarter) && FromCompact(genesis) == 4 * FromCompact(quarter)
  }

  lemma {:induction false} Samples() returns (genesis: U32, quarter: U32)
    ensures AreSamples(genesis, quarter) && genesis == 0x1d00_ffff && quarter == 0x1c3f_ffc0
  {
    genesis, quarter := BothBits();
    WorkIs(genesis, quarter);
    TargetsAre(genesis, quarter);
  }

  lemma {:induction false} TargetsAre(genesis: U32, quarter: U32)
    requires IsGenesisBits(genesis) && IsQuarterBits(quarter)
    ensures Normal(genesis) && FromCompact(genesis) <= POW_LIMIT
    ensures Normal(quarter) && FromCompact(genesis) == 4 * FromCompact(quarter)
  {
    var u := Units(genesis, quarter);
    IsNormal(genesis, 29, GENESIS_MANTISSA);
    IsNormal(quarter, 28, QUARTER_MANTISSA);
  }

  lemma {:induction false} IsNormal(bits: U32, size: nat, word: nat)
    requires 3 <= size < 33 && 0x8000 <= word < 0x80_0000 && bits == size * 0x100_0000 + word
    ensures Normal(bits)
  {
    assert bits / 0x100_0000 == size && bits % 0x100_0000 == word;
  }
}
