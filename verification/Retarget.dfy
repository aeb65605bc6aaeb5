/** The difficulty adjustment, and the work a header proves. */
module Retarget {
  import opened Wrappers
  import opened Bytes
  import opened Compact
  import opened Arithmetic

  const POW_TARGET_TIMESPAN: nat := 14 * 24 * 60 * 60
  const POW_TARGET_SPACING: nat := 10 * 60
  const DIFFICULTY_ADJUSTMENT_INTERVAL: nat := POW_TARGET_TIMESPAN / POW_TARGET_SPACING

  /** The next header starts a new difficulty period. */
  predicate EndsPeriod(number: nat): (r: bool)
    ensures r ==> number >= DIFFICULTY_ADJUSTMENT_INTERVAL - 1
  {
    assert DIFFICULTY_ADJUSTMENT_INTERVAL == 2016;
    (number + 1) % DIFFICULTY_ADJUSTMENT_INTERVAL == 0
  }

  function FirstOfPeriod(number: nat): nat
    requires EndsPeriod(number)
  {
    number - (DIFFICULTY_ADJUSTMENT_INTERVAL - 1)
  }

  /** Periods have 2016 headers. */
  lemma {:induction false} PeriodEndsIff(number: nat)
    ensures EndsPeriod(number) <==> (number + 1) % 2016 == 0
    ensures EndsPeriod(number) ==> number >= 2015 && FirstOfPeriod(number) == number - 2015
  {
    var interval := DIFFICULTY_ADJUSTMENT_INTERVAL;
    assert interval == 2016;
  }

  /** 2^224 - 1 */
  const POW_LIMIT: nat := Shl(1, 28) - 1

  lemma {:induction false} BelowPower(n: nat, k: nat)
    ensures n < Shl(1, k) <==> ByteLength(n) <= k
  {
    if k > 0 {
      BelowPower(n / 256, k - 1);
    }
  }

  /** The seconds between two timestamps, kept within a factor of four of two weeks. The difference wraps as u32. */
  function ClampedTimespan(last: U32, first: U32): (t: nat)
    ensures POW_TARGET_TIMESPAN / 4 <= t <= POW_TARGET_TIMESPAN * 4
  {
    var actual := (last - first) % 0x1_0000_0000;
    if actual < POW_TARGET_TIMESPAN / 4 then POW_TARGET_TIMESPAN / 4
    else if actual > POW_TARGET_TIMESPAN * 4 then POW_TARGET_TIMESPAN * 4
    else actual
  }

  function Scale(target: nat, timespan: nat, limit: nat): (r: nat)
    ensures r <= limit
  {
    var difficulty := target * timespan / POW_TARGET_TIMESPAN;
    if difficulty > limit then limit else difficulty
  }

  /** The new target before rounding; None when the 256-bit product overflows, which panics. */
  function NextTarget(target: U256, timespan: nat): (r: Option<U256>)
    ensures r.Some? <==> ByteLength(target * timespan) <= 32
    ensures r.Some? ==> r.value <= POW_LIMIT
  {
    if ByteLength(target * timespan) > 32 then None
    else
      BelowPower(Scale(target, timespan, POW_LIMIT), 28);
      Some(Scale(target, timespan, POW_LIMIT))
  }

  /** calculate_next_work_required */
  function NextWorkRequired(last: U32, first: U32, bits: U32): (r: Option<U32>) {
    match NextTarget(FromCompact(bits), ClampedTimespan(last, first))
    case None => None
    case Some(t) => Some(ToCompact(t))
  }

  lemma {:induction false} ProductBound(target: nat, timespan: nat, p: nat)
    requires target < p && timespan <= 0x100_0000
    ensures target * timespan < 0x100_0000 * p
  {
    MulMonotone(target, timespan, 0x100_0000);
  }

  /** A factor below 2^24 adds at most three bytes. */
  lemma {:induction false} ProductLength(target: nat, timespan: nat, k: nat)
    requires ByteLength(target) <= k && timespan <= 0x100_0000
    ensures ByteLength(target * timespan) <= k + 3
  {
    BelowPower(target, k);
    ProductBound(target, timespan, Shl(1, k));
    ThreeMore(k);
    BelowPower(target * timespan, k + 3);
  }

  lemma {:induction false} ThreeMore(k: nat)
    ensures Shl(1, k + 3) == 0x100_0000 * Shl(1, k)
  {
    ShlShl(1, k, 3);
    ShlThree(Shl(1, k));
  }

  lemma {:induction false} ShlThree(p: nat)
    ensures Shl(p, 3) == 0x100_0000 * p
  {
    assert Shl(p, 3) == 256 * Shl(p, 2) && Shl(p, 2) == 256 * Shl(p, 1) && Shl(p, 1) == 256 * Shl(p, 0);
  }

  /** From a previous target within the limit, retargeting never overflows and stays within the limit. */
  lemma {:induction false} RetargetStaysInLimit(last: U32, first: U32, bits: U32)
    requires FromCompact(bits) <= POW_LIMIT
    ensures NextWorkRequired(last, first, bits).Some?
    ensures FromCompact(NextWorkRequired(last, first, bits).value) <= POW_LIMIT
  {
    BelowPower(FromCompact(bits), 28);
    ProductLength(FromCompact(bits), ClampedTimespan(last, first), 28);
    RoundsDownToRepresentable(NextTarget(FromCompact(bits), ClampedTimespan(last, first)).value, 0);
  }

  lemma {:induction false} ExactTimespan(last: U32, first: U32)
    requires last == first + POW_TARGET_TIMESPAN
    ensures ClampedTimespan(last, first) == POW_TARGET_TIMESPAN
  {
  }

  lemma {:induction false} KeptTarget(t: U256, timespan: nat)
    requires t <= POW_LIMIT && timespan == POW_TARGET_TIMESPAN
    ensures NextTarget(t, timespan) == Some(t)
  {
    BelowPower(t, 28);
    ProductLength(t, timespan, 28);
    KeptScale(t, timespan, POW_LIMIT);
  }

  lemma {:induction false} KeptScale(t: nat, timespan: nat, limit: nat)
    requires t <= limit && timespan == POW_TARGET_TIMESPAN
    ensures Scale(t, timespan, limit) == t
  {
    QuotientOfProduct(t, timespan);
  }

  /** After exactly two weeks the bits stay the same, provided they were in normal form, and only then. */
  lemma {:induction false} TwoWeeksKeepsBits(last: U32, first: U32, bits: U32)
    requires FromCompact(bits) <= POW_LIMIT && last == first + POW_TARGET_TIMESPAN
    ensures NextWorkRequired(last, first, bits) == Some(bits) <==> Normal(bits)
  {
    ExactTimespan(last, first);
    KeptTarget(FromCompact(bits), ClampedTimespan(last, first));
    ReencodeIffNormal(bits);
  }

  lemma {:induction false} NextTargetIsMonotone(target: U256, a: nat, b: nat)
    requires target <= POW_LIMIT && a <= b <= POW_TARGET_TIMESPAN * 4
    ensures NextTarget(target, a).Some? && NextTarget(target, b).Some?
    ensures NextTarget(target, a).value <= NextTarget(target, b).value
    ensures NextTarget(target, a).value <= 4 * target
  {
    BelowPower(target, 28);
    ProductLength(target, a, 28);
    ProductLength(target, b, 28);
    ScaleIsMonotone(target, a, b, POW_LIMIT);
  }

  lemma {:induction false} ScaleIsMonotone(target: nat, a: nat, b: nat, limit: nat)
    requires a <= b <= POW_TARGET_TIMESPAN * 4
    ensures Scale(target, a, limit) <= Scale(target, b, limit)
    ensures Scale(target, a, limit) <= 4 * target
  {
    MulMonotone(target, a, b);
    QuotientMonotone(target * a, target * b, POW_TARGET_TIMESPAN);
    MulMonotone(target, a, POW_TARGET_TIMESPAN * 4);
    assert target * (POW_TARGET_TIMESPAN * 4) == (4 * target) * POW_TARGET_TIMESPAN;
    QuotientMonotone(target * a, (4 * target) * POW_TARGET_TIMESPAN, POW_TARGET_TIMESPAN);
    QuotientOfProduct(4 * target, POW_TARGET_TIMESPAN);
  }

  lemma {:induction false} TimespanIsMonotone(last: U32, last': U32, first: U32)
    requires first <= last <= last'
    ensures ClampedTimespan(last, first) <= ClampedTimespan(last', first)
  {
  }

  /** A longer timespan never makes the target smaller, and one step never multiplies it by more than four. */
  lemma {:induction false} RetargetIsMonotone(last: U32, last': U32, first: U32, bits: U32)
    requires FromCompact(bits) <= POW_LIMIT && first <= last <= last'
    ensures NextWorkRequired(last, first, bits).Some? && NextWorkRequired(last', first, bits).Some?
    ensures FromCompact(NextWorkRequired(last, first, bits).value) <= FromCompact(NextWorkRequired(last', first, bits).value)
    ensures FromCompact(NextWorkRequired(last, first, bits).value) <= 4 * FromCompact(bits)
  {
    var t, a, b := FromCompact(bits), ClampedTimespan(last, first), ClampedTimespan(last', first);
    TimespanIsMonotone(last, last', first);
    NextTargetIsMonotone(t, a, b);
    RoundingIsMonotone(NextTarget(t, a).value, NextTarget(t, b).value);
    RoundsDownToRepresentable(NextTarget(t, a).value, 0);
  }

  // ---------------------------------------------------------------- the rule in numbers

  /** bits stands for the greatest target that can be written and is not above x. */
  ghost predicate IsRounded(bits: U32, x: nat) {
    FromCompact(bits) <= x && forall c: U32 :: FromCompact(c) <= x ==> FromCompact(c) <= FromCompact(bits)
  }

  function Least(a: nat, b: nat): nat {
    if a < b then a else b
  }

  /** The target in proportion to the elapsed seconds, at most the limit. */
  function Proportional(target: nat, elapsed: nat): nat {
    Least(0x1_0000_0000_0000_0000_0000_0000_0000_0000_0000_0000_0000_0000_0000_0000 - 1, target * elapsed / 1_209_600)
  }

  /**
   * What the new bits are, from the seconds that went by as the 32-bit subtraction gives them: the target in proportion
   * to them, taken as three and a half days at least and eight weeks at most.
   */
  lemma {:induction false} RetargetIsProportional(last: U32, first: U32, bits: U32, elapsed: U32)
    requires FromCompact(bits) <= POW_LIMIT && (last == first + elapsed || last + 0x1_0000_0000 == first + elapsed)
    ensures NextWorkRequired(last, first, bits).Some?
    ensures 302_400 <= elapsed <= 4_838_400 ==>
              IsRounded(NextWorkRequired(last, first, bits).value, Proportional(FromCompact(bits), elapsed))
    ensures elapsed < 302_400 ==> IsRounded(NextWorkRequired(last, first, bits).value, Proportional(FromCompact(bits), 302_400))
    ensures elapsed > 4_838_400 ==> IsRounded(NextWorkRequired(last, first, bits).value, Proportional(FromCompact(bits), 4_838_400))
  {
    var timespan := if elapsed < 302_400 then 302_400 else if elapsed > 4_838_400 then 4_838_400 else elapsed;
    ElapsedTimespan(last, first, elapsed, timespan);
    ProportionalTarget(FromCompact(bits), timespan);
    Rounded(Proportional(FromCompact(bits), timespan));
  }

  lemma {:induction false} ElapsedTimespan(last: U32, first: U32, elapsed: U32, timespan: nat)
    requires last == first + elapsed || last + 0x1_0000_0000 == first + elapsed
    requires timespan == if elapsed < 302_400 then 302_400 else if elapsed > 4_838_400 then 4_838_400 else elapsed
    ensures ClampedTimespan(last, first) == timespan
  {
  }

  lemma {:induction false} ProportionalTarget(target: U256, timespan: nat)
    requires target <= POW_LIMIT && timespan <= 4_838_400
    ensures NextTarget(target, timespan) == Some(Proportional(target, timespan))
  {
    BelowPower(target, 28);
    ProductLength(target, timespan, 28);
    LimitIs();
    ProportionalScale(target, timespan, POW_LIMIT);
  }

  lemma {:induction false} ProportionalScale(target: nat, timespan: nat, limit: nat)
    requires limit == 0x1_0000_0000_0000_0000_0000_0000_0000_0000_0000_0000_0000_0000_0000_0000 - 1
    ensures Scale(target, timespan, limit) == Proportional(target, timespan)
  {
  }

  lemma {:induction false} LimitIs()
    ensures POW_LIMIT == 0x1_0000_0000_0000_0000_0000_0000_0000_0000_0000_0000_0000_0000_0000_0000 - 1
  {
    Doubling(1, 7);
    Doubling(1, 14);
    Doubling(1, 21);
  }

  lemma {:induction false} Doubling(v: nat, k: nat)
    ensures Shl(v, k + 7) == 0x100_0000_0000_0000 * Shl(v, k)
  {
    ShlShl(v, k, 7);
    var p := Shl(v, k);
    ShlThree(p);
    ShlThree(Shl(p, 3));
    ShlShl(p, 3, 3);
    assert Shl(p, 7) == 256 * Shl(p, 6);
  }

  lemma {:induction false} Rounded(value: U256)
    ensures IsRounded(ToCompact(value), value)
  {
    forall c: U32 | FromCompact(c) <= value ensures FromCompact(c) <= FromCompact(ToCompact(value)) {
      RoundsDownToRepresentable(value, c);
    }
    RoundsDownToRepresentable(value, 0);
  }

  // ---------------------------------------------------------------- work

  /**
   * BlockHeaderRef::get_work: the bitwise complement of the target, over the target plus one, plus one.
   * (A target of zero would overflow the last addition; is_valid rejects such headers.)
   */
  function GetWork(bits: U32): (work: nat)
    ensures work >= 1
  {
    BelowPower(FromCompact(bits), 32);
    WorkFor(FromCompact(bits), Shl(1, 32))
  }

  function WorkFor(target: nat, modulus: nat): (work: nat)
    requires target < modulus
    ensures work >= 1
  {
    (modulus - 1 - target) / (target + 1) + 1
  }

  /** That is the expected number of hashes: 2^256 over the target plus one. */
  lemma {:induction false} WorkIsExpectedHashes(bits: U32)
    ensures GetWork(bits) == Shl(1, 32) / (FromCompact(bits) + 1)
  {
    BelowPower(FromCompact(bits), 32);
    WorkForIsQuotient(FromCompact(bits), Shl(1, 32));
  }

  lemma {:induction false} WorkForIsQuotient(target: nat, modulus: nat)
    requires target < modulus
    ensures WorkFor(target, modulus) == modulus / (target + 1)
  {
    QuotientPlusOne(modulus - 1 - target, target + 1);
  }

  /** A smaller target is never less work. */
  lemma {:induction false} WorkIsAntitone(a: U32, b: U32)
    requires FromCompact(a) <= FromCompact(b)
    ensures GetWork(b) <= GetWork(a)
  {
    WorkIsExpectedHashes(a);
    WorkIsExpectedHashes(b);
    QuotientAntitone(Shl(1, 32), FromCompact(a) + 1, FromCompact(b) + 1);
  }

  /** The work fits into 256 bits exactly when the target is not zero; otherwise the last addition overflows. */
  lemma {:induction false} WorkFitsIff(bits: U32)
    ensures GetWork(bits) < Shl(1, 32) <==> FromCompact(bits) > 0
  {
    WorkIsExpectedHashes(bits);
    SmallerQuotientIff(Shl(1, 32), FromCompact(bits));
  }

  lemma {:induction false} SmallerQuotientIff(n: nat, t: nat)
    requires n >= 2
    ensures n / (t + 1) < n <==> t > 0
  {
    QuotientAtLeast(n, t + 1, n);
    if t > 0 {
      MulMonotone(n, 2, t + 1);
    }
  }
}
