/** The bits a header must carry, and why they can always be computed. */
module Difficulty {
  import opened Wrappers
  import opened Bytes
  import opened Compact
  import opened Retarget
  import opened HeaderTree
  import opened ChainSpec

  /** get_next_bits_required */
  ghost function NextBits(known: Headers, h: Hash): Option<U32>
    requires Tree(known) && h in known
  {
    var k := known[h];
    if !EndsPeriod(k.number) then Some(k.header.bits)
    else
      var first := AncestorAt(known, h, FirstOfPeriod(k.number));
      NextWorkRequired(k.header.timestamp, known[first].header.timestamp, k.header.bits)
  }

  /** What the rules say about a header on top of a known parent. */
  ghost predicate FollowsRule(known: Headers, header: Header, rule: Rule)
    requires Tree(known)
  {
    header.parent in known ==>
      rule.work == GetWork(header.bits) && rule.expectedBits == NextBits(known, header.parent)
  }

  /** No known target is above the limit. */
  ghost predicate WithinLimit(known: Headers) {
    forall h :: h in known ==> FromCompact(known[h].header.bits) <= POW_LIMIT
  }

  /** Retargeting is always possible, and keeps every target within the limit. */
  lemma {:induction false} NextBitsStaysInLimit(known: Headers, h: Hash)
    requires Tree(known) && WithinLimit(known) && h in known
    ensures NextBits(known, h).Some?
    ensures FromCompact(NextBits(known, h).value) <= POW_LIMIT
  {
    var k := known[h];
    if EndsPeriod(k.number) {
      var first := AncestorAt(known, h, FirstOfPeriod(k.number));
      RetargetStaysInLimit(k.header.timestamp, known[first].header.timestamp, k.header.bits);
    }
  }

  /** Applying a header keeps every target within the limit, so no header ever fails to have a rule. */
  lemma {:induction false} AppliesKeepsLimit(c: Chain, header: Header, rule: Rule, sync: bool, c': Chain, out: Outcome)
    requires Inv(c) && WithinLimit(c.known) && FollowsRule(c.known, header, rule)
    requires Applies(c, header, rule, sync, c', out)
    ensures header.parent in c.known ==> rule.expectedBits.Some?
    ensures WithinLimit(c'.known)
  {
    if header.parent in c.known {
      NextBitsStaysInLimit(c.known, header.parent);
    }
  }

  // ---------------------------------------------------------------- the rule in numbers

  /** Inside a period of 2016 headers the bits stay. */
  lemma {:induction false} BitsInsidePeriod(known: Headers, h: Hash)
    requires Tree(known) && h in known && (Number(known, h) + 1) % 2016 != 0
    ensures NextBits(known, h) == Some(known[h].header.bits)
  {
    PeriodEndsIff(Number(known, h));
  }

  /** After header 2016 n - 1 they follow from its timestamp and that of header 2016 (n - 1) of its branch, for every n. */
  lemma {:induction false} BitsAfterPeriod(known: Headers, h: Hash, n: nat) returns (first: Hash)
    requires Tree(known) && h in known && n >= 1 && Number(known, h) == 2016 * n - 1
    ensures first in known && first in Ancestors(known, h) && Number(known, first) == 2016 * (n - 1)
    ensures NextBits(known, h) == NextWorkRequired(known[h].header.timestamp, known[first].header.timestamp, known[h].header.bits)
  {
    PeriodOf(Number(known, h), n);
    first := AncestorAt(known, h, 2016 * (n - 1));
    AncestorAtIs(known, h, 2016 * (n - 1));
  }

  lemma {:induction false} PeriodOf(number: nat, n: nat)
    requires n >= 1 && number == 2016 * n - 1
    ensures EndsPeriod(number) && FirstOfPeriod(number) == 2016 * (n - 1)
  {
    PeriodEndsIff(number);
  }

  // ---------------------------------------------------------------- bits and work of accepted headers

  /** The bits of the genesis header. */
  const GENESIS_BITS: U32 := 0x1d00ffff

  /** Every header's bits are in normal form. */
  ghost predicate NormalBits(known: Headers) {
    forall h :: h in known ==> Normal(known[h].header.bits)
  }

  lemma {:induction false} NextBitsAreNormal(known: Headers, h: Hash)
    requires Tree(known) && WithinLimit(known) && NormalBits(known) && h in known
    ensures NextBits(known, h).Some? && Normal(NextBits(known, h).value)
  {
    var k := known[h];
    NextBitsStaysInLimit(known, h);
    if EndsPeriod(k.number) {
      var first := AncestorAt(known, h, FirstOfPeriod(k.number));
      var target := NextTarget(FromCompact(k.header.bits), ClampedTimespan(k.header.timestamp, known[first].header.timestamp));
      EncodedIsNormal(target.value);
    }
  }

  /** Accepted headers keep all bits normal, from the genesis header on. */
  lemma {:induction false} AppliesKeepsNormal(c: Chain, header: Header, rule: Rule, sync: bool, c': Chain, out: Outcome)
    requires Inv(c) && WithinLimit(c.known) && NormalBits(c.known) && FollowsRule(c.known, header, rule)
    requires Applies(c, header, rule, sync, c', out)
    ensures NormalBits(c'.known)
  {
    if header.parent in c.known {
      NextBitsAreNormal(c.known, header.parent);
    }
  }

  /** So for every accepted header, a period of exactly two weeks keeps the bits. */
  lemma {:induction false} TwoWeeksKeepAcceptedBits(known: Headers, h: Hash)
    requires Tree(known) && WithinLimit(known) && NormalBits(known) && h in known && EndsPeriod(Number(known, h))
    requires known[h].header.timestamp
          == known[AncestorAt(known, h, FirstOfPeriod(Number(known, h)))].header.timestamp + POW_TARGET_TIMESPAN
    ensures NextBits(known, h) == Some(known[h].header.bits)
  {
    var first := AncestorAt(known, h, FirstOfPeriod(Number(known, h)));
    TwoWeeksKeepsBits(known[h].header.timestamp, known[first].header.timestamp, known[h].header.bits);
  }

  /** Every header has the bits its parent calls for and adds the work of its bits to its parent's total. */
  ghost predicate WorkedBy(known: Headers, work: U32 -> nat)
    requires Tree(known)
  {
    forall h {:trigger Parent(known, h)} :: h in known && Number(known, h) > 0 ==>
      && Parent(known, h) in known
      && NextBits(known, Parent(known, h)) == Some(known[h].header.bits)
      && known[h].totalWork == known[Parent(known, h)].totalWork + work(known[h].header.bits)
  }

  /** The headers follow the rules of the code. */
  ghost predicate Worked(known: Headers)
    requires Tree(known)
  {
    WorkedBy(known, GetWork)
  }

  lemma {:induction false} NextBitsFrame(known: Headers, known': Headers, h: Hash)
    requires Tree(known) && Tree(known') && Grows(known, known') && h in known
    ensures NextBits(known', h) == NextBits(known, h)
  {
    if EndsPeriod(known[h].number) {
      AncestorAtFrame(known, known', h, FirstOfPeriod(known[h].number));
    }
  }

  /** A header that follows the rules leaves every header following them. */
  lemma {:induction false} InsertKeepsWorked(known: Headers, header: Header, work: U32 -> nat)
    requires Tree(known) && WorkedBy(known, work)
    requires header.hash !in known && header.parent in known && header.hash != EMPTY_HASH
    requires NextBits(known, header.parent) == Some(header.bits)
    ensures var known' := known[header.hash := NewKnown(known, header, Rule(work(header.bits), None))];
      Tree(known') && Grows(known, known') && WorkedBy(known', work)
  {
    var rule := Rule(work(header.bits), None);
    var known' := known[header.hash := NewKnown(known, header, rule)];
    InsertKeepsTree(known, header, rule);
    forall h | h in known' && Number(known', h) > 0
      ensures Parent(known', h) in known'
      ensures NextBits(known', Parent(known', h)) == Some(known'[h].header.bits)
      ensures known'[h].totalWork == known'[Parent(known', h)].totalWork + work(known'[h].header.bits)
    {
      var parent := Parent(known', h);
      if h != header.hash {
        assert parent == Parent(known, h);
      }
      NextBitsFrame(known, known', parent);
    }
  }

  /** The header below the first period is the genesis header. */
  lemma {:induction false} FirstIsGenesis(known: Headers, h: Hash, genesis: Hash)
    requires Tree(known) && h in known && genesis in known && Number(known, genesis) == 0
    ensures AncestorAt(known, h, 0) == genesis
  {
    AncestorAtIs(known, h, 0);
  }

  /** At the end of a period the bits follow from its first and last timestamps. */
  lemma {:induction false} PeriodEndBits(known: Headers, h: Hash, first: Hash, bits: Option<U32>)
    requires Tree(known) && h in known && first in known && EndsPeriod(Number(known, h))
    requires AncestorAt(known, h, FirstOfPeriod(Number(known, h))) == first
    requires NextWorkRequired(known[h].header.timestamp, known[first].header.timestamp, known[h].header.bits) == bits
    ensures NextBits(known, h) == bits
  {
  }
}
