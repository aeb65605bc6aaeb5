/**
 * Two chains on which the header walk goes wrong. Every header in them has the bits its parent calls for
 * and adds its own work to its parent's total.
 */
module ChainExamples {
  import opened Wrappers
  import opened Bytes
  import opened HeaderTree
  import opened ChainSpec
  import opened Retarget
  import opened Difficulty
  import opened WorkExamples

  /** A hash tells its number and its branch. */
  predicate Names(h: Hash, number: nat, branch: Byte) {
    NumberIn(h) == number && h[2] == branch
  }

  function NumberIn(h: Hash): nat {
    var low: nat, high: nat := h[0], h[1];
    low + 256 * high
  }

  lemma {:induction false} HasName(number: nat, branch: Byte) returns (h: Hash)
    requires number < 0x1_0000
    ensures Names(h, number, branch)
  {
    h := [number % 256, number / 256, branch] + Zeros(29);
  }

  ghost function Id(number: nat, branch: Byte): (h: Hash)
    requires number < 0x1_0000
    ensures Names(h, number, branch)
  {
    assert exists h: Hash :: Names(h, number, branch) by {
      var h := HasName(number, branch);
    }
    var h: Hash :| Names(h, number, branch);
    h
  }

  /** The headers of a branch go up to a number. */
  ghost predicate Below(known: Headers, branch: Byte, number: nat) {
    forall h :: h in known && h[2] == branch ==> NumberIn(h) < number
  }

  lemma {:induction false} IdIsFresh(known: Headers, branch: Byte, number: nat)
    requires number < 0x1_0000 && Below(known, branch, number)
    ensures Id(number, branch) !in known
  {
  }

  /** No header has more total work. */
  ghost predicate WorkAtMost(known: Headers, work: nat) {
    forall h :: h in known ==> known[h].totalWork <= work
  }

  const START: U32 := 1_231_006_505

  // ---------------------------------------------------------------- growing a chain

  ghost predicate Sound(known: Headers, work: U32 -> nat) {
    Tree(known) && WorkedBy(known, work)
  }

  ghost function HeaderOn(parent: Hash, number: nat, branch: Byte, timestamp: U32, bits: U32): Header
    requires number < 0x1_0000
  {
    Header(Id(number, branch), parent, timestamp, bits)
  }

  /** Inside a period a header calls for its own bits. */
  lemma {:induction false} SameBits(known: Headers, h: Hash)
    requires Tree(known) && h in known && !EndsPeriod(known[h].number)
    ensures NextBits(known, h) == Some(known[h].header.bits)
  {
  }

  /** What a new header on its branch does to the branches and the work. */
  ghost predicate Appended(known: Headers, branch: Byte, known': Headers, next: Known, work: U32 -> nat, limit: nat) {
    && next.header.hash !in known && known' == known[next.header.hash := next]
    && Sound(known', work) && Grows(known, known') && WorkAtMost(known', limit) && Below(known', branch, next.number + 1)
    && forall b: Byte, n: nat :: b != branch && Below(known, b, n) ==> Below(known', b, n)
  }

  /** A header with the right bits on a known parent. */
  lemma {:induction false} Append(known: Headers, parent: Hash, number: nat, branch: Byte, timestamp: U32, bits: U32,
                                  work: U32 -> nat, limit: nat)
      returns (known': Headers, next: Known)
    requires Sound(known, work) && parent in known && Number(known, parent) + 1 == number < 0x1_0000
    requires branch > 0 && Below(known, branch, number) && NextBits(known, parent) == Some(bits)
    requires WorkAtMost(known, limit) && known[parent].totalWork + work(bits) <= limit
    ensures next == Known(Header(Id(number, branch), parent, timestamp, bits), number, false, known[parent].totalWork + work(bits))
    ensures Appended(known, branch, known', next, work, limit)
  {
    var header := HeaderOn(parent, number, branch, timestamp, bits);
    IdIsFresh(known, branch, number);
    assert EMPTY_HASH[2] == 0;
    next := NewKnown(known, header, Rule(work(bits), None));
    known' := known[header.hash := next];
    InsertKeepsWorked(known, header, work);
  }

  /** Inside a period, with the parent's bits. */
  lemma {:induction false} AppendInPeriod(known: Headers, parent: Hash, number: nat, branch: Byte, timestamp: U32, bits: U32,
                                          work: U32 -> nat, limit: nat)
      returns (known': Headers, next: Known)
    requires Sound(known, work) && parent in known && Number(known, parent) + 1 == number < 0x1_0000
    requires branch > 0 && Below(known, branch, number)
    requires !EndsPeriod(known[parent].number) && known[parent].header.bits == bits
    requires WorkAtMost(known, limit) && known[parent].totalWork + work(bits) <= limit
    ensures next == Known(Header(Id(number, branch), parent, timestamp, bits), number, false, known[parent].totalWork + work(bits))
    ensures Appended(known, branch, known', next, work, limit)
  {
    SameBits(known, parent);
    known', next := Append(known, parent, number, branch, timestamp, bits, work, limit);
  }

  /** After the first period, with the bits of the new target. */
  lemma {:induction false} AppendAfterPeriod(known: Headers, parent: Hash, number: nat, branch: Byte, timestamp: U32, bits: U32,
                                             work: U32 -> nat, limit: nat)
      returns (known': Headers, next: Known)
    requires Sound(known, work) && parent in known && Number(known, parent) + 1 == number == 2016
    requires Id(0, 1) in known && Number(known, Id(0, 1)) == 0
    requires NextWorkRequired(known[parent].header.timestamp, known[Id(0, 1)].header.timestamp, known[parent].header.bits) == Some(bits)
    requires branch > 0 && Below(known, branch, number)
    requires WorkAtMost(known, limit) && known[parent].totalWork + work(bits) <= limit
    ensures next == Known(Header(Id(number, branch), parent, timestamp, bits), number, false, known[parent].totalWork + work(bits))
    ensures Appended(known, branch, known', next, work, limit)
  {
    FirstPeriodEnds(known, parent, Some(bits));
    known', next := Append(known, parent, number, branch, timestamp, bits, work, limit);
  }

  /** The last header of the first period calls for a new target. */
  lemma {:induction false} FirstPeriodEnds(known: Headers, h: Hash, bits: Option<U32>)
    requires Tree(known) && h in known && Number(known, h) == 2015 && Id(0, 1) in known && Number(known, Id(0, 1)) == 0
    requires NextWorkRequired(known[h].header.timestamp, known[Id(0, 1)].header.timestamp, known[h].header.bits) == bits
    ensures NextBits(known, h) == bits
  {
    PeriodIsFirst(Number(known, h));
    FirstIsGenesis(known, h, Id(0, 1));
    PeriodEndBits(known, h, Id(0, 1), bits);
  }

  lemma {:induction false} PeriodIsFirst(number: nat)
    requires number == 2015
    ensures EndsPeriod(number) && FirstOfPeriod(number) == 0
  {
  }

  lemma {:induction false} GenesisIsSound(bits: U32, work: U32 -> nat)
    ensures Sound(map[Id(0, 1) := Known(Header(Id(0, 1), EMPTY_HASH, START, bits), 0, false, work(bits))], work)
  {
    assert EMPTY_HASH[2] == 0;
  }

  /** The first headers of the chain, one second apart, as one branch. */
  ghost predicate IsTrunk(known: Headers, last: nat, bits: U32, work: U32 -> nat, total: nat) {
    && last < 2015 && Sound(known, work)
    && (forall h :: h in known ==> h[2] == 1) && Below(known, 1, last + 1)
    && Id(last, 1) in known
    && known[Id(last, 1)] == Known(Header(Id(last, 1), Parent(known, Id(last, 1)), START + last, bits), last, false, total)
    && WorkAtMost(known, total)
    && Id(0, 1) in known && Number(known, Id(0, 1)) == 0 && known[Id(0, 1)].header.timestamp == START
  }

  lemma {:induction false} TrunkStart(bits: U32, work: U32 -> nat) returns (known: Headers)
    requires work(bits) == GENESIS_WORK
    ensures IsTrunk(known, 0, bits, work, GENESIS_WORK)
  {
    known := map[Id(0, 1) := Known(Header(Id(0, 1), EMPTY_HASH, START, bits), 0, false, work(bits))];
    GenesisIsSound(bits, work);
  }

  lemma {:induction false} TrunkStep(known: Headers, last: nat, bits: U32, work: U32 -> nat, total: nat) returns (known': Headers)
    requires IsTrunk(known, last, bits, work, total) && last < 2014
    ensures IsTrunk(known', last + 1, bits, work, total + work(bits))
  {
    var next;
    known', next := AppendInPeriod(known, Id(last, 1), last + 1, 1, START + last + 1, bits, work, total + work(bits));
    TrunkGrows(known, known', next, last, bits, work, total);
  }

  lemma {:induction false} TrunkGrows(known: Headers, known': Headers, next: Known, last: nat, bits: U32, work: U32 -> nat, total: nat)
    requires IsTrunk(known, last, bits, work, total) && last < 2014
    requires next == Known(Header(Id(last + 1, 1), Id(last, 1), START + last + 1, bits), last + 1, false, total + work(bits))
    requires Appended(known, 1, known', next, work, total + work(bits))
    ensures IsTrunk(known', last + 1, bits, work, total + work(bits))
  {
  }

  lemma {:induction false} Trunk(last: nat, bits: U32, work: U32 -> nat) returns (known: Headers)
    requires last < 2015 && work(bits) == GENESIS_WORK
    ensures IsTrunk(known, last, bits, work, (last + 1) * GENESIS_WORK)
  {
    if last == 0 {
      known := TrunkStart(bits, work);
    } else {
      known := Trunk(last - 1, bits, work);
      known := TrunkStep(known, last - 1, bits, work, last * GENESIS_WORK);
    }
  }

  /** The rules for accepted headers start from the genesis header: its target is within the limit, its bits are normal. */
  lemma {:induction false} GenesisMeetsRules(genesis: Header, work: nat)
    requires genesis.bits == GENESIS_BITS
    ensures var known := map[genesis.hash := Known(genesis, 0, false, work)]; WithinLimit(known) && NormalBits(known)
  {
    var bits, quarter := Samples();
  }

  // ---------------------------------------------------------------- the walk's panic

  /** The last headers of two branches on the trunk, and that nothing else stands in the way. */
  ghost predicate AreTips(known: Headers, fast: Known, slow: Known, work: U32 -> nat) {
    && Sound(known, work)
    && fast.header.hash in known && known[fast.header.hash] == fast
    && slow.header.hash in known && known[slow.header.hash] == slow
    && Below(known, 3, slow.number + 1)
    && WorkAtMost(known, fast.totalWork)
  }

  /** What the two kinds of bits do, for a given measure of work. */
  ghost predicate MeetSamples(bits: U32, quarter: U32, work: U32 -> nat) {
    && work(bits) == GENESIS_WORK && work(quarter) == QUARTER_WORK
    && (forall first: U32, last: U32 :: first + 302_400 == last ==> NextWorkRequired(last, first, bits) == Some(quarter))
    && (forall first: U32, last: U32 :: first + POW_TARGET_TIMESPAN == last ==> NextWorkRequired(last, first, bits) == Some(bits))
  }

  lemma {:induction false} SamplesMeet(bits: U32, quarter: U32)
    requires AreSamples(bits, quarter)
    ensures MeetSamples(bits, quarter, GetWork)
  {
    forall first: U32, last: U32 | first + 302_400 == last ensures NextWorkRequired(last, first, bits) == Some(quarter) {
      FastPeriodQuarters(last, first, bits, quarter);
    }
    forall first: U32, last: U32 | first + POW_TARGET_TIMESPAN == last ensures NextWorkRequired(last, first, bits) == Some(bits) {
      TwoWeeksKeepsBits(last, first, bits);
    }
  }

  /** The branch of a first period that took half a week: its second header has four times the work. */
  lemma {:induction false} FastBranch(trunk: Headers, bits: U32, quarter: U32, work: U32 -> nat) returns (known: Headers, fast: Known)
    requires IsTrunk(trunk, 2014, bits, work, 2015 * GENESIS_WORK) && MeetSamples(bits, quarter, work)
    ensures Sound(known, work) && Grows(trunk, known)
    ensures fast.header.hash in known && known[fast.header.hash] == fast
    ensures fast.number == 2016 && fast.totalWork == 2016 * GENESIS_WORK + QUARTER_WORK
    ensures Below(known, 3, 0) && WorkAtMost(known, fast.totalWork)
  {
    var limit := 2016 * GENESIS_WORK + QUARTER_WORK;
    var first;
    known, first := AppendInPeriod(trunk, Id(2014, 1), 2015, 2, START + 302_400, bits, work, limit);
    known, fast := AppendAfterPeriod(known, Id(2015, 2), 2016, 2, START + 303_000, quarter, work, limit);
  }

  /** The branch of a first period that took two weeks starts with the same bits. */
  lemma {:induction false} SlowStart(trunk: Headers, before: Headers, fast: Known, bits: U32, quarter: U32, work: U32 -> nat)
      returns (known: Headers, slow: Known)
    requires IsTrunk(trunk, 2014, bits, work, 2015 * GENESIS_WORK) && MeetSamples(bits, quarter, work) && Sound(before, work) && Grows(trunk, before)
    requires fast.header.hash in before && before[fast.header.hash] == fast && fast.number == 2016
    requires fast.totalWork == 2016 * GENESIS_WORK + QUARTER_WORK
    requires Below(before, 3, 0) && WorkAtMost(before, fast.totalWork)
    ensures AreTips(known, fast, slow, work) && slow.number == 2016 && slow.totalWork == 2017 * GENESIS_WORK
    ensures slow.header.bits == bits && slow.header.hash == Id(2016, 3)
  {
    var first;
    known, first := AppendInPeriod(before, Id(2014, 1), 2015, 3, START + POW_TARGET_TIMESPAN, bits, work, fast.totalWork);
    known, slow := AppendAfterPeriod(known, Id(2015, 3), 2016, 3, START + POW_TARGET_TIMESPAN + 600, bits, work, fast.totalWork);
  }

  /** Two more headers on the slow branch: it is higher now, and still has less work. */
  lemma {:induction false} SlowStep(before: Headers, fast: Known, last: Known, bits: U32, work: U32 -> nat) returns (known: Headers, slow: Known)
    requires AreTips(before, fast, last, work) && work(bits) == GENESIS_WORK
    requires 2016 <= last.number < 2018 && last.header.bits == bits && last.header.hash == Id(last.number, 3)
    requires last.totalWork + GENESIS_WORK <= fast.totalWork
    ensures AreTips(known, fast, slow, work) && slow.number == last.number + 1
    ensures slow.totalWork == last.totalWork + GENESIS_WORK
    ensures slow.header.bits == bits && slow.header.hash == Id(last.number + 1, 3)
  {
    known, slow := AppendInPeriod(before, last.header.hash, last.number + 1, 3, START + POW_TARGET_TIMESPAN + 1200, bits, work, fast.totalWork);
  }

  lemma {:induction false} TwoBranches(bits: U32, quarter: U32, work: U32 -> nat) returns (known: Headers, fast: Known, slow: Known)
    requires MeetSamples(bits, quarter, work)
    ensures AreTips(known, fast, slow, work) && fast.number == 2016 && fast.totalWork == 2016 * GENESIS_WORK + QUARTER_WORK
    ensures slow.number == 2018 && slow.totalWork == 2019 * GENESIS_WORK
    ensures slow.header.bits == bits && slow.header.hash == Id(2018, 3)
  {
    var trunk := Trunk(2014, bits, work);
    known, fast := FastBranch(trunk, bits, quarter, work);
    known, slow := SlowStart(trunk, known, fast, bits, quarter, work);
    known, slow := SlowStep(known, fast, slow, bits, work);
    known, slow := SlowStep(known, fast, slow, bits, work);
  }

  /**
   * Two branches end the first period differently, one after half a week and one after two weeks. Its
   * second header makes the fast one the top at number 2016; five headers bring the slow one level in work
   * at number 2019. The new header's parent is above the old top, and the walk panics.
   */
  lemma {:induction false} WalkFallsOffGenesis() returns (c: Chain, header: Header, rule: Rule, c': Chain, out: Outcome)
    ensures Inv(c) && OnTop(c) && c.numberToHash == NumberMap(c.known, c.top.header.hash) && Worked(c.known)
    ensures header.hash != EMPTY_HASH && FollowsRule(c.known, header, rule)
    ensures Applies(c, header, rule, false, c', out) && out.Panics?
  {
    var bits, quarter := Samples();
    SamplesMeet(bits, quarter);
    var known, fast, slow := TwoBranches(bits, quarter, GetWork);
    var top := fast.header.hash;
    c := Chain(fast, known, NumberMap(known, top), Ancestors(known, top));
    header, rule, c', out := OvertakesFromAbove(c, bits, slow, GetWork(bits));
  }

  lemma {:induction false} OvertakesFromAbove(c: Chain, bits: U32, slow: Known, work: nat)
      returns (header: Header, rule: Rule, c': Chain, out: Outcome)
    requires Inv(c) && Below(c.known, 3, 2019)
    requires slow.header.hash in c.known && c.known[slow.header.hash] == slow
    requires slow.number == 2018 && slow.header.bits == bits && c.top.number == 2016
    requires c.top.totalWork <= slow.totalWork + work
    ensures header.hash != EMPTY_HASH && header.parent == slow.header.hash && header.bits == bits
    ensures rule == Rule(work, NextBits(c.known, header.parent))
    ensures Applies(c, header, rule, false, c', out) && out.Panics?
  {
    SameBits(c.known, slow.header.hash);
    rule := Rule(work, NextBits(c.known, slow.header.hash));
    header, c' := OvertakesWith(c, bits, slow, rule);
    out := Panics;
  }

  lemma {:induction false} OvertakesWith(c: Chain, bits: U32, slow: Known, rule: Rule) returns (header: Header, c': Chain)
    requires Inv(c) && Below(c.known, 3, 2019)
    requires slow.header.hash in c.known && c.known[slow.header.hash] == slow
    requires slow.number == 2018 && c.top.number == 2016
    requires c.top.totalWork <= slow.totalWork + rule.work && rule.expectedBits == Some(bits)
    ensures header.hash != EMPTY_HASH && header.parent == slow.header.hash && header.bits == bits
    ensures Applies(c, header, rule, false, c', Panics)
  {
    header := HeaderOn(slow.header.hash, 2019, 3, START + POW_TARGET_TIMESPAN + 1800, bits);
    IdIsFresh(c.known, 3, 2019);
    assert EMPTY_HASH[2] == 0;
    c' := PanicStep(c, header, rule);
  }

  lemma {:induction false} PanicStep(c: Chain, header: Header, rule: Rule) returns (c': Chain)
    requires Inv(c) && BecomesTop(c, header, rule) && Number(c.known, header.parent) > c.top.number
    ensures Applies(c, header, rule, false, c', Panics)
  {
    c' := c.(known := c.known[header.hash := NewKnown(c.known, header, rule)]);
  }

  // ---------------------------------------------------------------- the number map

  /** Two children of the genesis header; the second one to come is the top. */
  lemma {:induction false} TwoChildren(bits: U32, work: U32 -> nat) returns (known: Headers, two: Known, three: Known)
    requires work(bits) == GENESIS_WORK
    ensures Sound(known, work) && Below(known, 3, 2)
    ensures Id(0, 1) in known && Number(known, Id(0, 1)) == 0
    ensures Id(1, 2) in known && known[Id(1, 2)] == two && Id(1, 3) in known && known[Id(1, 3)] == three
    ensures two.number == three.number == 1 && two.totalWork == three.totalWork == 2 * GENESIS_WORK
    ensures three.header.bits == bits && Parent(known, Id(1, 2)) == Parent(known, Id(1, 3)) == Id(0, 1)
    ensures WorkAtMost(known, 2 * GENESIS_WORK)
  {
    known := TrunkStart(bits, work);
    known, three := AppendInPeriod(known, Id(0, 1), 1, 3, START + 600, bits, work, 2 * GENESIS_WORK);
    known, two := AppendInPeriod(known, Id(0, 1), 1, 2, START + 601, bits, work, 2 * GENESIS_WORK);
  }

  /** A reorganisation that adds two blocks gives the lower one the number of the upper one. */
  lemma {:induction false} NumbersGoWrong() returns (c: Chain, header: Header, rule: Rule, c1: Chain, out: Outcome)
    ensures Inv(c) && OnTop(c) && c.numberToHash == NumberMap(c.known, c.top.header.hash) && Worked(c.known)
    ensures header.hash != EMPTY_HASH && FollowsRule(c.known, header, rule)
    ensures Applies(c, header, rule, false, c1, out) && out.Accepted? && out.result.Some?
    ensures var c' := UpdateMostWork(c1, out.result.value);
      Inv(c') && c'.numberToHash != NumberMap(c'.known, c'.top.header.hash)
  {
    var bits, quarter := Samples();
    var known, two, three := TwoChildren(bits, GetWork);
    c := Chain(two, known, NumberMap(known, Id(1, 2)), Ancestors(known, Id(1, 2)));
    header, rule, c1, out := TwoBlockFork(c, bits, three, GetWork(bits));
    NotOnTopChain(known);
    NumberMapIff(c, header, rule, c1, out);
  }

  lemma {:induction false} NotOnTopChain(known: Headers)
    requires Tree(known) && Id(1, 2) in known && Id(1, 3) in known
    requires Number(known, Id(1, 2)) == Number(known, Id(1, 3)) == 1
    ensures Id(1, 3) !in Ancestors(known, Id(1, 2))
  {
    AncestorsBelow(known, Id(1, 2));
    assert Id(1, 2) != Id(1, 3);
  }

  lemma {:induction false} TwoBlockFork(c: Chain, bits: U32, three: Known, work: nat)
      returns (header: Header, rule: Rule, c1: Chain, out: Outcome)
    requires Inv(c) && Below(c.known, 3, 2)
    requires Id(0, 1) in c.known && Number(c.known, Id(0, 1)) == 0
    requires Id(1, 2) in c.known && c.known[Id(1, 2)] == c.top && Id(1, 3) in c.known && c.known[Id(1, 3)] == three
    requires c.top.number == three.number == 1 && c.top.totalWork == three.totalWork
    requires three.header.bits == bits && Parent(c.known, Id(1, 2)) == Parent(c.known, Id(1, 3)) == Id(0, 1)
    ensures header.hash != EMPTY_HASH && header.parent == Id(1, 3) && header.bits == bits
    ensures rule == Rule(work, NextBits(c.known, header.parent))
    ensures Applies(c, header, rule, false, c1, out) && out.Accepted? && out.result.Some?
  {
    header := HeaderOn(Id(1, 3), 2, 3, START + 1200, bits);
    rule := Rule(work, NextBits(c.known, Id(1, 3)));
    IdIsFresh(c.known, 3, 2);
    SameBits(c.known, Id(1, 3));
    assert EMPTY_HASH[2] == 0;
    var a := Applied([Id(1, 2), Id(1, 2)], [(Id(1, 3), 2), (header.hash, 2)]);
    ExampleIsFork(c, header, a);
    c1 := ForkStep(c, header, rule, a);
    out := Accepted(Some(a));
  }

  lemma {:induction false} ForkStep(c: Chain, header: Header, rule: Rule, a: Applied) returns (c1: Chain)
    requires Inv(c) && BecomesTop(c, header, rule) && header.parent != c.top.header.hash
    requires Number(c.known, header.parent) <= c.top.number && IsFork(c, header, a)
    ensures Applies(c, header, rule, false, c1, Accepted(Some(a)))
  {
    var next := NewKnown(c.known, header, rule);
    c1 := c.(known := c.known[header.hash := next], top := next);
  }

  lemma {:induction false} ExampleIsFork(c: Chain, header: Header, a: Applied)
    requires Inv(c) && Id(0, 1) in c.known && Number(c.known, Id(0, 1)) == 0
    requires Id(1, 2) in c.known && c.known[Id(1, 2)] == c.top && Id(1, 3) in c.known
    requires Number(c.known, Id(1, 2)) == Number(c.known, Id(1, 3)) == 1
    requires Parent(c.known, Id(1, 2)) == Parent(c.known, Id(1, 3)) == Id(0, 1)
    requires header.parent == Id(1, 3) && c.top.header.hash == Id(1, 2)
    requires a == Applied([Id(1, 2), Id(1, 2)], [(Id(1, 3), 2), (header.hash, 2)])
    ensures IsFork(c, header, a)
  {
    var known := c.known;
    assert Id(1, 2) != Id(1, 3);
    assert Meet(known, Id(1, 3), Id(1, 2)) == Id(0, 1);
    assert Path(known, Id(0, 1), Id(0, 1)) == [];
    assert Path(known, Id(1, 2), Id(0, 1)) == [Id(1, 2)] && Path(known, Id(1, 3), Id(0, 1)) == [Id(1, 3)];
  }
}
