/** What the chain watcher's queue makes of the miner statistics, and when they follow the top chain. */
module StatsFollow {
  import opened Bytes
  import opened Seqs
  import opened HeaderTree
  import opened ChainSpec
  import opened ApplyQueueSpec
  import opened Reorganisation
  import opened MinerSpec

  /** The fetched block of every hash. */
  type MinedStore = Hash -> MinerSpec.Block

  /** Numbers and dates are the headers', and no header is dated within two weeks of 1970. */
  ghost predicate Describes(store: MinedStore, known: Headers) {
    forall h :: h in known ==> IsBlockOf(store(h), h, known[h])
  }

  predicate IsBlockOf(b: MinerSpec.Block, h: Hash, k: Known) {
    b.hash == h && b.number == k.number && b.timestamp == k.header.timestamp && b.timestamp >= WINDOW
  }

  function MinedBlocks(hashes: seq<Hash>, store: MinedStore): (s: seq<MinerSpec.Block>)
    ensures |s| == |hashes| && forall i :: 0 <= i < |s| ==> s[i] == store(hashes[i])
  {
    seq(|hashes|, i requires 0 <= i < |hashes| => store(hashes[i]))
  }

  /** The blocks from genesis to a header, as get_blocks_with_timestamps_and_coinbase_asciis lists them once they are fetched. */
  ghost function MinedTo(known: Headers, h: Hash, store: MinedStore): (s: seq<MinerSpec.Block>)
    requires Tree(known) && h in known && Describes(store, known)
    ensures s != [] && Last(s) == store(h) && Dated(s)
  {
    assert IsBlockOf(store(h), h, known[h]);
    MinedBlocks(ChainTo(known, h), store)
  }

  lemma {:induction false} MinedToGrows(known: Headers, known': Headers, h: Hash, store: MinedStore)
    requires Tree(known) && Tree(known') && SameLinks(known, known') && Describes(store, known) && Describes(store, known')
    requires h in known' && Number(known', h) > 0 && Parent(known', h) in known
    ensures MinedTo(known', h, store) == MinedTo(known, Parent(known', h), store) + [store(h)]
  {
    ChainToFrame(known, known', Parent(known', h));
  }

  /** What statistics are recomputed with, and what new blocks are attributed by. */
  datatype Rules = Rules(miners: set<MinerId>, attribute: Attribution, storage: Storage)

  function StoredRule(r: Rules): Attribution {
    Stored(r.attribute, r.storage)
  }

  ghost function StatsTo(known: Headers, h: Hash, store: MinedStore, r: Rules): (s: Stats)
    requires Tree(known) && h in known && Describes(store, known)
    ensures s.mined.Keys == r.miners
  {
    Recomputed(MinedTo(known, h, store), r.miners, StoredRule(r))
  }

  /** The end of apply_block: recomputed for the block, or extended by it under the queued number. */
  ghost function StatsAfterEntry(s: Stats, e: Entry, known: Headers, store: MinedStore, r: Rules): (s': Stats)
    requires Tree(known) && e.hash in known && Describes(store, known) && s.mined.Keys == r.miners
    ensures s'.mined.Keys == r.miners
  {
    assert IsBlockOf(store(e.hash), e.hash, known[e.hash]);
    match e.strategy
    case RegenerateFromScratch => StatsTo(known, e.hash, store, r)
    case Append => Extended(s, [store(e.hash)], [e.number], r.miners, r.attribute)
  }

  ghost function StatsAfter(s: Stats, queue: seq<Entry>, known: Headers, store: MinedStore, r: Rules): (s': Stats)
    requires Tree(known) && AreKnown(queue, known) && Describes(store, known) && s.mined.Keys == r.miners
    ensures s'.mined.Keys == r.miners
  {
    if queue == [] then s else StatsAfterEntry(StatsAfter(s, Front(queue), known, store, r), Last(queue), known, store, r)
  }

  // ---------------------------------------------------------------- an extension

  lemma {:induction false} StatsAfterOne(s: Stats, e: Entry, known: Headers, store: MinedStore, r: Rules)
    requires Tree(known) && e.hash in known && Describes(store, known) && s.mined.Keys == r.miners && e.strategy.Append?
    ensures IsBatch([store(e.hash)], [e.number])
    ensures StatsAfter(s, [e], known, store, r) == Extended(s, [store(e.hash)], [e.number], r.miners, r.attribute)
  {
    assert IsBlockOf(store(e.hash), e.hash, known[e.hash]);
    assert Front([e]) == [];
  }

  /** The new block is attributed by its bytes as by its stored text, and moves the window on in order. */
  ghost predicate ExtendsWell(chain: seq<MinerSpec.Block>, b: MinerSpec.Block, r: Rules)
    requires Dated(chain) && Dated([b])
  {
    WindowMovesOn(chain, [b], StoredRule(r)) && r.attribute(b.coinbase) == StoredRule(r)(b.coinbase)
  }

  lemma {:induction false} ExtensionIff(chain: seq<MinerSpec.Block>, b: MinerSpec.Block, r: Rules)
    requires Dated(chain) && Dated([b])
    ensures Extended(Recomputed(chain, r.miners, StoredRule(r)), [b], [b.number], r.miners, r.attribute)
            == Recomputed(chain + [b], r.miners, StoredRule(r))
            <==> ExtendsWell(chain, b, r)
  {
    ExtendedIsRecomputedIff(chain, [b], [b.number], r.miners, r.attribute, r.storage);
    assert [b][0] == b;
  }

  // ---------------------------------------------------------------- a fork

  /** The last block of a branch is passed under a number that is not its own, and shows it. */
  lemma {:induction false} BranchIsMisnumbered(s: Stats, queue: seq<Entry>, known: Headers, store: MinedStore, r: Rules)
    requires Tree(known) && AreKnown(queue, known) && Describes(store, known) && s.mined.Keys == r.miners
    requires queue != [] && Last(queue).strategy.Append? && Last(queue).number != Number(known, Last(queue).hash)
    ensures var kept, recomputed := StatsAfter(s, queue, known, store, r).recent, StatsTo(known, Last(queue).hash, store, r).recent;
      && kept != [] && Last(kept).number == Last(queue).number
      && recomputed != [] && Last(recomputed).number == Number(known, Last(queue).hash)
  {
    var e := Last(queue);
    assert IsBlockOf(store(e.hash), e.hash, known[e.hash]);
    MisnumberedShows(StatsAfter(s, Front(queue), known, store, r), MinedTo(known, e.hash, store), store(e.hash), e.number,
                     r.miners, r.attribute, StoredRule(r));
  }

  lemma {:induction false} TwoLess(number: nat)
    requires 0 < number < 0x1_0000_0000_0000_0000
    ensures WrapU64(number - 2) != number
  {
  }

  // ---------------------------------------------------------------- a sibling

  /** The old top is not on the branch of a header that sits on one of its ancestors. */
  lemma {:induction false} OldTopIsGone(known: Headers, known': Headers, top: Hash, h: Hash, store: MinedStore)
    requires Tree(known) && Tree(known') && SameLinks(known, known') && Describes(store, known')
    requires top in known && h in known' && h !in known && Number(known', h) > 0 && Parent(known', h) in Ancestors(known, top)
    requires Parent(known', h) in known && Parent(known', h) != top
    ensures forall i :: 0 <= i < |MinedTo(known', h, store)| ==> MinedTo(known', h, store)[i].hash != top
  {
    var parent, hashes := Parent(known', h), ChainTo(known', h);
    AncestorsBelow(known, top);
    AncestorsBelow(known, parent);
    ChainToFrame(known, known', parent);
    forall i | 0 <= i < |hashes| ensures MinedTo(known', h, store)[i].hash != top {
      if i < |hashes| - 1 {
        ChainToIsBranch(known, parent, i);
        assert hashes[i] == ChainTo(known, parent)[i];
        assert hashes[i] in Ancestors(known, parent);
        assert IsBlockOf(store(hashes[i]), hashes[i], known'[hashes[i]]);
      } else {
        assert IsBlockOf(store(h), h, known'[h]);
      }
    }
  }

  lemma {:induction false} SiblingDiffers(known: Headers, known': Headers, top: Hash, e: Entry, store: MinedStore, r: Rules)
    requires Tree(known) && Tree(known') && SameLinks(known, known') && Describes(store, known) && Describes(store, known')
    requires top in known && e.hash in known' && e.hash !in known && Number(known', e.hash) > 0
    requires Parent(known', e.hash) in known && Parent(known', e.hash) in Ancestors(known, top) && Parent(known', e.hash) != top
    requires e.strategy.Append?
    ensures StatsAfter(StatsTo(known, top, store, r), [e], known', store, r) != StatsTo(known', e.hash, store, r)
  {
    assert IsBlockOf(store(e.hash), e.hash, known'[e.hash]) && IsBlockOf(store(top), top, known[top]);
    StatsAfterOne(StatsTo(known, top, store, r), e, known', store, r);
    OldTopIsGone(known, known', top, e.hash, store);
    ReplacedStaysCounted(MinedTo(known, top, store), MinedTo(known', e.hash, store), store(e.hash), e.number, r.miners, r.attribute,
                         StoredRule(r));
  }

  // ---------------------------------------------------------------- a header that takes over the top

  /**
   * Once the blocks of a new top are applied, statistics that were those of the old top are those of the new one exactly
   * when the new block extends the old top, moves the window on in order and is attributed by its bytes as by its stored
   * text. After a sibling the replaced block is still counted; after a longer fork the last block has a wrong number.
   */
  lemma {:induction false} StatsFollowIff(c: Chain, header: Header, rule: Rule, c1: Chain, out: Outcome, store: MinedStore, r: Rules)
    requires TakesOver(c, header, rule, c1, out) && c1.top.number < 0x1_0000_0000_0000_0000
    requires Describes(store, c.known) && Describes(store, c1.known)
    ensures Inv(c1) && header.hash in c1.known && AreKnown(QueuedFor(out, c1.top.number), c1.known)
    ensures Dated([store(header.hash)])
    ensures StatsAfter(StatsTo(c.known, c.top.header.hash, store, r), QueuedFor(out, c1.top.number), c1.known, store, r)
            == StatsTo(c1.known, header.hash, store, r)
            <==> && header.parent == c.top.header.hash
                 && ExtendsWell(MinedTo(c.known, c.top.header.hash, store), store(header.hash), r)
  {
    QueuedIs(c, header, rule, c1, out);
    assert IsBlockOf(store(header.hash), header.hash, c1.known[header.hash]);
    var queue, top := QueuedFor(out, c1.top.number), c.top.header.hash;
    AncestorsBelow(c.known, top);
    if header.parent !in c.mostWork {
      ForkDiffers(c, header, rule, c1, out, StatsTo(c.known, top, store, r), store, r);
    } else if header.parent == top {
      OwnNumber(c1, header.hash);
      StatsAfterOne(StatsTo(c.known, top, store, r), queue[0], c1.known, store, r);
      MinedToGrows(c.known, c1.known, header.hash, store);
      ExtensionIff(MinedTo(c.known, top, store), store(header.hash), r);
    } else {
      SiblingDiffers(c.known, c1.known, top, queue[0], store, r);
    }
  }

  lemma {:induction false} OwnNumber(c: Chain, h: Hash)
    requires Inv(c) && c.top.header.hash == h && c.top.number < 0x1_0000_0000_0000_0000
    ensures WrapU64(c.top.number) == Number(c.known, h)
  {
  }

  /** However long the fork, from two blocks on: its last block is passed under two less than its number, and shows that. */
  lemma {:induction false} ForkDiffers(c: Chain, header: Header, rule: Rule, c1: Chain, out: Outcome, s: Stats, store: MinedStore, r: Rules)
    requires TakesOver(c, header, rule, c1, out) && c1.top.number < 0x1_0000_0000_0000_0000 && header.parent !in c.mostWork
    requires Describes(store, c1.known) && s.mined.Keys == r.miners
    ensures Inv(c1) && header.hash in c1.known && AreKnown(QueuedFor(out, c1.top.number), c1.known)
    ensures var kept := StatsAfter(s, QueuedFor(out, c1.top.number), c1.known, store, r).recent;
            var recomputed := StatsTo(c1.known, header.hash, store, r).recent;
      && kept != [] && Last(kept).number == WrapU64(c1.top.number - 2)
      && recomputed != [] && Last(recomputed).number == c1.top.number && Last(kept).number != Last(recomputed).number
  {
    ForkEndsWith(c, header, rule, c1, out);
    TwoLess(c1.top.number);
    BranchIsMisnumbered(s, QueuedFor(out, c1.top.number), c1.known, store, r);
  }

  lemma {:induction false} ForkEndsWith(c: Chain, header: Header, rule: Rule, c1: Chain, out: Outcome)
    requires TakesOver(c, header, rule, c1, out) && header.parent !in c.mostWork
    ensures Inv(c1) && header.hash in c1.known && AreKnown(QueuedFor(out, c1.top.number), c1.known)
    ensures QueuedFor(out, c1.top.number) != []
    ensures Last(QueuedFor(out, c1.top.number)) == Entry(WrapU64(c1.top.number - 2), header.hash, Append)
    ensures 0 < c1.top.number == Number(c1.known, header.hash)
  {
    QueuedIs(c, header, rule, c1, out);
    var queue := QueuedFor(out, c1.top.number);
    var last := |queue| - 1;
    var height, less := QueuedHeight(c, header, rule, c1, out, last);
    assert IsNext(c1.known, queue[last - 1].hash, queue[last]);
  }
}
