/** The miner statistics the program keeps and updates. */
module MinerStats {
  import opened Bytes
  import opened Seqs
  import opened MinerSpec

  class Miners {
    /** The configured miners and the unknown one. */
    const miners: set<MinerId>
    const attribute: Attribution
    const storage: Storage
    var recent: seq<RecentBlock>
    var counts: map<MinerId, nat>
    var mined: map<MinerId, seq<Hash>>
    var blockMiners: map<Hash, MinerId>

    ghost function AsStats(): Stats
      reads this
    {
      Stats(recent, counts, mined, blockMiners)
    }

    /** Every block is attributed to a miner with a count. */
    ghost predicate Attributes() {
      AttributesTo(attribute, miners)
    }

    ghost predicate Valid()
      reads this
    {
      Attributes() && CountsAreTallies(AsStats(), miners)
    }

    constructor (miners: set<MinerId>, attribute: Attribution, storage: Storage)
      ensures this.miners == miners && this.attribute == attribute && this.storage == storage
    {
      this.miners, this.attribute, this.storage := miners, attribute, storage;
      recent, counts, mined, blockMiners := [], map[], map[], map[];
    }

    /** Pops the blocks that are no longer recent; no count goes below zero. */
    method PopOld(cutoff: nat)
      requires Valid()
      modifies this`recent, this`counts
      ensures Valid() && recent == DropOld(old(recent), cutoff)
    {
      while recent != [] && recent[0].timestamp < cutoff
        invariant Valid() && mined == old(mined) && blockMiners == old(blockMiners)
        invariant DropOld(recent, cutoff) == DropOld(old(recent), cutoff)
        decreases |recent|
      {
        var block := recent[0];
        PopTallies(recent);
        recent := recent[1..];
        counts := counts[block.miner := counts[block.miner] - 1];
      }
    }

    /** Adds one block to the lists, and to the window when it is recent. */
    method AddBlock(b: Block, cutoff: nat, attribute: Attribution)
      requires Valid() && AttributesTo(attribute, miners)
      modifies this
      ensures Valid()
      ensures recent == old(recent) + if b.timestamp >= cutoff then [AsRecent(b, attribute)] else []
      ensures mined == AddMined(old(mined), attribute(b.coinbase), b.hash)
      ensures blockMiners == old(blockMiners)[b.hash := attribute(b.coinbase)]
    {
      var id := attribute(b.coinbase);
      mined := AddMined(mined, id, b.hash);
      blockMiners := blockMiners[b.hash := id];
      if b.timestamp >= cutoff {
        PushRecent(AsRecent(b, attribute));
      } else {
        assert recent + [] == recent;
      }
    }

    method PushRecent(b: RecentBlock)
      requires Valid() && b.miner in miners
      modifies this`recent, this`counts
      ensures Valid() && recent == old(recent) + [b]
    {
      PushKeeps(AsStats(), miners, b);
      counts := counts[b.miner := counts[b.miner] + 1];
      recent := recent + [b];
    }

    /** The loop over a batch, or over a chain. */
    method AddBlocks(blocks: seq<Block>, cutoff: nat, attribute: Attribution)
      requires Valid() && AttributesTo(attribute, miners)
      modifies this
      ensures Valid() && HasAdded(old(AsStats()), AsStats(), blocks, cutoff, miners, attribute)
    {
      NothingAdded(AsStats(), cutoff, miners, attribute);
      assert blocks[..0] == [];
      for i := 0 to |blocks|
        invariant Valid() && HasAdded(old(AsStats()), AsStats(), blocks[..i], cutoff, miners, attribute)
      {
        assert Front(blocks[..i + 1]) == blocks[..i] && Last(blocks[..i + 1]) == blocks[i];
        ghost var before := AsStats();
        AddBlock(blocks[i], cutoff, attribute);
        OneAdded(old(AsStats()), before, AsStats(), blocks[..i + 1], cutoff, miners, attribute);
      }
      assert blocks[..|blocks|] == blocks;
    }

    /** callback_chain_extended, with the numbers as passed; the page is not modelled. */
    method ChainExtended(batch: seq<Block>, numbers: seq<nat>)
      requires Valid() && IsBatch(batch, numbers)
      modifies this
      ensures Valid() && AsStats() == Extended(old(AsStats()), batch, numbers, miners, attribute)
    {
      ghost var before := AsStats();
      var cutoff, passed := batch[|batch| - 1].timestamp - WINDOW, Numbered(batch, numbers);
      PopOld(cutoff);
      ghost var popped := AsStats();
      AddBlocks(passed, cutoff, attribute);
      IsExtended(before, popped, AsStats(), batch, numbers, passed, cutoff, miners, attribute);
    }

    /** recalculate_full_miner_stats over the fetched blocks of a chain, oldest first, by their stored texts. */
    method Recalculate(chain: seq<Block>)
      requires Attributes() && Dated(chain)
      modifies this
      ensures Valid() && AsStats() == Recomputed(chain, miners, Stored(attribute, storage))
    {
      CountAll(chain, Stored(attribute, storage));
    }

    method CountAll(chain: seq<Block>, stored: Attribution)
      requires Attributes() && AttributesTo(stored, miners) && Dated(chain)
      modifies this
      ensures Valid() && AsStats() == Recomputed(chain, miners, stored)
    {
      Clear();
      ghost var empty := AsStats();
      var cutoff := if chain == [] then 0 else chain[|chain| - 1].timestamp - WINDOW;
      AddBlocks(chain, cutoff, stored);
      RecomputedFrom(empty, AsStats(), chain, cutoff, miners, stored);
    }

    method Clear()
      requires Attributes()
      modifies this
      ensures Valid() && IsEmptied(AsStats(), miners)
    {
      recent, blockMiners := [], map[];
      mined := map m | m in miners :: [];
      counts := map m | m in miners :: 0;
    }
  }

  ghost predicate AttributesTo(attribute: Attribution, miners: set<MinerId>) {
    forall coinbase: seq<Byte> :: attribute(coinbase) in miners
  }

  predicate IsEmptied(s: Stats, miners: set<MinerId>) {
    && s.recent == [] && s.blockMiners == map[] && s.mined.Keys == miners
    && forall m :: m in miners ==> s.mined[m] == []
  }

  lemma {:induction false} RecomputedFrom(empty: Stats, s: Stats, chain: seq<Block>, cutoff: nat,
                                          miners: set<MinerId>, attribute: Attribution)
    requires Dated(chain) && cutoff == Cutoff(chain)
    requires IsEmptied(empty, miners) && CountsAreTallies(s, miners)
    requires HasAdded(empty, s, chain, cutoff, miners, attribute)
    ensures s == Recomputed(chain, miners, attribute)
  {
    forall m | m in miners ensures s.mined[m] == MinedBy(chain, m, attribute) {
      assert [] + MinedBy(chain, m, attribute) == MinedBy(chain, m, attribute);
    }
    assert [] + RecentOf(chain, cutoff, attribute) == RecentOf(chain, cutoff, attribute);
    IsRecomputed(s, chain, miners, attribute);
  }

  function AddMined(mined: map<MinerId, seq<Hash>>, id: MinerId, hash: Hash): map<MinerId, seq<Hash>> {
    if id in mined then mined[id := mined[id] + [hash]] else mined
  }

  /** Every miner's list has grown by its blocks. */
  ghost predicate MinedGrows(before: map<MinerId, seq<Hash>>, after: map<MinerId, seq<Hash>>, blocks: seq<Block>,
                             miners: set<MinerId>, attribute: Attribution) {
    && before.Keys == after.Keys == miners
    && forall m :: m in miners ==> after[m] == before[m] + MinedBy(blocks, m, attribute)
  }

  /** The blocks have gone into the window, the lists and the map. */
  ghost predicate HasAdded(before: Stats, after: Stats, blocks: seq<Block>, cutoff: nat, miners: set<MinerId>, attribute: Attribution) {
    && after.recent == before.recent + RecentOf(blocks, cutoff, attribute)
    && MinedGrows(before.mined, after.mined, blocks, miners, attribute)
    && after.blockMiners == Attributed(before.blockMiners, blocks, attribute)
  }

  lemma {:induction false} NothingAdded(s: Stats, cutoff: nat, miners: set<MinerId>, attribute: Attribution)
    requires s.mined.Keys == miners
    ensures HasAdded(s, s, [], cutoff, miners, attribute)
  {
  }

  lemma {:induction false} OneAdded(before: Stats, s: Stats, after: Stats, blocks: seq<Block>, cutoff: nat,
                                    miners: set<MinerId>, attribute: Attribution)
    requires blocks != [] && HasAdded(before, s, Front(blocks), cutoff, miners, attribute)
    requires attribute(Last(blocks).coinbase) in miners
    requires after.recent == s.recent + if Last(blocks).timestamp >= cutoff then [AsRecent(Last(blocks), attribute)] else []
    requires after.mined == AddMined(s.mined, attribute(Last(blocks).coinbase), Last(blocks).hash)
    requires after.blockMiners == s.blockMiners[Last(blocks).hash := attribute(Last(blocks).coinbase)]
    ensures HasAdded(before, after, blocks, cutoff, miners, attribute)
  {
    MinedStep(before.mined, s.mined, blocks, miners, attribute);
    ConcatAssociative(before.recent, RecentOf(Front(blocks), cutoff, attribute),
                      if Last(blocks).timestamp >= cutoff then [AsRecent(Last(blocks), attribute)] else []);
  }

  lemma {:induction false} MinedStep(before: map<MinerId, seq<Hash>>, mined: map<MinerId, seq<Hash>>, blocks: seq<Block>,
                                     miners: set<MinerId>, attribute: Attribution)
    requires blocks != [] && MinedGrows(before, mined, Front(blocks), miners, attribute)
    requires attribute(Last(blocks).coinbase) in miners
    ensures MinedGrows(before, AddMined(mined, attribute(Last(blocks).coinbase), Last(blocks).hash), blocks, miners, attribute)
  {
    var id, hash := attribute(Last(blocks).coinbase), Last(blocks).hash;
    var after := AddMined(mined, id, hash);
    forall m | m in miners ensures after[m] == before[m] + MinedBy(blocks, m, attribute) {
      ConcatAssociative(before[m], MinedBy(Front(blocks), m, attribute), if id == m then [hash] else []);
      if id != m {
        assert MinedBy(blocks, m, attribute) == MinedBy(Front(blocks), m, attribute) + [];
      }
    }
  }

  lemma {:induction false} PushKeeps(s: Stats, miners: set<MinerId>, b: RecentBlock)
    requires CountsAreTallies(s, miners) && b.miner in miners
    ensures CountsAreTallies(s.(counts := s.counts[b.miner := s.counts[b.miner] + 1], recent := s.recent + [b]), miners)
  {
    PushTallies(s.recent, b);
  }

  lemma {:induction false} IsExtended(before: Stats, popped: Stats, s: Stats, batch: seq<Block>, numbers: seq<nat>, passed: seq<Block>,
                                      cutoff: nat, miners: set<MinerId>, attribute: Attribution)
    requires IsBatch(batch, numbers) && passed == Numbered(batch, numbers) && cutoff == Cutoff(batch)
    requires before.mined.Keys == miners && CountsAreTallies(s, miners)
    requires popped == before.(recent := DropOld(before.recent, cutoff), counts := popped.counts)
    requires HasAdded(popped, s, passed, cutoff, miners, attribute)
    ensures s == Extended(before, batch, numbers, miners, attribute)
  {
    TalliesAre(s, miners);
  }

  lemma {:induction false} IsRecomputed(s: Stats, chain: seq<Block>, miners: set<MinerId>, attribute: Attribution)
    requires CountsAreTallies(s, miners) && Dated(chain)
    requires s.recent == RecentOf(chain, Cutoff(chain), attribute)
    requires forall m :: m in miners ==> s.mined[m] == MinedBy(chain, m, attribute)
    requires s.blockMiners == Attributed(map[], chain, attribute)
    ensures s == Recomputed(chain, miners, attribute)
  {
    TalliesAre(s, miners);
  }

  lemma {:induction false} TalliesAre(s: Stats, miners: set<MinerId>)
    requires CountsAreTallies(s, miners)
    ensures s.counts == Tallies(s.recent, miners)
  {
  }

  lemma {:induction false} TallyFromFront(recent: seq<RecentBlock>, m: MinerId)
    requires recent != []
    ensures Tally(recent, m) == (if recent[0].miner == m then 1 else 0) + Tally(recent[1..], m)
  {
    if |recent| == 1 {
      assert Front(recent) == [] && recent[1..] == [];
    } else {
      TallyFromFront(Front(recent), m);
      assert Front(recent)[1..] == Front(recent[1..]);
    }
  }

  lemma {:induction false} PopTallies(recent: seq<RecentBlock>)
    requires recent != []
    ensures forall m :: Tally(recent[1..], m) == Tally(recent, m) - if recent[0].miner == m then 1 else 0
  {
    forall m ensures Tally(recent[1..], m) == Tally(recent, m) - if recent[0].miner == m then 1 else 0 {
      TallyFromFront(recent, m);
    }
  }

  lemma {:induction false} PushTallies(recent: seq<RecentBlock>, b: RecentBlock)
    ensures forall m :: Tally(recent + [b], m) == Tally(recent, m) + if b.miner == m then 1 else 0
  {
    assert Front(recent + [b]) == recent;
  }
}
