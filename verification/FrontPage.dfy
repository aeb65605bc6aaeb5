/** The front page: the newest blocks and transactions, built from the store or kept up with new blocks. */
module FrontPage {
  import opened Bytes
  import opened Seqs
  import MinerSpec

  const BLOCKS_COUNT := 50
  const TXS_COUNT := 50

  datatype TxEntry = TxEntry(hash: Hash, value: nat, sizeWus: nat, fee: nat)

  /** A block, and whom it is credited to when it is put on the page. */
  datatype Block = Block(hash: Hash, number: nat, timestamp: nat, txs: seq<TxEntry>, credit: MinerSpec.Credit)

  datatype ShortBlock =
    ShortBlock(number: nat, hash: Hash, txCount: nat, rewardSats: nat, timestamp: nat, credit: MinerSpec.Credit)

  /** What the miner statistics say of every block at some time. */
  type Credits = Hash -> MinerSpec.Credit

  datatype ShortTx = ShortTx(hash: Hash, value: nat, sizeWus: nat, blockNumber: nat, blockHash: Hash, fee: nat, timestamp: nat)

  function Short(b: Block): ShortBlock
    requires b.txs != []
  {
    ShortBlock(b.number, b.hash, |b.txs|, b.txs[0].value, b.timestamp, b.credit)
  }

  function ShortOf(b: Block, tx: TxEntry): ShortTx {
    ShortTx(tx.hash, tx.value, tx.sizeWus, b.number, b.hash, tx.fee, b.timestamp)
  }

  function ShortTxs(b: Block, n: nat): (s: seq<ShortTx>)
    requires n <= |b.txs|
    ensures |s| == n && forall i :: 0 <= i < n ==> s[i] == ShortOf(b, b.txs[i])
  {
    if n == 0 then [] else ShortTxs(b, n - 1) + [ShortOf(b, b.txs[n - 1])]
  }

  /** Every block has a transaction; the code reads the first one. */
  predicate HaveTxs(blocks: seq<Block>) {
    forall i :: 0 <= i < |blocks| ==> blocks[i].txs != []
  }

  function Min(a: nat, b: nat): nat {
    if a < b then a else b
  }

  function Take<T>(s: seq<T>, n: nat): seq<T> {
    s[..Min(n, |s|)]
  }

  // ---------------------------------------------------------------- what the page shows

  /** All blocks of a chain, newest first; a chain is listed oldest first. */
  function AllBlocks(chain: seq<Block>): (s: seq<ShortBlock>)
    requires HaveTxs(chain)
    ensures |s| == |chain|
  {
    if chain == [] then [] else [Short(Last(chain))] + AllBlocks(Front(chain))
  }

  /** All transactions of a chain, newest block first, in block order. */
  function AllTxs(chain: seq<Block>): seq<ShortTx> {
    if chain == [] then [] else ShortTxs(Last(chain), |Last(chain).txs|) + AllTxs(Front(chain))
  }

  datatype Page = Page(blocks: seq<ShortBlock>, txs: seq<ShortTx>)

  function WithCredit(b: Block, credits: Credits): Block {
    b.(credit := credits(b.hash))
  }

  /** A chain with the credits of one time. */
  function Credited(chain: seq<Block>, credits: Credits): (s: seq<Block>)
    ensures |s| == |chain| && forall i :: 0 <= i < |s| ==> s[i] == WithCredit(chain[i], credits)
  {
    seq(|chain|, i requires 0 <= i < |chain| => WithCredit(chain[i], credits))
  }

  /** The page of a chain: its latest 50 blocks and its latest 50 transactions. */
  function PageOf(chain: seq<Block>): Page
    requires HaveTxs(chain)
  {
    Page(Take(AllBlocks(chain), BLOCKS_COUNT), Take(AllTxs(chain), TXS_COUNT))
  }

  lemma {:induction false} TakeConcat<T>(a: seq<T>, b: seq<T>, n: nat)
    ensures Take(a + b, n) == Take(a, n) + Take(b, n - |Take(a, n)|)
    ensures Take(a + Take(b, n), n) == Take(a + b, n)
  {
    if n <= |a| {
      assert Take(a + b, n) == Take(a, n);
    } else {
      assert Take(a, n) == a;
    }
  }

  lemma {:induction false} AllConcat(a: seq<Block>, b: seq<Block>)
    requires HaveTxs(a) && HaveTxs(b)
    ensures HaveTxs(a + b)
    ensures AllBlocks(a + b) == AllBlocks(b) + AllBlocks(a)
    ensures AllTxs(a + b) == AllTxs(b) + AllTxs(a)
  {
    if b == [] {
      assert a + b == a;
    } else {
      assert Front(a + b) == a + Front(b) && Last(a + b) == Last(b);
      AllConcat(a, Front(b));
      ConcatAssociative([Short(Last(b))], AllBlocks(Front(b)), AllBlocks(a));
      ConcatAssociative(ShortTxs(Last(b), |Last(b).txs|), AllTxs(Front(b)), AllTxs(a));
    }
  }

  /** The k-th block shown is the k-th from the top: its number, hash, transactions, reward, time and credit. */
  lemma {:induction false} BlockShown(chain: seq<Block>, k: nat)
    requires HaveTxs(chain) && k < |chain|
    ensures |PageOf(chain).blocks| == if |chain| < 50 then |chain| else 50
    ensures k < 50 ==>
              var b := chain[|chain| - 1 - k];
              b.txs != [] && PageOf(chain).blocks[k] == ShortBlock(b.number, b.hash, |b.txs|, b.txs[0].value, b.timestamp, b.credit)
  {
    AllBlocksAt(chain, k);
  }

  lemma {:induction false} AllBlocksAt(chain: seq<Block>, k: nat)
    requires HaveTxs(chain) && k < |chain|
    ensures AllBlocks(chain)[k] == Short(chain[|chain| - 1 - k])
  {
    if k > 0 {
      AllBlocksAt(Front(chain), k - 1);
    }
  }

  /** The transactions shown begin with those of the top block, each with its own fields and those of its block. */
  lemma {:induction false} TxShown(chain: seq<Block>, k: nat)
    requires HaveTxs(chain) && chain != [] && k < |Last(chain).txs| && k < 50
    ensures |PageOf(chain).txs| <= 50
    ensures var b := Last(chain); var tx := b.txs[k];
      && k < |PageOf(chain).txs|
      && PageOf(chain).txs[k] == ShortTx(tx.hash, tx.value, tx.sizeWus, b.number, b.hash, tx.fee, b.timestamp)
  {
  }

  /** They go on with those of the block below, up to fifty. */
  lemma {:induction false} TxsShown(chain: seq<Block>, k: nat)
    requires HaveTxs(chain) && chain != [] && k < |AllTxs(Front(chain))|
    ensures PageOf(chain).txs == if |AllTxs(chain)| < 50 then AllTxs(chain) else AllTxs(chain)[..50]
    ensures |AllTxs(chain)| == |Last(chain).txs| + |AllTxs(Front(chain))|
    ensures AllTxs(chain)[|Last(chain).txs| + k] == AllTxs(Front(chain))[k]
  {
    var top, rest := ShortTxs(Last(chain), |Last(chain).txs|), AllTxs(Front(chain));
    assert AllTxs(chain) == top + rest;
  }

  /** The new blocks' part of the page, filled up from the page before. */
  function Updated(page: Page, batch: seq<Block>): Page
    requires HaveTxs(batch)
  {
    var latest := PageOf(batch);
    Page(latest.blocks + Take(page.blocks, BLOCKS_COUNT - |latest.blocks|), latest.txs + Take(page.txs, TXS_COUNT - |latest.txs|))
  }

  lemma {:induction false} TakeTwice<T>(s: seq<T>, m: nat, n: nat)
    requires m <= n
    ensures Take(Take(s, n), m) == Take(s, m)
  {
  }

  /** Keeping the page of a chain up with a batch gives the page of the longer chain. */
  lemma {:induction false} UpdateIsRegenerate(chain: seq<Block>, batch: seq<Block>)
    requires HaveTxs(chain) && HaveTxs(batch)
    ensures HaveTxs(chain + batch)
    ensures Updated(PageOf(chain), batch) == PageOf(chain + batch)
  {
    AllConcat(chain, batch);
    TakeConcat(AllBlocks(batch), AllBlocks(chain), BLOCKS_COUNT);
    TakeConcat(AllTxs(batch), AllTxs(chain), TXS_COUNT);
    TakeTwice(AllBlocks(chain), BLOCKS_COUNT - |PageOf(batch).blocks|, BLOCKS_COUNT);
    TakeTwice(AllTxs(chain), TXS_COUNT - |PageOf(batch).txs|, TXS_COUNT);
  }

  /** With a transaction in every block, a list of blocks is never longer than the transactions in it. */
  lemma {:induction false} MoreTxsThanBlocks(chain: seq<Block>)
    requires HaveTxs(chain)
    ensures |AllBlocks(chain)| <= |AllTxs(chain)|
  {
    if chain != [] {
      MoreTxsThanBlocks(Front(chain));
    }
  }

  // ---------------------------------------------------------------- credits that have moved on

  lemma {:induction false} CreditedTxs(chain: seq<Block>, credits: Credits)
    ensures AllTxs(Credited(chain, credits)) == AllTxs(chain)
  {
    if chain != [] {
      assert Front(Credited(chain, credits)) == Credited(Front(chain), credits);
      assert Last(Credited(chain, credits)) == WithCredit(Last(chain), credits);
      var b, c := Last(chain), WithCredit(Last(chain), credits);
      assert ShortTxs(c, |c.txs|) == ShortTxs(b, |b.txs|);
      CreditedTxs(Front(chain), credits);
    }
  }

  /** The blocks from a place on that the page shows are credited as they are now. */
  ghost predicate AreCurrent(chain: seq<Block>, from: int, credits: Credits) {
    forall i :: 0 <= i < |chain| && from <= i ==> chain[i].credit == credits(chain[i].hash)
  }

  /** A page is the one generated now exactly when the credits of the blocks it shows have not moved on. */
  lemma {:induction false} IsCurrentIff(chain: seq<Block>, credits: Credits)
    requires HaveTxs(chain)
    ensures HaveTxs(Credited(chain, credits))
    ensures PageOf(chain) == PageOf(Credited(chain, credits)) <==> AreCurrent(chain, |chain| - BLOCKS_COUNT, credits)
  {
    var now := Credited(chain, credits);
    CreditedTxs(chain, credits);
    var newest, kept := PageOf(now).blocks, PageOf(chain).blocks;
    forall k | 0 <= k < |newest|
      ensures newest[k] == kept[k] <==> chain[|chain| - 1 - k].credit == credits(chain[|chain| - 1 - k].hash)
    {
      AllBlocksAt(chain, k);
      AllBlocksAt(now, k);
    }
    if PageOf(chain) == PageOf(now) {
      forall i | 0 <= i < |chain| && |chain| - BLOCKS_COUNT <= i ensures chain[i].credit == credits(chain[i].hash) {
        assert newest[|chain| - 1 - i] == kept[|chain| - 1 - i];
      }
    }
    if AreCurrent(chain, |chain| - BLOCKS_COUNT, credits) {
      assert newest == kept;
    }
  }

  /**
   * Updating a page with a batch gives the page generated of the longer chain exactly when the older blocks still on it
   * are credited as before: they are copied with the miner and share they had.
   */
  lemma {:induction false} UpdateIsRegenerateIff(chain: seq<Block>, batch: seq<Block>, credits: Credits)
    requires HaveTxs(chain) && HaveTxs(batch)
    ensures HaveTxs(Credited(batch, credits)) && HaveTxs(Credited(chain + batch, credits))
    ensures Updated(PageOf(chain), Credited(batch, credits)) == PageOf(Credited(chain + batch, credits))
            <==> AreCurrent(chain, |chain + batch| - BLOCKS_COUNT, credits)
  {
    var kept := chain + Credited(batch, credits);
    UpdateIsRegenerate(chain, Credited(batch, credits));
    IsCurrentIff(kept, credits);
    assert Credited(kept, credits) == Credited(chain + batch, credits);
    assert forall i :: 0 <= i < |chain| ==> kept[i] == chain[i];
    CurrentConcat(chain, batch, |chain + batch| - BLOCKS_COUNT, credits);
  }

  lemma {:induction false} CurrentConcat(chain: seq<Block>, batch: seq<Block>, from: int, credits: Credits)
    ensures AreCurrent(chain + Credited(batch, credits), from, credits) <==> AreCurrent(chain, from, credits)
  {
    var kept := chain + Credited(batch, credits);
    assert forall i :: 0 <= i < |chain| ==> kept[i] == chain[i];
    forall i | |chain| <= i < |kept| ensures kept[i].credit == credits(kept[i].hash) {
      assert kept[i] == WithCredit(batch[i - |chain|], credits);
    }
  }

  // ---------------------------------------------------------------- the loops

  class FrontPageData {
    var latestBlocks: seq<ShortBlock>
    var latestTxs: seq<ShortTx>

    constructor ()
      ensures AsPage() == PageOf([])
    {
      latestBlocks, latestTxs := [], [];
    }

    function AsPage(): Page
      reads this
    {
      Page(latestBlocks, latestTxs)
    }

    /** Builds the lists newest first until both are full or the blocks run out. The subtractions need the bounds. */
    method Collect(chain: seq<Block>, credits: Credits) returns (latest: Page)
      requires HaveTxs(chain)
      ensures HaveTxs(Credited(chain, credits)) && latest == PageOf(Credited(chain, credits))
      ensures |latest.blocks| <= BLOCKS_COUNT && |latest.txs| <= TXS_COUNT
    {
      var blocks: seq<ShortBlock>, txs: seq<ShortTx> := [], [];
      var i := |chain|;
      ghost var all := Credited(chain, credits);
      ghost var page := PageOf(all);
      NothingCollected(all, page);
      assert all[..i] == all;
      while i > 0
        invariant 0 <= i <= |chain| && |blocks| == |chain| - i
        invariant |blocks| <= |txs| <= TXS_COUNT
        invariant Collected(page, all[..i], blocks, txs)
      {
        if |blocks| == BLOCKS_COUNT && |txs| == TXS_COUNT {
          break;
        }
        var b := WithCredit(chain[i - 1], credits);
        var missing := Min(TXS_COUNT - |txs|, |b.txs|);
        assert Front(all[..i]) == all[..i - 1] && Last(all[..i]) == b;
        CollectOne(page, all[..i], blocks, txs);
        blocks := blocks + [Short(b)];
        txs := txs + ShortTxs(b, missing);
        i := i - 1;
      }
      AllCollected(page, all[..i], blocks, txs);
      latest := Page(blocks, txs);
    }

    /** generate_frontpage_data */
    method Generate(chain: seq<Block>, credits: Credits)
      requires HaveTxs(chain)
      modifies this
      ensures HaveTxs(Credited(chain, credits)) && AsPage() == PageOf(Credited(chain, credits))
    {
      var latest := Collect(chain, credits);
      latestBlocks, latestTxs := latest.blocks, latest.txs;
    }

    /** update_frontpage_data, for the blocks of a batch, oldest first */
    method Update(batch: seq<Block>, credits: Credits)
      requires HaveTxs(batch)
      modifies this
      ensures HaveTxs(Credited(batch, credits)) && AsPage() == Updated(old(AsPage()), Credited(batch, credits))
      ensures |latestBlocks| <= BLOCKS_COUNT && |latestTxs| <= TXS_COUNT
    {
      var latest := Collect(batch, credits);
      var missingBlocks, missingTxs := BLOCKS_COUNT - |latest.blocks|, TXS_COUNT - |latest.txs|;
      var blocks, txs := latest.blocks, latest.txs;
      if missingBlocks != 0 {
        blocks := blocks + latestBlocks[..Min(missingBlocks, |latestBlocks|)];
      }
      if missingTxs != 0 {
        txs := txs + latestTxs[..Min(missingTxs, |latestTxs|)];
      }
      latestBlocks, latestTxs := blocks, txs;
    }
  }

  /** The page is what has been collected and the rest of the chain's part of it. */
  predicate Collected(page: Page, rest: seq<Block>, blocks: seq<ShortBlock>, txs: seq<ShortTx>) {
    && HaveTxs(rest) && |blocks| <= BLOCKS_COUNT && |txs| <= TXS_COUNT
    && page.blocks == blocks + Take(AllBlocks(rest), BLOCKS_COUNT - |blocks|)
    && page.txs == txs + Take(AllTxs(rest), TXS_COUNT - |txs|)
  }

  lemma {:induction false} NothingCollected(chain: seq<Block>, page: Page)
    requires HaveTxs(chain) && page == PageOf(chain)
    ensures Collected(page, chain, [], [])
  {
  }

  lemma {:induction false} AllCollected(page: Page, rest: seq<Block>, blocks: seq<ShortBlock>, txs: seq<ShortTx>)
    requires Collected(page, rest, blocks, txs)
    requires rest == [] || (|blocks| == BLOCKS_COUNT && |txs| == TXS_COUNT)
    ensures Page(blocks, txs) == page
  {
    assert blocks + [] == blocks && txs + [] == txs;
  }

  lemma {:induction false} CollectOne(page: Page, rest: seq<Block>, blocks: seq<ShortBlock>, txs: seq<ShortTx>)
    requires rest != [] && Collected(page, rest, blocks, txs) && |blocks| < BLOCKS_COUNT
    ensures var b := Last(rest);
      Collected(page, Front(rest), blocks + [Short(b)], txs + ShortTxs(b, Min(TXS_COUNT - |txs|, |b.txs|)))
  {
    OneBlock(blocks, Last(rest), AllBlocks(Front(rest)));
    BlockTxs(txs, Last(rest), AllTxs(Front(rest)));
  }

  lemma {:induction false} OneBlock(blocks: seq<ShortBlock>, b: Block, rest: seq<ShortBlock>)
    requires b.txs != [] && |blocks| < BLOCKS_COUNT
    ensures blocks + Take([Short(b)] + rest, BLOCKS_COUNT - |blocks|)
         == (blocks + [Short(b)]) + Take(rest, BLOCKS_COUNT - |blocks + [Short(b)]|)
  {
    TakeConcat([Short(b)], rest, BLOCKS_COUNT - |blocks|);
    ConcatAssociative(blocks, [Short(b)], Take(rest, BLOCKS_COUNT - |blocks| - 1));
    assert Take([Short(b)], BLOCKS_COUNT - |blocks|) == [Short(b)];
  }

  lemma {:induction false} BlockTxs(txs: seq<ShortTx>, b: Block, rest: seq<ShortTx>)
    requires |txs| <= TXS_COUNT
    ensures var more := ShortTxs(b, Min(TXS_COUNT - |txs|, |b.txs|));
      txs + Take(ShortTxs(b, |b.txs|) + rest, TXS_COUNT - |txs|) == (txs + more) + Take(rest, TXS_COUNT - |txs + more|)
  {
    var n := TXS_COUNT - |txs|;
    var more := ShortTxs(b, Min(n, |b.txs|));
    TakeConcat(ShortTxs(b, |b.txs|), rest, n);
    assert Take(ShortTxs(b, |b.txs|), n) == more;
    ConcatAssociative(txs, more, Take(rest, n - |more|));
  }

  // ---------------------------------------------------------------- whole runs

  function UpdatedAll(page: Page, batches: seq<seq<Block>>): Page
    requires forall i :: 0 <= i < |batches| ==> HaveTxs(batches[i])
    decreases |batches|
  {
    if batches == [] then page else UpdatedAll(Updated(page, batches[0]), batches[1..])
  }

  /** However a chain was cut into batches, the page is that of the whole chain. */
  lemma {:induction false} BatchingDoesNotMatter(chain: seq<Block>, batches: seq<seq<Block>>)
    requires HaveTxs(chain) && forall i :: 0 <= i < |batches| ==> HaveTxs(batches[i])
    ensures HaveTxs(chain + Flatten(batches))
    ensures UpdatedAll(PageOf(chain), batches) == PageOf(chain + Flatten(batches))
    decreases |batches|
  {
    if batches == [] {
      assert chain + Flatten(batches) == chain;
    } else {
      UpdateIsRegenerate(chain, batches[0]);
      ConcatAssociative(chain, batches[0], Flatten(batches[1..]));
      BatchingDoesNotMatter(chain + batches[0], batches[1..]);
    }
  }

  /** However a chain was cut into batches, the page is the one generated now exactly when the credits of the blocks it
      shows have not moved on since they were put on it. */
  lemma {:induction false} RunIsCurrentIff(chain: seq<Block>, batches: seq<seq<Block>>, credits: Credits)
    requires HaveTxs(chain) && forall i :: 0 <= i < |batches| ==> HaveTxs(batches[i])
    ensures HaveTxs(Credited(chain + Flatten(batches), credits))
    ensures UpdatedAll(PageOf(chain), batches) == PageOf(Credited(chain + Flatten(batches), credits))
            <==> AreCurrent(chain + Flatten(batches), |chain + Flatten(batches)| - BLOCKS_COUNT, credits)
  {
    BatchingDoesNotMatter(chain, batches);
    IsCurrentIff(chain + Flatten(batches), credits);
  }
}
