/** Collecting the address rows of a batch of blocks. */
module AddressRows {
  import opened Wrappers
  import opened Bytes
  import opened Seqs
  import opened TxCodec
  import opened AddressSpec

  /** A list in memory of a fixed capacity. */
  class ArenaArray<T> {
    const cap: nat
    var items: seq<T>

    constructor (cap: nat)
      ensures this.cap == cap && items == []
    {
      this.cap := cap;
      items := [];
    }

    /** Panics when full. */
    method Push(item: T)
      requires |items| < cap
      modifies this
      ensures items == old(items) + [item]
    {
      items := items + [item];
    }

    /** Panics when empty. */
    method Pop() returns (item: T)
      requires items != []
      modifies this
      ensures item == Last(old(items)) && items == Front(old(items))
    {
      item := items[|items| - 1];
      items := items[..|items| - 1];
    }
  }

  // ---------------------------------------------------------------- the amends of one transaction

  /** Outputs with an address: script_has_address holds of them. */
  method CountAddresses(outs: seq<TxOut>, ghost sign: int, ghost timestamp: U64, ghost txid: Hash) returns (n: nat)
    ensures n == |Deltas(outs, sign, timestamp, txid)|
  {
    n := 0;
    assert outs[..0] == [];
    for i := 0 to |outs|
      invariant n == |Deltas(outs[..i], sign, timestamp, txid)|
    {
      assert Front(outs[..i + 1]) == outs[..i];
      if AddressOf(outs[i].script).Some? {
        n := n + 1;
      }
    }
    assert outs[..|outs|] == outs;
  }

  /** One of the two push loops of serialize_address_amends. */
  method PushDeltas(amends: ArenaArray<Row>, outs: seq<TxOut>, sign: int, timestamp: U64, txid: Hash)
    requires |amends.items| + |Deltas(outs, sign, timestamp, txid)| <= amends.cap
    modifies amends
    ensures amends.items == old(amends.items) + Deltas(outs, sign, timestamp, txid)
  {
    assert outs[..0] == [];
    for i := 0 to |outs|
      invariant amends.items == old(amends.items) + Deltas(outs[..i], sign, timestamp, txid)
    {
      assert Front(outs[..i + 1]) == outs[..i];
      DeltasGrow(outs, sign, timestamp, txid, i + 1);
      var address := AddressOf(outs[i].script);
      if address.Some? {
        amends.Push(Row(KeyOf(address.value, timestamp, txid), Wrap64(sign * outs[i].value)));
      }
    }
    assert outs[..|outs|] == outs;
  }

  lemma {:induction false} DeltasGrow(outs: seq<TxOut>, sign: int, timestamp: U64, txid: Hash, i: nat)
    requires i <= |outs|
    ensures |Deltas(outs[..i], sign, timestamp, txid)| <= |Deltas(outs, sign, timestamp, txid)|
    decreases |outs| - i
  {
    if i < |outs| {
      DeltasGrow(outs, sign, timestamp, txid, i + 1);
      assert Front(outs[..i + 1]) == outs[..i];
    } else {
      assert outs[..i] == outs;
    }
  }

  /** serialize_address_amends before its sort; a coinbase transaction spends nothing. */
  method SerializeAddressAmends(spent: seq<TxOut>, outs: seq<TxOut>, coinbase: bool, timestamp: U64, txid: Hash)
      returns (r: Option<seq<Row>>)
    requires coinbase ==> spent == []
    ensures r.None? <==> Amends(spent, outs, timestamp, txid) == []
    ensures r.Some? ==> r.value == Amends(spent, outs, timestamp, txid)
  {
    var count := 0;
    if !coinbase {
      count := CountAddresses(spent, -1, timestamp, txid);
    }
    var more := CountAddresses(outs, 1, timestamp, txid);
    count := count + more;
    if count == 0 {
      return None;
    }
    var amends := new ArenaArray<Row>(count);
    PushDeltas(amends, spent, -1, timestamp, txid);
    PushDeltas(amends, outs, 1, timestamp, txid);
    return Some(amends.items);
  }

  // ---------------------------------------------------------------- the rows of a batch

  /** A row as it is stored: the block is part of the value. */
  datatype Entry = Entry(row: Row, block: Hash)

  /** The amends of each transaction of each block, already sorted. */
  type Batch = seq<seq<Option<seq<Row>>>>

  function Tagged(rows: seq<Row>, block: Hash): (s: seq<Entry>)
    ensures |s| == |rows| && forall i :: 0 <= i < |s| ==> s[i] == Entry(rows[i], block)
  {
    if rows == [] then [] else Tagged(Front(rows), block) + [Entry(Last(rows), block)]
  }

  function AmendsOf(tx: Option<seq<Row>>): seq<Row> {
    if tx.None? then [] else tx.value
  }

  function BlockEntries(txs: seq<Option<seq<Row>>>, block: Hash): seq<Entry> {
    if txs == [] then [] else BlockEntries(Front(txs), block) + Tagged(MergeRuns(AmendsOf(Last(txs))), block)
  }

  function BatchEntries(txs: Batch, blocks: seq<Hash>): seq<Entry>
    requires |txs| == |blocks|
  {
    if txs == [] then [] else BatchEntries(Front(txs), Front(blocks)) + BlockEntries(Last(txs), Last(blocks))
  }

  function BlockCount(txs: seq<Option<seq<Row>>>): nat {
    if txs == [] then 0 else BlockCount(Front(txs)) + |AmendsOf(Last(txs))|
  }

  function BatchCount(txs: Batch): nat {
    if txs == [] then 0 else BatchCount(Front(txs)) + BlockCount(Last(txs))
  }

  lemma {:induction false} BlockFits(txs: seq<Option<seq<Row>>>, block: Hash, i: nat)
    requires i <= |txs|
    ensures |BlockEntries(txs[..i], block)| <= BlockCount(txs[..i]) <= BlockCount(txs)
    decreases |txs| - i
  {
    BlockEntriesFit(txs[..i], block);
    if i < |txs| {
      BlockFits(txs, block, i + 1);
      assert Front(txs[..i + 1]) == txs[..i];
    } else {
      assert txs[..i] == txs;
    }
  }

  lemma {:induction false} BlockEntriesFit(txs: seq<Option<seq<Row>>>, block: Hash)
    ensures |BlockEntries(txs, block)| <= BlockCount(txs)
  {
    if txs != [] {
      BlockEntriesFit(Front(txs), block);
    }
  }

  lemma {:induction false} BatchFits(txs: Batch, blocks: seq<Hash>, i: nat)
    requires i <= |txs| == |blocks|
    ensures |BatchEntries(txs[..i], blocks[..i])| <= BatchCount(txs[..i]) <= BatchCount(txs)
    decreases |txs| - i
  {
    BatchEntriesFit(txs[..i], blocks[..i]);
    if i < |txs| {
      BatchFits(txs, blocks, i + 1);
      assert Front(txs[..i + 1]) == txs[..i];
    } else {
      assert txs[..i] == txs;
    }
  }

  lemma {:induction false} OneBlockFits(txs: Batch, blocks: seq<Hash>, i: nat)
    requires i < |txs| == |blocks|
    ensures |BatchEntries(txs[..i], blocks[..i])| + BlockCount(txs[i]) <= BatchCount(txs)
    ensures BatchEntries(txs[..i + 1], blocks[..i + 1]) == BatchEntries(txs[..i], blocks[..i]) + BlockEntries(txs[i], blocks[i])
  {
    BatchFits(txs, blocks, i);
    BatchFits(txs, blocks, i + 1);
    assert Front(txs[..i + 1]) == txs[..i] && Front(blocks[..i + 1]) == blocks[..i];
  }

  lemma {:induction false} BatchEntriesFit(txs: Batch, blocks: seq<Hash>)
    requires |txs| == |blocks|
    ensures |BatchEntries(txs, blocks)| <= BatchCount(txs)
  {
    if txs != [] {
      BatchEntriesFit(Front(txs), Front(blocks));
      BlockEntriesFit(Last(txs), Last(blocks));
    }
  }

  function LastKey(m: seq<Row>): Option<Key> {
    if m == [] then None else Some(Last(m).key)
  }

  /** What one turn of the merge loop leaves: a popped and a pushed row, or a pushed one. */
  function Turned(items: seq<Entry>, lastKey: Option<Key>, d: Row, block: Hash): seq<Entry> {
    if lastKey == Some(d.key) && items != [] then Front(items) + [Entry(Row(d.key, Wrap64(Last(items).row.amount + d.amount)), block)]
    else items + [Entry(d, block)]
  }

  /** One more amend merged is one turn of the loop on what was pushed. */
  lemma {:induction false} AddEntry(before: seq<Entry>, m: seq<Row>, d: Row, block: Hash)
    ensures m != [] ==> before + Tagged(m, block) != []
    ensures before + Tagged(AddRow(m, d), block) == Turned(before + Tagged(m, block), LastKey(m), d, block)
  {
    var items, tagged := before + Tagged(m, block), Tagged(m, block);
    if m != [] && Last(m).key == d.key {
      assert Last(items) == Last(tagged) == Entry(Last(m), block);
      assert Front(items) == before + Front(tagged);
      assert Front(tagged) == Tagged(Front(m), block);
    }
  }

  /** The merge loop on one transaction: the last row pushed is popped when the next amend has its key. */
  method PushMerged(result: ArenaArray<Entry>, amends: seq<Row>, block: Hash)
    requires |result.items| + |amends| <= result.cap
    modifies result
    ensures result.items == old(result.items) + Tagged(MergeRuns(amends), block)
  {
    var lastKey: Option<Key> := None;
    ghost var before := result.items;
    assert amends[..0] == [];
    for j := 0 to |amends|
      invariant result.items == before + Tagged(MergeRuns(amends[..j]), block)
      invariant lastKey == LastKey(MergeRuns(amends[..j]))
    {
      ghost var m := MergeRuns(amends[..j]);
      MergePrefix(amends, j);
      AddEntry(before, m, amends[j], block);
      PushOne(result, lastKey, amends[j], block);
      lastKey := Some(amends[j].key);
    }
    assert amends[..|amends|] == amends;
  }

  /** One turn of the merge loop. */
  method PushOne(result: ArenaArray<Entry>, lastKey: Option<Key>, d: Row, block: Hash)
    requires |result.items| < result.cap && (lastKey == Some(d.key) ==> result.items != [])
    modifies result
    ensures result.items == Turned(old(result.items), lastKey, d, block)
  {
    var amount := d.amount;
    if lastKey.Some? && lastKey.value == d.key {
      var prev := result.Pop();
      amount := Wrap64(prev.row.amount + amount);
    }
    result.Push(Entry(Row(d.key, amount), block));
  }

  lemma {:induction false} MergePrefix(s: seq<Row>, j: nat)
    requires j < |s|
    ensures MergeRuns(s[..j + 1]) == AddRow(MergeRuns(s[..j]), s[j])
    ensures LastKey(MergeRuns(s[..j + 1])) == Some(s[j].key) && |MergeRuns(s[..j])| <= j
  {
    assert Front(s[..j + 1]) == s[..j];
  }

  /** The counting loops, which give the capacity. */
  method CountAmends(txs: Batch) returns (count: nat)
    ensures count == BatchCount(txs)
  {
    count := 0;
    assert txs[..0] == [];
    for i := 0 to |txs|
      invariant count == BatchCount(txs[..i])
    {
      assert Front(txs[..i + 1]) == txs[..i];
      ghost var before := count;
      assert txs[i][..0] == [];
      for j := 0 to |txs[i]|
        invariant count == before + BlockCount(txs[i][..j])
      {
        assert Front(txs[i][..j + 1]) == txs[i][..j];
        if txs[i][j].Some? {
          count := count + |txs[i][j].value|;
        }
      }
      assert txs[i][..|txs[i]|] == txs[i];
    }
    assert txs[..|txs|] == txs;
  }

  /** The address part of write_analyzed_txs before its sort; no push finds the array full. */
  method CollectEntries(txs: Batch, blocks: seq<Hash>) returns (r: Option<seq<Entry>>)
    requires |txs| == |blocks|
    ensures r.None? <==> BatchCount(txs) == 0
    ensures r.Some? ==> r.value == BatchEntries(txs, blocks)
  {
    var count := CountAmends(txs);
    if count == 0 {
      return None;
    }
    var result := new ArenaArray<Entry>(count);
    assert txs[..0] == [] && blocks[..0] == [];
    for i := 0 to |txs|
      invariant result.items == BatchEntries(txs[..i], blocks[..i])
    {
      OneBlockFits(txs, blocks, i);
      PushBlock(result, txs[i], blocks[i]);
    }
    assert txs[..|txs|] == txs && blocks[..|blocks|] == blocks;
    return Some(result.items);
  }

  method PushBlock(result: ArenaArray<Entry>, txs: seq<Option<seq<Row>>>, block: Hash)
    requires |result.items| + BlockCount(txs) <= result.cap
    modifies result
    ensures result.items == old(result.items) + BlockEntries(txs, block)
  {
    ghost var before := result.items;
    assert txs[..0] == [];
    for j := 0 to |txs|
      invariant result.items == before + BlockEntries(txs[..j], block)
    {
      assert Front(txs[..j + 1]) == txs[..j];
      BlockFits(txs, block, j);
      BlockFits(txs, block, j + 1);
      ConcatAssociative(before, BlockEntries(txs[..j], block), Tagged(MergeRuns(AmendsOf(txs[j])), block));
      if txs[j].Some? {
        PushMerged(result, txs[j].value, block);
      }
    }
    assert txs[..|txs|] == txs;
  }
}
