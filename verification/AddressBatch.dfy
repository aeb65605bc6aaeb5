/** The sorted rows of a batch: strictly increasing keys, each from one transaction, and nothing lost. */
module AddressBatch {
  import opened Wrappers
  import opened Bytes
  import opened Seqs
  import opened TxCodec
  import opened AddressSpec
  import opened AddressRows

  function Measure(s: seq<Entry>, f: Row -> int): int {
    if s == [] then 0 else Measure(Front(s), f) + f(Last(s).row)
  }

  lemma {:induction false} MeasureConcat(s: seq<Entry>, t: seq<Entry>, f: Row -> int)
    ensures Measure(s + t, f) == Measure(s, f) + Measure(t, f)
  {
    if t == [] {
      assert s + t == s;
    } else {
      assert Front(s + t) == s + Front(t);
      MeasureConcat(s, Front(t), f);
    }
  }

  lemma {:induction false} MeasureTagged(rows: seq<Row>, block: Hash, f: Row -> int)
    ensures Measure(Tagged(rows, block), f) == Total(rows, f)
  {
    if rows != [] {
      MeasureTagged(Front(rows), block, f);
      assert Front(Tagged(rows, block)) == Tagged(Front(rows), block);
    }
  }

  lemma {:induction false} MeasureWithout(s: seq<Entry>, i: nat, f: Row -> int)
    requires i < |s|
    ensures Measure(s, f) == Measure(s[..i] + s[i + 1..], f) + f(s[i].row)
  {
    assert s == (s[..i] + [s[i]]) + s[i + 1..];
    MeasureConcat(s[..i] + [s[i]], s[i + 1..], f);
    MeasureConcat(s[..i], [s[i]], f);
    MeasureConcat(s[..i], s[i + 1..], f);
    assert Front([s[i]]) == [];
  }

  lemma {:induction false} MeasurePermuted(s: seq<Entry>, t: seq<Entry>, f: Row -> int)
    requires multiset(s) == multiset(t)
    ensures Measure(s, f) == Measure(t, f)
  {
    if s == [] {
      assert |multiset(t)| == 0;
    } else {
      var i := PlaceIn(s, t, |s| - 1);
      RemoveBoth(s, t, i);
      MeasurePermuted(Front(s), t[..i] + t[i + 1..], f);
      MeasureWithout(t, i, f);
    }
  }

  // ---------------------------------------------------------------- one row per key

  /** The transaction a key ends with. */
  predicate EndsWith(k: Key, txid: Hash) {
    |k| >= 32 && k[|k| - 32..] == txid
  }

  predicate OwnedBy(amends: seq<Row>, txid: Hash) {
    forall i :: 0 <= i < |amends| ==> EndsWith(amends[i].key, txid)
  }

  /** How often a transaction occurs in a block, and in a batch. */
  function Occurs(ids: seq<Hash>, txid: Hash): nat {
    if ids == [] then 0 else Occurs(Front(ids), txid) + if Last(ids) == txid then 1 else 0
  }

  function OccursInBatch(ids: seq<seq<Hash>>, txid: Hash): nat {
    if ids == [] then 0 else OccursInBatch(Front(ids), txid) + Occurs(Last(ids), txid)
  }

  predicate BlockOk(txs: seq<Option<seq<Row>>>, ids: seq<Hash>) {
    |txs| == |ids| && forall j :: 0 <= j < |txs| ==> Sorted(AmendsOf(txs[j])) && OwnedBy(AmendsOf(txs[j]), ids[j])
  }

  predicate BatchOk(txs: Batch, ids: seq<seq<Hash>>) {
    |txs| == |ids| && forall i :: 0 <= i < |txs| ==> BlockOk(txs[i], ids[i])
  }

  /** A transaction's rows have at most one of each key, and none of a key of another transaction. */
  lemma {:induction false} TransactionCount(amends: seq<Row>, id: Hash, k: Key, txid: Hash)
    requires Sorted(amends) && OwnedBy(amends, id) && EndsWith(k, txid)
    ensures Total(MergeRuns(amends), CountAt(k)) <= if id == txid then 1 else 0
  {
    MergedIncreases(amends);
    IncreasingCount(MergeRuns(amends), k);
    MergedKeys(amends, k);
    HasKeyAt(amends, k);
    if id != txid {
      assert forall i :: 0 <= i < |amends| ==> amends[i].key != k;
      NoKeyNoCount(MergeRuns(amends), k);
    }
  }

  lemma {:induction false} NoKeyNoCount(s: seq<Row>, k: Key)
    requires !HasKey(s, k)
    ensures Total(s, CountAt(k)) == 0
  {
    if s != [] {
      NoKeyNoCount(Front(s), k);
    }
  }

  lemma {:induction false} IncreasingCount(s: seq<Row>, k: Key)
    requires StrictlyIncreasing(s)
    ensures Total(s, CountAt(k)) <= 1
  {
    if s != [] {
      if Last(s).key == k {
        HasKeyAt(Front(s), k);
        forall j | 0 <= j < |Front(s)| ensures Front(s)[j].key != k {
          LessIsTotal(s[j].key, k);
        }
        NoKeyNoCount(Front(s), k);
      } else {
        IncreasingCount(Front(s), k);
      }
    }
  }

  lemma {:induction false} BlockKeyCount(txs: seq<Option<seq<Row>>>, ids: seq<Hash>, block: Hash, k: Key, txid: Hash)
    requires BlockOk(txs, ids) && EndsWith(k, txid)
    ensures Measure(BlockEntries(txs, block), CountAt(k)) <= Occurs(ids, txid)
  {
    if txs != [] {
      var rows := MergeRuns(AmendsOf(Last(txs)));
      BlockKeyCount(Front(txs), Front(ids), block, k, txid);
      MeasureConcat(BlockEntries(Front(txs), block), Tagged(rows, block), CountAt(k));
      MeasureTagged(rows, block, CountAt(k));
      TransactionCount(AmendsOf(Last(txs)), Last(ids), k, txid);
    }
  }

  lemma {:induction false} BatchKeyCount(txs: Batch, blocks: seq<Hash>, ids: seq<seq<Hash>>, k: Key, txid: Hash)
    requires BatchOk(txs, ids) && |txs| == |blocks| && EndsWith(k, txid)
    ensures Measure(BatchEntries(txs, blocks), CountAt(k)) <= OccursInBatch(ids, txid)
  {
    if txs != [] {
      BatchKeyCount(Front(txs), Front(blocks), Front(ids), k, txid);
      MeasureConcat(BatchEntries(Front(txs), Front(blocks)), BlockEntries(Last(txs), Last(blocks)), CountAt(k));
      BlockKeyCount(Last(txs), Last(ids), Last(blocks), k, txid);
    }
  }

  // ---------------------------------------------------------------- after the sort

  /** sort_unstable_by on the entries: some reordering in key order. */
  ghost predicate SortsEntries(sorted: seq<Entry>, s: seq<Entry>) {
    && multiset(sorted) == multiset(s)
    && forall i, j :: 0 <= i < j < |sorted| ==> !Less(sorted[j].row.key, sorted[i].row.key)
  }

  lemma {:induction false} CountAtLeast(s: seq<Entry>, i: nat, j: nat, k: Key)
    requires i < j < |s| && s[i].row.key == k && s[j].row.key == k
    ensures Measure(s, CountAt(k)) >= 2
  {
    var rest := s[..j] + s[j + 1..];
    MeasureWithout(s, j, CountAt(k));
    MeasureWithout(rest, i, CountAt(k));
    assert rest[i] == s[i];
    CountNonNegative(rest[..i] + rest[i + 1..], k);
  }

  lemma {:induction false} CountNonNegative(s: seq<Entry>, k: Key)
    ensures Measure(s, CountAt(k)) >= 0
  {
    if s != [] {
      CountNonNegative(Front(s), k);
    }
  }

  /** Every row stored comes from a transaction of the block it names. */
  lemma {:induction false} BlockOrigin(txs: seq<Option<seq<Row>>>, block: Hash, e: nat) returns (t: nat, r: nat)
    requires e < |BlockEntries(txs, block)|
    ensures t < |txs| && r < |MergeRuns(AmendsOf(txs[t]))|
    ensures BlockEntries(txs, block)[e] == Entry(MergeRuns(AmendsOf(txs[t]))[r], block)
  {
    var before := BlockEntries(Front(txs), block);
    if e < |before| {
      t, r := BlockOrigin(Front(txs), block, e);
    } else {
      t, r := |txs| - 1, e - |before|;
    }
  }

  lemma {:induction false} BatchOrigin(txs: Batch, blocks: seq<Hash>, e: nat) returns (b: nat, t: nat, r: nat)
    requires |txs| == |blocks| && e < |BatchEntries(txs, blocks)|
    ensures b < |txs| && t < |txs[b]| && r < |MergeRuns(AmendsOf(txs[b][t]))|
    ensures BatchEntries(txs, blocks)[e] == Entry(MergeRuns(AmendsOf(txs[b][t]))[r], blocks[b])
  {
    var before := BatchEntries(Front(txs), Front(blocks));
    if e < |before| {
      b, t, r := BatchOrigin(Front(txs), Front(blocks), e);
    } else {
      b := |txs| - 1;
      t, r := BlockOrigin(Last(txs), Last(blocks), e - |before|);
    }
  }

  lemma {:induction false} RowOrigin(txs: Batch, blocks: seq<Hash>, sorted: seq<Entry>, e: nat) returns (b: nat, t: nat, r: nat)
    requires |txs| == |blocks| && SortsEntries(sorted, BatchEntries(txs, blocks)) && e < |sorted|
    ensures b < |txs| && t < |txs[b]| && r < |MergeRuns(AmendsOf(txs[b][t]))|
    ensures sorted[e] == Entry(MergeRuns(AmendsOf(txs[b][t]))[r], blocks[b])
  {
    var i := PlaceIn(sorted, BatchEntries(txs, blocks), e);
    b, t, r := BatchOrigin(txs, blocks, i);
  }

  lemma {:induction false} RowEndsWithTransaction(txs: Batch, blocks: seq<Hash>, ids: seq<seq<Hash>>, sorted: seq<Entry>, e: nat)
      returns (txid: Hash)
    requires BatchOk(txs, ids) && |txs| == |blocks|
    requires SortsEntries(sorted, BatchEntries(txs, blocks)) && e < |sorted|
    ensures EndsWith(sorted[e].row.key, txid)
  {
    var b, t, r := RowOrigin(txs, blocks, sorted, e);
    var amends, k := AmendsOf(txs[b][t]), sorted[e].row.key;
    assert BlockOk(txs[b], ids[b]);
    HasKeyAt(MergeRuns(amends), k);
    MergedKeys(amends, k);
    HasKeyAt(amends, k);
    txid := ids[b][t];
  }

  /** If no transaction occurs twice in the batch, the keys written strictly increase, as ingestion needs. */
  lemma {:induction false} BatchIsStrict(txs: Batch, blocks: seq<Hash>, ids: seq<seq<Hash>>, sorted: seq<Entry>)
    requires BatchOk(txs, ids) && |txs| == |blocks|
    requires forall txid :: OccursInBatch(ids, txid) <= 1
    requires SortsEntries(sorted, BatchEntries(txs, blocks))
    ensures forall i, j :: 0 <= i < j < |sorted| ==> Less(sorted[i].row.key, sorted[j].row.key)
  {
    forall i, j | 0 <= i < j < |sorted| ensures Less(sorted[i].row.key, sorted[j].row.key) {
      var k := sorted[i].row.key;
      LessIsTotal(k, sorted[j].row.key);
      if sorted[j].row.key == k {
        var txid := RowEndsWithTransaction(txs, blocks, ids, sorted, i);
        CountAtLeast(sorted, i, j, k);
        MeasurePermuted(sorted, BatchEntries(txs, blocks), CountAt(k));
        BatchKeyCount(txs, blocks, ids, k, txid);
        assert false;
      }
    }
  }

  // ---------------------------------------------------------------- nothing lost

  function AmendsTotal(txs: seq<Option<seq<Row>>>): int {
    if txs == [] then 0 else AmendsTotal(Front(txs)) + Total(AmendsOf(Last(txs)), Amount())
  }

  function BatchTotal(txs: Batch): int {
    if txs == [] then 0 else BatchTotal(Front(txs)) + AmendsTotal(Last(txs))
  }

  lemma {:induction false} BlockTotals(txs: seq<Option<seq<Row>>>, block: Hash) returns (before: int, rows: int)
    requires txs != []
    ensures before == Measure(BlockEntries(Front(txs), block), Amount())
    ensures rows == Total(MergeRuns(AmendsOf(Last(txs))), Amount())
    ensures Measure(BlockEntries(txs, block), Amount()) == before + rows
  {
    before := Measure(BlockEntries(Front(txs), block), Amount());
    rows := Total(MergeRuns(AmendsOf(Last(txs))), Amount());
    MeasureConcat(BlockEntries(Front(txs), block), Tagged(MergeRuns(AmendsOf(Last(txs))), block), Amount());
    MeasureTagged(MergeRuns(AmendsOf(Last(txs))), block, Amount());
  }

  lemma {:induction false} BlockKeepsTotal(txs: seq<Option<seq<Row>>>, block: Hash)
    ensures Wrap64(Measure(BlockEntries(txs, block), Amount())) == Wrap64(AmendsTotal(txs))
  {
    if txs != [] {
      BlockKeepsTotal(Front(txs), block);
      MergedTotal(AmendsOf(Last(txs)));
      var before, rows := BlockTotals(txs, block);
      SumsAgree(Measure(BlockEntries(txs, block), Amount()), before, rows,
                AmendsTotal(txs), AmendsTotal(Front(txs)), Total(AmendsOf(Last(txs)), Amount()));
    }
  }

  lemma {:induction false} SumsAgree(all: int, before: int, last: int, total: int, totalBefore: int, totalLast: int)
    requires all == before + last && total == totalBefore + totalLast
    requires Wrap64(before) == Wrap64(totalBefore) && Wrap64(last) == Wrap64(totalLast)
    ensures Wrap64(all) == Wrap64(total)
  {
    WrapBoth(before, last, totalBefore, totalLast);
  }

  lemma {:induction false} BatchTotals(txs: Batch, blocks: seq<Hash>) returns (before: int, last: int)
    requires |txs| == |blocks| && txs != []
    ensures before == Measure(BatchEntries(Front(txs), Front(blocks)), Amount())
    ensures last == Measure(BlockEntries(Last(txs), Last(blocks)), Amount())
    ensures Measure(BatchEntries(txs, blocks), Amount()) == before + last
  {
    before := Measure(BatchEntries(Front(txs), Front(blocks)), Amount());
    last := Measure(BlockEntries(Last(txs), Last(blocks)), Amount());
    MeasureConcat(BatchEntries(Front(txs), Front(blocks)), BlockEntries(Last(txs), Last(blocks)), Amount());
  }

  lemma {:induction false} UnsortedKeepsTotal(txs: Batch, blocks: seq<Hash>)
    requires |txs| == |blocks|
    ensures Wrap64(Measure(BatchEntries(txs, blocks), Amount())) == Wrap64(BatchTotal(txs))
  {
    if txs != [] {
      UnsortedKeepsTotal(Front(txs), Front(blocks));
      BlockKeepsTotal(Last(txs), Last(blocks));
      var before, last := BatchTotals(txs, blocks);
      SumsAgree(Measure(BatchEntries(txs, blocks), Amount()), before, last,
                BatchTotal(txs), BatchTotal(Front(txs)), AmendsTotal(Last(txs)));
    }
  }

  /** The amounts written add up, in 64 bits, to all the amends of the batch. */
  lemma {:induction false} BatchKeepsTotal(txs: Batch, blocks: seq<Hash>, sorted: seq<Entry>)
    requires |txs| == |blocks| && SortsEntries(sorted, BatchEntries(txs, blocks))
    ensures Wrap64(Measure(sorted, Amount())) == Wrap64(BatchTotal(txs))
  {
    MeasurePermuted(sorted, BatchEntries(txs, blocks), Amount());
    UnsortedKeepsTotal(txs, blocks);
  }

  /** What serialize_address_amends hands over is sorted and belongs to its transaction. */
  lemma {:induction false} AmendsAreOk(spent: seq<TxOut>, outs: seq<TxOut>, timestamp: U64, txid: Hash, sorted: seq<Row>)
    requires IsSortOf(sorted, Amends(spent, outs, timestamp, txid))
    ensures Sorted(sorted) && OwnedBy(sorted, txid)
  {
    forall j | 0 <= j < |sorted| ensures EndsWith(sorted[j].key, txid) {
      AmendsHaveAddresses(spent, outs, timestamp, txid, sorted, j);
      var address :| sorted[j].key == KeyOf(address, timestamp, txid);
    }
  }

  // ---------------------------------------------------------------- the whole batch

  /** A transaction to be indexed: the outputs it spends, its own, the time of its block and its id. */
  datatype Spending = Spending(spent: seq<TxOut>, outs: seq<TxOut>, timestamp: U64, txid: Hash)

  function Ids(block: seq<Spending>): (ids: seq<Hash>)
    ensures |ids| == |block| && forall t :: 0 <= t < |block| ==> ids[t] == block[t].txid
  {
    if block == [] then [] else Ids(Front(block)) + [Last(block).txid]
  }

  function BatchIds(whole: seq<seq<Spending>>): (ids: seq<seq<Hash>>)
    ensures |ids| == |whole| && forall b :: 0 <= b < |whole| ==> ids[b] == Ids(whole[b])
  {
    if whole == [] then [] else BatchIds(Front(whole)) + [Ids(Last(whole))]
  }

  /** Every transaction's amends were serialized, each list sorted in whatever way. */
  ghost predicate Serializes(txs: Batch, whole: seq<seq<Spending>>) {
    && |txs| == |whole|
    && forall b :: 0 <= b < |txs| ==> BlockSerializes(txs[b], whole[b])
  }

  ghost predicate BlockSerializes(txs: seq<Option<seq<Row>>>, block: seq<Spending>) {
    && |txs| == |block|
    && forall t :: 0 <= t < |txs| ==> Serialized(txs[t], block[t])
  }

  ghost predicate Serialized(amends: Option<seq<Row>>, tx: Spending) {
    IsSortOf(AmendsOf(amends), Amends(tx.spent, tx.outs, tx.timestamp, tx.txid))
  }

  ghost predicate IsRowIn(r: Row, tx: Spending) {
    HasAddress(r, tx.spent, tx.outs, tx.timestamp, tx.txid)
  }

  /** An entry is a row of some transaction of the block it names. */
  ghost predicate ComesFrom(e: Entry, whole: seq<seq<Spending>>, blocks: seq<Hash>)
    requires |whole| == |blocks|
  {
    exists b, t :: 0 <= b < |whole| && 0 <= t < |whole[b]| && IsRowIn(e.row, whole[b][t]) && e.block == blocks[b]
  }

  lemma {:induction false} SerializedIsOk(txs: Batch, whole: seq<seq<Spending>>)
    requires Serializes(txs, whole)
    ensures BatchOk(txs, BatchIds(whole))
  {
    forall b | 0 <= b < |txs| ensures BlockOk(txs[b], BatchIds(whole)[b]) {
      assert BlockSerializes(txs[b], whole[b]);
      forall t | 0 <= t < |txs[b]| ensures Sorted(AmendsOf(txs[b][t])) && OwnedBy(AmendsOf(txs[b][t]), Ids(whole[b])[t]) {
        var tx := whole[b][t];
        assert Serialized(txs[b][t], tx);
        AmendsAreOk(tx.spent, tx.outs, tx.timestamp, tx.txid, AmendsOf(txs[b][t]));
      }
    }
  }

  lemma {:induction false} RowComesFrom(txs: Batch, whole: seq<seq<Spending>>, blocks: seq<Hash>, sorted: seq<Entry>, e: nat)
    requires Serializes(txs, whole) && |txs| == |blocks|
    requires SortsEntries(sorted, BatchEntries(txs, blocks)) && e < |sorted|
    ensures ComesFrom(sorted[e], whole, blocks)
  {
    var b, t, r := RowOrigin(txs, blocks, sorted, e);
    assert BlockSerializes(txs[b], whole[b]);
    var tx := whole[b][t];
    assert Serialized(txs[b][t], tx);
    RowsOfTransaction(tx.spent, tx.outs, tx.timestamp, tx.txid, AmendsOf(txs[b][t]));
    assert IsRowIn(sorted[e].row, tx);
  }

  lemma {:induction false} BlockReaches(txs: seq<Option<seq<Row>>>, block: Hash, t: nat, r: nat, rows: seq<Row>) returns (e: nat)
    requires t < |txs| && rows == MergeRuns(AmendsOf(txs[t])) && r < |rows|
    ensures e < |BlockEntries(txs, block)| && BlockEntries(txs, block)[e] == Entry(rows[r], block)
  {
    var before, last := BlockEntries(Front(txs), block), Tagged(MergeRuns(AmendsOf(Last(txs))), block);
    if t == |txs| - 1 {
      assert last[r] == Entry(rows[r], block);
      InSecond(before, last, r);
      e := |before| + r;
    } else {
      e := BlockReaches(Front(txs), block, t, r, rows);
      InFirst(before, last, e);
    }
  }

  lemma {:induction false} BatchReaches(txs: Batch, blocks: seq<Hash>, b: nat, t: nat, r: nat, rows: seq<Row>)
    requires |txs| == |blocks| && b < |txs| && t < |txs[b]| && rows == MergeRuns(AmendsOf(txs[b][t])) && r < |rows|
    ensures Entry(rows[r], blocks[b]) in BatchEntries(txs, blocks)
  {
    var front, frontBlocks := Front(txs), Front(blocks);
    if b == |txs| - 1 {
      var e := BlockReaches(Last(txs), Last(blocks), t, r, rows);
      LastReaches(txs, blocks, Entry(rows[r], blocks[b]));
    } else {
      assert front[b] == txs[b] && frontBlocks[b] == blocks[b];
      BatchReaches(front, frontBlocks, b, t, r, rows);
      FrontReaches(txs, blocks, Entry(rows[r], blocks[b]));
    }
  }

  lemma {:induction false} LastReaches(txs: Batch, blocks: seq<Hash>, e: Entry)
    requires |txs| == |blocks| > 0 && e in BlockEntries(Last(txs), Last(blocks))
    ensures e in BatchEntries(txs, blocks)
  {
  }

  lemma {:induction false} FrontReaches(txs: Batch, blocks: seq<Hash>, e: Entry)
    requires |txs| == |blocks| > 0 && e in BatchEntries(Front(txs), Front(blocks))
    ensures e in BatchEntries(txs, blocks)
  {
  }

  /** Some entry has the key, and names the block. */
  ghost predicate IsStored(sorted: seq<Entry>, k: Key, block: Hash) {
    exists e :: 0 <= e < |sorted| && sorted[e].row.key == k && sorted[e].block == block
  }

  lemma {:induction false} AmendIsStored(txs: Batch, whole: seq<seq<Spending>>, blocks: seq<Hash>, sorted: seq<Entry>,
                                         b: nat, t: nat, k: Key)
    requires Serializes(txs, whole) && |txs| == |blocks| && SortsEntries(sorted, BatchEntries(txs, blocks))
    requires b < |whole| && t < |whole[b]| && HasKey(MergeRuns(AmendsOf(txs[b][t])), k)
    ensures IsStored(sorted, k, blocks[b])
  {
    var rows := MergeRuns(AmendsOf(txs[b][t]));
    HasKeyAt(rows, k);
    var r :| 0 <= r < |rows| && rows[r].key == k;
    BatchReaches(txs, blocks, b, t, r, rows);
    var i :| 0 <= i < |BatchEntries(txs, blocks)| && BatchEntries(txs, blocks)[i] == Entry(rows[r], blocks[b]);
    var e := PlaceIn(BatchEntries(txs, blocks), sorted, i);
  }

  /** The transaction pays the address, or spends from it. */
  ghost predicate Touches(tx: Spending, address: seq<Byte>) {
    exists i :: 0 <= i < |tx.spent + tx.outs| && AddressOf((tx.spent + tx.outs)[i].script) == Some(address)
  }

  lemma {:induction false} DeltasReach(outs: seq<TxOut>, sign: int, timestamp: U64, txid: Hash, i: nat) returns (d: nat)
    requires i < |outs| && AddressOf(outs[i].script).Some?
    ensures d < |Deltas(outs, sign, timestamp, txid)|
    ensures Deltas(outs, sign, timestamp, txid)[d].key == KeyOf(AddressOf(outs[i].script).value, timestamp, txid)
  {
    if i == |outs| - 1 {
      d := |Deltas(Front(outs), sign, timestamp, txid)|;
    } else {
      d := DeltasReach(Front(outs), sign, timestamp, txid, i);
    }
  }

  lemma {:induction false} TouchedIsAmended(tx: Spending, address: seq<Byte>) returns (j: nat)
    requires Touches(tx, address)
    ensures j < |Amends(tx.spent, tx.outs, tx.timestamp, tx.txid)|
    ensures Amends(tx.spent, tx.outs, tx.timestamp, tx.txid)[j].key == KeyOf(address, tx.timestamp, tx.txid)
  {
    var i :| 0 <= i < |tx.spent + tx.outs| && AddressOf((tx.spent + tx.outs)[i].script) == Some(address);
    if i < |tx.spent| {
      j := DeltasReach(tx.spent, -1, tx.timestamp, tx.txid, i);
    } else {
      j := DeltasReach(tx.outs, 1, tx.timestamp, tx.txid, i - |tx.spent|);
      j := |Deltas(tx.spent, -1, tx.timestamp, tx.txid)| + j;
    }
  }

  lemma {:induction false} TouchedIsStored(txs: Batch, whole: seq<seq<Spending>>, blocks: seq<Hash>, sorted: seq<Entry>,
                                           b: nat, t: nat, address: seq<Byte>)
    requires Serializes(txs, whole) && |txs| == |blocks| && SortsEntries(sorted, BatchEntries(txs, blocks))
    requires b < |whole| && t < |whole[b]| && Touches(whole[b][t], address)
    ensures IsStored(sorted, KeyOf(address, whole[b][t].timestamp, whole[b][t].txid), blocks[b])
  {
    var tx := whole[b][t];
    assert BlockSerializes(txs[b], whole[b]);
    assert Serialized(txs[b][t], tx);
    RowsOfTransaction(tx.spent, tx.outs, tx.timestamp, tx.txid, AmendsOf(txs[b][t]));
    var j := TouchedIsAmended(tx, address);
    AmendIsStored(txs, whole, blocks, sorted, b, t, KeyOf(address, tx.timestamp, tx.txid));
  }

  /**
   * The index rows of a batch in which no transaction occurs twice, however the lists were sorted: keys strictly
   * increase, every row is that of one transaction of the block it names with its net amount for the address,
   * and every address a transaction pays or spends from has its row.
   */
  lemma {:induction false} RowsOfBatch(txs: Batch, whole: seq<seq<Spending>>, blocks: seq<Hash>, sorted: seq<Entry>)
    requires Serializes(txs, whole) && |txs| == |blocks|
    requires forall txid :: OccursInBatch(BatchIds(whole), txid) <= 1
    requires SortsEntries(sorted, BatchEntries(txs, blocks))
    ensures forall i, j :: 0 <= i < j < |sorted| ==> Less(sorted[i].row.key, sorted[j].row.key)
    ensures forall e :: 0 <= e < |sorted| ==> ComesFrom(sorted[e], whole, blocks)
    ensures forall b, t, address :: 0 <= b < |whole| && 0 <= t < |whole[b]| && Touches(whole[b][t], address) ==>
              IsStored(sorted, KeyOf(address, whole[b][t].timestamp, whole[b][t].txid), blocks[b])
  {
    SerializedIsOk(txs, whole);
    BatchIsStrict(txs, blocks, BatchIds(whole), sorted);
    forall e | 0 <= e < |sorted| ensures ComesFrom(sorted[e], whole, blocks) {
      RowComesFrom(txs, whole, blocks, sorted, e);
    }
    forall b, t, address | 0 <= b < |whole| && 0 <= t < |whole[b]| && Touches(whole[b][t], address)
      ensures IsStored(sorted, KeyOf(address, whole[b][t].timestamp, whole[b][t].txid), blocks[b])
    {
      TouchedIsStored(txs, whole, blocks, sorted, b, t, address);
    }
  }

  /** In the rows of a batch, those of one address stand newest first. */
  lemma {:induction false} NewestFirst(txs: Batch, whole: seq<seq<Spending>>, blocks: seq<Hash>, sorted: seq<Entry>,
                                       address: seq<Byte>, i: nat, s: U64, x: Hash, j: nat, t: U64, y: Hash)
    requires Serializes(txs, whole) && |txs| == |blocks|
    requires forall txid :: OccursInBatch(BatchIds(whole), txid) <= 1
    requires SortsEntries(sorted, BatchEntries(txs, blocks)) && i < |sorted| && j < |sorted|
    requires sorted[i].row.key == KeyOf(address, s, x) && sorted[j].row.key == KeyOf(address, t, y)
    ensures s > t ==> i < j
    ensures i < j ==> s >= t
  {
    SerializedIsOk(txs, whole);
    BatchIsStrict(txs, blocks, BatchIds(whole), sorted);
    NewestStandsFirst(sorted, address, i, s, x, j, t, y);
  }

  lemma {:induction false} NewestStandsFirst(sorted: seq<Entry>, address: seq<Byte>, i: nat, s: U64, x: Hash, j: nat, t: U64, y: Hash)
    requires forall i, j :: 0 <= i < j < |sorted| ==> Less(sorted[i].row.key, sorted[j].row.key)
    requires i < |sorted| && j < |sorted|
    requires sorted[i].row.key == KeyOf(address, s, x) && sorted[j].row.key == KeyOf(address, t, y)
    ensures s > t ==> i < j
    ensures i < j ==> s >= t
  {
    var k, l := sorted[i].row.key, sorted[j].row.key;
    LessIsTotal(k, l);
    if s > t {
      NewerIsLess(address, s, x, t, y);
    }
    if s < t {
      NewerIsLess(address, t, y, s, x);
    }
  }
}
