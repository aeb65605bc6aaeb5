/** Writing records and outputs into buffers whose size was computed ahead. */
module RecordWriter {
  import opened Bytes
  import opened Seqs
  import opened VarInt
  import opened TxCodec

  function Overwrite(s: seq<Byte>, at: nat, data: seq<Byte>): (r: seq<Byte>)
    requires at + |data| <= |s|
    ensures |r| == |s|
  {
    seq(|s|, k requires 0 <= k < |s| => if at <= k < at + |data| then data[k - at] else s[k])
  }

  /** Writing next to what was written is writing both at once. */
  lemma {:induction false} OverwriteNext(s: seq<Byte>, at: nat, x: seq<Byte>, y: seq<Byte>)
    requires at + |x| + |y| <= |s|
    ensures Overwrite(Overwrite(s, at, x), at + |x|, y) == Overwrite(s, at, x + y)
  {
  }

  /** The first n items, one after another. */
  function ItemsTo<T>(encode: T -> seq<Byte>, items: seq<T>, n: nat): seq<Byte>
    requires n <= |items|
  {
    if n == 0 then [] else ItemsTo(encode, items, n - 1) + encode(items[n - 1])
  }

  lemma {:induction false} ItemsToFront<T>(encode: T -> seq<Byte>, items: seq<T>, n: nat)
    requires 0 < n <= |items|
    ensures ItemsTo(encode, items, n) == encode(items[0]) + ItemsTo(encode, items[1..], n - 1)
  {
    if n == 1 {
      assert ItemsTo(encode, items, 0) == [];
      assert [] + encode(items[0]) == encode(items[0]) + [];
    } else {
      ItemsToFront(encode, items, n - 1);
      ConcatAssociative(encode(items[0]), ItemsTo(encode, items[1..], n - 2), encode(items[n - 1]));
    }
  }

  lemma {:induction false} AllItems<T>(encode: T -> seq<Byte>, items: seq<T>)
    ensures ItemsTo(encode, items, |items|) == EncodeItems(encode, items)
  {
    if items != [] {
      ItemsToFront(encode, items, |items|);
      AllItems(encode, items[1..]);
    }
  }

  lemma {:induction false} ItemsToFits<T>(encode: T -> seq<Byte>, items: seq<T>, n: nat, m: nat)
    requires n <= m <= |items|
    ensures |ItemsTo(encode, items, n)| <= |ItemsTo(encode, items, m)|
  {
    if n < m {
      ItemsToFits(encode, items, n, m - 1);
    }
  }

  /** One more item written after the others. */
  lemma {:induction false} ItemStep<T>(encode: T -> seq<Byte>, items: seq<T>, i: nat, before: seq<Byte>, at: nat)
    requires i < |items| && at + |ItemsTo(encode, items, |items|)| <= |before|
    ensures var done, item, more := ItemsTo(encode, items, i), encode(items[i]), ItemsTo(encode, items, i + 1);
      && |more| == |done| + |item| && at + |more| <= |before|
      && Overwrite(Overwrite(before, at, done), at + |done|, item) == Overwrite(before, at, more)
  {
    ItemsToFits(encode, items, i + 1, |items|);
    OverwriteNext(before, at, ItemsTo(encode, items, i), encode(items[i]));
  }

  /** copy_from_slice */
  method CopyInto(a: array<Byte>, at: nat, data: seq<Byte>)
    requires at + |data| <= a.Length
    modifies a
    ensures a[..] == Overwrite(old(a[..]), at, data)
  {
    for i := 0 to |data|
      invariant forall k :: 0 <= k < a.Length ==> a[k] == if at <= k < at + i then data[k - at] else old(a[k])
    {
      a[at + i] := data[i];
    }
  }

  /** serialize_varint_into_slice, at an offset of the buffer */
  method SerializeVarintIntoSlice(v: U64, into: array<Byte>, at: nat) returns (n: nat)
    requires at + LengthVarint(v) <= into.Length
    modifies into
    ensures n == LengthVarint(v) && into[..] == Overwrite(old(into[..]), at, EncodeVarint(v))
  {
    if v < 0xFD {
      into[at] := v;
      n := 1;
    } else if v < 0xFFFF {
      n := WriteWide(0xFD, v, 2, into, at);
    } else if v < 0xFFFFFFFF {
      n := WriteWide(0xFE, v, 4, into, at);
    } else {
      n := WriteWide(0xFF, v, 8, into, at);
    }
  }

  method WriteWide(leader: Byte, v: U64, k: nat, into: array<Byte>, at: nat) returns (n: nat)
    requires at + 1 + k <= into.Length
    modifies into
    ensures n == 1 + k && into[..] == Overwrite(old(into[..]), at, [leader] + LittleEndian(v, k))
  {
    ghost var before := into[..];
    into[at] := leader;
    assert into[..] == Overwrite(before, at, [leader]);
    CopyInto(into, at + 1, LittleEndian(v, k));
    OverwriteNext(before, at, [leader], LittleEndian(v, k));
    n := 1 + k;
  }

  // ---------------------------------------------------------------- outputs

  /** flat_serialize, at an offset of the buffer */
  method FlatSerialize(x: TxOut, slice: array<Byte>, at: nat) returns (n: nat)
    requires OutputFits(x) && at + |EncodeTxOut(x)| <= slice.Length
    modifies slice
    ensures n == |EncodeTxOut(x)| && slice[..] == Overwrite(old(slice[..]), at, EncodeTxOut(x))
  {
    ghost var before := slice[..];
    ghost var value, count := LittleEndian(x.value, 8), EncodeVarint(|x.script|);
    CopyInto(slice, at, LittleEndian(x.value, 8));
    var length := SerializeVarintIntoSlice(|x.script|, slice, at + 8);
    OverwriteNext(before, at, value, count);
    CopyInto(slice, at + 8 + length, x.script);
    OverwriteNext(before, at, value + count, x.script);
    ConcatAssociative(value, count, x.script);
    n := 8 + length + |x.script|;
  }

  /** serialize_txouts: the size is summed up first, and is exactly what gets written. */
  method SerializeTxouts(txouts: seq<TxOut>) returns (result: array<Byte>)
    requires |txouts| < USIZE && forall i :: 0 <= i < |txouts| ==> OutputFits(txouts[i])
    ensures fresh(result) && result[..] == EncodeArray(EncodeTxOut, txouts)
  {
    var size := TxoutsSize(txouts);
    result := new Byte[size](_ => 0);
    ghost var zeros, count, items := result[..], EncodeVarint(|txouts|), EncodeItems(EncodeTxOut, txouts);
    var offset := SerializeVarintIntoSlice(|txouts|, result, 0);
    offset := WriteOutputs(txouts, result, offset);
    OverwriteNext(zeros, 0, count, items);
    assert Overwrite(zeros, 0, count + items) == count + items;
  }

  /** The loop of serialize_txouts. */
  method WriteOutputs(txouts: seq<TxOut>, result: array<Byte>, at: nat) returns (offset: nat)
    requires forall i :: 0 <= i < |txouts| ==> OutputFits(txouts[i])
    requires at + |EncodeItems(EncodeTxOut, txouts)| <= result.Length
    modifies result
    ensures offset == at + |EncodeItems(EncodeTxOut, txouts)|
    ensures result[..] == Overwrite(old(result[..]), at, EncodeItems(EncodeTxOut, txouts))
  {
    ghost var before := result[..];
    offset := at;
    AllItems(EncodeTxOut, txouts);
    for i := 0 to |txouts|
      invariant offset == at + |ItemsTo(EncodeTxOut, txouts, i)| <= result.Length
      invariant result[..] == Overwrite(before, at, ItemsTo(EncodeTxOut, txouts, i))
    {
      ItemStep(EncodeTxOut, txouts, i, before, at);
      var n := FlatSerialize(txouts[i], result, offset);
      offset := offset + n;
    }
  }

  method TxoutsSize(txouts: seq<TxOut>) returns (size: nat)
    requires |txouts| < USIZE && forall i :: 0 <= i < |txouts| ==> OutputFits(txouts[i])
    ensures size == |EncodeArray(EncodeTxOut, txouts)|
  {
    size := LengthVarint(|txouts|);
    for i := 0 to |txouts|
      invariant size == LengthVarint(|txouts|) + |ItemsTo(EncodeTxOut, txouts, i)|
    {
      size := size + (8 + LengthVarint(|txouts[i].script|) + |txouts[i].script|);
    }
    AllItems(EncodeTxOut, txouts);
  }

  // ---------------------------------------------------------------- transactions

  /** Writes the items of an array one after another, from an offset of the buffer. */
  method WriteItems<T>(encode: T -> seq<Byte>, items: seq<T>, a: array<Byte>, at: nat) returns (end: nat)
    requires at + |EncodeItems(encode, items)| <= a.Length
    modifies a
    ensures end == at + |EncodeItems(encode, items)|
    ensures a[..] == Overwrite(old(a[..]), at, EncodeItems(encode, items))
  {
    ghost var before := a[..];
    end := at;
    AllItems(encode, items);
    for i := 0 to |items|
      invariant end == at + |ItemsTo(encode, items, i)| <= a.Length
      invariant a[..] == Overwrite(before, at, ItemsTo(encode, items, i))
    {
      ItemStep(encode, items, i, before, at);
      var data := encode(items[i]);
      CopyInto(a, end, data);
      end := end + |data|;
    }
  }

  /** A count and the items after it. */
  method WriteArray<T>(encode: T -> seq<Byte>, items: seq<T>, a: array<Byte>, at: nat) returns (end: nat)
    requires |items| < USIZE && at + |EncodeArray(encode, items)| <= a.Length
    modifies a
    ensures end == at + |EncodeArray(encode, items)|
    ensures a[..] == Overwrite(old(a[..]), at, EncodeArray(encode, items))
  {
    ghost var before := a[..];
    var n := SerializeVarintIntoSlice(|items|, a, at);
    end := WriteItems(encode, items, a, at + n);
    OverwriteNext(before, at, EncodeVarint(|items|), EncodeItems(encode, items));
  }

  /** serialize_without_txouts, from an offset of the buffer */
  method SerializeWithoutTxouts(tx: Tx, a: array<Byte>, at: nat) returns (end: nat)
    requires Storable(tx) && at + |EncodeTx(tx)| <= a.Length
    modifies a
    ensures end == at + |EncodeTx(tx)| && a[..] == Overwrite(old(a[..]), at, EncodeTx(tx))
  {
    ghost var before := a[..];
    ghost var head, txins, tail := TxHead(tx), EncodeArray(EncodeTxIn, tx.txins), TxTail(tx);
    TxIsThreeParts(tx);
    end := WriteHead(tx, a, at);
    end := WriteArray(EncodeTxIn, tx.txins, a, end);
    OverwriteNext(before, at, head, txins);
    end := WriteTail(tx, a, end);
    OverwriteNext(before, at, head + txins, tail);
  }

  function TxHead(tx: Tx): seq<Byte> {
    LittleEndian(tx.version, 4) + EncodeMarker(tx.witnesses)
  }

  function TxTail(tx: Tx): seq<Byte> {
    EncodeWitness(tx.witnesses) + LittleEndian(tx.locktime, 4)
  }

  lemma {:induction false} TxIsThreeParts(tx: Tx)
    requires |tx.txins| < USIZE
    ensures EncodeTx(tx) == TxHead(tx) + EncodeArray(EncodeTxIn, tx.txins) + TxTail(tx)
  {
    Regroup(LittleEndian(tx.version, 4), EncodeMarker(tx.witnesses), EncodeArray(EncodeTxIn, tx.txins),
            EncodeWitness(tx.witnesses), LittleEndian(tx.locktime, 4));
  }

  lemma {:induction false} Regroup<T>(a: seq<T>, b: seq<T>, c: seq<T>, d: seq<T>, e: seq<T>)
    ensures a + (b + (c + (d + e))) == ((a + b) + c) + (d + e)
  {
  }

  /** The version and the witness marker. */
  method WriteHead(tx: Tx, a: array<Byte>, at: nat) returns (end: nat)
    requires at + |TxHead(tx)| <= a.Length
    modifies a
    ensures end == at + |TxHead(tx)| && a[..] == Overwrite(old(a[..]), at, TxHead(tx))
  {
    ghost var before := a[..];
    CopyInto(a, at, LittleEndian(tx.version, 4));
    end := at + 4;
    if tx.witnesses.Some? {
      CopyInto(a, end, MARKER);
      end := end + 2;
    }
    OverwriteMaybe(before, at, LittleEndian(tx.version, 4), EncodeMarker(tx.witnesses));
  }

  /** The witness blobs and the lock time. */
  method WriteTail(tx: Tx, a: array<Byte>, at: nat) returns (end: nat)
    requires at + |TxTail(tx)| <= a.Length
    modifies a
    ensures end == at + |TxTail(tx)| && a[..] == Overwrite(old(a[..]), at, TxTail(tx))
  {
    ghost var before := a[..];
    end := at;
    if tx.witnesses.Some? {
      end := WriteItems(RawBlob, tx.witnesses.value, a, end);
    }
    assert a[..] == Overwrite(before, at, EncodeWitness(tx.witnesses));
    CopyInto(a, end, LittleEndian(tx.locktime, 4));
    OverwriteNext(before, at, EncodeWitness(tx.witnesses), LittleEndian(tx.locktime, 4));
    end := end + 4;
  }

  /** Writing nothing changes nothing. */
  lemma {:induction false} OverwriteMaybe(s: seq<Byte>, at: nat, x: seq<Byte>, y: seq<Byte>)
    requires at + |x| + |y| <= |s|
    ensures Overwrite(Overwrite(s, at, x), at + |x|, y) == Overwrite(s, at, x + y)
    ensures y == [] ==> Overwrite(s, at, x) == Overwrite(s, at, x + y)
  {
    OverwriteNext(s, at, x, y);
    if y == [] {
      assert x + y == x;
    }
  }

  /** The record part of analyze_tx. The buffer is eight bytes longer than what is written into it. */
  method WriteRecord(r: Record) returns (record: array<Byte>)
    requires Storable(r.tx) && |r.txinValues| < USIZE
    ensures fresh(record) && record[..] == EncodeRecord(r) + Zeros(8)
  {
    var values := r.txinValues;
    var txSize := TxSize(r.tx);
    RecordSizeIs(r, txSize);
    record := new Byte[txSize + 8 + 8 + 4 + 4 + 8 + 32 + LengthVarint(|values|) + |values| * 8](_ => 0);
    ghost var zeros := record[..];
    WriteAnalysis(r.analysis, record);
    var end := WriteBody(r, record);
    RecordIsWritten(r, zeros, record[..]);
  }

  lemma {:induction false} RecordSizeIs(r: Record, txSize: nat)
    requires Storable(r.tx) && |r.txinValues| < USIZE && txSize == TxSize(r.tx)
    ensures txSize + 56 + LengthVarint(|r.txinValues|) + |r.txinValues| * 8 == |EncodeRecord(r)|
    ensures 56 + |EncodeTx(r.tx) + EncodeArray(EncodeU64, r.txinValues)| == |EncodeRecord(r)|
  {
    TxSizeIs(r.tx);
    ValuesSize(r.txinValues);
  }

  lemma {:induction false} RecordIsWritten(r: Record, zeros: seq<Byte>, written: seq<Byte>)
    requires Storable(r.tx) && |r.txinValues| < USIZE
    requires |zeros| == |EncodeRecord(r)| + 8 && forall i :: 0 <= i < |zeros| ==> zeros[i] == 0
    requires 56 + |EncodeTx(r.tx) + EncodeArray(EncodeU64, r.txinValues)| == |EncodeRecord(r)|
    requires written == Overwrite(Overwrite(zeros, 0, EncodeAnalysis(r.analysis)), 56,
                                  EncodeTx(r.tx) + EncodeArray(EncodeU64, r.txinValues))
    ensures written == EncodeRecord(r) + Zeros(8)
  {
    OverwriteNext(zeros, 0, EncodeAnalysis(r.analysis), EncodeTx(r.tx) + EncodeArray(EncodeU64, r.txinValues));
    SpareZeros(zeros, EncodeRecord(r));
  }

  /** The transaction and the input values after it. */
  method WriteBody(r: Record, a: array<Byte>) returns (end: nat)
    requires Storable(r.tx) && |r.txinValues| < USIZE
    requires 56 + |EncodeTx(r.tx) + EncodeArray(EncodeU64, r.txinValues)| <= a.Length
    modifies a
    ensures a[..] == Overwrite(old(a[..]), 56, EncodeTx(r.tx) + EncodeArray(EncodeU64, r.txinValues))
  {
    ghost var before := a[..];
    end := SerializeWithoutTxouts(r.tx, a, 56);
    end := WriteArray(EncodeU64, r.txinValues, a, end);
    OverwriteNext(before, 56, EncodeTx(r.tx), EncodeArray(EncodeU64, r.txinValues));
  }

  method WriteAnalysis(a: Analysis, record: array<Byte>)
    requires record.Length >= 56
    modifies record
    ensures record[..] == Overwrite(old(record[..]), 0, EncodeAnalysis(a))
  {
    ghost var before := record[..];
    var fee, sum, size, sigops := LittleEndian(a.fee, 8), LittleEndian(a.txoutsSum, 8),
        LittleEndian(a.sizeWus, 4), LittleEndian(a.sigops, 4);
    CopyInto(record, 0, fee);
    CopyInto(record, 8, sum);
    OverwriteNext(before, 0, fee, sum);
    CopyInto(record, 16, size);
    OverwriteNext(before, 0, fee + sum, size);
    CopyInto(record, 20, sigops);
    OverwriteNext(before, 0, fee + sum + size, sigops);
    CopyInto(record, 24, a.blockHash);
    OverwriteNext(before, 0, fee + sum + size + sigops, a.blockHash);
    RegroupParts(fee, sum, size, sigops, a.blockHash);
  }

  lemma {:induction false} RegroupParts<T>(a: seq<T>, b: seq<T>, c: seq<T>, d: seq<T>, e: seq<T>)
    ensures a + b + c + d + e == a + (b + (c + (d + e)))
  {
  }

  lemma {:induction false} ValuesSize(values: seq<U64>)
    ensures |EncodeItems(EncodeU64, values)| == |values| * 8
  {
    if values != [] {
      ValuesSize(values[1..]);
    }
  }

  lemma {:induction false} SpareZeros(zeros: seq<Byte>, data: seq<Byte>)
    requires |zeros| == |data| + 8 && forall i :: 0 <= i < |zeros| ==> zeros[i] == 0
    ensures Overwrite(zeros, 0, data) == data + Zeros(8)
  {
    assert zeros[|data|..] == Zeros(8);
  }
}
