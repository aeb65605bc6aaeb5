/** The stored bytes field by field: at which offset each one lies, and how it is read there. */
module WireFormat {
  import opened Wrappers
  import opened Bytes
  import opened Seqs
  import opened VarInt
  import opened TxCodec

  // ---------------------------------------------------------------- counts

  /** Where a varint is read from: one byte, or a leading byte and two, four or eight more. */
  lemma {:induction false} VarintIsRead(buffer: seq<Byte>)
    ensures buffer == [] ==> DecodeVarint(buffer).Err?
    ensures buffer != [] && buffer[0] < 253 ==> DecodeVarint(buffer) == Ok((buffer[0], 1))
    ensures buffer != [] && buffer[0] == 253 ==>
              DecodeVarint(buffer) == if |buffer| < 3 then Err else Ok((FromLittleEndian(buffer[1..3]), 3))
    ensures buffer != [] && buffer[0] == 254 ==>
              DecodeVarint(buffer) == if |buffer| < 5 then Err else Ok((FromLittleEndian(buffer[1..5]), 5))
    ensures buffer != [] && buffer[0] == 255 ==>
              DecodeVarint(buffer) == if |buffer| < 9 then Err else Ok((FromLittleEndian(buffer[1..9]), 9))
  {
  }

  /** How a varint is written: with the thresholds one too low. */
  lemma {:induction false} VarintIsWritten(v: U64)
    ensures var s := EncodeVarint(v);
      && (v < 253 ==> s == [v])
      && (253 <= v < 65_535 ==> |s| == 3 && s[0] == 253)
      && (65_535 <= v < 4_294_967_295 ==> |s| == 5 && s[0] == 254)
      && (4_294_967_295 <= v ==> |s| == 9 && s[0] == 255)
      && (253 <= v ==> FromLittleEndian(s[1..]) == v)
  {
    Pow256Values();
    if v >= 253 {
      LittleEndianRoundTrip(v, |EncodeVarint(v)| - 1);
    }
  }

  /** A byte string follows its length. */
  lemma {:induction false} StringIsCounted(s: seq<Byte>)
    requires |s| < USIZE
    ensures DecodeVarint(EncodeVarstr(s)) == Ok((|s|, |EncodeVarstr(s)| - |s|))
    ensures EncodeVarstr(s)[|EncodeVarstr(s)| - |s|..] == s
  {
    VarintRoundTrip(|s|, s);
  }

  /** An array is its count and then its items one after another. */
  lemma {:induction false} ArrayIsCounted<T>(encode: T -> seq<Byte>, items: seq<T>)
    requires |items| < USIZE
    ensures var s := EncodeArray(encode, items);
      && DecodeVarint(s).Ok? && DecodeVarint(s).value.0 == |items|
      && s[DecodeVarint(s).value.1..] == EncodeItems(encode, items)
  {
    VarintRoundTrip(|items|, EncodeItems(encode, items));
  }

  lemma {:induction false} ItemsJoin<T>(encode: T -> seq<Byte>, a: seq<T>, b: seq<T>)
    ensures EncodeItems(encode, a + b) == EncodeItems(encode, a) + EncodeItems(encode, b)
  {
    if a == [] {
      assert a + b == b;
    } else {
      assert (a + b)[0] == a[0] && (a + b)[1..] == a[1..] + b;
      ItemsJoin(encode, a[1..], b);
      ConcatAssociative(encode(a[0]), EncodeItems(encode, a[1..]), EncodeItems(encode, b));
    }
  }

  lemma {:induction false} OneItem<T>(encode: T -> seq<Byte>, item: T)
    ensures EncodeItems(encode, [item]) == encode(item)
  {
    assert EncodeItems(encode, [item][1..]) == [];
  }

  // ---------------------------------------------------------------- a transaction

  /** At an offset of s stands a number of k bytes. */
  predicate NumberAt(s: seq<Byte>, offset: nat, k: nat, n: nat) {
    offset + k <= |s| && FromLittleEndian(s[offset..offset + k]) == n
  }

  /** At an offset of s stands part. */
  predicate StandsAt(s: seq<Byte>, offset: nat, part: seq<Byte>) {
    offset + |part| <= |s| && s[offset..offset + |part|] == part
  }

  lemma {:induction false} NumberStands(s: seq<Byte>, offset: nat, k: nat, n: nat)
    requires n < Pow256(k) && StandsAt(s, offset, LittleEndian(n, k))
    ensures NumberAt(s, offset, k, n)
  {
    LittleEndianRoundTrip(n, k);
  }

  lemma {:induction false} PartsStand(a: seq<Byte>, b: seq<Byte>, c: seq<Byte>, d: seq<Byte>, e: seq<Byte>)
    ensures var s := a + (b + (c + (d + e)));
      && |s| == |a| + |b| + |c| + |d| + |e|
      && StandsAt(s, 0, a) && StandsAt(s, |a|, b) && StandsAt(s, |a| + |b|, c)
      && StandsAt(s, |a| + |b| + |c|, d) && StandsAt(s, |a| + |b| + |c| + |d|, e)
  {
  }

  /** An input: the previous transaction, the index of its output, the script, the sequence number. */
  lemma {:induction false} InputBytes(x: TxIn)
    requires |x.script| < USIZE
    ensures var s, script := EncodeTxIn(x), EncodeVarstr(x.script);
      && |s| == 40 + |script|
      && StandsAt(s, 0, x.prevoutHash) && NumberAt(s, 32, 4, x.prevoutIndex)
      && StandsAt(s, 36, script) && NumberAt(s, 36 + |script|, 4, x.sequence)
  {
    Pow256Values();
    var index, script, sequence := LittleEndian(x.prevoutIndex, 4), EncodeVarstr(x.script), LittleEndian(x.sequence, 4);
    PartsStand(x.prevoutHash, index, script, sequence, []);
    assert EncodeTxIn(x) == x.prevoutHash + (index + (script + (sequence + [])));
    NumberStands(EncodeTxIn(x), 32, 4, x.prevoutIndex);
    NumberStands(EncodeTxIn(x), 36 + |script|, 4, x.sequence);
  }

  /** An output: the value and the script. */
  lemma {:induction false} OutputBytes(x: TxOut)
    requires |x.script| < USIZE
    ensures var s := EncodeTxOut(x);
      NumberAt(s, 0, 8, x.value) && s[8..] == EncodeVarstr(x.script)
  {
    Pow256Values();
    NumberStands(EncodeTxOut(x), 0, 8, x.value);
  }

  /** A transaction: the version, a zero and a one if there are witnesses, the inputs, the witnesses, the lock time. */
  lemma {:induction false} TxBytes(tx: Tx)
    requires |tx.txins| < USIZE
    ensures var s, txins := EncodeTx(tx), EncodeArray(EncodeTxIn, tx.txins);
      && NumberAt(s, 0, 4, tx.version) && |s| >= 8 && NumberAt(s, |s| - 4, 4, tx.locktime)
      && (tx.witnesses.None? ==> StandsAt(s, 4, txins) && |s| == 4 + |txins| + 4)
      && (tx.witnesses.Some? ==>
            var blobs := EncodeItems(RawBlob, tx.witnesses.value);
            StandsAt(s, 4, [0, 1]) && StandsAt(s, 6, txins) && StandsAt(s, 6 + |txins|, blobs) && |s| == 6 + |txins| + |blobs| + 4)
  {
    Pow256Values();
    var version, locktime := LittleEndian(tx.version, 4), LittleEndian(tx.locktime, 4);
    PartsStand(version, EncodeMarker(tx.witnesses), EncodeArray(EncodeTxIn, tx.txins), EncodeWitness(tx.witnesses), locktime);
    NumberStands(EncodeTx(tx), 0, 4, tx.version);
    NumberStands(EncodeTx(tx), |EncodeTx(tx)| - 4, 4, tx.locktime);
  }

  /** A length of ten less than two to the 64 makes the offset wrap around, and the second string be read from the start. */
  lemma {:induction false} LengthCanWrap(length: U64)
    requires length == 0xFFFF_FFFF_FFFF_FFF6
    ensures var buffer := [2] + EncodeVarint(length);
      |buffer| == 10 && DecodeBlob(buffer) == Ok((buffer[..3], 3))
  {
    var buffer, written := [2] + EncodeVarint(length), EncodeVarint(length);
    VarintRoundTrip(length, []);
    assert written + [] == written;
    assert buffer[1..] == written && buffer[0..] == buffer;
    BlobOfTwo(buffer, length);
  }

  lemma {:induction false} BlobOfTwo(buffer: seq<Byte>, length: U64)
    requires |buffer| == 10 && length == 0xFFFF_FFFF_FFFF_FFF6
    requires DecodeVarint(buffer[0..]) == Ok((2, 1)) && DecodeVarint(buffer[1..]) == Ok((length, 9))
    ensures DecodeBlob(buffer) == Ok((buffer[..3], 3))
  {
    SkipStep(buffer, 1, 2, length, 9, 0);
    SkipStep(buffer, 0, 1, 2, 1, 3);
    assert buffer[0..] == buffer;
  }

  lemma {:induction false} SkipStep(buffer: seq<Byte>, offset: nat, count: nat, length: U64, consumed: nat, next: nat)
    requires count > 0 && offset <= |buffer| && DecodeVarint(buffer[offset..]) == Ok((length, consumed))
    requires next == (offset + consumed + length) % 0x1_0000_0000_0000_0000
    ensures SkipItems(buffer, offset, count) == SkipItems(buffer, next, count - 1)
  {
  }

  // ---------------------------------------------------------------- a record

  /** A value of an input is eight bytes. */
  lemma {:induction false} ValueBytes(v: U64)
    ensures |EncodeU64(v)| == 8 && FromLittleEndian(EncodeU64(v)) == v
  {
    Pow256Values();
    LittleEndianRoundTrip(v, 8);
  }

  /** A record: fee, sum of the outputs, size, signature operations and block, the transaction, the values of its inputs. */
  lemma {:induction false} RecordBytes(r: Record)
    requires |r.tx.txins| < USIZE && |r.txinValues| < USIZE
    ensures var s, tx := EncodeRecord(r), EncodeTx(r.tx);
      && NumberAt(s, 0, 8, r.analysis.fee) && NumberAt(s, 8, 8, r.analysis.txoutsSum)
      && NumberAt(s, 16, 4, r.analysis.sizeWus) && NumberAt(s, 20, 4, r.analysis.sigops)
      && StandsAt(s, 24, r.analysis.blockHash)
      && StandsAt(s, 56, tx) && s[56 + |tx|..] == EncodeArray(EncodeU64, r.txinValues)
  {
    var a, tx, values := r.analysis, EncodeTx(r.tx), EncodeArray(EncodeU64, r.txinValues);
    AnalysisBytes(a);
    InFront(EncodeAnalysis(a), tx, values);
  }

  lemma {:induction false} AnalysisBytes(a: Analysis)
    ensures var s := EncodeAnalysis(a);
      && NumberAt(s, 0, 8, a.fee) && NumberAt(s, 8, 8, a.txoutsSum)
      && NumberAt(s, 16, 4, a.sizeWus) && NumberAt(s, 20, 4, a.sigops) && StandsAt(s, 24, a.blockHash)
  {
    Pow256Values();
    var s := EncodeAnalysis(a);
    PartsStand(LittleEndian(a.fee, 8), LittleEndian(a.txoutsSum, 8), LittleEndian(a.sizeWus, 4), LittleEndian(a.sigops, 4), a.blockHash);
    NumberStands(s, 0, 8, a.fee);
    NumberStands(s, 8, 8, a.txoutsSum);
    NumberStands(s, 16, 4, a.sizeWus);
    NumberStands(s, 20, 4, a.sigops);
  }

  /** What stands in a front part stands in the whole. */
  lemma {:induction false} InFront(head: seq<Byte>, tx: seq<Byte>, values: seq<Byte>)
    ensures var s := head + (tx + values);
      && (forall offset: nat, k: nat, n: nat :: NumberAt(head, offset, k, n) ==> NumberAt(s, offset, k, n))
      && (forall offset: nat, part: seq<Byte> :: StandsAt(head, offset, part) ==> StandsAt(s, offset, part))
      && StandsAt(s, |head|, tx) && s[|head| + |tx|..] == values
  {
    var s := head + (tx + values);
    forall offset: nat, k: nat, n: nat | NumberAt(head, offset, k, n) ensures NumberAt(s, offset, k, n) {
      assert s[offset..offset + k] == head[offset..offset + k];
    }
    forall offset: nat, part: seq<Byte> | StandsAt(head, offset, part) ensures StandsAt(s, offset, part) {
      assert s[offset..offset + |part|] == head[offset..offset + |part|];
    }
  }
}
