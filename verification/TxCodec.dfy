/** Transactions in the form the database stores them: without outputs, inside an analyzed record. */
module TxCodec {
  import opened Wrappers
  import opened Bytes
  import opened Seqs
  import opened VarInt

  datatype TxIn = TxIn(prevoutHash: Hash, prevoutIndex: U32, sequence: U32, script: seq<Byte>)

  datatype TxOut = TxOut(value: U64, script: seq<Byte>)

  datatype Tx = Tx(version: U32, txins: seq<TxIn>, txouts: seq<TxOut>, witnesses: Option<seq<seq<Byte>>>, locktime: U32)

  // ---------------------------------------------------------------- inputs and outputs

  predicate InputFits(x: TxIn) {
    |x.script| < USIZE
  }

  /** TxInRef::serialize */
  function EncodeTxIn(x: TxIn): (s: seq<Byte>) {
    if !InputFits(x) then []
    else x.prevoutHash + (LittleEndian(x.prevoutIndex, 4) + (EncodeVarstr(x.script) + LittleEndian(x.sequence, 4)))
  }

  /** TxInOwned::deserialize_owned */
  function DecodeTxIn(buffer: seq<Byte>): Parsed<TxIn> {
    if |buffer| < 32 then Err
    else
      Pow256Values();
      var index :- GetLittleEndian(buffer, 32, 4);
      var (script, offset) :- DecodeVarstr(buffer[36..]);
      var sequence :- GetLittleEndian(buffer, offset + 36, 4);
      Ok((TxIn(buffer[..32], index, sequence, script), offset + 40))
  }

  /** Reads an integer written at an offset. */
  lemma {:induction false} GetAt(buffer: seq<Byte>, offset: nat, n: nat, k: nat, rest: seq<Byte>)
    requires offset <= |buffer| && n < Pow256(k) && buffer[offset..] == LittleEndian(n, k) + rest
    ensures GetLittleEndian(buffer, offset, k) == Ok(n)
  {
    assert buffer[offset..offset + k] == buffer[offset..][..k] == LittleEndian(n, k);
    LittleEndianRoundTrip(n, k);
  }

  lemma {:induction false} TxInRoundTrip(x: TxIn, rest: seq<Byte>)
    requires InputFits(x)
    ensures DecodeTxIn(EncodeTxIn(x) + rest) == Ok((x, |EncodeTxIn(x)|))
  {
    var index, script, sequence := LittleEndian(x.prevoutIndex, 4), EncodeVarstr(x.script), LittleEndian(x.sequence, 4);
    var buffer := EncodeTxIn(x) + rest;
    Pow256Values();
    Append4(x.prevoutHash, index, script, sequence, rest);
    assert buffer[..32] == x.prevoutHash;
    Advance(buffer, 0, x.prevoutHash, index + (script + (sequence + rest)));
    GetAt(buffer, 32, x.prevoutIndex, 4, script + (sequence + rest));
    Advance(buffer, 32, index, script + (sequence + rest));
    VarstrRoundTrip(x.script, sequence + rest);
    Advance(buffer, 36, script, sequence + rest);
    GetAt(buffer, 36 + |script|, x.sequence, 4, rest);
  }

  lemma {:induction false} Append4<T>(a: seq<T>, b: seq<T>, c: seq<T>, d: seq<T>, rest: seq<T>)
    ensures (a + (b + (c + d))) + rest == a + (b + (c + (d + rest)))
  {
    ConcatAssociative(c, d, rest);
    ConcatAssociative(b, c + d, rest);
    ConcatAssociative(a, b + (c + d), rest);
  }

  predicate OutputFits(x: TxOut) {
    |x.script| < USIZE
  }

  /** TxOutOwned::serialize */
  function EncodeTxOut(x: TxOut): (s: seq<Byte>) {
    if !OutputFits(x) then [] else LittleEndian(x.value, 8) + EncodeVarstr(x.script)
  }

  /** TxOutOwned::deserialize_owned */
  function DecodeTxOut(buffer: seq<Byte>): Parsed<TxOut> {
    Pow256Values();
    var value :- GetLittleEndian(buffer, 0, 8);
    var (script, offset) :- DecodeVarstr(buffer[8..]);
    Ok((TxOut(value, script), offset + 8))
  }

  lemma {:induction false} TxOutRoundTrip(x: TxOut, rest: seq<Byte>)
    requires OutputFits(x)
    ensures DecodeTxOut(EncodeTxOut(x) + rest) == Ok((x, |EncodeTxOut(x)|))
  {
    var value, script := LittleEndian(x.value, 8), EncodeVarstr(x.script);
    var buffer := EncodeTxOut(x) + rest;
    Pow256Values();
    ConcatAssociative(value, script, rest);
    GetAt(buffer, 0, x.value, 8, script + rest);
    Advance(buffer, 0, value, script + rest);
    VarstrRoundTrip(x.script, rest);
  }

  /** The stored outputs of a transaction read back as they were. */
  lemma {:induction false} TxOutsRoundTrip(txouts: seq<TxOut>, rest: seq<Byte>)
    requires |txouts| < USIZE && forall i :: 0 <= i < |txouts| ==> OutputFits(txouts[i])
    ensures DecodeArray(DecodeTxOut, EncodeArray(EncodeTxOut, txouts) + rest)
         == Ok((txouts, |EncodeArray(EncodeTxOut, txouts)|))
  {
    forall i | 0 <= i < |txouts| ensures RoundTrips(DecodeTxOut, EncodeTxOut, txouts[i]) {
      forall more ensures DecodeTxOut(EncodeTxOut(txouts[i]) + more) == Ok((txouts[i], |EncodeTxOut(txouts[i])|)) {
        TxOutRoundTrip(txouts[i], more);
      }
    }
    ArrayRoundTrip(DecodeTxOut, EncodeTxOut, txouts, rest);
  }

  // ---------------------------------------------------------------- a transaction without its outputs

  const MARKER: seq<Byte> := [0, 1]

  /** At least one input, and one well-formed witness blob per input when there are witnesses. */
  predicate Storable(tx: Tx) {
    && 0 < |tx.txins| < USIZE
    && (forall i :: 0 <= i < |tx.txins| ==> InputFits(tx.txins[i]))
    && (tx.witnesses.Some? ==>
          |tx.witnesses.value| == |tx.txins|
          && forall i :: 0 <= i < |tx.witnesses.value| ==> WellFormedBlob(tx.witnesses.value[i]))
  }

  /** A witness blob is stored as the bytes it came in. */
  function RawBlob(blob: seq<Byte>): seq<Byte> {
    blob
  }

  function EncodeMarker(witnesses: Option<seq<seq<Byte>>>): seq<Byte> {
    if witnesses.Some? then MARKER else []
  }

  function EncodeWitness(witnesses: Option<seq<seq<Byte>>>): seq<Byte> {
    if witnesses.Some? then EncodeItems(RawBlob, witnesses.value) else []
  }

  /** serialize_without_txouts */
  function EncodeTx(tx: Tx): seq<Byte>
    requires |tx.txins| < USIZE
  {
    LittleEndian(tx.version, 4) + (EncodeMarker(tx.witnesses) +
      (EncodeArray(EncodeTxIn, tx.txins) + (EncodeWitness(tx.witnesses) + LittleEndian(tx.locktime, 4))))
  }

  /** One blob per input. */
  function DecodeWitness(buffer: seq<Byte>, offset: nat, hasWitness: bool, count: nat): Parsed<Option<seq<seq<Byte>>>> {
    if hasWitness then
      var (blobs, end) :- DecodeItems(DecodeBlob, buffer, offset, count);
      Ok((Some(blobs), end))
    else Ok((None, offset))
  }

  /** deserialize_without_txouts */
  function DecodeTx(buffer: seq<Byte>): Parsed<Tx> {
    Pow256Values();
    var version :- GetLittleEndian(buffer, 0, 4);
    if |buffer| < 6 then Err
    else
      var hasWitness := buffer[4..6] == MARKER;
      var offset := if hasWitness then 6 else 4;
      var (txins, consumed) :- DecodeArray(DecodeTxIn, buffer[offset..]);
      if txins == [] then Err else DecodeTail(buffer, version, txins, offset + consumed, hasWitness)
  }

  /** The witnesses and the lock time. */
  function DecodeTail(buffer: seq<Byte>, version: U32, txins: seq<TxIn>, start: nat, hasWitness: bool): Parsed<Tx> {
    Pow256Values();
    var (witnesses, end) :- DecodeWitness(buffer, start, hasWitness, |txins|);
    var locktime :- GetLittleEndian(buffer, end, 4);
    Ok((Tx(version, txins, [], witnesses, locktime), end + 4))
  }

  lemma {:induction false} WitnessRoundTrip(tx: Tx, buffer: seq<Byte>, offset: nat, rest: seq<Byte>)
    requires Storable(tx) && offset <= |buffer| && buffer[offset..] == EncodeWitness(tx.witnesses) + rest
    ensures DecodeWitness(buffer, offset, tx.witnesses.Some?, |tx.txins|) == Ok((tx.witnesses, offset + |EncodeWitness(tx.witnesses)|))
  {
    if tx.witnesses.Some? {
      var blobs := tx.witnesses.value;
      BlobsReadBack(blobs);
      ItemsRoundTrip(DecodeBlob, RawBlob, blobs, buffer, offset, rest);
    }
  }

  lemma {:induction false} BlobsReadBack(blobs: seq<seq<Byte>>)
    requires forall i :: 0 <= i < |blobs| ==> WellFormedBlob(blobs[i])
    ensures forall i :: 0 <= i < |blobs| ==> RoundTrips(DecodeBlob, RawBlob, blobs[i])
  {
    forall i | 0 <= i < |blobs| ensures RoundTrips(DecodeBlob, RawBlob, blobs[i]) {
      forall more ensures DecodeBlob(RawBlob(blobs[i]) + more) == Ok((blobs[i], |RawBlob(blobs[i])|)) {
        BlobRoundTrip(blobs[i], more);
      }
    }
  }

  lemma {:induction false} TxInsRoundTrip(txins: seq<TxIn>, rest: seq<Byte>)
    requires |txins| < USIZE && forall i :: 0 <= i < |txins| ==> InputFits(txins[i])
    ensures DecodeArray(DecodeTxIn, EncodeArray(EncodeTxIn, txins) + rest) == Ok((txins, |EncodeArray(EncodeTxIn, txins)|))
  {
    forall i | 0 <= i < |txins| ensures RoundTrips(DecodeTxIn, EncodeTxIn, txins[i]) {
      forall more ensures DecodeTxIn(EncodeTxIn(txins[i]) + more) == Ok((txins[i], |EncodeTxIn(txins[i])|)) {
        TxInRoundTrip(txins[i], more);
      }
    }
    ArrayRoundTrip(DecodeTxIn, EncodeTxIn, txins, rest);
  }

  /** With an input to count, the bytes after the version are the marker exactly when there are witnesses. */
  lemma {:induction false} MarkerIsUnambiguous(tx: Tx, rest: seq<Byte>)
    requires Storable(tx)
    ensures var s := EncodeMarker(tx.witnesses) + (EncodeArray(EncodeTxIn, tx.txins) + rest);
      |s| >= 2 && (s[..2] == MARKER <==> tx.witnesses.Some?)
  {
    var count, items := EncodeVarint(|tx.txins|), EncodeItems(EncodeTxIn, tx.txins);
    assert count[0] != 0;
    assert items == EncodeTxIn(tx.txins[0]) + EncodeItems(EncodeTxIn, tx.txins[1..]);
    if tx.witnesses.Some? {
      assert (MARKER + (EncodeArray(EncodeTxIn, tx.txins) + rest))[..2] == MARKER;
    } else {
      var s := EncodeMarker(tx.witnesses) + (EncodeArray(EncodeTxIn, tx.txins) + rest);
      assert s[0] == count[0];
      assert s[..2][0] != MARKER[0];
    }
  }

  lemma {:induction false} HeadBy(buffer: seq<Byte>, version: U32, txins: seq<TxIn>, offset: nat, consumed: nat, hasWitness: bool)
    requires |buffer| >= 6 && GetLittleEndian(buffer, 0, 4) == Ok(version)
    requires hasWitness <==> buffer[4..6] == MARKER
    requires offset == (if hasWitness then 6 else 4) && txins != []
    requires DecodeArray(DecodeTxIn, buffer[offset..]) == Ok((txins, consumed))
    ensures DecodeTx(buffer) == DecodeTail(buffer, version, txins, offset + consumed, hasWitness)
  {
  }

  /** What reading the version, the marker and the inputs gives. */
  ghost predicate HeadDecodes(buffer: seq<Byte>, tx: Tx, offset: nat, consumed: nat) {
    && |buffer| >= 6 && GetLittleEndian(buffer, 0, 4) == Ok(tx.version)
    && (buffer[4..6] == MARKER <==> tx.witnesses.Some?)
    && offset == (if tx.witnesses.Some? then 6 else 4)
    && DecodeArray(DecodeTxIn, buffer[offset..]) == Ok((tx.txins, consumed))
  }

  /** What reading the witnesses and the lock time gives. */
  ghost predicate TailDecodes(buffer: seq<Byte>, tx: Tx, start: nat, end: nat) {
    && DecodeWitness(buffer, start, tx.witnesses.Some?, |tx.txins|) == Ok((tx.witnesses, end))
    && GetLittleEndian(buffer, end, 4) == Ok(tx.locktime)
  }

  /** Reading a stored transaction gives it back without its outputs, whatever follows it. */
  lemma {:induction false} TxRoundTrip(tx: Tx, rest: seq<Byte>)
    requires Storable(tx)
    ensures DecodeTx(EncodeTx(tx) + rest) == Ok((tx.(txouts := []), |EncodeTx(tx)|))
  {
    var offset, consumed, end := TxParts(tx, EncodeTx(tx) + rest, rest);
    DecodeTxBy(EncodeTx(tx) + rest, tx, offset, consumed, end);
  }

  /** Each part of a stored transaction reads back from its own offset. */
  lemma {:induction false} TxParts(tx: Tx, buffer: seq<Byte>, rest: seq<Byte>) returns (offset: nat, consumed: nat, end: nat)
    requires Storable(tx) && buffer == EncodeTx(tx) + rest
    ensures HeadDecodes(buffer, tx, offset, consumed) && TailDecodes(buffer, tx, offset + consumed, end)
    ensures end + 4 == |EncodeTx(tx)|
  {
    offset, consumed := HeadPart(tx, buffer, rest);
    end := TailPart(tx, buffer, rest, offset + consumed);
  }

  lemma {:induction false} DecodeTxBy(buffer: seq<Byte>, tx: Tx, offset: nat, consumed: nat, end: nat)
    requires tx.txins != [] && HeadDecodes(buffer, tx, offset, consumed) && TailDecodes(buffer, tx, offset + consumed, end)
    ensures DecodeTx(buffer) == Ok((tx.(txouts := []), end + 4))
  {
    HeadBy(buffer, tx.version, tx.txins, offset, consumed, tx.witnesses.Some?);
  }

  lemma {:induction false} HeadPart(tx: Tx, buffer: seq<Byte>, rest: seq<Byte>) returns (offset: nat, consumed: nat)
    requires Storable(tx) && buffer == EncodeTx(tx) + rest
    ensures HeadDecodes(buffer, tx, offset, consumed) && offset + consumed == InputsEnd(tx)
  {
    var version, marker, txins := LittleEndian(tx.version, 4), EncodeMarker(tx.witnesses), EncodeArray(EncodeTxIn, tx.txins);
    var witnesses, locktime := EncodeWitness(tx.witnesses), LittleEndian(tx.locktime, 4);
    Append5(version, marker, txins, witnesses, locktime, rest);
    HeadAt(tx, buffer, version, marker, txins, witnesses + (locktime + rest));
    offset, consumed := 4 + |marker|, |txins|;
  }

  lemma {:induction false} TailPart(tx: Tx, buffer: seq<Byte>, rest: seq<Byte>, start: nat) returns (end: nat)
    requires Storable(tx) && buffer == EncodeTx(tx) + rest && start == InputsEnd(tx)
    ensures TailDecodes(buffer, tx, start, end) && end + 4 == |EncodeTx(tx)|
  {
    TailLayout(tx, buffer, rest);
    var witnesses, locktime := EncodeWitness(tx.witnesses), LittleEndian(tx.locktime, 4) + rest;
    TailAt(tx, buffer, start, witnesses, locktime, rest);
    end := start + |witnesses|;
  }

  lemma {:induction false} TailLayout(tx: Tx, buffer: seq<Byte>, rest: seq<Byte>)
    requires Storable(tx) && buffer == EncodeTx(tx) + rest
    ensures InputsEnd(tx) <= |buffer|
    ensures buffer[InputsEnd(tx)..] == EncodeWitness(tx.witnesses) + (LittleEndian(tx.locktime, 4) + rest)
    ensures |EncodeTx(tx)| == InputsEnd(tx) + |EncodeWitness(tx.witnesses)| + 4
  {
    TailOf5(LittleEndian(tx.version, 4), EncodeMarker(tx.witnesses), EncodeArray(EncodeTxIn, tx.txins),
            EncodeWitness(tx.witnesses), LittleEndian(tx.locktime, 4), EncodeTx(tx), rest, buffer);
  }

  lemma {:induction false} TailOf5<T>(a: seq<T>, b: seq<T>, c: seq<T>, d: seq<T>, e: seq<T>, whole: seq<T>, rest: seq<T>, buffer: seq<T>)
    requires whole == a + (b + (c + (d + e))) && buffer == whole + rest
    ensures |whole| == |a| + |b| + |c| + |d| + |e| && |a| + |b| + |c| <= |buffer|
    ensures buffer[|a| + |b| + |c|..] == d + (e + rest)
  {
    Append5(a, b, c, d, e, rest);
    Lengths5(a, b, c, d, e);
    Advance(buffer, 0, a, b + (c + (d + (e + rest))));
    Advance(buffer, |a|, b, c + (d + (e + rest)));
    Advance(buffer, |a| + |b|, c, d + (e + rest));
  }

  lemma {:induction false} Lengths5<T>(a: seq<T>, b: seq<T>, c: seq<T>, d: seq<T>, e: seq<T>)
    ensures |a + (b + (c + (d + e)))| == |a| + |b| + |c| + |d| + |e|
  {
  }

  /** Where the inputs of a stored transaction end. */
  function InputsEnd(tx: Tx): nat
    requires |tx.txins| < USIZE && forall i :: 0 <= i < |tx.txins| ==> InputFits(tx.txins[i])
  {
    4 + |EncodeMarker(tx.witnesses)| + |EncodeArray(EncodeTxIn, tx.txins)|
  }

  lemma {:induction false} HeadAt(tx: Tx, buffer: seq<Byte>, version: seq<Byte>, marker: seq<Byte>, txins: seq<Byte>, tail: seq<Byte>)
    requires Storable(tx) && version == LittleEndian(tx.version, 4)
    requires marker == EncodeMarker(tx.witnesses) && txins == EncodeArray(EncodeTxIn, tx.txins)
    requires buffer == version + (marker + (txins + tail))
    ensures HeadDecodes(buffer, tx, 4 + |marker|, |txins|)
  {
    VersionAt(buffer, tx.version, marker + (txins + tail));
    Advance(buffer, 0, version, marker + (txins + tail));
    Advance(buffer, 4, marker, txins + tail);
    MarkerAt(tx, buffer, tail);
    TxInsRoundTripAt(tx.txins, txins, buffer[4 + |marker|..], tail);
  }

  lemma {:induction false} TailAt(tx: Tx, buffer: seq<Byte>, start: nat, witnesses: seq<Byte>, end: seq<Byte>, rest: seq<Byte>)
    requires Storable(tx) && start <= |buffer| && buffer[start..] == witnesses + end
    requires witnesses == EncodeWitness(tx.witnesses) && end == LittleEndian(tx.locktime, 4) + rest
    ensures TailDecodes(buffer, tx, start, start + |witnesses|)
  {
    WitnessRoundTrip(tx, buffer, start, end);
    Advance(buffer, start, witnesses, end);
    LocktimeAt(buffer, start + |witnesses|, tx.locktime, rest);
  }

  lemma {:induction false} VersionAt(buffer: seq<Byte>, version: U32, tail: seq<Byte>)
    requires buffer == LittleEndian(version, 4) + tail
    ensures GetLittleEndian(buffer, 0, 4) == Ok(version)
  {
    Pow256Values();
    GetAt(buffer, 0, version, 4, tail);
  }

  lemma {:induction false} MarkerAt(tx: Tx, buffer: seq<Byte>, tail: seq<Byte>)
    requires Storable(tx) && |buffer| >= 4
    requires buffer[4..] == EncodeMarker(tx.witnesses) + (EncodeArray(EncodeTxIn, tx.txins) + tail)
    ensures |buffer| >= 6 && (buffer[4..6] == MARKER <==> tx.witnesses.Some?)
  {
    MarkerIsUnambiguous(tx, tail);
    assert buffer[4..6] == buffer[4..][..2];
  }

  lemma {:induction false} TxInsRoundTripAt(txins: seq<TxIn>, bytes: seq<Byte>, buffer: seq<Byte>, rest: seq<Byte>)
    requires |txins| < USIZE && forall i :: 0 <= i < |txins| ==> InputFits(txins[i])
    requires bytes == EncodeArray(EncodeTxIn, txins) && buffer == bytes + rest
    ensures DecodeArray(DecodeTxIn, buffer) == Ok((txins, |bytes|))
  {
    TxInsRoundTrip(txins, rest);
  }

  lemma {:induction false} LocktimeAt(buffer: seq<Byte>, at: nat, locktime: U32, rest: seq<Byte>)
    requires at <= |buffer| && buffer[at..] == LittleEndian(locktime, 4) + rest
    ensures GetLittleEndian(buffer, at, 4) == Ok(locktime)
  {
    Pow256Values();
    GetAt(buffer, at, locktime, 4, rest);
  }

  lemma {:induction false} Append5<T>(a: seq<T>, b: seq<T>, c: seq<T>, d: seq<T>, e: seq<T>, rest: seq<T>)
    ensures (a + (b + (c + (d + e)))) + rest == a + (b + (c + (d + (e + rest))))
  {
    ConcatAssociative(d, e, rest);
    ConcatAssociative(c, d + e, rest);
    ConcatAssociative(b, c + (d + e), rest);
    ConcatAssociative(a, b + (c + (d + e)), rest);
  }

  // ---------------------------------------------------------------- the size computed ahead

  function InputsSize(txins: seq<TxIn>): nat
    requires forall i :: 0 <= i < |txins| ==> InputFits(txins[i])
  {
    if txins == [] then 0 else assert InputFits(txins[0]); 40 + LengthVarint(|txins[0].script|) + |txins[0].script| + InputsSize(txins[1..])
  }

  function BlobsSize(blobs: seq<seq<Byte>>): nat {
    if blobs == [] then 0 else |blobs[0]| + BlobsSize(blobs[1..])
  }

  /** serialized_without_txouts_size */
  function TxSize(tx: Tx): nat
    requires |tx.txins| < USIZE && forall i :: 0 <= i < |tx.txins| ==> InputFits(tx.txins[i])
  {
    4 + (if tx.witnesses.Some? then 2 + BlobsSize(tx.witnesses.value) else 0)
      + LengthVarint(|tx.txins|) + InputsSize(tx.txins) + 4
  }

  lemma {:induction false} InputsSizeIs(txins: seq<TxIn>)
    requires forall i :: 0 <= i < |txins| ==> InputFits(txins[i])
    ensures InputsSize(txins) == |EncodeItems(EncodeTxIn, txins)|
  {
    if txins != [] {
      InputsSizeIs(txins[1..]);
    }
  }

  lemma {:induction false} BlobsSizeIs(blobs: seq<seq<Byte>>)
    ensures BlobsSize(blobs) == |EncodeItems(RawBlob, blobs)|
  {
    if blobs != [] {
      BlobsSizeIs(blobs[1..]);
    }
  }

  /** The size computed ahead of writing is the number of bytes written. */
  lemma {:induction false} TxSizeIs(tx: Tx)
    requires |tx.txins| < USIZE && forall i :: 0 <= i < |tx.txins| ==> InputFits(tx.txins[i])
    ensures TxSize(tx) == |EncodeTx(tx)|
  {
    InputsSizeIs(tx.txins);
    if tx.witnesses.Some? {
      BlobsSizeIs(tx.witnesses.value);
    }
  }

  // ---------------------------------------------------------------- the analyzed record

  datatype Analysis = Analysis(fee: U64, txoutsSum: U64, sizeWus: U32, sigops: U32, blockHash: Hash)

  datatype Record = Record(analysis: Analysis, tx: Tx, txinValues: seq<U64>)

  function EncodeU64(v: U64): seq<Byte> {
    LittleEndian(v, 8)
  }

  function DecodeU64(buffer: seq<Byte>): Parsed<U64> {
    Pow256Values();
    var v :- GetLittleEndian(buffer, 0, 8);
    Ok((v, 8))
  }

  /** The 56 bytes ahead of the transaction. */
  function EncodeAnalysis(a: Analysis): (s: seq<Byte>)
    ensures |s| == 56
  {
    LittleEndian(a.fee, 8) + (LittleEndian(a.txoutsSum, 8) +
      (LittleEndian(a.sizeWus, 4) + (LittleEndian(a.sigops, 4) + a.blockHash)))
  }

  function DecodeAnalysis(data: seq<Byte>): Result<Analysis> {
    Pow256Values();
    var fee :- GetLittleEndian(data, 0, 8);
    var txoutsSum :- GetLittleEndian(data, 8, 8);
    var sizeWus :- GetLittleEndian(data, 16, 4);
    var sigops :- GetLittleEndian(data, 20, 4);
    if |data| < 56 then Err else Ok(Analysis(fee, txoutsSum, sizeWus, sigops, data[24..56]))
  }

  /** What analyze_tx writes, up to the eight spare bytes at the end. */
  function EncodeRecord(r: Record): seq<Byte>
    requires |r.tx.txins| < USIZE && |r.txinValues| < USIZE
  {
    EncodeAnalysis(r.analysis) + (EncodeTx(r.tx) + EncodeArray(EncodeU64, r.txinValues))
  }

  /** deserialize_analyzed_tx */
  function DecodeRecord(data: seq<Byte>): Result<Record> {
    var analysis :- DecodeAnalysis(data);
    if |data| < 56 then Err
    else
      var (tx, consumed) :- DecodeTx(data[56..]);
      if |data| < 56 + consumed then Err
      else
        var (values, _) :- DecodeArray(DecodeU64, data[56 + consumed..]);
        Ok(Record(analysis, tx, values))
  }

  lemma {:induction false} AnalysisRoundTrip(a: Analysis, rest: seq<Byte>)
    ensures DecodeAnalysis(EncodeAnalysis(a) + rest) == Ok(a)
  {
    var fee, sum, size, sigops := LittleEndian(a.fee, 8), LittleEndian(a.txoutsSum, 8),
        LittleEndian(a.sizeWus, 4), LittleEndian(a.sigops, 4);
    var data := EncodeAnalysis(a) + rest;
    Pow256Values();
    Append5(fee, sum, size, sigops, a.blockHash, rest);
    GetAt(data, 0, a.fee, 8, sum + (size + (sigops + (a.blockHash + rest))));
    Advance(data, 0, fee, sum + (size + (sigops + (a.blockHash + rest))));
    GetAt(data, 8, a.txoutsSum, 8, size + (sigops + (a.blockHash + rest)));
    Advance(data, 8, sum, size + (sigops + (a.blockHash + rest)));
    GetAt(data, 16, a.sizeWus, 4, sigops + (a.blockHash + rest));
    Advance(data, 16, size, sigops + (a.blockHash + rest));
    GetAt(data, 20, a.sigops, 4, a.blockHash + rest);
    Advance(data, 20, sigops, a.blockHash + rest);
    assert data[24..56] == data[24..][..32] == a.blockHash;
  }

  lemma {:induction false} ValuesRoundTrip(values: seq<U64>, rest: seq<Byte>)
    requires |values| < USIZE
    ensures DecodeArray(DecodeU64, EncodeArray(EncodeU64, values) + rest) == Ok((values, |EncodeArray(EncodeU64, values)|))
  {
    forall i | 0 <= i < |values| ensures RoundTrips(DecodeU64, EncodeU64, values[i]) {
      forall more ensures DecodeU64(EncodeU64(values[i]) + more) == Ok((values[i], |EncodeU64(values[i])|)) {
        Pow256Values();
        GetAt(EncodeU64(values[i]) + more, 0, values[i], 8, more);
      }
    }
    ArrayRoundTrip(DecodeU64, EncodeU64, values, rest);
  }

  ghost predicate RecordDecodes(data: seq<Byte>, r: Record, consumed: nat, end: nat) {
    && |data| >= 56 + consumed && DecodeAnalysis(data) == Ok(r.analysis)
    && DecodeTx(data[56..]) == Ok((r.tx.(txouts := []), consumed))
    && DecodeArray(DecodeU64, data[56 + consumed..]) == Ok((r.txinValues, end))
  }

  lemma {:induction false} DecodeRecordBy(data: seq<Byte>, r: Record, consumed: nat, end: nat)
    requires RecordDecodes(data, r, consumed, end)
    ensures DecodeRecord(data) == Ok(r.(tx := r.tx.(txouts := [])))
  {
  }

  /** Reading a stored record gives back every field; what follows the record changes nothing. */
  lemma {:induction false} RecordRoundTrip(r: Record, rest: seq<Byte>)
    requires Storable(r.tx) && |r.txinValues| < USIZE
    ensures DecodeRecord(EncodeRecord(r) + rest) == Ok(r.(tx := r.tx.(txouts := [])))
  {
    var consumed, end := RecordParts(r, EncodeRecord(r) + rest, rest);
    DecodeRecordBy(EncodeRecord(r) + rest, r, consumed, end);
  }

  lemma {:induction false} RecordParts(r: Record, data: seq<Byte>, rest: seq<Byte>) returns (consumed: nat, end: nat)
    requires Storable(r.tx) && |r.txinValues| < USIZE && data == EncodeRecord(r) + rest
    ensures RecordDecodes(data, r, consumed, end)
  {
    RecordHead(r, data, rest);
    RecordTx(r, data, rest);
    RecordValues(r, data, rest);
    consumed, end := |EncodeTx(r.tx)|, |EncodeArray(EncodeU64, r.txinValues)|;
  }

  lemma {:induction false} RecordHead(r: Record, data: seq<Byte>, rest: seq<Byte>)
    requires |r.tx.txins| < USIZE && |r.txinValues| < USIZE && data == EncodeRecord(r) + rest
    ensures DecodeAnalysis(data) == Ok(r.analysis)
  {
    ConcatAssociative(EncodeAnalysis(r.analysis), EncodeTx(r.tx) + EncodeArray(EncodeU64, r.txinValues), rest);
    AnalysisRoundTrip(r.analysis, (EncodeTx(r.tx) + EncodeArray(EncodeU64, r.txinValues)) + rest);
  }

  lemma {:induction false} RecordTx(r: Record, data: seq<Byte>, rest: seq<Byte>)
    requires Storable(r.tx) && |r.txinValues| < USIZE && data == EncodeRecord(r) + rest
    ensures |data| >= 56 && DecodeTx(data[56..]) == Ok((r.tx.(txouts := []), |EncodeTx(r.tx)|))
  {
    var values := EncodeArray(EncodeU64, r.txinValues);
    RecordLayout(data, EncodeAnalysis(r.analysis), EncodeTx(r.tx), values, rest);
    TxRoundTripAt(r.tx, EncodeTx(r.tx), data[56..], values + rest);
  }

  lemma {:induction false} RecordValues(r: Record, data: seq<Byte>, rest: seq<Byte>)
    requires |r.tx.txins| < USIZE && |r.txinValues| < USIZE && data == EncodeRecord(r) + rest
    ensures var at, values := 56 + |EncodeTx(r.tx)|, EncodeArray(EncodeU64, r.txinValues);
      |data| >= at && DecodeArray(DecodeU64, data[at..]) == Ok((r.txinValues, |values|))
  {
    var tx, values := EncodeTx(r.tx), EncodeArray(EncodeU64, r.txinValues);
    RecordLayout(data, EncodeAnalysis(r.analysis), tx, values, rest);
    ValuesRoundTripAt(r.txinValues, values, data[56 + |tx|..], rest);
  }

  lemma {:induction false} TxRoundTripAt(tx: Tx, bytes: seq<Byte>, buffer: seq<Byte>, rest: seq<Byte>)
    requires Storable(tx) && bytes == EncodeTx(tx) && buffer == bytes + rest
    ensures DecodeTx(buffer) == Ok((tx.(txouts := []), |bytes|))
  {
    TxRoundTrip(tx, rest);
  }

  lemma {:induction false} ValuesRoundTripAt(values: seq<U64>, bytes: seq<Byte>, buffer: seq<Byte>, rest: seq<Byte>)
    requires |values| < USIZE && bytes == EncodeArray(EncodeU64, values) && buffer == bytes + rest
    ensures DecodeArray(DecodeU64, buffer) == Ok((values, |bytes|))
  {
    ValuesRoundTrip(values, rest);
  }

  lemma {:induction false} RecordLayout(data: seq<Byte>, head: seq<Byte>, tx: seq<Byte>, values: seq<Byte>, rest: seq<Byte>)
    requires data == (head + (tx + values)) + rest && |head| == 56
    ensures data == head + (tx + (values + rest)) && |data| >= 56 + |tx|
    ensures data[56..] == tx + (values + rest) && data[56 + |tx|..] == values + rest
  {
    ConcatAssociative(tx, values, rest);
    ConcatAssociative(head, tx + values, rest);
    Advance(data, 0, head, tx + (values + rest));
    Advance(data, 56, tx, values + rest);
  }
}
