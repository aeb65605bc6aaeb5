/** Variable-length integers, and the byte strings and arrays counted by them. */
module VarInt {
  import opened Wrappers
  import opened Bytes
  import opened Seqs

  /** Err stands for the source's error returns and panics alike. */
  type Parsed<T> = Result<(T, nat)>

  function LengthVarint(v: U64): (n: nat) {
    if v < 0xFD then 1 else if v < 0xFFFF then 3 else if v < 0xFFFFFFFF then 5 else 9
  }

  /** serialize_varint */
  function EncodeVarint(v: U64): (s: seq<Byte>)
    ensures |s| == LengthVarint(v)
  {
    if v < 0xFD then [v]
    else if v < 0xFFFF then [0xFD] + LittleEndian(v, 2)
    else if v < 0xFFFFFFFF then [0xFE] + LittleEndian(v, 4)
    else [0xFF] + LittleEndian(v, 8)
  }

  /** deserialize_varint */
  function DecodeVarint(buffer: seq<Byte>): (r: Parsed<U64>)
    ensures r.Ok? ==> 0 < r.value.1 <= |buffer|
  {
    if buffer == [] then Err
    else if buffer[0] < 0xFD then Ok((buffer[0], 1))
    else
      var k := VarintWidth(buffer[0]);
      var v :- GetLittleEndian(buffer, 1, k);
      Pow256Values();
      Ok((v, 1 + k))
  }

  function VarintWidth(leader: Byte): (k: nat)
    ensures k == 2 || k == 4 || k == 8
  {
    if leader == 0xFD then 2 else if leader == 0xFE then 4 else 8
  }

  lemma {:induction false} VarintRoundTrip(v: U64, rest: seq<Byte>)
    ensures DecodeVarint(EncodeVarint(v) + rest) == Ok((v, LengthVarint(v)))
  {
    if v >= 0xFD {
      Pow256Values();
      var leader, k := EncodeVarint(v)[0], LengthVarint(v) - 1;
      GetWritten([leader], v, k, rest);
    }
  }

  /** A value can be read from fewer bytes than are written for it exactly when it is a threshold, which the code excludes. */
  lemma {:induction false} VarintIsShortestIff(v: U64)
    ensures (exists buffer ::
               DecodeVarint(buffer).Ok? && DecodeVarint(buffer).value.0 == v && DecodeVarint(buffer).value.1 < LengthVarint(v))
            <==> v == 0xFFFF || v == 0xFFFF_FFFF
  {
    forall buffer | DecodeVarint(buffer).Ok? && DecodeVarint(buffer).value.1 < LengthVarint(DecodeVarint(buffer).value.0)
      ensures DecodeVarint(buffer).value.0 == 0xFFFF || DecodeVarint(buffer).value.0 == 0xFFFF_FFFF
    {
      Pow256Values();
    }
    ThresholdReads(2);
    ThresholdReads(4);
    Pow256Values();
    assert DecodeVarint([0xFD] + LittleEndian(0xFFFF, 2)) == Ok((0xFFFF, 3));
    assert DecodeVarint([0xFE] + LittleEndian(0xFFFF_FFFF, 4)) == Ok((0xFFFF_FFFF, 5));
  }

  /** The largest number of two or four bytes reads from just those bytes. */
  lemma {:induction false} ThresholdReads(k: nat)
    requires k == 2 || k == 4
    ensures Pow256(k) - 1 < 0x1_0000_0000_0000_0000
    ensures var leader: Byte := if k == 2 then 0xFD else 0xFE;
      DecodeVarint([leader] + LittleEndian(Pow256(k) - 1, k)) == Ok((Pow256(k) - 1, 1 + k))
  {
    Pow256Values();
    var leader: Byte := if k == 2 then 0xFD else 0xFE;
    GetWritten([leader], Pow256(k) - 1, k, []);
    assert [leader] + LittleEndian(Pow256(k) - 1, k) + [] == [leader] + LittleEndian(Pow256(k) - 1, k);
  }

  /** What follows a varint does not change how it is read. */
  lemma {:induction false} VarintIgnoresRest(buffer: seq<Byte>, rest: seq<Byte>)
    requires DecodeVarint(buffer).Ok?
    ensures DecodeVarint(buffer + rest) == DecodeVarint(buffer)
  {
    if buffer[0] >= 0xFD {
      var k := VarintWidth(buffer[0]);
      assert (buffer + rest)[1..1 + k] == buffer[1..1 + k];
    }
  }

  // ---------------------------------------------------------------- byte strings

  function EncodeVarstr(s: seq<Byte>): (r: seq<Byte>)
    requires |s| < 0x1_0000_0000_0000_0000
    ensures |r| == LengthVarint(|s|) + |s|
  {
    EncodeVarint(|s|) + s
  }

  /** deserialize_varstr */
  function DecodeVarstr(buffer: seq<Byte>): (r: Parsed<seq<Byte>>)
    ensures r.Ok? ==> 0 < r.value.1 <= |buffer| && |r.value.0| < r.value.1
  {
    var (length, offset) :- DecodeVarint(buffer);
    if |buffer| < length + offset then Err else Ok((buffer[offset..offset + length], offset + length))
  }

  lemma {:induction false} VarstrRoundTrip(s: seq<Byte>, rest: seq<Byte>)
    requires |s| < 0x1_0000_0000_0000_0000
    ensures DecodeVarstr(EncodeVarstr(s) + rest) == Ok((s, |EncodeVarstr(s)|))
  {
    VarintRoundTrip(|s|, s + rest);
    ConcatAssociative(EncodeVarint(|s|), s, rest);
    var n := LengthVarint(|s|);
    assert (EncodeVarint(|s|) + (s + rest))[n..n + |s|] == s;
  }

  // ---------------------------------------------------------------- arrays

  /** The item loop of deserialize_array: each item is read at the running offset. */
  function DecodeItems<T>(decode: seq<Byte> -> Parsed<T>, buffer: seq<Byte>, offset: nat, count: nat): (r: Parsed<seq<T>>)
    ensures r.Ok? ==> |r.value.0| == count
    decreases count
  {
    if count == 0 then Ok(([], offset))
    else if offset > |buffer| then Err
    else
      var (item, consumed) :- decode(buffer[offset..]);
      var (rest, end) :- DecodeItems(decode, buffer, offset + consumed, count - 1);
      Ok(([item] + rest, end))
  }

  function EncodeItems<T>(encode: T -> seq<Byte>, items: seq<T>): seq<Byte> {
    if items == [] then [] else encode(items[0]) + EncodeItems(encode, items[1..])
  }

  ghost predicate RoundTrips<T(!new)>(decode: seq<Byte> -> Parsed<T>, encode: T -> seq<Byte>, x: T) {
    forall rest :: decode(encode(x) + rest) == Ok((x, |encode(x)|))
  }

  /** At an offset, buffer goes on with first and then with rest. */
  lemma {:induction false} Advance<T>(buffer: seq<T>, offset: nat, first: seq<T>, rest: seq<T>)
    requires offset <= |buffer| && buffer[offset..] == first + rest
    ensures offset + |first| <= |buffer| && buffer[offset + |first|..] == rest
  {
    assert buffer[offset + |first|..] == buffer[offset..][|first|..];
  }

  lemma {:induction false} ItemsRoundTrip<T(!new)>(decode: seq<Byte> -> Parsed<T>, encode: T -> seq<Byte>,
                                                   items: seq<T>, buffer: seq<Byte>, offset: nat, rest: seq<Byte>)
    requires forall i :: 0 <= i < |items| ==> RoundTrips(decode, encode, items[i])
    requires offset <= |buffer| && buffer[offset..] == EncodeItems(encode, items) + rest
    ensures DecodeItems(decode, buffer, offset, |items|) == Ok((items, offset + |EncodeItems(encode, items)|))
    decreases |items|
  {
    if items != [] {
      var first, more := encode(items[0]), EncodeItems(encode, items[1..]);
      ConcatAssociative(first, more, rest);
      Advance(buffer, offset, first, more + rest);
      assert RoundTrips(decode, encode, items[0]);
      assert decode(first + (more + rest)) == Ok((items[0], |first|));
      assert [items[0]] + items[1..] == items;
      ItemsRoundTrip(decode, encode, items[1..], buffer, offset + |first|, rest);
    }
  }

  /** serialize_array */
  function EncodeArray<T>(encode: T -> seq<Byte>, items: seq<T>): seq<Byte>
    requires |items| < 0x1_0000_0000_0000_0000
  {
    EncodeVarint(|items|) + EncodeItems(encode, items)
  }

  /** deserialize_array, and deserialize_array_owned, which reads the same way */
  function DecodeArray<T>(decode: seq<Byte> -> Parsed<T>, buffer: seq<Byte>): Parsed<seq<T>> {
    var (count, offset) :- DecodeVarint(buffer);
    DecodeItems(decode, buffer, offset, count)
  }

  lemma {:induction false} ArrayRoundTrip<T(!new)>(decode: seq<Byte> -> Parsed<T>, encode: T -> seq<Byte>,
                                                   items: seq<T>, rest: seq<Byte>)
    requires |items| < 0x1_0000_0000_0000_0000
    requires forall i :: 0 <= i < |items| ==> RoundTrips(decode, encode, items[i])
    ensures DecodeArray(decode, EncodeArray(encode, items) + rest) == Ok((items, |EncodeArray(encode, items)|))
  {
    var count, body := EncodeVarint(|items|), EncodeItems(encode, items);
    ConcatAssociative(count, body, rest);
    VarintRoundTrip(|items|, body + rest);
    ItemsRoundTrip(decode, encode, items, count + (body + rest), |count|, rest);
  }

  /** deserialize_array_owned with its loop */
  method DeserializeArray<T>(decode: seq<Byte> -> Parsed<T>, buffer: seq<Byte>) returns (r: Parsed<seq<T>>)
    ensures r == DecodeArray(decode, buffer)
  {
    var head := DecodeVarint(buffer);
    if head.Err? {
      return Err;
    }
    var count, offset: nat := head.value.0, head.value.1;
    var items: seq<T> := [];
    PrependNothing(DecodeItems(decode, buffer, offset, count));
    for i := 0 to count
      invariant |items| == i
      invariant DecodeArray(decode, buffer) == Prepend(items, DecodeItems(decode, buffer, offset, count - i))
    {
      if offset > |buffer| {
        return Err;
      }
      var next := decode(buffer[offset..]);
      if next.Err? {
        return Err;
      }
      var (item, consumed) := next.value;
      PrependItem(items, item, DecodeItems(decode, buffer, offset + consumed, count - i - 1));
      items, offset := items + [item], offset + consumed;
    }
    assert items + [] == items;
    return Ok((items, offset));
  }

  lemma {:induction false} PrependNothing<T>(r: Parsed<seq<T>>)
    ensures Prepend([], r) == r
  {
    if r.Ok? {
      assert [] + r.value.0 == r.value.0;
    }
  }

  function Prepend<T>(items: seq<T>, r: Parsed<seq<T>>): Parsed<seq<T>> {
    var (rest, end) :- r;
    Ok((items + rest, end))
  }

  lemma {:induction false} PrependItem<T>(items: seq<T>, item: T, r: Parsed<seq<T>>)
    ensures Prepend(items, Prepend([item], r)) == Prepend(items + [item], r)
  {
    if r.Ok? {
      ConcatAssociative(items, [item], r.value.0);
    }
  }

  // ---------------------------------------------------------------- arrays of byte strings kept as raw bytes

  const USIZE := 0x1_0000_0000_0000_0000

  /** The loop of deserialize_array_of_varstr_as_varstr: only the lengths are read, and offsets wrap around. */
  function SkipItems(buffer: seq<Byte>, offset: nat, count: nat): Result<nat>
    decreases count
  {
    if count == 0 then Ok(offset)
    else if offset > |buffer| then Err
    else
      var (length, consumed) :- DecodeVarint(buffer[offset..]);
      SkipItems(buffer, (offset + consumed + length) % USIZE, count - 1)
  }

  /** deserialize_array_of_varstr_as_varstr: the raw bytes of an array of byte strings. */
  function DecodeBlob(buffer: seq<Byte>): Parsed<seq<Byte>> {
    var (count, start) :- DecodeVarint(buffer);
    var end :- SkipItems(buffer, start, count);
    if end > |buffer| then Err else Ok((buffer[..end], end))
  }

  /** A blob that spans exactly itself. */
  predicate WellFormedBlob(blob: seq<Byte>) {
    DecodeBlob(blob) == Ok((blob, |blob|))
  }

  lemma {:induction false} SkipIgnoresRest(buffer: seq<Byte>, rest: seq<Byte>, offset: nat, count: nat)
    requires SkipItems(buffer, offset, count).Ok?
    ensures SkipItems(buffer + rest, offset, count) == SkipItems(buffer, offset, count)
    decreases count
  {
    if count > 0 {
      var tail := buffer[offset..];
      VarintIgnoresRest(tail, rest);
      assert (buffer + rest)[offset..] == tail + rest;
      var (length, consumed) := DecodeVarint(tail).value;
      SkipIgnoresRest(buffer, rest, (offset + consumed + length) % USIZE, count - 1);
    }
  }

  /** A well-formed blob is read back exactly, whatever follows it. */
  lemma {:induction false} BlobRoundTrip(blob: seq<Byte>, rest: seq<Byte>)
    requires WellFormedBlob(blob)
    ensures DecodeBlob(blob + rest) == Ok((blob, |blob|))
  {
    VarintIgnoresRest(blob, rest);
    var (count, start) := DecodeVarint(blob).value;
    SkipIgnoresRest(blob, rest, start, count);
  }

  function EncodeBlob(items: seq<seq<Byte>>): seq<Byte>
    requires |items| < USIZE && forall i :: 0 <= i < |items| ==> |items[i]| < USIZE
  {
    EncodeVarint(|items|) + EncodeStrings(items)
  }

  function EncodeStrings(items: seq<seq<Byte>>): seq<Byte>
    requires forall i :: 0 <= i < |items| ==> |items[i]| < USIZE
  {
    if items == [] then [] else EncodeVarstr(items[0]) + EncodeStrings(items[1..])
  }

  lemma {:induction false} SkipEncoded(items: seq<seq<Byte>>, buffer: seq<Byte>, offset: nat)
    requires forall i :: 0 <= i < |items| ==> |items[i]| < USIZE
    requires offset <= |buffer| < USIZE && buffer[offset..] == EncodeStrings(items)
    ensures SkipItems(buffer, offset, |items|) == Ok(|buffer|)
    decreases |items|
  {
    if items != [] {
      var first, more := items[0], EncodeStrings(items[1..]);
      VarstrHead(first, more);
      Advance(buffer, offset, EncodeVarstr(first), more);
      SkipEncoded(items[1..], buffer, offset + LengthVarint(|first|) + |first|);
      SkipOne(buffer, offset, |items|, |first|, LengthVarint(|first|), |buffer|);
    }
  }

  lemma {:induction false} VarstrHead(s: seq<Byte>, rest: seq<Byte>)
    requires |s| < USIZE
    ensures DecodeVarint(EncodeVarstr(s) + rest) == Ok((|s|, LengthVarint(|s|)))
  {
    ConcatAssociative(EncodeVarint(|s|), s, rest);
    VarintRoundTrip(|s|, s + rest);
  }

  /** One length read and skipped. */
  lemma {:induction false} SkipOne(buffer: seq<Byte>, offset: nat, count: nat, length: U64, consumed: nat, end: nat)
    requires offset <= |buffer| && count > 0 && DecodeVarint(buffer[offset..]) == Ok((length, consumed))
    requires offset + consumed + length < USIZE
    requires SkipItems(buffer, offset + consumed + length, count - 1) == Ok(end)
    ensures SkipItems(buffer, offset, count) == Ok(end)
  {
    WrapsNot(offset + consumed + length);
  }

  lemma {:induction false} WrapsNot(n: nat)
    requires n < USIZE
    ensures n % USIZE == n
  {
  }

  /** Every list of byte strings encodes to a well-formed blob. */
  lemma {:induction false} EncodedBlobIsWellFormed(items: seq<seq<Byte>>)
    requires |items| < USIZE && (forall i :: 0 <= i < |items| ==> |items[i]| < USIZE) && |EncodeBlob(items)| < USIZE
    ensures WellFormedBlob(EncodeBlob(items))
  {
    var blob := EncodeBlob(items);
    VarintRoundTrip(|items|, EncodeStrings(items));
    SkipEncoded(items, blob, LengthVarint(|items|));
    assert blob[..|blob|] == blob;
  }

  /** VarStrIter: what its next calls return until the first None. */
  function Iterate(buffer: seq<Byte>, offset: nat, remaining: nat): seq<seq<Byte>>
    decreases remaining
  {
    if remaining == 0 || offset > |buffer| then []
    else match DecodeVarstr(buffer[offset..])
      case Err => []
      case Ok(p) => [p.0] + Iterate(buffer, offset + p.1, remaining - 1)
  }

  /** Iterating over an encoded list, whatever follows it, gives back its strings. */
  lemma {:induction false} IterateEncoded(items: seq<seq<Byte>>, buffer: seq<Byte>, offset: nat, rest: seq<Byte>)
    requires forall i :: 0 <= i < |items| ==> |items[i]| < USIZE
    requires offset <= |buffer| && buffer[offset..] == EncodeStrings(items) + rest
    ensures Iterate(buffer, offset, |items|) == items
    decreases |items|
  {
    if items != [] {
      var first, more := EncodeVarstr(items[0]), EncodeStrings(items[1..]);
      ConcatAssociative(first, more, rest);
      Advance(buffer, offset, first, more + rest);
      VarstrRoundTrip(items[0], more + rest);
      IterateEncoded(items[1..], buffer, offset + |first|, rest);
      IterateOne(buffer, offset, |items|, items[0], |first|);
    }
  }

  lemma {:induction false} IterateOne(buffer: seq<Byte>, offset: nat, remaining: nat, s: seq<Byte>, length: nat)
    requires remaining > 0 && offset <= |buffer| && DecodeVarstr(buffer[offset..]) == Ok((s, length))
    ensures Iterate(buffer, offset, remaining) == [s] + Iterate(buffer, offset + length, remaining - 1)
  {
  }
}
