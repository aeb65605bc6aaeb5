/** The rows of the address index: one per address and transaction, in key order. */
module AddressSpec {
  import opened Wrappers
  import opened Bytes
  import opened Seqs
  import opened TxCodec
  import opened Script

  type Key = seq<Byte>

  const TWO_63 := 0x8000_0000_0000_0000
  const TWO_64 := 0x1_0000_0000_0000_0000

  /** An amount in 64 bits, two's complement. */
  function Wrap64(n: int): (r: I64) {
    (n + TWO_63) % TWO_64 - TWO_63
  }

  lemma {:induction false} WrapAdd(a: int, b: int)
    ensures Wrap64(Wrap64(a) + b) == Wrap64(a + b)
  {
  }

  lemma {:induction false} WrapSmall(n: int)
    requires -0x8000_0000_0000_0000 <= n < 0x8000_0000_0000_0000
    ensures Wrap64(n) == n
  {
  }

  // ---------------------------------------------------------------- keys

  predicate IsFramed(script: seq<Byte>, prefix: seq<Byte>, length: nat, suffix: seq<Byte>) {
    |script| == |prefix| + length + |suffix| && script[..|prefix|] == prefix && script[|prefix| + length..] == suffix
  }

  const OP_DUP: Byte := 0x76
  const OP_EQUALVERIFY: Byte := 0x88

  /** get_p2pk_address, get_p2sh_address, get_p2pkh_address and get_bech32_address, in that order */
  function AddressOf(script: seq<Byte>): Option<seq<Byte>> {
    if IsFramed(script, [0x41], 65, [OP_CHECKSIG]) then Some(script[1..66])
    else if IsFramed(script, [0x21], 33, [OP_CHECKSIG]) then Some(script[1..34])
    else if IsFramed(script, [OP_HASH160, 0x14], 20, [OP_EQUAL]) then Some(script[2..22])
    else if IsFramed(script, [OP_DUP, OP_HASH160, 0x14], 20, [OP_EQUALVERIFY, OP_CHECKSIG]) then Some(script[3..23])
    else if |script| == 22 && script[..2] == [OP_0, 0x14] then Some(script[2..])
    else if |script| == 34 && (script[..2] == [OP_0, 0x20] || script[..2] == [OP_1, 0x20]) then Some(script[2..])
    else None
  }

  function Reversed(s: seq<Byte>): (r: seq<Byte>)
    ensures |r| == |s|
  {
    if s == [] then [] else [s[|s| - 1]] + Reversed(s[..|s| - 1])
  }

  /** Address bytes, then the time counted down from the largest 64-bit number, most significant byte first, then the transaction. */
  function KeyOf(address: seq<Byte>, timestamp: U64, txid: Hash): Key {
    address + Reversed(LittleEndian(0xFFFF_FFFF_FFFF_FFFF - timestamp, 8)) + txid
  }

  lemma {:induction false} ReversedInjective(a: seq<Byte>, b: seq<Byte>)
    requires |a| == |b| && Reversed(a) == Reversed(b)
    ensures a == b
  {
    if a != [] {
      assert Reversed(a)[1..] == Reversed(a[..|a| - 1]) && Reversed(b)[1..] == Reversed(b[..|b| - 1]);
      ReversedInjective(a[..|a| - 1], b[..|b| - 1]);
      assert a == a[..|a| - 1] + [a[|a| - 1]] && b == b[..|b| - 1] + [b[|b| - 1]];
    }
  }

  /** Different addresses, times or transactions have different keys. */
  lemma {:induction false} KeyIsInjective(a: seq<Byte>, s: U64, x: Hash, b: seq<Byte>, t: U64, y: Hash)
    requires KeyOf(a, s, x) == KeyOf(b, t, y)
    ensures a == b && s == t && x == y
  {
    var k, l := KeyOf(a, s, x), KeyOf(b, t, y);
    var m, n := 0xFFFF_FFFF_FFFF_FFFF - s, 0xFFFF_FFFF_FFFF_FFFF - t;
    assert |k| == |a| + 40 && |l| == |b| + 40;
    assert a == k[..|a|] && b == l[..|b|];
    assert Reversed(LittleEndian(m, 8)) == k[|a|..|a| + 8] == Reversed(LittleEndian(n, 8));
    assert x == k[|a| + 8..] && y == l[|b| + 8..];
    ReversedInjective(LittleEndian(m, 8), LittleEndian(n, 8));
    Pow256Values();
    LittleEndianRoundTrip(m, 8);
    LittleEndianRoundTrip(n, 8);
  }

  // ---------------------------------------------------------------- the order of keys

  /** Bytewise order. */
  predicate Less(a: Key, b: Key) {
    b != [] && (a == [] || a[0] < b[0] || (a[0] == b[0] && Less(a[1..], b[1..])))
  }

  lemma {:induction false} LessIsTotal(a: Key, b: Key)
    ensures Less(a, b) || a == b || Less(b, a)
    ensures Less(a, b) ==> a != b && !Less(b, a)
  {
    if a != [] && b != [] && a[0] == b[0] {
      LessIsTotal(a[1..], b[1..]);
      assert a == [a[0]] + a[1..] && b == [b[0]] + b[1..];
    }
  }

  /** One key is less when it ends first, or has the smaller byte where they first differ. */
  lemma {:induction false} LessIff(a: Key, b: Key)
    ensures Less(a, b) <==> exists i :: 0 <= i <= |a| && i < |b| && a[..i] == b[..i] && (i == |a| || a[i] < b[i])
  {
    if Less(a, b) {
      var i := FirstLess(a, b);
    }
    if i :| 0 <= i <= |a| && i < |b| && a[..i] == b[..i] && (i == |a| || a[i] < b[i]) {
      assert a == a[..i] + a[i..] && b == a[..i] + b[i..];
      LessBehind(a[..i], a[i..], b[i..]);
    }
  }

  lemma {:induction false} FirstLess(a: Key, b: Key) returns (i: nat)
    requires Less(a, b)
    ensures i <= |a| && i < |b| && a[..i] == b[..i] && (i == |a| || a[i] < b[i])
  {
    if a == [] || a[0] < b[0] {
      i := 0;
    } else {
      i := FirstLess(a[1..], b[1..]);
      i := i + 1;
      assert a[..i] == [a[0]] + a[1..][..i - 1] && b[..i] == [b[0]] + b[1..][..i - 1];
    }
  }

  lemma {:induction false} LessIsTransitive(a: Key, b: Key, c: Key)
    requires Less(a, b) && Less(b, c)
    ensures Less(a, c)
  {
    if a != [] && a[0] == b[0] == c[0] {
      LessIsTransitive(a[1..], b[1..], c[1..]);
    }
  }

  /** Behind a common beginning the order is that of what follows. */
  lemma {:induction false} LessBehind(p: Key, a: Key, b: Key)
    ensures Less(p + a, p + b) <==> Less(a, b)
  {
    if p == [] {
      assert p + a == a && p + b == b;
    } else {
      assert (p + a)[1..] == p[1..] + a && (p + b)[1..] == p[1..] + b;
      LessBehind(p[1..], a, b);
    }
  }

  lemma {:induction false} ReversedFront(b: Byte, s: seq<Byte>)
    ensures Reversed([b] + s) == Reversed(s) + [b]
  {
    if s == [] {
      assert ([b] + s)[..0] == [] && [b] + s == [b];
    } else {
      assert ([b] + s)[..|s|] == [b] + s[..|s| - 1];
      ReversedFront(b, s[..|s| - 1]);
    }
  }

  /** Most significant byte first, a smaller number comes first, whatever follows. */
  lemma {:induction false} SmallerIsLess(m: nat, n: nat, k: nat, x: Key, y: Key)
    requires m < n < Pow256(k)
    ensures Less(Reversed(LittleEndian(m, k)) + x, Reversed(LittleEndian(n, k)) + y)
    decreases k
  {
    if k > 0 {
      var a, b := LittleEndian(m / 256, k - 1), LittleEndian(n / 256, k - 1);
      ReversedFront(m % 256, a);
      ReversedFront(n % 256, b);
      ConcatAssociative(Reversed(a), [m % 256], x);
      ConcatAssociative(Reversed(b), [n % 256], y);
      if m / 256 < n / 256 {
        SmallerIsLess(m / 256, n / 256, k - 1, [m % 256] + x, [n % 256] + y);
      } else {
        LessBehind(Reversed(a), [m % 256] + x, [n % 256] + y);
      }
    }
  }

  /** Reading an address's keys forwards goes from newer transactions to older ones. */
  lemma {:induction false} NewerIsLess(address: seq<Byte>, s: U64, x: Hash, t: U64, y: Hash)
    requires s > t
    ensures Less(KeyOf(address, s, x), KeyOf(address, t, y))
  {
    var m, n := 0xFFFF_FFFF_FFFF_FFFF - s, 0xFFFF_FFFF_FFFF_FFFF - t;
    Pow256Values();
    SmallerIsLess(m, n, 8, x, y);
    ConcatAssociative(address, Reversed(LittleEndian(m, 8)), x);
    ConcatAssociative(address, Reversed(LittleEndian(n, 8)), y);
    LessBehind(address, Reversed(LittleEndian(m, 8)) + x, Reversed(LittleEndian(n, 8)) + y);
  }

  /** The scripts that have an address, and where it lies in them. */
  lemma {:induction false} AddressIff(script: seq<Byte>, a: seq<Byte>)
    ensures AddressOf(script) == Some(a) <==>
              || (|a| == 65 && script == [0x41] + a + [0xac])
              || (|a| == 33 && script == [0x21] + a + [0xac])
              || (|a| == 20 && script == [0xa9, 0x14] + a + [0x87])
              || (|a| == 20 && script == [0x76, 0xa9, 0x14] + a + [0x88, 0xac])
              || (|a| == 20 && script == [0x00, 0x14] + a)
              || (|a| == 32 && (script == [0x00, 0x20] + a || script == [0x51, 0x20] + a))
  {
    FramedIff(script, [0x41], [0xac], a, 65);
    FramedIff(script, [0x21], [0xac], a, 33);
    FramedIff(script, [0xa9, 0x14], [0x87], a, 20);
    FramedIff(script, [0x76, 0xa9, 0x14], [0x88, 0xac], a, 20);
    HeadedIff(script, [0x00, 0x14], a);
    HeadedIff(script, [0x00, 0x20], a);
    HeadedIff(script, [0x51, 0x20], a);
  }

  lemma {:induction false} FramedIff(script: seq<Byte>, prefix: seq<Byte>, suffix: seq<Byte>, a: seq<Byte>, length: nat)
    ensures |a| == length && script == prefix + a + suffix
            <==> IsFramed(script, prefix, length, suffix) && script[|prefix|..|prefix| + length] == a
  {
    if IsFramed(script, prefix, length, suffix) {
      assert script == script[..|prefix|] + script[|prefix|..|prefix| + length] + script[|prefix| + length..];
    }
  }

  lemma {:induction false} HeadedIff(script: seq<Byte>, prefix: seq<Byte>, a: seq<Byte>)
    requires |prefix| == 2
    ensures script == prefix + a <==> |script| == 2 + |a| && script[..2] == prefix && script[2..] == a
  {
    if |script| == 2 + |a| && script[..2] == prefix && script[2..] == a {
      assert script == script[..2] + script[2..];
    }
  }

  // ---------------------------------------------------------------- amounts per key

  datatype Row = Row(key: Key, amount: I64)

  function Total(s: seq<Row>, f: Row -> int): int {
    if s == [] then 0 else Total(Front(s), f) + f(Last(s))
  }

  function AmountAt(k: Key): Row -> int {
    (r: Row) => if r.key == k then r.amount else 0
  }

  function CountAt(k: Key): Row -> int {
    (r: Row) => if r.key == k then 1 else 0
  }

  function Amount(): Row -> int {
    (r: Row) => r.amount
  }

  lemma {:induction false} TotalConcat(s: seq<Row>, t: seq<Row>, f: Row -> int)
    ensures Total(s + t, f) == Total(s, f) + Total(t, f)
  {
    if t == [] {
      assert s + t == s;
    } else {
      assert Front(s + t) == s + Front(t);
      TotalConcat(s, Front(t), f);
    }
  }

  lemma {:induction false} TotalWithout(s: seq<Row>, i: nat, f: Row -> int)
    requires i < |s|
    ensures Total(s, f) == Total(s[..i] + s[i + 1..], f) + f(s[i])
  {
    assert s == (s[..i] + [s[i]]) + s[i + 1..];
    TotalConcat(s[..i] + [s[i]], s[i + 1..], f);
    TotalConcat(s[..i], [s[i]], f);
    TotalConcat(s[..i], s[i + 1..], f);
    assert Front([s[i]]) == [];
  }

  /** Reordering keeps every total. */
  lemma {:induction false} TotalPermuted(s: seq<Row>, t: seq<Row>, f: Row -> int)
    requires multiset(s) == multiset(t)
    ensures Total(s, f) == Total(t, f)
  {
    if s == [] {
      assert |multiset(t)| == 0;
    } else {
      var last := |s| - 1;
      var i := PlaceIn(s, t, last);
      RemoveBoth(s, t, i);
      TotalPermuted(Front(s), t[..i] + t[i + 1..], f);
      TotalWithout(t, i, f);
    }
  }

  // ---------------------------------------------------------------- one transaction

  /** The spent outputs and the outputs that have an address, in order. */
  function Deltas(outs: seq<TxOut>, sign: int, timestamp: U64, txid: Hash): (s: seq<Row>) {
    if outs == [] then []
    else
      var x, rest := Last(outs), Deltas(Front(outs), sign, timestamp, txid);
      var address := AddressOf(x.script);
      if address.None? then rest else rest + [Row(KeyOf(address.value, timestamp, txid), Wrap64(sign * x.value))]
  }

  function Amends(spent: seq<TxOut>, outs: seq<TxOut>, timestamp: U64, txid: Hash): seq<Row> {
    Deltas(spent, -1, timestamp, txid) + Deltas(outs, 1, timestamp, txid)
  }

  /** The value of the outputs that pay an address. */
  function PaidTo(outs: seq<TxOut>, address: seq<Byte>): nat {
    if outs == [] then 0
    else PaidTo(Front(outs), address) + if AddressOf(Last(outs).script) == Some(address) then Last(outs).value else 0
  }

  lemma {:induction false} DeltasTotal(outs: seq<TxOut>, sign: int, timestamp: U64, txid: Hash, address: seq<Byte>)
    ensures Wrap64(Total(Deltas(outs, sign, timestamp, txid), AmountAt(KeyOf(address, timestamp, txid))))
         == Wrap64(sign * PaidTo(outs, address))
  {
    if outs != [] {
      DeltasTotal(Front(outs), sign, timestamp, txid, address);
      var x, rest := Last(outs), Deltas(Front(outs), sign, timestamp, txid);
      var own := AddressOf(x.script);
      var f, paid := AmountAt(KeyOf(address, timestamp, txid)), PaidTo(Front(outs), address);
      if own.Some? {
        var row := Row(KeyOf(own.value, timestamp, txid), Wrap64(sign * x.value));
        assert Front(rest + [row]) == rest;
        if own.value == address {
          Distribute(sign, paid, x.value);
          WrapSum(Total(rest, f), sign * paid, sign * x.value);
        } else if row.key == KeyOf(address, timestamp, txid) {
          KeyIsInjective(own.value, timestamp, txid, address, timestamp, txid);
        }
      }
    }
  }

  lemma {:induction false} Distribute(sign: int, a: int, b: int)
    ensures sign * (a + b) == sign * a + sign * b
  {
  }

  lemma {:induction false} WrapSum(total: int, a: int, b: int)
    requires Wrap64(total) == Wrap64(a)
    ensures Wrap64(total + Wrap64(b)) == Wrap64(a + b)
  {
    WrapAdd(total, Wrap64(b));
    WrapAdd(a, Wrap64(b));
    WrapAdd(b, a);
  }

  /** An amount is kept up to multiples of two to the 64. */
  lemma {:induction false} WrapIs(n: int) returns (k: int)
    ensures n == Wrap64(n) + k * 0x1_0000_0000_0000_0000
  {
    k := (n + TWO_63) / TWO_64;
  }

  /** What an address is paid by some outputs is the sum of what each pays it. */
  lemma {:induction false} PaidToAdds(a: seq<TxOut>, b: seq<TxOut>, out: TxOut, address: seq<Byte>)
    ensures PaidTo([], address) == 0
    ensures PaidTo([out], address) == if AddressOf(out.script) == Some(address) then out.value else 0
    ensures PaidTo(a + b, address) == PaidTo(a, address) + PaidTo(b, address)
  {
    assert Front([out]) == [];
    if b == [] {
      assert a + b == a;
    } else {
      assert Front(a + b) == a + Front(b);
      PaidToAdds(a, Front(b), out, address);
    }
  }

  /** An output spent takes its value off, and one created adds it. */
  lemma {:induction false} OneAmend(out: TxOut, address: seq<Byte>, timestamp: U64, txid: Hash)
    requires AddressOf(out.script) == Some(address) && out.value < 0x8000_0000_0000_0000
    ensures Amends([out], [], timestamp, txid) == [Row(KeyOf(address, timestamp, txid), 0 - out.value)]
    ensures Amends([], [out], timestamp, txid) == [Row(KeyOf(address, timestamp, txid), out.value)]
  {
    assert Front([out]) == [] && Last([out]) == out;
    WrapSmall(out.value);
    WrapSmall(0 - out.value);
    assert Deltas([out], -1, timestamp, txid) == [] + [Row(KeyOf(address, timestamp, txid), 0 - out.value)];
    assert Deltas([out], 1, timestamp, txid) == [] + [Row(KeyOf(address, timestamp, txid), out.value)];
  }

  // ---------------------------------------------------------------- merging runs

  /** The merge loop of write_analyzed_txs on one transaction: neighbours with the same key become one row. */
  function MergeRuns(s: seq<Row>): (m: seq<Row>)
    ensures m == [] <==> s == []
    ensures |m| <= |s|
    ensures s != [] ==> Last(m).key == Last(s).key
  {
    if s == [] then [] else AddRow(MergeRuns(Front(s)), Last(s))
  }

  /** One turn of the loop: the last row is popped and pushed again with the sum, or a new one is pushed. */
  function AddRow(m: seq<Row>, d: Row): (r: seq<Row>)
    ensures r != [] && Last(r).key == d.key && |r| <= |m| + 1
  {
    if m != [] && Last(m).key == d.key then Front(m) + [Row(d.key, Wrap64(Last(m).amount + d.amount))]
    else m + [d]
  }

  predicate Sorted(s: seq<Row>) {
    forall i, j :: 0 <= i < j < |s| ==> !Less(s[j].key, s[i].key)
  }

  predicate StrictlyIncreasing(s: seq<Row>) {
    forall i, j :: 0 <= i < j < |s| ==> Less(s[i].key, s[j].key)
  }

  /** sort_unstable_by: some reordering in key order. */
  ghost predicate IsSortOf(sorted: seq<Row>, s: seq<Row>) {
    Sorted(sorted) && multiset(sorted) == multiset(s)
  }

  lemma {:induction false} MergedIncreases(s: seq<Row>)
    requires Sorted(s)
    ensures StrictlyIncreasing(MergeRuns(s))
  {
    if s != [] {
      var m, d := MergeRuns(Front(s)), Last(s);
      MergedIncreases(Front(s));
      if m != [] && Last(m).key != d.key {
        LessIsTotal(Last(m).key, d.key);
        assert !Less(d.key, s[|s| - 2].key);
        forall i | 0 <= i < |m| - 1 ensures Less(m[i].key, d.key) {
          LessIsTransitive(m[i].key, Last(m).key, d.key);
        }
      }
    }
  }

  /** Merging keeps, in 64 bits, the total at every key. */
  lemma {:induction false} MergedTotalAt(s: seq<Row>, k: Key)
    ensures Wrap64(Total(MergeRuns(s), AmountAt(k))) == Wrap64(Total(s, AmountAt(k)))
  {
    if s != [] {
      MergedTotalAt(Front(s), k);
      AddRowTotalAt(MergeRuns(Front(s)), Last(s), k, Total(Front(s), AmountAt(k)));
    }
  }

  lemma {:induction false} AddRowTotalAt(m: seq<Row>, d: Row, k: Key, before: int)
    requires Wrap64(Total(m, AmountAt(k))) == Wrap64(before)
    ensures Wrap64(Total(AddRow(m, d), AmountAt(k))) == Wrap64(before + if d.key == k then d.amount else 0)
  {
    var f := AmountAt(k);
    AddRowTotal(m, d, f);
    if d.key == k {
      if m != [] && Last(m).key == d.key {
        WrapMerged(Total(Front(m), f), Last(m).amount, d.amount, before);
      } else {
        WrapBoth(Total(m, f), d.amount, before, d.amount);
      }
    }
  }

  /** Merging keeps, in 64 bits, the total of all rows. */
  lemma {:induction false} MergedTotal(s: seq<Row>)
    ensures Wrap64(Total(MergeRuns(s), Amount())) == Wrap64(Total(s, Amount()))
  {
    if s != [] {
      var merged, before := MergeRuns(Front(s)), Total(Front(s), Amount());
      MergedTotal(Front(s));
      assert Total(s, Amount()) == before + Last(s).amount;
      AddRowTotalAll(merged, Last(s), before);
    }
  }

  lemma {:induction false} AddRowTotalAll(m: seq<Row>, d: Row, before: int)
    requires Wrap64(Total(m, Amount())) == Wrap64(before)
    ensures Wrap64(Total(AddRow(m, d), Amount())) == Wrap64(before + d.amount)
  {
    AddRowTotal(m, d, Amount());
    if m != [] && Last(m).key == d.key {
      WrapMerged(Total(Front(m), Amount()), Last(m).amount, d.amount, before);
    } else {
      WrapBoth(Total(m, Amount()), d.amount, before, d.amount);
    }
  }

  lemma {:induction false} AddRowTotal(m: seq<Row>, d: Row, f: Row -> int)
    ensures m != [] ==> Total(m, f) == Total(Front(m), f) + f(Last(m))
    ensures if m != [] && Last(m).key == d.key then
        Total(AddRow(m, d), f) == Total(Front(m), f) + f(Row(d.key, Wrap64(Last(m).amount + d.amount)))
      else Total(AddRow(m, d), f) == Total(m, f) + f(d)
  {
    if m != [] && Last(m).key == d.key {
      TotalSnoc(Front(m), Row(d.key, Wrap64(Last(m).amount + d.amount)), f);
    } else {
      TotalSnoc(m, d, f);
    }
  }

  lemma {:induction false} TotalSnoc(s: seq<Row>, r: Row, f: Row -> int)
    ensures Total(s + [r], f) == Total(s, f) + f(r)
  {
    assert Front(s + [r]) == s;
  }

  lemma {:induction false} WrapMerged(rest: int, a: int, b: int, before: int)
    requires Wrap64(rest + a) == Wrap64(before)
    ensures Wrap64(rest + Wrap64(a + b)) == Wrap64(before + b)
  {
    WrapAdd(a + b, rest);
    WrapAdd(rest + a, b);
    WrapAdd(before, b);
  }

  predicate HasKey(s: seq<Row>, k: Key) {
    s != [] && (Last(s).key == k || HasKey(Front(s), k))
  }

  lemma {:induction false} HasKeyAt(s: seq<Row>, k: Key)
    ensures HasKey(s, k) <==> exists i :: 0 <= i < |s| && s[i].key == k
  {
    if s != [] {
      HasKeyAt(Front(s), k);
      assert s[|s| - 1] == Last(s);
      assert forall i :: 0 <= i < |s| - 1 ==> s[i] == Front(s)[i];
    }
  }

  /** Merging neither loses a key nor adds one. */
  lemma {:induction false} MergedKeys(s: seq<Row>, k: Key)
    ensures HasKey(MergeRuns(s), k) <==> HasKey(s, k)
  {
    if s != [] {
      MergedKeys(Front(s), k);
      AddRowKeys(MergeRuns(Front(s)), Last(s), k);
    }
  }

  lemma {:induction false} AddRowKeys(m: seq<Row>, d: Row, k: Key)
    ensures HasKey(AddRow(m, d), k) <==> HasKey(m, k) || d.key == k
  {
    if m != [] && Last(m).key == d.key {
      assert Front(AddRow(m, d)) == Front(m);
    } else {
      assert Front(m + [d]) == m;
    }
  }

  /** In strictly increasing rows, the total at a row's key is the row's own amount. */
  lemma {:induction false} TotalAtRow(s: seq<Row>, i: nat)
    requires StrictlyIncreasing(s) && i < |s|
    ensures Total(s, AmountAt(s[i].key)) == s[i].amount
  {
    var k, last := s[i].key, |s| - 1;
    if i == last {
      forall j | 0 <= j < last ensures s[j].key != k {
        LessIsTotal(s[j].key, k);
      }
      TotalElsewhere(Front(s), k);
    } else {
      LessIsTotal(k, s[last].key);
      TotalAtRow(Front(s), i);
    }
  }

  lemma {:induction false} TotalElsewhere(s: seq<Row>, k: Key)
    requires forall j :: 0 <= j < |s| ==> s[j].key != k
    ensures Total(s, AmountAt(k)) == 0
  {
    if s != [] {
      TotalElsewhere(Front(s), k);
    }
  }

  /** What a row says: the address it is for, what the transaction pays it, less what it spends from it. */
  ghost predicate IsRowOf(r: Row, address: seq<Byte>, spent: seq<TxOut>, outs: seq<TxOut>, timestamp: U64, txid: Hash) {
    && r.key == KeyOf(address, timestamp, txid)
    && r.amount == Wrap64(PaidTo(outs, address) - PaidTo(spent, address))
  }

  ghost predicate HasAddress(r: Row, spent: seq<TxOut>, outs: seq<TxOut>, timestamp: U64, txid: Hash) {
    exists address :: IsRowOf(r, address, spent, outs, timestamp, txid)
  }

  /**
   * The rows of one transaction, however its amends were sorted: keys strictly increase, every row belongs to
   * an address and has its net amount, and every amended address has a row.
   */
  lemma {:induction false} RowsOfTransaction(spent: seq<TxOut>, outs: seq<TxOut>, timestamp: U64, txid: Hash, sorted: seq<Row>)
    requires IsSortOf(sorted, Amends(spent, outs, timestamp, txid))
    ensures StrictlyIncreasing(MergeRuns(sorted))
    ensures forall i :: 0 <= i < |MergeRuns(sorted)| ==>
              HasAddress(MergeRuns(sorted)[i], spent, outs, timestamp, txid)
    ensures forall j :: 0 <= j < |Amends(spent, outs, timestamp, txid)| ==>
              HasKey(MergeRuns(sorted), Amends(spent, outs, timestamp, txid)[j].key)
  {
    var m, amends := MergeRuns(sorted), Amends(spent, outs, timestamp, txid);
    MergedIncreases(sorted);
    forall i | 0 <= i < |m| ensures HasAddress(m[i], spent, outs, timestamp, txid) {
      RowHasAddress(spent, outs, timestamp, txid, sorted, i);
    }
    forall j | 0 <= j < |amends| ensures HasKey(m, amends[j].key) {
      var i := PlaceIn(amends, sorted, j);
      HasKeyAt(sorted, amends[j].key);
      MergedKeys(sorted, amends[j].key);
    }
  }

  lemma {:induction false} RowHasAddress(spent: seq<TxOut>, outs: seq<TxOut>, timestamp: U64, txid: Hash,
                                         sorted: seq<Row>, i: nat)
    requires IsSortOf(sorted, Amends(spent, outs, timestamp, txid)) && i < |MergeRuns(sorted)|
    ensures HasAddress(MergeRuns(sorted)[i], spent, outs, timestamp, txid)
  {
    var m := MergeRuns(sorted);
    HasKeyAt(m, m[i].key);
    MergedKeys(sorted, m[i].key);
    HasKeyAt(sorted, m[i].key);
    var j :| 0 <= j < |sorted| && sorted[j].key == m[i].key;
    AmendsHaveAddresses(spent, outs, timestamp, txid, sorted, j);
    var address :| sorted[j].key == KeyOf(address, timestamp, txid);
    RowAmount(spent, outs, timestamp, txid, sorted, address, i);
    assert IsRowOf(m[i], address, spent, outs, timestamp, txid);
  }

  lemma {:induction false} RowAmount(spent: seq<TxOut>, outs: seq<TxOut>, timestamp: U64, txid: Hash, sorted: seq<Row>,
                                     address: seq<Byte>, i: nat)
    requires IsSortOf(sorted, Amends(spent, outs, timestamp, txid)) && i < |MergeRuns(sorted)|
    requires MergeRuns(sorted)[i].key == KeyOf(address, timestamp, txid)
    ensures MergeRuns(sorted)[i].amount == Wrap64(PaidTo(outs, address) - PaidTo(spent, address))
  {
    var k := KeyOf(address, timestamp, txid);
    var a, b := Deltas(spent, -1, timestamp, txid), Deltas(outs, 1, timestamp, txid);
    DeltasTotalAt(spent, -1, timestamp, txid, address, a, k);
    DeltasTotalAt(outs, 1, timestamp, txid, address, b, k);
    RowAmountFrom(sorted, a, b, i, k, PaidTo(spent, address), PaidTo(outs, address));
  }

  lemma {:induction false} DeltasTotalAt(outs: seq<TxOut>, sign: int, timestamp: U64, txid: Hash, address: seq<Byte>,
                                         deltas: seq<Row>, k: Key)
    requires deltas == Deltas(outs, sign, timestamp, txid) && k == KeyOf(address, timestamp, txid)
    ensures Wrap64(Total(deltas, AmountAt(k))) == Wrap64(sign * PaidTo(outs, address))
  {
    DeltasTotal(outs, sign, timestamp, txid, address);
  }

  lemma {:induction false} RowAmountFrom(sorted: seq<Row>, a: seq<Row>, b: seq<Row>, i: nat, k: Key, spent: nat, paid: nat)
    requires IsSortOf(sorted, a + b) && i < |MergeRuns(sorted)| && MergeRuns(sorted)[i].key == k
    requires Wrap64(Total(a, AmountAt(k))) == Wrap64(-1 * spent) && Wrap64(Total(b, AmountAt(k))) == Wrap64(1 * paid)
    ensures MergeRuns(sorted)[i].amount == Wrap64(paid - spent)
  {
    RowTotal(sorted, a, b, i);
    NetAmount(MergeRuns(sorted)[i].amount, Total(a, AmountAt(k)), Total(b, AmountAt(k)), spent, paid);
  }

  /** A row's amount is the total of the deltas with its key. */
  lemma {:induction false} RowTotal(sorted: seq<Row>, a: seq<Row>, b: seq<Row>, i: nat)
    requires IsSortOf(sorted, a + b) && i < |MergeRuns(sorted)|
    ensures var row := MergeRuns(sorted)[i];
      Wrap64(row.amount) == Wrap64(Total(a, AmountAt(row.key)) + Total(b, AmountAt(row.key)))
  {
    RowIsTotal(sorted, a + b, i);
    TotalConcat(a, b, AmountAt(MergeRuns(sorted)[i].key));
  }

  lemma {:induction false} RowIsTotal(sorted: seq<Row>, s: seq<Row>, i: nat)
    requires IsSortOf(sorted, s) && i < |MergeRuns(sorted)|
    ensures var row := MergeRuns(sorted)[i]; Wrap64(row.amount) == Wrap64(Total(s, AmountAt(row.key)))
  {
    var k := MergeRuns(sorted)[i].key;
    MergedIncreases(sorted);
    TotalAtRow(MergeRuns(sorted), i);
    MergedTotalAt(sorted, k);
    TotalPermuted(sorted, s, AmountAt(k));
  }

  lemma {:induction false} NetAmount(amount: I64, a: int, b: int, spent: nat, paid: nat)
    requires Wrap64(amount) == Wrap64(a + b)
    requires Wrap64(a) == Wrap64(-1 * spent) && Wrap64(b) == Wrap64(1 * paid)
    ensures amount == Wrap64(paid - spent)
  {
    WrapSmall(amount);
    WrapBoth(a, b, -1 * spent, 1 * paid);
  }

  lemma {:induction false} WrapBoth(a: int, b: int, c: int, d: int)
    requires Wrap64(a) == Wrap64(c) && Wrap64(b) == Wrap64(d)
    ensures Wrap64(a + b) == Wrap64(c + d)
  {
    WrapAdd(a, b);
    WrapAdd(c, b);
    WrapAdd(b, c);
    WrapAdd(d, c);
  }

  lemma {:induction false} DeltasKeys(outs: seq<TxOut>, sign: int, timestamp: U64, txid: Hash, i: nat)
    requires i < |Deltas(outs, sign, timestamp, txid)|
    ensures exists address :: Deltas(outs, sign, timestamp, txid)[i].key == KeyOf(address, timestamp, txid)
  {
    var rest := Deltas(Front(outs), sign, timestamp, txid);
    if i < |rest| {
      DeltasKeys(Front(outs), sign, timestamp, txid, i);
    }
  }

  lemma {:induction false} AmendsHaveAddresses(spent: seq<TxOut>, outs: seq<TxOut>, timestamp: U64, txid: Hash,
                                               sorted: seq<Row>, j: nat)
    requires multiset(sorted) == multiset(Amends(spent, outs, timestamp, txid)) && j < |sorted|
    ensures exists address :: sorted[j].key == KeyOf(address, timestamp, txid)
  {
    var a, b := Deltas(spent, -1, timestamp, txid), Deltas(outs, 1, timestamp, txid);
    var i := PlaceIn(sorted, a + b, j);
    if i < |a| {
      DeltasKeys(spent, -1, timestamp, txid, i);
    } else {
      DeltasKeys(outs, 1, timestamp, txid, i - |a|);
    }
  }
}
