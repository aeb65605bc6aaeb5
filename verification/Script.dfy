/** Reading and building scripts, and counting signature operations in them. */
module Script {
  import opened Wrappers
  import opened Bytes
  import opened Seqs

  const OP_0: Byte := 0x00
  const OP_PUSHDATA1: Byte := 0x4c
  const OP_PUSHDATA2: Byte := 0x4d
  const OP_PUSHDATA4: Byte := 0x4e
  const OP_1: Byte := 0x51
  const OP_16: Byte := 0x60
  const OP_EQUAL: Byte := 0x87
  const OP_HASH160: Byte := 0xa9
  const OP_CHECKSIG: Byte := 0xac
  const OP_CHECKSIGVERIFY: Byte := 0xad
  const OP_CHECKMULTISIG: Byte := 0xae
  const OP_CHECKMULTISIGVERIFY: Byte := 0xaf
  const OP_INVALIDOPCODE: Byte := 0xff

  const MAX_PUBKEYS_PER_MULTISIG := 20

  datatype Op = Op(opcode: Byte, operand: Option<seq<Byte>>)

  /** What one read gives, and what is left to read; a failed read has advanced too. */
  datatype Read = Read(op: Option<Op>, rest: seq<Byte>)

  /** How many bytes after the opcode tell the operand's length. */
  function SizeWidth(opcode: Byte): nat {
    if opcode == OP_PUSHDATA1 then 1 else if opcode == OP_PUSHDATA2 then 2 else if opcode == OP_PUSHDATA4 then 4 else 0
  }

  /** get_script_op */
  function GetScriptOp(script: seq<Byte>): (r: Read)
    ensures script == [] ==> r == Read(None, [])
    ensures script != [] ==> |r.rest| < |script|
    ensures r.op.Some? ==> script != [] && r.op.value.opcode == script[0]
  {
    if script == [] then Read(None, [])
    else
      var opcode, rest := script[0], script[1..];
      if opcode > OP_PUSHDATA4 then Read(Some(Op(opcode, None)), rest)
      else
        var width := SizeWidth(opcode);
        if |rest| < width then Read(None, rest)
        else
          var size := if width == 0 then opcode else FromLittleEndian(rest[..width]);
          if |rest| - width < size then Read(None, rest[width..])
          else Read(Some(Op(opcode, Some(rest[width..width + size]))), rest[width + size..])
  }

  predicate IsSmallInt(opcode: Byte) {
    OP_1 <= opcode <= OP_16
  }

  /** decode_op_n */
  function DecodeOpN(opcode: Byte): int {
    if opcode == OP_0 then 0 else opcode - (OP_1 - 1)
  }

  function OpCost(opcode: Byte, last: Byte, accurate: bool): nat {
    if opcode == OP_CHECKSIG || opcode == OP_CHECKSIGVERIFY then 1
    else if opcode == OP_CHECKMULTISIG || opcode == OP_CHECKMULTISIGVERIFY then
      if accurate && IsSmallInt(last) then DecodeOpN(last) else MAX_PUBKEYS_PER_MULTISIG
    else 0
  }

  /** The operations in the rest of a script whose last opcode so far is given; counting stops at a failed read. */
  function SigopsFrom(script: seq<Byte>, last: Byte, accurate: bool): nat
    decreases |script|
  {
    var r := GetScriptOp(script);
    if r.op.None? then 0
    else OpCost(r.op.value.opcode, last, accurate) + SigopsFrom(r.rest, r.op.value.opcode, accurate)
  }

  function Sigops(script: seq<Byte>, accurate: bool): nat {
    SigopsFrom(script, OP_INVALIDOPCODE, accurate)
  }

  /** get_sigop_count */
  method GetSigopCount(script: seq<Byte>, accurate: bool) returns (total: nat)
    ensures total == Sigops(script, accurate)
  {
    total := 0;
    var remaining, last := script, OP_INVALIDOPCODE;
    while remaining != []
      invariant total + SigopsFrom(remaining, last, accurate) == Sigops(script, accurate)
      decreases |remaining|
    {
      var r := GetScriptOp(remaining);
      remaining := r.rest;
      if r.op.None? {
        return;
      }
      var opcode := r.op.value.opcode;
      if opcode == OP_CHECKSIG || opcode == OP_CHECKSIGVERIFY {
        total := total + 1;
      } else if opcode == OP_CHECKMULTISIG || opcode == OP_CHECKMULTISIGVERIFY {
        if accurate && IsSmallInt(last) {
          total := total + DecodeOpN(last);
        } else {
          total := total + MAX_PUBKEYS_PER_MULTISIG;
        }
      }
      last := opcode;
    }
  }

  // ---------------------------------------------------------------- push-only scripts

  predicate IsPushOnly(script: seq<Byte>)
    decreases |script|
  {
    script == [] ||
    var r := GetScriptOp(script);
    r.op.Some? && r.op.value.opcode <= OP_16 && IsPushOnly(r.rest)
  }

  /** is_push_only */
  method CheckPushOnly(script: seq<Byte>) returns (b: bool)
    ensures b == IsPushOnly(script)
  {
    var remaining := script;
    while remaining != []
      invariant IsPushOnly(remaining) == IsPushOnly(script)
      decreases |remaining|
    {
      var r := GetScriptOp(remaining);
      remaining := r.rest;
      if r.op.None? || r.op.value.opcode > OP_16 {
        return false;
      }
    }
    return true;
  }

  /** A push-only script runs no signature check. */
  lemma {:induction false} PushOnlyHasNoSigops(script: seq<Byte>, last: Byte, accurate: bool)
    requires IsPushOnly(script)
    ensures SigopsFrom(script, last, accurate) == 0
    decreases |script|
  {
    if script != [] {
      var r := GetScriptOp(script);
      PushOnlyHasNoSigops(r.rest, r.op.value.opcode, accurate);
    }
  }

  // ---------------------------------------------------------------- building scripts

  const U32_SIZE := 0x1_0000_0000

  /** append_item with a DataSize */
  function PushSize(size: U32): (s: seq<Byte>) {
    if size < OP_PUSHDATA1 then [size]
    else if size <= 0xFF then [OP_PUSHDATA1, size]
    else if size <= 0xFFFF then [OP_PUSHDATA2] + LittleEndian(size, 2)
    else [OP_PUSHDATA4] + LittleEndian(size, 4)
  }

  /** append_item with a ByteArray; its length is cut to 32 bits. */
  function PushData(data: seq<Byte>): (s: seq<Byte>) {
    PushSize(|data| % U32_SIZE) + data
  }

  /** A size written out after its opcode reads back. */
  lemma {:induction false} WrittenSizeReads(opcode: Byte, width: nat, size: nat, rest: seq<Byte>)
    requires width == SizeWidth(opcode) > 0 && size < Pow256(width) && size <= |rest|
    ensures GetScriptOp([opcode] + LittleEndian(size, width) + rest) == Read(Some(Op(opcode, Some(rest[..size]))), rest[size..])
    ensures opcode <= OP_PUSHDATA4
  {
    var bytes := LittleEndian(size, width);
    var script := [opcode] + bytes + rest;
    LittleEndianRoundTrip(size, width);
    assert script[0] == opcode && script[1..] == bytes + rest;
    assert (bytes + rest)[..width] == bytes;
    assert (bytes + rest)[width..width + size] == rest[..size] && (bytes + rest)[width + size..] == rest[size..];
  }

  lemma {:induction false} ShortSizeReads(size: Byte, rest: seq<Byte>)
    requires size < OP_PUSHDATA1 && size <= |rest|
    ensures GetScriptOp([size] + rest) == Read(Some(Op(size, Some(rest[..size]))), rest[size..])
  {
    assert ([size] + rest)[1..] == rest;
  }

  lemma {:induction false} OneByte(size: Byte)
    ensures LittleEndian(size, 1) == [size]
  {
  }

  /** A pushed size reads back as an operand of that many bytes, if they follow. */
  lemma {:induction false} PushSizeReads(size: U32, rest: seq<Byte>)
    requires size <= |rest|
    ensures var script := PushSize(size) + rest;
      GetScriptOp(script) == Read(Some(Op(script[0], Some(rest[..size]))), rest[size..]) && script[0] <= OP_PUSHDATA4
  {
    Pow256Values();
    if size < OP_PUSHDATA1 {
      ShortSizeReads(size, rest);
    } else if size <= 0xFF {
      OneByte(size);
      assert [OP_PUSHDATA1] + [size] == [OP_PUSHDATA1, size];
      WrittenSizeReads(OP_PUSHDATA1, 1, size, rest);
    } else if size <= 0xFFFF {
      WrittenSizeReads(OP_PUSHDATA2, 2, size, rest);
    } else {
      WrittenSizeReads(OP_PUSHDATA4, 4, size, rest);
    }
  }

  /** A push reads back as its data exactly when the data's length fits in 32 bits. */
  lemma {:induction false} PushReadsBack(data: seq<Byte>, rest: seq<Byte>)
    ensures var script := PushData(data) + rest;
      GetScriptOp(script) == Read(Some(Op(script[0], Some(data))), rest) <==> |data| < U32_SIZE
    ensures (PushData(data) + rest)[0] <= OP_PUSHDATA4
  {
    var size := |data| % U32_SIZE;
    ConcatAssociative(PushSize(size), data, rest);
    PushSizeReads(size, data + rest);
    assert |(data + rest)[..size]| == size;
    if |data| < U32_SIZE {
      assert (data + rest)[..size] == data && (data + rest)[size..] == rest;
    }
  }

  type I64 = n: int | -0x8000_0000_0000_0000 <= n < 0x8000_0000_0000_0000

  function Abs(n: int): nat {
    if n < 0 then -n else n
  }

  /** The bytes of a number, least significant first, without leading zeros. */
  function Magnitude(n: nat): (s: seq<Byte>)
    ensures s == [] <==> n == 0
    ensures s != [] ==> s[|s| - 1] != 0
  {
    if n == 0 then [] else [n % 256] + Magnitude(n / 256)
  }

  lemma {:induction false} MagnitudeReads(n: nat)
    ensures FromLittleEndian(Magnitude(n)) == n
  {
    if n > 0 {
      MagnitudeReads(n / 256);
      assert Magnitude(n)[1..] == Magnitude(n / 256);
    }
  }

  /** serialize_i64 */
  method SerializeI64(value: I64) returns (result: seq<Byte>)
    ensures result == EncodeNumber(value)
  {
    if value == 0 {
      return [];
    }
    var negative := value < 0;
    result := MagnitudeBytes(Abs(value));
    var last := result[|result| - 1];
    if last >= 0x80 {
      result := result + [if negative then 0x80 else 0];
    } else if negative {
      result := result[|result| - 1 := last + 0x80];
    }
  }

  /** The loop of serialize_i64. */
  method MagnitudeBytes(value: nat) returns (result: seq<Byte>)
    ensures result == Magnitude(value)
  {
    result := [];
    var absolute := value;
    while absolute != 0
      invariant Continued(result, absolute) == Magnitude(value)
      decreases absolute
    {
      var low, high := absolute % 256, absolute / 256;
      MagnitudeStep(result, absolute, low, high);
      result, absolute := result + [low], high;
    }
    NothingLeft(result);
  }

  ghost function Continued(result: seq<Byte>, n: nat): (s: seq<Byte>)
    ensures result == [] ==> s == Magnitude(n)
  {
    result + Magnitude(n)
  }

  lemma {:induction false} MagnitudeStep(result: seq<Byte>, n: nat, low: nat, high: nat)
    requires n > 0 && low == n % 256 && high == n / 256
    ensures low < 256 && high < n && Continued(result, n) == Continued(result + [low], high)
  {
    ConcatAssociative(result, [low], Magnitude(high));
  }

  lemma {:induction false} NothingLeft(result: seq<Byte>)
    ensures Continued(result, 0) == result
  {
  }

  function EncodeNumber(value: int): (s: seq<Byte>) {
    var s := Magnitude(Abs(value));
    if s == [] then []
    else if s[|s| - 1] >= 0x80 then s + [if value < 0 then 0x80 else 0]
    else if value < 0 then s[|s| - 1 := s[|s| - 1] + 0x80]
    else s
  }

  /** A script number: the top bit of the last byte is its sign. */
  function DecodeNumber(s: seq<Byte>): int {
    if s == [] then 0
    else
      var last := s[|s| - 1];
      if last >= 0x80 then 0 - FromLittleEndian(s[|s| - 1 := last - 0x80]) else FromLittleEndian(s)
  }

  lemma {:induction false} NumberRoundTrip(value: int)
    ensures DecodeNumber(EncodeNumber(value)) == value
  {
    MagnitudeReads(Abs(value));
    SignedReads(Magnitude(Abs(value)), value);
  }

  lemma {:induction false} SignedReads(s: seq<Byte>, value: int)
    requires s == Magnitude(Abs(value)) && FromLittleEndian(s) == Abs(value)
    ensures DecodeNumber(EncodeNumber(value)) == value
  {
    var r := EncodeNumber(value);
    if s != [] && s[|s| - 1] >= 0x80 {
      LastIsMostSignificant(s, 0);
      if value < 0 {
        assert r[|r| - 1 := 0] == s + [0];
      }
    } else if value < 0 {
      assert r[|r| - 1 := r[|r| - 1] - 0x80] == s;
    }
  }

  lemma {:induction false} PrefixBound(s: seq<Byte>, limit: nat)
    requires s != [] && s[|s| - 1] < limit
    ensures FromLittleEndian(s) < limit * Pow256(|s| - 1)
  {
    var init, b := s[..|s| - 1], s[|s| - 1];
    assert s == init + [b];
    LastIsMostSignificant(init, b);
    ScaleStep(b, limit, Pow256(|init|));
  }

  lemma {:induction false} ScaleStep(b: nat, limit: nat, p: nat)
    requires b < limit
    ensures b * p + p <= limit * p
  {
    assert limit * p == (b + 1) * p + (limit - b - 1) * p;
  }

  lemma {:induction false} ScaleAtLeast(b: nat, low: nat, p: nat)
    requires b >= low
    ensures b * p >= low * p
  {
    assert b * p == low * p + (b - low) * p;
  }

  lemma {:induction false} LowBound(s: seq<Byte>, low: nat)
    requires s != [] && s[|s| - 1] >= low
    ensures FromLittleEndian(s) >= low * Pow256(|s| - 1)
  {
    var init, b := s[..|s| - 1], s[|s| - 1];
    assert s == init + [b];
    LastIsMostSignificant(init, b);
    ScaleAtLeast(b, low, Pow256(|init|));
  }

  /** n bytes hold numbers below 128 * 256^(n-1). */
  lemma {:induction false} DecodeBound(s: seq<Byte>)
    requires s != []
    ensures Abs(DecodeNumber(s)) < 128 * Pow256(|s| - 1)
  {
    var last := s[|s| - 1];
    if last >= 0x80 {
      PrefixBound(s[|s| - 1 := last - 0x80], 128);
    } else {
      PrefixBound(s, 128);
    }
  }

  /** One byte less would not hold the number. */
  lemma {:induction false} EncodeBound(value: int)
    requires |EncodeNumber(value)| >= 2
    ensures Abs(value) >= 128 * Pow256(|EncodeNumber(value)| - 2)
  {
    var s := Magnitude(Abs(value));
    MagnitudeReads(Abs(value));
    if s[|s| - 1] >= 0x80 {
      LowBound(s, 128);
    } else {
      LowBound(s, 1);
      assert Pow256(|s| - 1) == 256 * Pow256(|s| - 2);
    }
  }

  lemma {:induction false} PowMonotone(j: nat, k: nat)
    requires j <= k
    ensures Pow256(j) <= Pow256(k)
  {
    if j < k {
      PowMonotone(j, k - 1);
    }
  }

  /** No shorter script number has the same value. */
  lemma {:induction false} NumberIsShortest(value: int, s: seq<Byte>)
    requires DecodeNumber(s) == value
    ensures |EncodeNumber(value)| <= |s|
  {
    var n := |EncodeNumber(value)|;
    if |s| < n && s != [] {
      DecodeBound(s);
      EncodeBound(value);
      PowMonotone(|s| - 1, n - 2);
      assert false;
    }
  }

  /** The bytes of a positive number are its digits, with the top bit clear; its negative sets that bit. Zero has no bytes. */
  lemma {:induction false} SignIsTopBit(n: nat)
    requires n > 0
    ensures EncodeNumber(0) == []
    ensures var s := EncodeNumber(n);
      && s != [] && s[|s| - 1] < 0x80 && FromLittleEndian(s) == n
      && EncodeNumber(0 - n) == s[|s| - 1 := s[|s| - 1] + 0x80]
  {
    var s := Magnitude(n);
    MagnitudeReads(n);
    if s[|s| - 1] >= 0x80 {
      LastIsMostSignificant(s, 0);
    }
  }

  /** append_item with an Int64 */
  function PushInt(n: I64): (s: seq<Byte>) {
    if n == -1 || 1 <= n <= 16 then [n + OP_1 - 1]
    else if n == 0 then [OP_0]
    else PushData(EncodeNumber(n))
  }

  // ---------------------------------------------------------------- what is read and what is counted

  /** The script begins with a push of the data. */
  predicate IsPush(script: seq<Byte>, opcode: Byte, data: seq<Byte>, rest: seq<Byte>) {
    || (opcode < 0x4c && |data| == opcode && script == [opcode] + (data + rest))
    || (opcode == 0x4c && |data| < 0x100 && script == [0x4c] + (LittleEndian(|data|, 1) + (data + rest)))
    || (opcode == 0x4d && |data| < 0x1_0000 && script == [0x4d] + (LittleEndian(|data|, 2) + (data + rest)))
    || (opcode == 0x4e && |data| < 0x1_0000_0000 && script == [0x4e] + (LittleEndian(|data|, 4) + (data + rest)))
  }

  /** A read succeeds exactly on a whole push, whose data it gives, or on any other opcode. */
  lemma {:induction false} ReadIff(script: seq<Byte>, opcode: Byte, data: seq<Byte>, rest: seq<Byte>)
    ensures GetScriptOp(script) == Read(Some(Op(opcode, Some(data))), rest) <==> IsPush(script, opcode, data, rest)
    ensures GetScriptOp(script) == Read(Some(Op(opcode, None)), rest) <==> opcode > 0x4e && script == [opcode] + rest
  {
    if script != [] {
      assert script == [script[0]] + script[1..];
      if opcode <= 0x4e {
        PushIff(script, opcode, SizeWidth(opcode), data, rest);
        Pow256Values();
      }
      SameHead(script, opcode, rest);
    }
  }

  lemma {:induction false} SameHead(script: seq<Byte>, opcode: Byte, rest: seq<Byte>)
    requires script != []
    ensures script == [opcode] + rest <==> script[0] == opcode && script[1..] == rest
  {
  }

  lemma {:induction false} PushIff(script: seq<Byte>, opcode: Byte, width: nat, data: seq<Byte>, rest: seq<Byte>)
    requires script != [] && opcode <= OP_PUSHDATA4 && width == SizeWidth(opcode)
    ensures GetScriptOp(script) == Read(Some(Op(opcode, Some(data))), rest)
            <==> if width == 0 then |data| == opcode && script == [opcode] + (data + rest)
                 else |data| < Pow256(width) && script == [opcode] + (LittleEndian(|data|, width) + (data + rest))
  {
    if width == 0 {
      SameHead(script, opcode, data + rest);
      SizedIff(script[1..], opcode, data, rest);
    } else {
      SameHead(script, opcode, LittleEndian(|data|, width) + (data + rest));
      WideIff(script[1..], width, data, rest);
    }
  }

  /** A size and as many bytes can be cut off. */
  predicate IsSized(tail: seq<Byte>, width: nat, data: seq<Byte>, rest: seq<Byte>) {
    && |tail| >= width
    && var size := FromLittleEndian(tail[..width]);
      |tail| - width >= size && tail[width..width + size] == data && tail[width + size..] == rest
  }

  lemma {:induction false} WideIff(tail: seq<Byte>, width: nat, data: seq<Byte>, rest: seq<Byte>)
    ensures IsSized(tail, width, data, rest) <==> |data| < Pow256(width) && tail == LittleEndian(|data|, width) + (data + rest)
  {
    if |tail| >= width {
      var size := FromLittleEndian(tail[..width]);
      FromLittleEndianRoundTrip(tail[..width]);
      SizedIff(tail[width..], size, data, rest);
      if size <= |tail| - width {
        assert tail[width..][..size] == tail[width..width + size] && tail[width..][size..] == tail[width + size..];
      }
    }
    SameFrontAndBack(tail, LittleEndian(|data|, width), data + rest);
    if |data| < Pow256(width) {
      LittleEndianRoundTrip(|data|, width);
    }
  }

  lemma {:induction false} SameFrontAndBack(s: seq<Byte>, a: seq<Byte>, b: seq<Byte>)
    ensures s == a + b <==> |s| >= |a| && s[..|a|] == a && s[|a|..] == b
  {
    if |s| >= |a| && s[..|a|] == a && s[|a|..] == b {
      assert s == s[..|a|] + s[|a|..];
    }
  }

  /** What is cut off after a size. */
  lemma {:induction false} SizedIff(tail: seq<Byte>, size: nat, data: seq<Byte>, rest: seq<Byte>)
    ensures size <= |tail| && tail[..size] == data && tail[size..] == rest <==> |data| == size && tail == data + rest
  {
    SameFrontAndBack(tail, data, rest);
  }

  /** No script that is read as one push of the data is shorter than the one written for it. */
  lemma {:induction false} PushIsShortest(script: seq<Byte>, opcode: Byte, data: seq<Byte>)
    requires GetScriptOp(script) == Read(Some(Op(opcode, Some(data))), []) && |data| < 0x1_0000_0000
    ensures |PushData(data)| <= |script|
  {
    ReadIff(script, opcode, data, []);
    PushIsLong(script, opcode, data);
    WrittenLength(data);
  }

  lemma {:induction false} PushIsLong(script: seq<Byte>, opcode: Byte, data: seq<Byte>)
    requires IsPush(script, opcode, data, [])
    ensures |script| >= 1 + |data|
    ensures |data| >= 0x4c ==> |script| >= 2 + |data|
    ensures |data| >= 0x100 ==> |script| >= 3 + |data|
    ensures |data| >= 0x1_0000 ==> |script| >= 5 + |data|
  {
  }

  lemma {:induction false} WrittenLength(data: seq<Byte>)
    requires |data| < 0x1_0000_0000
    ensures |PushData(data)| == |data| + if |data| < 0x4c then 1 else if |data| < 0x100 then 2 else if |data| < 0x1_0000 then 3 else 5
  {
  }

  /** The opcodes read, up to the end or the first read that fails. */
  function Opcodes(script: seq<Byte>): seq<Byte>
    decreases |script|
  {
    var r := GetScriptOp(script);
    if r.op.None? then [] else [r.op.value.opcode] + Opcodes(r.rest)
  }

  function Count(ops: seq<Byte>, opcode: Byte): nat {
    if ops == [] then 0 else (if ops[0] == opcode then 1 else 0) + Count(ops[1..], opcode)
  }

  /** Without regard to keys: one for a signature check, twenty for one of several. */
  lemma {:induction false} LegacyCount(script: seq<Byte>)
    ensures Sigops(script, false)
         == Count(Opcodes(script), 0xac) + Count(Opcodes(script), 0xad)
            + 20 * (Count(Opcodes(script), 0xae) + Count(Opcodes(script), 0xaf))
  {
    LegacyCountFrom(script, OP_INVALIDOPCODE);
  }

  lemma {:induction false} LegacyCountFrom(script: seq<Byte>, last: Byte)
    ensures SigopsFrom(script, last, false)
         == Count(Opcodes(script), 0xac) + Count(Opcodes(script), 0xad)
            + 20 * (Count(Opcodes(script), 0xae) + Count(Opcodes(script), 0xaf))
    decreases |script|
  {
    var r := GetScriptOp(script);
    if r.op.Some? {
      LegacyCountFrom(r.rest, r.op.value.opcode);
      assert Opcodes(script)[1..] == Opcodes(r.rest);
    }
  }

  /** The keys of the multiple checks: as many as the opcode before names, from 1 to 16, or else twenty. */
  function KeysNamed(ops: seq<Byte>, before: Byte): nat {
    if ops == [] then 0
    else
      (if ops[0] != 0xae && ops[0] != 0xaf then 0 else if 0x51 <= before <= 0x60 then before - 0x50 else 20)
        + KeysNamed(ops[1..], ops[0])
  }

  /** With regard to keys: one for a signature check, and the keys named for one of several. */
  lemma {:induction false} AccurateCount(script: seq<Byte>)
    ensures Sigops(script, true) == Count(Opcodes(script), 0xac) + Count(Opcodes(script), 0xad) + KeysNamed(Opcodes(script), 0xff)
  {
    AccurateCountFrom(script, OP_INVALIDOPCODE);
  }

  lemma {:induction false} AccurateCountFrom(script: seq<Byte>, last: Byte)
    ensures SigopsFrom(script, last, true)
         == Count(Opcodes(script), 0xac) + Count(Opcodes(script), 0xad) + KeysNamed(Opcodes(script), last)
    decreases |script|
  {
    var r := GetScriptOp(script);
    if r.op.Some? {
      AccurateCountFrom(r.rest, r.op.value.opcode);
      assert Opcodes(script)[1..] == Opcodes(r.rest);
    }
  }

  /** Every read of the script succeeds. */
  predicate IsWhole(script: seq<Byte>)
    decreases |script|
  {
    script == [] || (GetScriptOp(script).op.Some? && IsWhole(GetScriptOp(script).rest))
  }

  /** Push-only scripts are read whole, and no opcode in them is above 0x60. */
  lemma {:induction false} PushOnlyIff(script: seq<Byte>)
    ensures IsPushOnly(script) <==> IsWhole(script) && NoneAbove(Opcodes(script), 0x60)
    decreases |script|
  {
    if GetScriptOp(script).op.Some? {
      var opcode, rest := GetScriptOp(script).op.value.opcode, GetScriptOp(script).rest;
      PushOnlyIff(rest);
      NoneAboveCons(opcode, Opcodes(rest), 0x60);
    }
  }

  predicate NoneAbove(ops: seq<Byte>, limit: Byte) {
    forall i :: 0 <= i < |ops| ==> ops[i] <= limit
  }

  lemma {:induction false} NoneAboveCons(opcode: Byte, ops: seq<Byte>, limit: Byte)
    ensures NoneAbove([opcode] + ops, limit) <==> opcode <= limit && NoneAbove(ops, limit)
  {
    assert ([opcode] + ops)[0] == opcode;
    forall i | 0 <= i < |ops| ensures ([opcode] + ops)[i + 1] == ops[i] {
    }
  }

  /** A read that succeeds does not look behind what it reads. */
  lemma {:induction false} ReadInFront(a: seq<Byte>, b: seq<Byte>)
    requires GetScriptOp(a).op.Some?
    ensures GetScriptOp(a + b) == Read(GetScriptOp(a).op, GetScriptOp(a).rest + b)
  {
    var op, rest := GetScriptOp(a).op.value, GetScriptOp(a).rest;
    if op.operand.Some? {
      ReadIff(a, op.opcode, op.operand.value, rest);
      LongerPush(a, op.opcode, op.operand.value, rest, b);
      ReadIff(a + b, op.opcode, op.operand.value, rest + b);
    } else {
      ReadIff(a, op.opcode, [], rest);
      ReadIff(a + b, op.opcode, [], rest + b);
      ConcatAssociative([op.opcode], rest, b);
    }
  }

  lemma {:induction false} LongerPush(a: seq<Byte>, opcode: Byte, data: seq<Byte>, rest: seq<Byte>, b: seq<Byte>)
    requires IsPush(a, opcode, data, rest)
    ensures IsPush(a + b, opcode, data, rest + b)
  {
    if opcode < 0x4c {
      ConcatAssociative(data, rest, b);
      ConcatAssociative([opcode], data + rest, b);
    } else {
      Append4([opcode], LittleEndian(|data|, SizeWidth(opcode)), data, rest, b);
    }
  }

  lemma {:induction false} Append4(w: seq<Byte>, x: seq<Byte>, y: seq<Byte>, z: seq<Byte>, b: seq<Byte>)
    ensures (w + (x + (y + z))) + b == w + (x + (y + (z + b)))
  {
    ConcatAssociative(y, z, b);
    ConcatAssociative(x, y + z, b);
    ConcatAssociative(w, x + (y + z), b);
  }

  /** Behind a script whose reads all succeed, counting goes on where it ended. */
  lemma {:induction false} OpcodesAdd(a: seq<Byte>, b: seq<Byte>)
    requires IsWhole(a)
    ensures Opcodes(a + b) == Opcodes(a) + Opcodes(b)
    decreases |a|
  {
    if a == [] {
      assert a + b == b;
    } else {
      var r := GetScriptOp(a);
      ReadInFront(a, b);
      OpcodesAdd(r.rest, b);
      ConcatAssociative([r.op.value.opcode], Opcodes(r.rest), Opcodes(b));
    }
  }

  lemma {:induction false} CountAdds(a: seq<Byte>, b: seq<Byte>, opcode: Byte)
    ensures Count(a + b, opcode) == Count(a, opcode) + Count(b, opcode)
  {
    if a == [] {
      assert a + b == b;
    } else {
      assert (a + b)[1..] == a[1..] + b;
      CountAdds(a[1..], b, opcode);
    }
  }

  /** The legacy count of a script put together is the sum. */
  lemma {:induction false} LegacyCountAdds(a: seq<Byte>, b: seq<Byte>)
    requires IsWhole(a)
    ensures Sigops(a + b, false) == Sigops(a, false) + Sigops(b, false)
  {
    OpcodesAdd(a, b);
    LegacyCount(a);
    LegacyCount(b);
    LegacyCount(a + b);
    CountAdds(Opcodes(a), Opcodes(b), 0xac);
    CountAdds(Opcodes(a), Opcodes(b), 0xad);
    CountAdds(Opcodes(a), Opcodes(b), 0xae);
    CountAdds(Opcodes(a), Opcodes(b), 0xaf);
  }

  /** A push in front of code adds nothing. */
  lemma {:induction false} PushAddsNothing(data: seq<Byte>, code: seq<Byte>)
    requires |data| < U32_SIZE
    ensures Sigops(PushData(data) + code, false) == Sigops(code, false)
  {
    PushReadsBack(data, code);
    var opcode := (PushData(data) + code)[0];
    SkipPush(PushData(data) + code, OP_INVALIDOPCODE, false);
    LegacyCountFrom(code, opcode);
    LegacyCountFrom(code, OP_INVALIDOPCODE);
  }

  /** Paying to the hash of a key is one signature check. */
  lemma {:induction false} PayToKeyHash(hash: seq<Byte>, accurate: bool)
    requires |hash| == 20
    ensures Sigops([0x76, 0xa9, 0x14] + hash + [0x88, 0xac], accurate) == 1
  {
    CodesAround(0x76, 0xa9, hash, 0x88, 0xac, OP_INVALIDOPCODE, accurate);
    assert [0x76, 0xa9, 0x14] + hash + [0x88, 0xac] == [0x76] + ([0xa9] + ([0x14] + (hash + [0x88, 0xac])));
  }

  /** Two codes, a push of twenty bytes, and two more codes. */
  lemma {:induction false} CodesAround(a: Byte, b: Byte, hash: seq<Byte>, c: Byte, d: Byte, last: Byte, accurate: bool)
    requires |hash| == 20 && a > 0x4e && b > 0x4e && c > 0x4e && d > 0x4e
    ensures SigopsFrom([a] + ([b] + ([0x14] + (hash + [c, d]))), last, accurate)
         == OpCost(a, last, accurate) + OpCost(b, a, accurate) + OpCost(c, 0x14, accurate) + OpCost(d, c, accurate)
  {
    var tail := [c, d];
    var push := [0x14] + (hash + tail);
    CodeCounts(a, [b] + push, last, accurate);
    CodeCounts(b, push, a, accurate);
    KeyPushCounts(hash, tail, b, accurate);
    TwoCodes(c, d, 0x14, accurate);
  }

  lemma {:induction false} TwoCodes(c: Byte, d: Byte, last: Byte, accurate: bool)
    requires c > 0x4e && d > 0x4e
    ensures SigopsFrom([c, d], last, accurate) == OpCost(c, last, accurate) + OpCost(d, c, accurate)
  {
    var rest: seq<Byte> := [];
    assert [c, d] == [c] + ([d] + rest);
    CodeCounts(c, [d] + rest, last, accurate);
    CodeCounts(d, rest, c, accurate);
    assert SigopsFrom(rest, d, accurate) == 0;
  }

  lemma {:induction false} CodeCounts(opcode: Byte, rest: seq<Byte>, last: Byte, accurate: bool)
    requires opcode > 0x4e
    ensures SigopsFrom([opcode] + rest, last, accurate) == OpCost(opcode, last, accurate) + SigopsFrom(rest, opcode, accurate)
  {
    ReadIff([opcode] + rest, opcode, [], rest);
  }

  lemma {:induction false} KeyPushCounts(hash: seq<Byte>, rest: seq<Byte>, last: Byte, accurate: bool)
    requires |hash| == 20
    ensures SigopsFrom([0x14] + (hash + rest), last, accurate) == SigopsFrom(rest, 0x14, accurate)
  {
    ReadIff([0x14] + (hash + rest), 0x14, hash, rest);
  }

  // ---------------------------------------------------------------- multisig scripts

  function PushAll(keys: seq<seq<Byte>>): seq<Byte> {
    if keys == [] then [] else PushData(keys[0]) + PushAll(keys[1..])
  }

  /** get_script_for_multisig */
  function MultisigScript(required: I64, keys: seq<seq<Byte>>): seq<Byte>
    requires |keys| < 0x8000_0000_0000_0000
  {
    PushInt(required) + (PushAll(keys) + (PushInt(|keys|) + [OP_CHECKMULTISIG]))
  }

  /** Reading a pushed number: the opcode is a small integer's exactly for 1 to 16. */
  lemma {:induction false} PushIntReads(n: I64, rest: seq<Byte>)
    ensures var r := GetScriptOp(PushInt(n) + rest);
      && r.op.Some? && r.rest == rest && r.op.value.opcode <= OP_16
      && (1 <= n <= 16 ==> r.op.value.opcode == OP_1 + n - 1)
      && (!(1 <= n <= 16) ==> !IsSmallInt(r.op.value.opcode))
  {
    if n == -1 || 1 <= n <= 16 || n == 0 {
      assert (PushInt(n) + rest)[1..] == rest;
      assert rest[..0] == [] && rest[0..] == rest;
    } else {
      NumberLength(n);
      PushReadsBack(EncodeNumber(n), rest);
    }
  }

  /** Minus one, zero and one to sixteen are pushed by an opcode of their own; other numbers as their bytes. */
  lemma {:induction false} NumberIsPushed(n: I64, rest: seq<Byte>)
    ensures PushInt(-1) == [0x4f] && PushInt(0) == [0x00]
    ensures 1 <= n <= 16 ==> PushInt(n) == [0x50 + n]
    ensures n < -1 || n > 16 ==>
              var r := GetScriptOp(PushInt(n) + rest);
              r.rest == rest && r.op.Some? && r.op.value.operand.Some? && DecodeNumber(r.op.value.operand.value) == n
  {
    if n < -1 || n > 16 {
      NumberLength(n);
      NumberRoundTrip(n);
      PushReadsBack(EncodeNumber(n), rest);
    }
  }

  /** A script for m of n keys begins with m and ends with n and the check. */
  lemma {:induction false} MultisigEnds(m: I64, keys: seq<seq<Byte>>)
    requires 1 <= m <= 16 && 1 <= |keys| <= 16
    ensures var s := MultisigScript(m, keys);
      |s| >= 3 && s[0] == 0x50 + m && s[|s| - 2] == 0x50 + |keys| && s[|s| - 1] == 0xae && s[1..|s| - 2] == PushAll(keys)
  {
  }

  lemma {:induction false} NumberLength(n: I64)
    ensures |EncodeNumber(n)| <= 9
  {
    if |EncodeNumber(n)| > 9 {
      EncodeBound(n);
      PowMonotone(8, |EncodeNumber(n)| - 2);
      Pow256Values();
      assert false;
    }
  }

  lemma {:induction false} KeysHaveNoSigops(keys: seq<seq<Byte>>, last: Byte, rest: seq<Byte>)
      returns (last': Byte)
    requires forall i :: 0 <= i < |keys| ==> |keys[i]| < U32_SIZE
    ensures forall accurate :: SigopsFrom(PushAll(keys) + rest, last, accurate) == SigopsFrom(rest, last', accurate)
    decreases |keys|
  {
    if keys == [] {
      assert PushAll(keys) + rest == rest;
      return last;
    }
    ConcatAssociative(PushData(keys[0]), PushAll(keys[1..]), rest);
    PushReadsBack(keys[0], PushAll(keys[1..]) + rest);
    var opcode := GetScriptOp(PushAll(keys) + rest).op.value.opcode;
    last' := KeysHaveNoSigops(keys[1..], opcode, rest);
  }

  /** Whatever the keys, a multisig script counts one operation per key for 1 to 16 keys, and 20 otherwise. */
  lemma {:induction false} MultisigSigops(required: I64, keys: seq<seq<Byte>>)
    requires |keys| < 0x8000_0000_0000_0000 && forall i :: 0 <= i < |keys| ==> |keys[i]| < U32_SIZE
    ensures Sigops(MultisigScript(required, keys), true) == if 1 <= |keys| <= 16 then |keys| else 20
    ensures Sigops(MultisigScript(required, keys), false) == 20
  {
    var tail := PushInt(|keys|) + [OP_CHECKMULTISIG];
    var script := MultisigScript(required, keys);
    PushIntReads(required, PushAll(keys) + tail);
    var first := GetScriptOp(script).op.value.opcode;
    var last := KeysHaveNoSigops(keys, first, tail);
    PushIntReads(|keys|, [OP_CHECKMULTISIG]);
    var count := GetScriptOp(tail).op.value.opcode;
    forall accurate ensures Sigops(script, accurate) == OpCost(OP_CHECKMULTISIG, count, accurate) {
      SkipPush(script, OP_INVALIDOPCODE, accurate);
      SkipPush(tail, last, accurate);
      LastOp(count, accurate);
    }
  }

  lemma {:induction false} SkipPush(script: seq<Byte>, last: Byte, accurate: bool)
    requires GetScriptOp(script).op.Some? && GetScriptOp(script).op.value.opcode <= OP_16
    ensures SigopsFrom(script, last, accurate)
         == SigopsFrom(GetScriptOp(script).rest, GetScriptOp(script).op.value.opcode, accurate)
  {
  }

  lemma {:induction false} LastOp(last: Byte, accurate: bool)
    ensures SigopsFrom([OP_CHECKMULTISIG], last, accurate) == OpCost(OP_CHECKMULTISIG, last, accurate)
  {
    assert GetScriptOp([OP_CHECKMULTISIG]) == Read(Some(Op(OP_CHECKMULTISIG, None)), []);
  }
}
