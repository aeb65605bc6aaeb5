/** The signature operation cost of a transaction, under BIP 16 and BIP 141. */
module SigopCost {
  import opened Wrappers
  import opened Bytes
  import opened VarInt
  import opened TxCodec
  import opened Script

  /** The two flags the counters look at: SCRIPT_VERIFY_P2SH and SCRIPT_VERIFY_WITNESS. */
  datatype Flags = Flags(p2sh: bool, segwit: bool)

  datatype WitnessProgram = WitnessProgram(version: int, program: seq<Byte>)

  /** is_pay_to_script_hash */
  predicate IsP2SH(script: seq<Byte>) {
    |script| == 23 && script[0] == OP_HASH160 && script[1] == 0x14 && script[22] == OP_EQUAL
  }

  /** The second byte plus two, in eight bits. */
  function LengthByte(script: seq<Byte>): nat
    requires |script| >= 2
  {
    var n: nat := script[1];
    (n + 2) % 256
  }

  /** get_witness_program; the length byte plus two is computed in eight bits. */
  function GetWitnessProgram(script: seq<Byte>): Option<WitnessProgram> {
    if |script| < 4 || |script| > 42 then None
    else if script[0] != OP_0 && (script[0] < OP_1 || script[0] > OP_16) then None
    else if LengthByte(script) == |script| then Some(WitnessProgram(DecodeOpN(script[0]), script[2..]))
    else None
  }

  const WITNESS_V0_SCRIPTHASH_SIZE := 32
  const WITNESS_V0_KEYHASH_SIZE := 20

  /** witness_sigops; Err is its panic on a witness without a readable last item. */
  function WitnessSigops(wp: WitnessProgram, blob: seq<Byte>): Result<nat> {
    if wp.version == 0 && |wp.program| == WITNESS_V0_KEYHASH_SIZE then Ok(1)
    else if wp.version == 0 && |wp.program| == WITNESS_V0_SCRIPTHASH_SIZE && blob != [] && blob[0] != 0 then
      var (count, consumed) :- DecodeVarint(blob);
      var items := Iterate(blob, consumed, count);
      if items == [] then Err else Ok(Sigops(items[|items| - 1], true))
    else Ok(0)
  }

  /** The operand of the last push read; reads that fail are skipped. */
  function LastData(script: seq<Byte>, last: Option<seq<Byte>>): Option<seq<Byte>>
    decreases |script|
  {
    if script == [] then last
    else
      var r := GetScriptOp(script);
      LastData(r.rest, if r.op.Some? && r.op.value.operand.Some? then r.op.value.operand else last)
  }

  /** count_witness_sigops */
  function CountWitnessSigops(scriptSig: seq<Byte>, scriptPubKey: seq<Byte>, blob: seq<Byte>, flags: Flags): Result<nat> {
    if !flags.segwit then Ok(0)
    else
      var native := GetWitnessProgram(scriptPubKey);
      if native.Some? then WitnessSigops(native.value, blob)
      else if IsP2SH(scriptPubKey) && IsPushOnly(scriptSig) then
        var data := LastData(scriptSig, None);
        if data.None? then Ok(0)
        else
          var wrapped := GetWitnessProgram(data.value);
          if wrapped.Some? then WitnessSigops(wrapped.value, blob) else Ok(0)
      else Ok(0)
  }

  /** The loop of count_witness_sigops over the input script. */
  method FindLastData(scriptSig: seq<Byte>) returns (last: Option<seq<Byte>>)
    ensures last == LastData(scriptSig, None)
  {
    last := None;
    var remaining := scriptSig;
    while remaining != []
      invariant LastData(remaining, last) == LastData(scriptSig, None)
      decreases |remaining|
    {
      var r := GetScriptOp(remaining);
      remaining := r.rest;
      if r.op.Some? && r.op.value.operand.Some? {
        last := r.op.value.operand;
      }
    }
  }

  /** What the loop of get_sigop_count2 ends with: None when an operation other than a push turns up. */
  function LastOperand(script: seq<Byte>, last: Option<seq<Byte>>): Option<Option<seq<Byte>>>
    decreases |script|
  {
    if script == [] then Some(last)
    else
      var r := GetScriptOp(script);
      if r.op.None? || r.op.value.opcode > OP_16 then None else LastOperand(r.rest, r.op.value.operand)
  }

  /** get_sigop_count2 */
  function P2SHSigops(scriptPubKey: seq<Byte>, scriptSig: seq<Byte>): nat {
    if !IsP2SH(scriptPubKey) then Sigops(scriptPubKey, true)
    else
      var last := LastOperand(scriptSig, None);
      if last.None? || last.value.None? then 0 else Sigops(last.value.value, true)
  }

  method GetSigopCount2(scriptPubKey: seq<Byte>, scriptSig: seq<Byte>) returns (n: nat)
    ensures n == P2SHSigops(scriptPubKey, scriptSig)
  {
    if !IsP2SH(scriptPubKey) {
      n := GetSigopCount(scriptPubKey, true);
      return;
    }
    var remaining, lastOperand := scriptSig, None;
    while remaining != []
      invariant LastOperand(remaining, lastOperand) == LastOperand(scriptSig, None)
      decreases |remaining|
    {
      var r := GetScriptOp(remaining);
      remaining := r.rest;
      if r.op.None? || r.op.value.opcode > OP_16 {
        return 0;
      }
      lastOperand := r.op.value.operand;
    }
    if lastOperand.None? {
      return 0;
    }
    n := GetSigopCount(lastOperand.value, true);
  }

  // ---------------------------------------------------------------- a whole transaction

  function InputSigops(txins: seq<TxIn>): nat {
    if txins == [] then 0 else Sigops(txins[0].script, false) + InputSigops(txins[1..])
  }

  function OutputSigops(txouts: seq<TxOut>): nat {
    if txouts == [] then 0 else Sigops(txouts[0].script, false) + OutputSigops(txouts[1..])
  }

  /** get_p2sh_sigop_count */
  function AllP2SHSigops(txins: seq<TxIn>, spent: seq<TxOut>): nat
    requires |spent| == |txins|
  {
    if txins == [] then 0
    else
      (if IsP2SH(spent[0].script) then P2SHSigops(spent[0].script, txins[0].script) else 0)
        + AllP2SHSigops(txins[1..], spent[1..])
  }

  /** The witness operations of the inputs from the i-th on. */
  function WitnessSigopsFrom(txins: seq<TxIn>, spent: seq<TxOut>, blobs: seq<seq<Byte>>, flags: Flags, i: nat): Result<nat>
    requires |spent| == |txins| == |blobs| && i <= |txins|
    decreases |txins| - i
  {
    if i == |txins| then Ok(0)
    else
      var first :- CountWitnessSigops(txins[i].script, spent[i].script, blobs[i], flags);
      Plus(first, WitnessSigopsFrom(txins, spent, blobs, flags, i + 1))
  }

  function Plus(n: nat, r: Result<nat>): Result<nat> {
    var m :- r;
    Ok(n + m)
  }

  /** is_coinbase */
  predicate IsCoinbase(tx: Tx) {
    |tx.txins| == 1 && tx.txins[0].prevoutHash == EMPTY_HASH && tx.txins[0].prevoutIndex == 0xFFFFFFFF
  }

  /** One spent output per input, and one witness blob per input when witnesses are counted. */
  predicate Spends(tx: Tx, spent: seq<TxOut>, flags: Flags) {
    !IsCoinbase(tx) ==>
      && |spent| == |tx.txins|
      && (flags.segwit ==> tx.witnesses.Some? && |tx.witnesses.value| == |tx.txins|)
  }

  function LegacyCost(tx: Tx): nat {
    4 * (InputSigops(tx.txins) + OutputSigops(tx.txouts))
  }

  function P2SHCost(tx: Tx, spent: seq<TxOut>, flags: Flags): nat
    requires |spent| == |tx.txins|
  {
    if flags.p2sh then 4 * AllP2SHSigops(tx.txins, spent) else 0
  }

  function WitnessCost(tx: Tx, spent: seq<TxOut>, flags: Flags): Result<nat>
    requires |spent| == |tx.txins| && (flags.segwit ==> tx.witnesses.Some? && |tx.witnesses.value| == |tx.txins|)
  {
    if flags.segwit then WitnessSigopsFrom(tx.txins, spent, tx.witnesses.value, flags, 0) else Ok(0)
  }

  /** get_transaction_sigop_cost */
  function Cost(tx: Tx, spent: seq<TxOut>, flags: Flags): Result<nat>
    requires Spends(tx, spent, flags)
  {
    if IsCoinbase(tx) then Ok(LegacyCost(tx))
    else Plus(LegacyCost(tx) + P2SHCost(tx, spent, flags), WitnessCost(tx, spent, flags))
  }

  // ---------------------------------------------------------------- wrapping a witness program

  /** A witness program is an opcode and one push of two to forty bytes. */
  lemma {:induction false} ProgramShape(script: seq<Byte>)
    requires GetWitnessProgram(script).Some?
    ensures script[1] == |script| - 2 && 2 <= script[1] <= 40 && !IsP2SH(script)
    ensures IsPushOnly(script)
  {
    var rest := script[1..];
    assert rest[0] == script[1];
  }

  /** Spending a script natively: nothing in the input script. Wrapped: one push of it, to the output's hash. */
  predicate Wraps(program: seq<Byte>, scriptSig: seq<Byte>, scriptPubKey: seq<Byte>) {
    && scriptSig == PushData(program)
    && IsP2SH(scriptPubKey)
  }

  lemma {:induction false} WrappedReads(program: seq<Byte>)
    requires GetWitnessProgram(program).Some?
    ensures var scriptSig := PushData(program);
      GetScriptOp(scriptSig) == Read(Some(Op(scriptSig[0], Some(program))), []) && scriptSig[0] <= OP_PUSHDATA4
  {
    PushReadsBack(program, []);
    assert PushData(program) + [] == PushData(program);
  }

  /** An input that spends a witness program costs the same natively and wrapped, count by count. */
  lemma {:induction false} WrappedInput(program: seq<Byte>, scriptSig: seq<Byte>, scriptPubKey: seq<Byte>,
                                        blob: seq<Byte>, flags: Flags)
    requires GetWitnessProgram(program).Some? && Wraps(program, scriptSig, scriptPubKey)
    ensures Sigops(scriptSig, false) == 0 == Sigops([], false)
    ensures P2SHSigops(scriptPubKey, scriptSig) == 0
    ensures !IsP2SH(program)
    ensures CountWitnessSigops(scriptSig, scriptPubKey, blob, flags) == CountWitnessSigops([], program, blob, flags)
  {
    ProgramShape(program);
    WrappedReads(program);
    assert IsPushOnly(scriptSig);
    PushOnlyHasNoSigops(scriptSig, OP_INVALIDOPCODE, false);
    PushOnlyHasNoSigops(program, OP_INVALIDOPCODE, true);
    assert LastOperand(scriptSig, None) == Some(Some(program));
    assert LastData(scriptSig, None) == Some(program);
  }

  /** Each input is the same in both transactions, or native in one and wrapped in the other. */
  predicate WrappedSome(native: Tx, nativeSpent: seq<TxOut>, wrapped: Tx, wrappedSpent: seq<TxOut>) {
    && |native.txins| == |nativeSpent| == |wrapped.txins| == |wrappedSpent|
    && native.txouts == wrapped.txouts && native.witnesses == wrapped.witnesses
    && forall i :: 0 <= i < |native.txins| ==> SameOrWrapped(native.txins[i], nativeSpent[i], wrapped.txins[i], wrappedSpent[i])
  }

  predicate SameOrWrapped(native: TxIn, nativeSpent: TxOut, wrapped: TxIn, wrappedSpent: TxOut) {
    && native.prevoutHash == wrapped.prevoutHash && native.prevoutIndex == wrapped.prevoutIndex
    && (if GetWitnessProgram(nativeSpent.script).Some? && native.script == [] then
          (wrapped.script == [] && wrappedSpent.script == nativeSpent.script)
          || Wraps(nativeSpent.script, wrapped.script, wrappedSpent.script)
        else wrapped.script == native.script && wrappedSpent.script == nativeSpent.script)
  }

  lemma {:induction false} InputCosts(native: TxIn, nativeSpent: TxOut, wrapped: TxIn, wrappedSpent: TxOut,
                                      blob: seq<Byte>, flags: Flags)
    requires SameOrWrapped(native, nativeSpent, wrapped, wrappedSpent)
    ensures Sigops(native.script, false) == Sigops(wrapped.script, false)
    ensures (if IsP2SH(nativeSpent.script) then P2SHSigops(nativeSpent.script, native.script) else 0)
         == (if IsP2SH(wrappedSpent.script) then P2SHSigops(wrappedSpent.script, wrapped.script) else 0)
    ensures CountWitnessSigops(native.script, nativeSpent.script, blob, flags)
         == CountWitnessSigops(wrapped.script, wrappedSpent.script, blob, flags)
  {
    if wrapped.script != native.script || wrappedSpent.script != nativeSpent.script {
      WrappedInput(nativeSpent.script, wrapped.script, wrappedSpent.script, blob, flags);
    }
  }

  lemma {:induction false} LegacyAndP2SHAgree(a: seq<TxIn>, aSpent: seq<TxOut>, b: seq<TxIn>, bSpent: seq<TxOut>)
    requires |a| == |aSpent| == |b| == |bSpent|
    requires forall i :: 0 <= i < |a| ==> SameOrWrapped(a[i], aSpent[i], b[i], bSpent[i])
    ensures InputSigops(a) == InputSigops(b) && AllP2SHSigops(a, aSpent) == AllP2SHSigops(b, bSpent)
  {
    if a != [] {
      InputCosts(a[0], aSpent[0], b[0], bSpent[0], [], Flags(true, true));
      LegacyAndP2SHAgree(a[1..], aSpent[1..], b[1..], bSpent[1..]);
    }
  }

  lemma {:induction false} WitnessAgrees(a: seq<TxIn>, aSpent: seq<TxOut>, b: seq<TxIn>, bSpent: seq<TxOut>,
                                         blobs: seq<seq<Byte>>, flags: Flags, i: nat)
    requires |a| == |aSpent| == |b| == |bSpent| == |blobs| && i <= |a|
    requires forall i :: 0 <= i < |a| ==> SameOrWrapped(a[i], aSpent[i], b[i], bSpent[i])
    ensures WitnessSigopsFrom(a, aSpent, blobs, flags, i) == WitnessSigopsFrom(b, bSpent, blobs, flags, i)
    decreases |a| - i
  {
    if i < |a| {
      InputCosts(a[i], aSpent[i], b[i], bSpent[i], blobs[i], flags);
      WitnessAgrees(a, aSpent, b, bSpent, blobs, flags, i + 1);
    }
  }

  /**
   * Wrapping any of a transaction's witness programs in P2SH leaves its cost unchanged, whatever the
   * witnesses and the flags (BIP 141, section "Sigops"); so does a witness the counter panics on.
   */
  lemma {:induction false} WrappingKeepsCost(native: Tx, nativeSpent: seq<TxOut>, wrapped: Tx, wrappedSpent: seq<TxOut>,
                                             flags: Flags)
    requires WrappedSome(native, nativeSpent, wrapped, wrappedSpent)
    requires Spends(native, nativeSpent, flags)
    ensures Spends(wrapped, wrappedSpent, flags)
    ensures Cost(native, nativeSpent, flags) == Cost(wrapped, wrappedSpent, flags)
  {
    assert IsCoinbase(native) == IsCoinbase(wrapped) by {
      if |native.txins| == 1 {
        assert SameOrWrapped(native.txins[0], nativeSpent[0], wrapped.txins[0], wrappedSpent[0]);
      }
    }
    LegacyAndP2SHAgree(native.txins, nativeSpent, wrapped.txins, wrappedSpent);
    if !IsCoinbase(native) {
      WitnessCostsAgree(native, nativeSpent, wrapped, wrappedSpent, flags);
    }
  }

  lemma {:induction false} WitnessCostsAgree(native: Tx, nativeSpent: seq<TxOut>, wrapped: Tx, wrappedSpent: seq<TxOut>,
                                             flags: Flags)
    requires WrappedSome(native, nativeSpent, wrapped, wrappedSpent)
    requires flags.segwit ==> native.witnesses.Some? && |native.witnesses.value| == |native.txins|
    ensures WitnessCost(native, nativeSpent, flags) == WitnessCost(wrapped, wrappedSpent, flags)
  {
    if flags.segwit {
      WitnessAgrees(native.txins, nativeSpent, wrapped.txins, wrappedSpent, native.witnesses.value, flags, 0);
    }
  }

  /** Every witness script program counts its last witness item's operations, however it is spent. */
  lemma {:induction false} ScriptHashCountsLastItem(items: seq<seq<Byte>>, program: seq<Byte>)
    requires items != [] && |items| < USIZE && forall i :: 0 <= i < |items| ==> |items[i]| < USIZE
    requires |program| == WITNESS_V0_SCRIPTHASH_SIZE
    ensures WitnessSigops(WitnessProgram(0, program), EncodeBlob(items)) == Ok(Sigops(items[|items| - 1], true))
  {
    var blob, start := EncodeBlob(items), LengthVarint(|items|);
    VarintRoundTrip(|items|, EncodeStrings(items));
    assert blob[start..] == EncodeStrings(items) == EncodeStrings(items) + [];
    IterateEncoded(items, blob, start, []);
    CountsItems(program, blob, |items|, start, items);
  }

  lemma {:induction false} CountsItems(program: seq<Byte>, blob: seq<Byte>, count: U64, start: nat, items: seq<seq<Byte>>)
    requires |program| == WITNESS_V0_SCRIPTHASH_SIZE && blob != [] && blob[0] != 0 && items != []
    requires DecodeVarint(blob) == Ok((count, start)) && Iterate(blob, start, count) == items
    ensures WitnessSigops(WitnessProgram(0, program), blob) == Ok(Sigops(items[|items| - 1], true))
  {
  }

  /** The witness loop of get_transaction_sigop_cost. */
  method SumWitnessSigops(txins: seq<TxIn>, spent: seq<TxOut>, blobs: seq<seq<Byte>>, flags: Flags) returns (r: Result<nat>)
    requires |spent| == |txins| == |blobs|
    ensures r == WitnessSigopsFrom(txins, spent, blobs, flags, 0)
  {
    var sigops: nat := 0;
    for i := 0 to |txins|
      invariant WitnessSigopsFrom(txins, spent, blobs, flags, 0) == Plus(sigops, WitnessSigopsFrom(txins, spent, blobs, flags, i))
    {
      var n := CountWitnessSigops(txins[i].script, spent[i].script, blobs[i], flags);
      if n.Err? {
        return Err;
      }
      sigops := sigops + n.value;
    }
    return Ok(sigops);
  }

  // ---------------------------------------------------------------- what every kind of input costs

  /** The scripts that pay to a script hash. */
  lemma {:induction false} P2SHIff(script: seq<Byte>)
    ensures IsP2SH(script) <==> exists hash: seq<Byte> :: |hash| == 20 && script == [0xa9, 0x14] + hash + [0x87]
  {
    if IsP2SH(script) {
      assert script == [0xa9, 0x14] + script[2..22] + [0x87];
    }
  }

  /** The scripts that are witness programs: a version from 0 to 16 and one push of 2 to 40 bytes. */
  lemma {:induction false} WitnessProgramIff(script: seq<Byte>, version: nat, program: seq<Byte>)
    ensures GetWitnessProgram(script) == Some(WitnessProgram(version, program)) <==>
              && 2 <= |program| <= 40 && version <= 16
              && script == [if version == 0 then 0 else 0x50 + version, |program|] + program
  {
    if 2 <= |program| <= 40 && version <= 16 {
      var head: seq<Byte> := [if version == 0 then 0 else 0x50 + version, |program|];
      SplitHead(script, head, program);
    }
    if GetWitnessProgram(script) == Some(WitnessProgram(version, program)) {
      assert script == [script[0], script[1]] + script[2..];
    }
  }

  lemma {:induction false} SplitHead(script: seq<Byte>, head: seq<Byte>, program: seq<Byte>)
    requires |head| == 2
    ensures script == head + program <==> |script| >= 2 && script[0] == head[0] && script[1] == head[1] && script[2..] == program
  {
    if |script| >= 2 && script[0] == head[0] && script[1] == head[1] && script[2..] == program {
      assert script == [script[0], script[1]] + script[2..];
    }
  }

  /** How an input spends its output. */
  datatype Kind =
    | Plain
    | KeyHash
    | WitnessScript(stack: seq<seq<Byte>>, script: seq<Byte>)
    | ScriptHash(redeem: seq<Byte>)
    | OtherProgram(version: nat, program: seq<Byte>)
    | NoWitness
    | NotPushed

  ghost predicate IsKind(kind: Kind, txin: TxIn, spent: TxOut, blob: seq<Byte>) {
    match kind
    case Plain => !IsP2SH(spent.script) && GetWitnessProgram(spent.script).None?
    case KeyHash => exists hash: seq<Byte> :: |hash| == 20 && spent.script == [0x00, 0x14] + hash
    case WitnessScript(stack, script) =>
      && (exists hash: seq<Byte> :: |hash| == 32 && spent.script == [0x00, 0x20] + hash)
      && |stack| + 1 < USIZE && (forall i :: 0 <= i < |stack| + 1 ==> |(stack + [script])[i]| < USIZE)
      && blob == EncodeBlob(stack + [script])
    case ScriptHash(redeem) =>
      && IsP2SH(spent.script) && |redeem| < U32_SIZE && GetWitnessProgram(redeem).None?
      && exists before: seq<Byte> :: IsPushOnly(before) && txin.script == before + PushData(redeem)
    case OtherProgram(version, program) =>
      && version <= 16 && 2 <= |program| <= 40 && !(version == 0 && (|program| == 20 || |program| == 32))
      && spent.script == [if version == 0 then 0 else 0x50 + version, |program|] + program
    case NoWitness =>
      && (exists hash: seq<Byte> :: |hash| == 32 && spent.script == [0x00, 0x20] + hash)
      && (blob == [] || blob[0] == 0)
    case NotPushed => IsP2SH(spent.script) && !IsPushOnly(txin.script)
  }

  /** What that adds to the legacy cost of the scripts. */
  function KindCost(kind: Kind, flags: Flags): nat {
    match kind
    case Plain => 0
    case KeyHash => if flags.segwit then 1 else 0
    case WitnessScript(stack, script) => if flags.segwit then Sigops(script, true) else 0
    case ScriptHash(redeem) => if flags.p2sh then 4 * Sigops(redeem, true) else 0
    case _ => 0
  }

  function KindCosts(kinds: seq<Kind>, flags: Flags): nat {
    if kinds == [] then 0 else KindCost(kinds[0], flags) + KindCosts(kinds[1..], flags)
  }

  function LegacySum(scripts: seq<seq<Byte>>): nat {
    if scripts == [] then 0 else Sigops(scripts[0], false) + LegacySum(scripts[1..])
  }

  function InputScripts(txins: seq<TxIn>): seq<seq<Byte>> {
    seq(|txins|, i requires 0 <= i < |txins| => txins[i].script)
  }

  function OutputScripts(txouts: seq<TxOut>): seq<seq<Byte>> {
    seq(|txouts|, i requires 0 <= i < |txouts| => txouts[i].script)
  }

  lemma {:induction false} PushesAreWhole(script: seq<Byte>)
    requires IsPushOnly(script)
    ensures IsWhole(script)
    decreases |script|
  {
    if script != [] {
      PushesAreWhole(GetScriptOp(script).rest);
    }
  }

  /** After pushes, a last push is the last operand. */
  lemma {:induction false} LastPush(before: seq<Byte>, redeem: seq<Byte>, last: Option<seq<Byte>>)
    requires IsPushOnly(before) && |redeem| < U32_SIZE
    ensures IsPushOnly(before + PushData(redeem))
    ensures LastOperand(before + PushData(redeem), last) == Some(Some(redeem))
    ensures LastData(before + PushData(redeem), last) == Some(redeem)
    decreases |before|
  {
    if before == [] {
      PushReadsBack(redeem, []);
      assert before + PushData(redeem) == PushData(redeem) == PushData(redeem) + [];
      assert PushData(redeem) != [];
    } else {
      var r := GetScriptOp(before);
      ReadInFront(before, PushData(redeem));
      LastPush(r.rest, redeem, r.op.value.operand);
      LastPush(r.rest, redeem, if r.op.value.operand.Some? then r.op.value.operand else last);
    }
  }

  /** The P2SH part of one input, and the witness part. */
  lemma {:induction false} KindCounts(kind: Kind, txin: TxIn, spent: TxOut, blob: seq<Byte>, flags: Flags)
    requires IsKind(kind, txin, spent, blob)
    ensures CountWitnessSigops(txin.script, spent.script, blob, flags)
         == Ok(if kind.ScriptHash? then 0 else KindCost(kind, flags))
    ensures (if IsP2SH(spent.script) then P2SHSigops(spent.script, txin.script) else 0)
         == if kind.ScriptHash? then Sigops(kind.redeem, true) else 0
  {
    match kind
    case Plain =>
    case KeyHash =>
      var hash: seq<Byte> :| |hash| == 20 && spent.script == [0x00, 0x14] + hash;
      WitnessProgramIff(spent.script, 0, hash);
      ProgramShape(spent.script);
    case WitnessScript(stack, script) =>
      var hash: seq<Byte> :| |hash| == 32 && spent.script == [0x00, 0x20] + hash;
      WitnessProgramIff(spent.script, 0, hash);
      ProgramShape(spent.script);
      ScriptHashCountsLastItem(stack + [script], hash);
    case ScriptHash(redeem) =>
      var before: seq<Byte> :| IsPushOnly(before) && txin.script == before + PushData(redeem);
      LastPush(before, redeem, None);
      NoProgram(spent.script);
    case OtherProgram(version, program) =>
      WitnessProgramIff(spent.script, version, program);
      ProgramShape(spent.script);
    case NoWitness =>
      var hash: seq<Byte> :| |hash| == 32 && spent.script == [0x00, 0x20] + hash;
      WitnessProgramIff(spent.script, 0, hash);
      ProgramShape(spent.script);
    case NotPushed =>
      NoProgram(spent.script);
      NoOperand(txin.script, None);
  }

  /** A script that is not push-only has no last operand for a script hash. */
  lemma {:induction false} NoOperand(script: seq<Byte>, last: Option<seq<Byte>>)
    requires !IsPushOnly(script)
    ensures LastOperand(script, last).None?
    decreases |script|
  {
    var r := GetScriptOp(script);
    if r.op.Some? && r.op.value.opcode <= OP_16 {
      NoOperand(r.rest, r.op.value.operand);
    }
  }

  /** Behind the script redeemed, an opcode for a number hides it from one counter and not from the other. */
  lemma {:induction false} NumberHidesScript(before: seq<Byte>, redeem: seq<Byte>, opcode: Byte, scriptPubKey: seq<Byte>)
    requires IsPushOnly(before) && |redeem| < U32_SIZE && 0x4f <= opcode <= 0x60 && IsP2SH(scriptPubKey)
    ensures var script := before + PushData(redeem) + [opcode];
      IsPushOnly(script) && P2SHSigops(scriptPubKey, script) == 0 && LastData(script, None) == Some(redeem)
  {
    LastPush(before, redeem, None);
    BehindPushes(before + PushData(redeem), opcode, None);
  }

  lemma {:induction false} BehindPushes(pushes: seq<Byte>, opcode: Byte, last: Option<seq<Byte>>)
    requires IsPushOnly(pushes) && 0x4f <= opcode <= 0x60
    ensures IsPushOnly(pushes + [opcode])
    ensures LastOperand(pushes + [opcode], last) == Some(None)
    ensures LastData(pushes + [opcode], last) == LastData(pushes, last)
    decreases |pushes|
  {
    if pushes == [] {
      assert pushes + [opcode] == [opcode];
      assert GetScriptOp([opcode]) == Read(Some(Op(opcode, None)), []);
    } else {
      var r := GetScriptOp(pushes);
      ReadInFront(pushes, [opcode]);
      BehindPushes(r.rest, opcode, r.op.value.operand);
      BehindPushes(r.rest, opcode, if r.op.value.operand.Some? then r.op.value.operand else last);
    }
  }

  lemma {:induction false} NoProgram(script: seq<Byte>)
    requires IsP2SH(script)
    ensures GetWitnessProgram(script).None?
  {
  }

  ghost predicate AreKinds(kinds: seq<Kind>, txins: seq<TxIn>, spent: seq<TxOut>, blobs: seq<seq<Byte>>) {
    && |kinds| == |txins| == |spent| == |blobs|
    && forall i :: 0 <= i < |kinds| ==> IsKind(kinds[i], txins[i], spent[i], blobs[i])
  }

  function WitnessPart(kind: Kind, flags: Flags): nat {
    if kind.ScriptHash? then 0 else KindCost(kind, flags)
  }

  function WitnessParts(kinds: seq<Kind>, flags: Flags): nat {
    if kinds == [] then 0 else WitnessPart(kinds[0], flags) + WitnessParts(kinds[1..], flags)
  }

  function P2SHParts(kinds: seq<Kind>): nat {
    if kinds == [] then 0 else (if kinds[0].ScriptHash? then Sigops(kinds[0].redeem, true) else 0) + P2SHParts(kinds[1..])
  }

  lemma {:induction false} PartsAdd(kinds: seq<Kind>, flags: Flags)
    ensures KindCosts(kinds, flags) == (if flags.p2sh then 4 * P2SHParts(kinds) else 0) + WitnessParts(kinds, flags)
  {
    if kinds != [] {
      PartsAdd(kinds[1..], flags);
    }
  }

  lemma {:induction false} NoSegwitNoParts(kinds: seq<Kind>, flags: Flags)
    requires !flags.segwit
    ensures WitnessParts(kinds, flags) == 0
  {
    if kinds != [] {
      NoSegwitNoParts(kinds[1..], flags);
    }
  }

  lemma {:induction false} WitnessPartsAre(kinds: seq<Kind>, txins: seq<TxIn>, spent: seq<TxOut>, blobs: seq<seq<Byte>>, flags: Flags, i: nat)
    requires AreKinds(kinds, txins, spent, blobs) && i <= |txins|
    ensures WitnessSigopsFrom(txins, spent, blobs, flags, i) == Ok(WitnessParts(kinds[i..], flags))
    decreases |txins| - i
  {
    if i < |txins| {
      WitnessPartsAre(kinds, txins, spent, blobs, flags, i + 1);
      KindAt(kinds, txins, spent, blobs, flags, i);
      OneMorePart(kinds, txins, spent, blobs, flags, i);
    }
  }

  lemma {:induction false} OneMorePart(kinds: seq<Kind>, txins: seq<TxIn>, spent: seq<TxOut>, blobs: seq<seq<Byte>>, flags: Flags, i: nat)
    requires |kinds| == |txins| == |spent| == |blobs| && i < |txins|
    requires CountWitnessSigops(txins[i].script, spent[i].script, blobs[i], flags) == Ok(WitnessPart(kinds[i], flags))
    requires WitnessSigopsFrom(txins, spent, blobs, flags, i + 1) == Ok(WitnessParts(kinds[i + 1..], flags))
    ensures WitnessSigopsFrom(txins, spent, blobs, flags, i) == Ok(WitnessParts(kinds[i..], flags))
  {
    PartsFrom(kinds, flags, i);
    OneMoreWitness(txins, spent, blobs, flags, i, WitnessPart(kinds[i], flags), WitnessParts(kinds[i + 1..], flags));
  }

  lemma {:induction false} KindAt(kinds: seq<Kind>, txins: seq<TxIn>, spent: seq<TxOut>, blobs: seq<seq<Byte>>, flags: Flags, i: nat)
    requires AreKinds(kinds, txins, spent, blobs) && i < |kinds|
    ensures CountWitnessSigops(txins[i].script, spent[i].script, blobs[i], flags) == Ok(WitnessPart(kinds[i], flags))
  {
    KindCounts(kinds[i], txins[i], spent[i], blobs[i], flags);
  }

  lemma {:induction false} OneMoreWitness(txins: seq<TxIn>, spent: seq<TxOut>, blobs: seq<seq<Byte>>, flags: Flags, i: nat,
                                          n: nat, more: nat)
    requires |spent| == |txins| == |blobs| && i < |txins|
    requires CountWitnessSigops(txins[i].script, spent[i].script, blobs[i], flags) == Ok(n)
    requires WitnessSigopsFrom(txins, spent, blobs, flags, i + 1) == Ok(more)
    ensures WitnessSigopsFrom(txins, spent, blobs, flags, i) == Ok(n + more)
  {
  }

  lemma {:induction false} PartsFrom(kinds: seq<Kind>, flags: Flags, i: nat)
    requires i < |kinds|
    ensures WitnessParts(kinds[i..], flags)
         == WitnessPart(kinds[i], flags) + WitnessParts(kinds[i + 1..], flags)
  {
    assert kinds[i..][0] == kinds[i] && kinds[i..][1..] == kinds[i + 1..];
  }

  lemma {:induction false} P2SHPartsAre(kinds: seq<Kind>, txins: seq<TxIn>, spent: seq<TxOut>, blobs: seq<seq<Byte>>)
    requires AreKinds(kinds, txins, spent, blobs)
    ensures AllP2SHSigops(txins, spent) == P2SHParts(kinds)
  {
    if kinds != [] {
      KindCounts(kinds[0], txins[0], spent[0], blobs[0], Flags(true, true));
      P2SHPartsAre(kinds[1..], txins[1..], spent[1..], blobs[1..]);
    }
  }

  lemma {:induction false} LegacySumConcat(a: seq<seq<Byte>>, b: seq<seq<Byte>>)
    ensures LegacySum(a + b) == LegacySum(a) + LegacySum(b)
  {
    if a == [] {
      assert a + b == b;
    } else {
      assert (a + b)[1..] == a[1..] + b;
      LegacySumConcat(a[1..], b);
    }
  }

  lemma {:induction false} InputSumIs(txins: seq<TxIn>)
    ensures InputSigops(txins) == LegacySum(InputScripts(txins))
  {
    if txins != [] {
      InputSumIs(txins[1..]);
      assert InputScripts(txins)[1..] == InputScripts(txins[1..]);
    }
  }

  lemma {:induction false} OutputSumIs(txouts: seq<TxOut>)
    ensures OutputSigops(txouts) == LegacySum(OutputScripts(txouts))
  {
    if txouts != [] {
      OutputSumIs(txouts[1..]);
      assert OutputScripts(txouts)[1..] == OutputScripts(txouts[1..]);
    }
  }

  lemma {:induction false} LegacyCostIs(tx: Tx)
    ensures LegacyCost(tx) == 4 * LegacySum(InputScripts(tx.txins) + OutputScripts(tx.txouts))
  {
    InputSumIs(tx.txins);
    OutputSumIs(tx.txouts);
    LegacySumConcat(InputScripts(tx.txins), OutputScripts(tx.txouts));
  }

  lemma {:induction false} PartCosts(tx: Tx, spent: seq<TxOut>, flags: Flags, kinds: seq<Kind>, blobs: seq<seq<Byte>>)
    requires AreKinds(kinds, tx.txins, spent, blobs) && (flags.segwit ==> tx.witnesses == Some(blobs))
    ensures P2SHCost(tx, spent, flags) == if flags.p2sh then 4 * P2SHParts(kinds) else 0
    ensures WitnessCost(tx, spent, flags) == Ok(WitnessParts(kinds, flags))
  {
    P2SHPartsAre(kinds, tx.txins, spent, blobs);
    if flags.segwit {
      WitnessPartsAre(kinds, tx.txins, spent, blobs, flags, 0);
      assert kinds[0..] == kinds;
    } else {
      NoSegwitNoParts(kinds, flags);
    }
  }

  /** A coinbase transaction costs four times the legacy count of its scripts. */
  lemma {:induction false} CoinbaseCost(tx: Tx, spent: seq<TxOut>, flags: Flags)
    requires |tx.txins| == 1 && tx.txins[0].prevoutHash == EMPTY_HASH && tx.txins[0].prevoutIndex == 0xFFFF_FFFF
    ensures Cost(tx, spent, flags) == Ok(4 * LegacySum(InputScripts(tx.txins) + OutputScripts(tx.txouts)))
  {
    LegacyCostIs(tx);
  }

  /**
   * Any other transaction costs four times the legacy count of its scripts and what the kinds of its inputs add: nothing
   * for a plain one, one for a witness key hash, the accurate count of the last witness item for a witness script, and
   * four times the accurate count of the script redeemed for a script hash; and nothing for other programs, for a witness
   * that is missing, and for a script hash spent with more than pushes.
   */
  lemma {:induction false} CostByKinds(tx: Tx, spent: seq<TxOut>, flags: Flags, kinds: seq<Kind>, blobs: seq<seq<Byte>>)
    requires !(|tx.txins| == 1 && tx.txins[0].prevoutHash == EMPTY_HASH && tx.txins[0].prevoutIndex == 0xFFFF_FFFF)
    requires AreKinds(kinds, tx.txins, spent, blobs) && (flags.segwit ==> tx.witnesses == Some(blobs))
    ensures Spends(tx, spent, flags)
    ensures Cost(tx, spent, flags)
         == Ok(4 * LegacySum(InputScripts(tx.txins) + OutputScripts(tx.txouts)) + KindCosts(kinds, flags))
  {
    PartCosts(tx, spent, flags, kinds, blobs);
    CostFromParts(tx, spent, flags, kinds);
  }

  lemma {:induction false} CostFromParts(tx: Tx, spent: seq<TxOut>, flags: Flags, kinds: seq<Kind>)
    requires |spent| == |tx.txins| && !IsCoinbase(tx) && Spends(tx, spent, flags)
    requires P2SHCost(tx, spent, flags) == if flags.p2sh then 4 * P2SHParts(kinds) else 0
    requires WitnessCost(tx, spent, flags) == Ok(WitnessParts(kinds, flags))
    ensures Cost(tx, spent, flags)
         == Ok(4 * LegacySum(InputScripts(tx.txins) + OutputScripts(tx.txouts)) + KindCosts(kinds, flags))
  {
    LegacyCostIs(tx);
    PartsAdd(kinds, flags);
    CostIsSum(tx, spent, flags, WitnessParts(kinds, flags));
  }

  lemma {:induction false} CostIsSum(tx: Tx, spent: seq<TxOut>, flags: Flags, parts: nat)
    requires |spent| == |tx.txins| && !IsCoinbase(tx) && Spends(tx, spent, flags)
    requires WitnessCost(tx, spent, flags) == Ok(parts)
    ensures Cost(tx, spent, flags) == Ok(LegacyCost(tx) + P2SHCost(tx, spent, flags) + parts)
  {
  }
}
