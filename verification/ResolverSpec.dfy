/**
 * The pipelined resolver of spent outputs as a step system: blocks are inserted, their tasks take two
 * passes with disk reads between, and the previous batch is written out, all interleaved at will.
 */
module ResolverSpec {
  import opened Wrappers
  import opened Bytes

  datatype OutPoint = OutPoint(hash: Hash, index: nat)
  datatype TxOut = TxOut(value: U64, script: seq<Byte>)
  datatype Tx = Tx(hash: Hash, txins: seq<OutPoint>, txouts: seq<TxOut>)
  type Block = seq<Tx>
  type Chain = seq<Block>
  type TxOuts = map<Hash, seq<TxOut>>

  /** MAX_BLOCKS_PER_FLUSH with its default value. */
  const MAX_BLOCKS_PER_FLUSH: nat := 64

  // ---------------------------------------------------------------- the chain

  predicate At(chain: Chain, b: nat, t: nat, h: Hash) {
    b < |chain| && t < |chain[b]| && chain[b][t].hash == h
  }

  ghost predicate DistinctTxids(chain: Chain) {
    forall b: nat, t: nat, b': nat, t': nat, h: Hash {:trigger At(chain, b, t, h), At(chain, b', t', h)} ::
      At(chain, b, t, h) && At(chain, b', t', h) ==> b == b' && t == t'
  }

  /** Transaction t of block c creates the output named by op. */
  predicate Creates(chain: Chain, op: OutPoint, c: nat, t: nat) {
    At(chain, c, t, op.hash) && op.index < |chain[c][t].txouts|
  }

  /** out is the output that op names: the one an input with this prevout spends. */
  ghost predicate IsSpent(chain: Chain, op: OutPoint, out: TxOut) {
    exists c: nat, t: nat :: Creates(chain, op, c, t) && out == chain[c][t].txouts[op.index]
  }

  /** The output named by op is created in a block no later than b. */
  ghost predicate CreatedBy(chain: Chain, op: OutPoint, b: nat) {
    exists c: nat, t: nat :: c <= b && Creates(chain, op, c, t)
  }

  /** No input spends from a later block. */
  ghost predicate NoForwardReferences(chain: Chain) {
    forall b: nat, i: nat :: b < |chain| && i < |Spends(chain[b])| ==> CreatedBy(chain, Spends(chain[b])[i], b)
  }

  ghost predicate WellFormed(chain: Chain) {
    DistinctTxids(chain) && NoForwardReferences(chain)
  }

  /** Inputs other than the empty one of a coinbase. */
  function NonEmpty(txins: seq<OutPoint>): (r: seq<OutPoint>) {
    if txins == [] then []
    else NonEmpty(txins[..|txins| - 1]) + (if txins[|txins| - 1].hash == EMPTY_HASH then [] else [txins[|txins| - 1]])
  }

  /** All spending inputs of a block, in order. */
  function Spends(block: Block): seq<OutPoint> {
    if block == [] then []
    else Spends(block[..|block| - 1]) + NonEmpty(block[|block| - 1].txins)
  }

  /** outs are the outputs spent by ops, in order. */
  ghost predicate AllSpent(chain: Chain, ops: seq<OutPoint>, outs: seq<TxOut>) {
    |outs| == |ops| && forall i :: 0 <= i < |ops| ==> IsSpent(chain, ops[i], outs[i])
  }

  /** deps gives every transaction of the block the outputs its inputs spend. */
  ghost predicate Resolved(chain: Chain, block: Block, deps: seq<seq<TxOut>>) {
    |deps| == |block| && forall t :: 0 <= t < |block| ==> AllSpent(chain, NonEmpty(block[t].txins), deps[t])
  }

  // ---------------------------------------------------------------- the two passes over a block

  function InsertBlock(txouts: TxOuts, block: Block): TxOuts {
    if block == [] then txouts
    else InsertBlock(txouts, block[..|block| - 1])[block[|block| - 1].hash := block[|block| - 1].txouts]
  }

  predicate IsMissing(op: OutPoint, cur: TxOuts, prev: TxOuts) {
    op.hash !in cur && op.hash !in prev
  }

  /** First pass: the inputs that must be read from disk, in order. */
  function Missing(ops: seq<OutPoint>, cur: TxOuts, prev: TxOuts): (r: seq<OutPoint>)
  {
    if ops == [] then []
    else
      var last := ops[|ops| - 1];
      Missing(ops[..|ops| - 1], cur, prev) + (if IsMissing(last, cur, prev) then [last] else [])
  }

  lemma {:induction false} MissingIsAmong(ops: seq<OutPoint>, cur: TxOuts, prev: TxOuts, k: nat)
    requires k < |Missing(ops, cur, prev)|
    ensures Missing(ops, cur, prev)[k] in ops && IsMissing(Missing(ops, cur, prev)[k], cur, prev)
  {
    var init := ops[..|ops| - 1];
    if k < |Missing(init, cur, prev)| {
      MissingIsAmong(init, cur, prev, k);
    }
  }

  predicate InRange(op: OutPoint, cur: TxOuts, prev: TxOuts) {
    && (op.hash in cur ==> op.index < |cur[op.hash]|)
    && (op.hash !in cur && op.hash in prev ==> op.index < |prev[op.hash]|)
  }

  predicate AllInRange(ops: seq<OutPoint>, cur: TxOuts, prev: TxOuts) {
    forall i :: 0 <= i < |ops| ==> InRange(ops[i], cur, prev)
  }

  /** Second pass over some inputs: the current batch first, then the previous one, then the next disk result. */
  function Assemble(ops: seq<OutPoint>, cur: TxOuts, prev: TxOuts, disk: seq<TxOut>): (deps: seq<TxOut>)
    requires AllInRange(ops, cur, prev)
    requires |disk| >= |Missing(ops, cur, prev)|
    ensures |deps| == |ops|
  {
    if ops == [] then []
    else
      var init, op := ops[..|ops| - 1], ops[|ops| - 1];
      var before := Missing(init, cur, prev);
      Assemble(init, cur, prev, disk) +
      [if op.hash in cur then cur[op.hash][op.index]
       else if op.hash in prev then prev[op.hash][op.index]
       else disk[|before|]]
  }

  function AssembleBlock(block: Block, cur: TxOuts, prev: TxOuts, disk: seq<TxOut>): (deps: seq<seq<TxOut>>)
    requires AllInRange(Spends(block), cur, prev)
    requires |disk| >= |Missing(Spends(block), cur, prev)|
    ensures |deps| == |block|
  {
    if block == [] then []
    else
      var init, ops := block[..|block| - 1], NonEmpty(block[|block| - 1].txins);
      SpendsOfPrefix(block, cur, prev);
      MissingOfAppend(Spends(init), ops, cur, prev);
      var before := |Missing(Spends(init), cur, prev)|;
      AssembleBlock(init, cur, prev, disk) + [Assemble(ops, cur, prev, disk[before..])]
  }

  lemma {:induction false} SpendsOfPrefix(block: Block, cur: TxOuts, prev: TxOuts)
    requires block != [] && AllInRange(Spends(block), cur, prev)
    ensures AllInRange(Spends(block[..|block| - 1]), cur, prev)
    ensures AllInRange(NonEmpty(block[|block| - 1].txins), cur, prev)
  {
    var a, b := Spends(block[..|block| - 1]), NonEmpty(block[|block| - 1].txins);
    var all := Spends(block);
    assert all == a + b;
    forall i | 0 <= i < |a| ensures InRange(a[i], cur, prev) {
      assert InRange(all[i], cur, prev);
    }
    forall i | 0 <= i < |b| ensures InRange(b[i], cur, prev) {
      assert InRange(all[|a| + i], cur, prev);
    }
  }

  lemma {:induction false} MissingOfAppend(a: seq<OutPoint>, b: seq<OutPoint>, cur: TxOuts, prev: TxOuts)
    ensures Missing(a + b, cur, prev) == Missing(a, cur, prev) + Missing(b, cur, prev)
  {
    if b == [] {
      assert a + b == a;
    } else {
      var init := b[..|b| - 1];
      assert (a + b)[..|a + b| - 1] == a + init;
      MissingOfAppend(a, init, cur, prev);
    }
  }

  // ---------------------------------------------------------------- the step system

  datatype Task =
    | Spawned
    | Fetching(missing: seq<OutPoint>, loaded: seq<Option<TxOut>>)
    | Done(deps: seq<seq<TxOut>>)

  datatype State = State(
    prevStart: nat,            // first block of the previous batch
    curStart: nat,             // first block of the current batch
    received: nat,             // blocks inserted so far
    cur: TxOuts,               // current_txouts
    prev: TxOuts,              // previous_txouts
    disk: TxOuts,
    written: bool,             // the write of the previous batch has finished
    tasks: seq<Task>,          // one per block of the current batch
    analyzed: seq<seq<seq<TxOut>>>  // resolved inputs of every block of the finished batches
  )

  /** Blocks below `start` are already on disk; whatever else is there does not matter. */
  ghost predicate Init(chain: Chain, start: nat, s: State) {
    && start <= |chain|
    && s.prevStart == s.curStart == s.received == start
    && s.cur == map[] && s.prev == map[] && s.tasks == [] && s.analyzed == []
    && s.written
    && Has(s.disk, chain, 0, start)
  }

  /** Every output of blocks lo..hi is in the map, under its txid. */
  ghost predicate Has(m: TxOuts, chain: Chain, lo: nat, hi: nat) {
    forall b: nat, t: nat, h: Hash :: lo <= b < hi && At(chain, b, t, h) ==> h in m && m[h] == chain[b][t].txouts
  }

  /** The map holds transactions of blocks lo..hi only. */
  ghost predicate Only(m: TxOuts, chain: Chain, lo: nat, hi: nat) {
    forall h: Hash :: h in m ==> exists b: nat, t: nat :: lo <= b < hi && At(chain, b, t, h)
  }

  datatype Action =
    | InsertNext                  // receive a block, insert its outputs, spawn its task
    | FirstPass(i: nat)           // task i lists what it must read from disk
    | Load(i: nat, k: nat)        // one disk read of task i finishes
    | SecondPass(i: nat)          // task i assembles its dependencies
    | WriteOne(h: Hash)           // the writer stores one transaction of the previous batch
    | FinishWrite
    | Swap                        // the current batch becomes the previous one

  predicate Readable(disk: TxOuts, op: OutPoint) {
    op.hash in disk && op.index < |disk[op.hash]|
  }

  predicate AllLoaded(t: Task) {
    t.Fetching? && forall k :: 0 <= k < |t.loaded| ==> t.loaded[k].Some?
  }

  function LoadedValues(loaded: seq<Option<TxOut>>): (r: seq<TxOut>)
    requires forall k :: 0 <= k < |loaded| ==> loaded[k].Some?
    ensures |r| == |loaded| && forall k :: 0 <= k < |r| ==> r[k] == loaded[k].value
  {
    seq(|loaded|, k requires 0 <= k < |loaded| => loaded[k].value)
  }

  /** The action may be tried; what it then needs in order not to panic is Safe. */
  predicate Enabled(chain: Chain, s: State, a: Action) {
    match a
    case InsertNext => s.received < |chain| && |s.tasks| < MAX_BLOCKS_PER_FLUSH
    case FirstPass(i) => i < |s.tasks| && s.tasks[i].Spawned?
    case Load(i, k) => i < |s.tasks| && s.tasks[i].Fetching? && k < |s.tasks[i].missing|
    case SecondPass(i) => i < |s.tasks| && AllLoaded(s.tasks[i])
    case WriteOne(h) => !s.written && h in s.prev
    case FinishWrite => !s.written && forall h :: h in s.prev ==> h in s.disk && s.disk[h] == s.prev[h]
    case Swap => s.written && forall i :: 0 <= i < |s.tasks| ==> s.tasks[i].Done?
  }

  /** The lookups and indexings the action performs all succeed. */
  predicate Safe(chain: Chain, s: State, a: Action)
    requires Enabled(chain, s, a)
  {
    match a
    case FirstPass(i) => s.curStart + i < |chain|
    case Load(i, k) => k < |s.tasks[i].loaded| && Readable(s.disk, s.tasks[i].missing[k])
    case SecondPass(i) =>
      && s.curStart + i < |chain|
      && AllInRange(Spends(chain[s.curStart + i]), s.cur, s.prev)
      && |s.tasks[i].loaded| == |Missing(Spends(chain[s.curStart + i]), s.cur, s.prev)|
    case _ => true
  }

  function Next(chain: Chain, s: State, a: Action): State
    requires Enabled(chain, s, a) && Safe(chain, s, a)
  {
    match a
    case InsertNext =>
      s.(cur := InsertBlock(s.cur, chain[s.received]), received := s.received + 1, tasks := s.tasks + [Spawned])
    case FirstPass(i) =>
      var missing := Missing(Spends(chain[s.curStart + i]), s.cur, s.prev);
      s.(tasks := s.tasks[i := Fetching(missing, seq(|missing|, k => None))])
    case Load(i, k) =>
      var t := s.tasks[i];
      var out := s.disk[t.missing[k].hash][t.missing[k].index];
      s.(tasks := s.tasks[i := t.(loaded := t.loaded[k := Some(out)])])
    case SecondPass(i) =>
      var deps := AssembleBlock(chain[s.curStart + i], s.cur, s.prev, LoadedValues(s.tasks[i].loaded));
      s.(tasks := s.tasks[i := Done(deps)])
    case WriteOne(h) =>
      s.(disk := s.disk[h := s.prev[h]])
    case FinishWrite =>
      s.(written := true)
    case Swap =>
      s.(prevStart := s.curStart, curStart := s.received, cur := map[], prev := s.cur, written := false, tasks := [],
         analyzed := s.analyzed + seq(|s.tasks|, i requires 0 <= i < |s.tasks| => s.tasks[i].deps))
  }
}
