/** Every interleaving of the pipelined resolver gives each input exactly the output it spends. */
module ResolverProof {
  import opened Wrappers
  import opened Bytes
  import opened Seqs
  import opened ResolverSpec

  // ---------------------------------------------------------------- maps of outputs

  lemma {:induction false} InsertContents(m: TxOuts, block: Block)
    ensures forall h: Hash :: h in InsertBlock(m, block) <==> h in m || exists t: nat :: t < |block| && block[t].hash == h
    ensures forall h: Hash :: h in m && (forall t: nat :: t < |block| ==> block[t].hash != h) ==> InsertBlock(m, block)[h] == m[h]
  {
    if block != [] {
      var init, last := block[..|block| - 1], block[|block| - 1];
      InsertContents(m, init);
      var r0, r := InsertBlock(m, init), InsertBlock(m, block);
      forall h: Hash ensures h in r <==> h in m || exists t: nat :: t < |block| && block[t].hash == h {
        if h in r0 && h !in m {
          var t: nat :| t < |init| && init[t].hash == h;
          assert block[t].hash == h;
        }
        if t: nat :| t < |block| && block[t].hash == h {
          if t < |init| {
            assert init[t].hash == h;
          }
        }
        assert block[|block| - 1].hash == last.hash;
      }
      forall h: Hash | h in m && (forall t: nat :: t < |block| ==> block[t].hash != h)
        ensures r[h] == m[h]
      {
        forall t: nat | t < |init| ensures init[t].hash != h {
          assert init[t] == block[t];
        }
      }
    }
  }

  lemma {:induction false} InsertValue(m: TxOuts, block: Block, t: nat)
    requires t < |block|
    requires forall u: nat, v: nat :: u < |block| && v < |block| && block[u].hash == block[v].hash ==> u == v
    ensures block[t].hash in InsertBlock(m, block)
    ensures InsertBlock(m, block)[block[t].hash] == block[t].txouts
  {
    var init := block[..|block| - 1];
    if t < |init| {
      InsertValue(m, init, t);
    }
  }

  /** Inserting the next block extends the range a map covers. */
  lemma {:induction false} InsertCovers(chain: Chain, m: TxOuts, lo: nat, n: nat)
    requires DistinctTxids(chain) && lo <= n < |chain|
    requires Has(m, chain, lo, n) && Only(m, chain, lo, n)
    ensures Has(InsertBlock(m, chain[n]), chain, lo, n + 1)
    ensures Only(InsertBlock(m, chain[n]), chain, lo, n + 1)
  {
    var block := chain[n];
    var r := InsertBlock(m, block);
    InsertContents(m, block);
    forall b: nat, t: nat, h: Hash | lo <= b < n + 1 && At(chain, b, t, h)
      ensures h in r && r[h] == chain[b][t].txouts
    {
      if b == n {
        BlockDistinct(chain, n);
        InsertValue(m, block, t);
      } else {
        forall u: nat | u < |block| ensures block[u].hash != h {
          assert block[u].hash == h ==> At(chain, n, u, h);
        }
      }
    }
    forall h: Hash | h in r ensures exists b: nat, t: nat :: lo <= b < n + 1 && At(chain, b, t, h) {
      if h in m {
        var b: nat, t: nat :| lo <= b < n && At(chain, b, t, h);
      } else {
        var t: nat :| t < |block| && block[t].hash == h;
        assert At(chain, n, t, h);
      }
    }
  }

  lemma {:induction false} BlockDistinct(chain: Chain, n: nat)
    requires DistinctTxids(chain) && n < |chain|
    ensures forall u: nat, v: nat :: u < |chain[n]| && v < |chain[n]| && chain[n][u].hash == chain[n][v].hash ==> u == v
  {
    forall u: nat, v: nat | u < |chain[n]| && v < |chain[n]| && chain[n][u].hash == chain[n][v].hash ensures u == v {
      assert At(chain, n, u, chain[n][u].hash) && At(chain, n, v, chain[n][u].hash);
    }
  }

  /** With distinct txids a prevout names one output only. */
  lemma {:induction false} SpentIsUnique(chain: Chain, op: OutPoint, out: TxOut, out': TxOut)
    requires DistinctTxids(chain) && IsSpent(chain, op, out) && IsSpent(chain, op, out')
    ensures out == out'
  {
    var c: nat, t: nat :| Creates(chain, op, c, t) && out == chain[c][t].txouts[op.index];
    var c': nat, t': nat :| Creates(chain, op, c', t') && out' == chain[c'][t'].txouts[op.index];
    assert At(chain, c, t, op.hash) && At(chain, c', t', op.hash);
  }

  // ---------------------------------------------------------------- one input

  /** The maps give op its output whenever they know its txid. */
  ghost predicate Right(chain: Chain, op: OutPoint, cur: TxOuts, prev: TxOuts) {
    && InRange(op, cur, prev)
    && (op.hash in cur ==> IsSpent(chain, op, cur[op.hash][op.index]))
    && (op.hash !in cur && op.hash in prev ==> IsSpent(chain, op, prev[op.hash][op.index]))
  }

  ghost predicate AllRight(chain: Chain, ops: seq<OutPoint>, cur: TxOuts, prev: TxOuts) {
    forall i :: 0 <= i < |ops| ==> Right(chain, ops[i], cur, prev)
  }

  /** Current batch, previous batch, or disk: wherever an input is looked up, it is found right. */
  lemma {:induction false} Classify(chain: Chain, s: State, b: nat, op: OutPoint)
    requires WellFormed(chain) && Covers(chain, s)
    requires s.curStart <= b < s.received && op in Spends(chain[b])
    ensures Right(chain, op, s.cur, s.prev)
    ensures IsMissing(op, s.cur, s.prev) ==> Readable(s.disk, op) && IsSpent(chain, op, s.disk[op.hash][op.index])
  {
    var i :| 0 <= i < |Spends(chain[b])| && Spends(chain[b])[i] == op;
    assert CreatedBy(chain, op, b);
    var c: nat, t: nat :| c <= b && Creates(chain, op, c, t);
    if op.hash in s.cur {
      var c': nat, t': nat :| s.curStart <= c' < s.received && At(chain, c', t', op.hash);
    } else if op.hash in s.prev {
      var c': nat, t': nat :| s.prevStart <= c' < s.curStart && At(chain, c', t', op.hash);
    }
  }

  lemma {:induction false} ClassifyAll(chain: Chain, s: State, b: nat)
    requires WellFormed(chain) && Covers(chain, s) && s.curStart <= b < s.received
    ensures AllRight(chain, Spends(chain[b]), s.cur, s.prev)
    ensures AllInRange(Spends(chain[b]), s.cur, s.prev)
  {
    forall i | 0 <= i < |Spends(chain[b])| ensures Right(chain, Spends(chain[b])[i], s.cur, s.prev) {
      Classify(chain, s, b, Spends(chain[b])[i]);
    }
  }

  // ---------------------------------------------------------------- assembling

  lemma {:induction false} AssembleRight(chain: Chain, ops: seq<OutPoint>, cur: TxOuts, prev: TxOuts, disk: seq<TxOut>)
    requires AllRight(chain, ops, cur, prev) && AllInRange(ops, cur, prev)
    requires |disk| >= |Missing(ops, cur, prev)|
    requires AllSpent(chain, Missing(ops, cur, prev), disk[..|Missing(ops, cur, prev)|])
    ensures AllSpent(chain, ops, Assemble(ops, cur, prev, disk))
  {
    if ops != [] {
      var init, op := ops[..|ops| - 1], ops[|ops| - 1];
      var mi, m := Missing(init, cur, prev), Missing(ops, cur, prev);
      SpentPrefix(chain, mi, m, disk);
      AssembleRight(chain, init, cur, prev, disk);
      assert Right(chain, op, cur, prev);
      if IsMissing(op, cur, prev) {
        assert m[|mi|] == op && disk[..|m|][|mi|] == disk[|mi|];
      }
      SpentOneMore(chain, ops, Assemble(ops, cur, prev, disk));
    }
  }

  lemma {:induction false} SpentOneMore(chain: Chain, ops: seq<OutPoint>, outs: seq<TxOut>)
    requires ops != [] && |outs| == |ops| && AllSpent(chain, ops[..|ops| - 1], outs[..|ops| - 1])
    requires IsSpent(chain, ops[|ops| - 1], outs[|ops| - 1])
    ensures AllSpent(chain, ops, outs)
  {
    var init := ops[..|ops| - 1];
    forall i | 0 <= i < |ops| ensures IsSpent(chain, ops[i], outs[i]) {
      if i < |init| {
        assert init[i] == ops[i] && outs[..|init|][i] == outs[i];
      }
    }
  }

  lemma {:induction false} SpentPrefix(chain: Chain, a: seq<OutPoint>, b: seq<OutPoint>, disk: seq<TxOut>)
    requires a <= b && |disk| >= |b| && AllSpent(chain, b, disk[..|b|])
    ensures AllSpent(chain, a, disk[..|a|])
  {
    forall k | 0 <= k < |a| ensures IsSpent(chain, a[k], disk[..|a|][k]) {
      assert b[k] == a[k] && disk[..|b|][k] == disk[..|a|][k];
    }
  }

  lemma {:induction false} AllSpentSplit(chain: Chain, a: seq<OutPoint>, b: seq<OutPoint>, disk: seq<TxOut>)
    requires |disk| >= |a + b| && AllSpent(chain, a + b, disk[..|a + b|])
    ensures AllSpent(chain, a, disk[..|a|])
    ensures AllSpent(chain, b, disk[|a|..][..|b|])
  {
    var ab := a + b;
    forall k | 0 <= k < |a| ensures IsSpent(chain, a[k], disk[..|a|][k]) {
      assert ab[k] == a[k] && disk[..|ab|][k] == disk[..|a|][k];
    }
    forall k | 0 <= k < |b| ensures IsSpent(chain, b[k], disk[|a|..][..|b|][k]) {
      assert ab[|a| + k] == b[k] && disk[..|ab|][|a| + k] == disk[|a|..][..|b|][k];
    }
  }

  /** Both passes list the same missing inputs, so the k-th disk result lands on the k-th of them. */
  lemma {:induction false} AssembleBlockRight(chain: Chain, block: Block, cur: TxOuts, prev: TxOuts, disk: seq<TxOut>)
    requires AllRight(chain, Spends(block), cur, prev) && AllInRange(Spends(block), cur, prev)
    requires |disk| >= |Missing(Spends(block), cur, prev)|
    requires AllSpent(chain, Missing(Spends(block), cur, prev), disk[..|Missing(Spends(block), cur, prev)|])
    ensures Resolved(chain, block, AssembleBlock(block, cur, prev, disk))
  {
    if block != [] {
      var init, ops := block[..|block| - 1], NonEmpty(block[|block| - 1].txins);
      SpendsOfPrefix(block, cur, prev);
      MissingOfAppend(Spends(init), ops, cur, prev);
      AllSpentSplit(chain, Missing(Spends(init), cur, prev), Missing(ops, cur, prev), disk);
      RightSplit(chain, Spends(init), ops, cur, prev);
      AssembleBlockRight(chain, init, cur, prev, disk);
      AssembleRight(chain, ops, cur, prev, disk[|Missing(Spends(init), cur, prev)|..]);
      ResolvedOneMore(chain, block, AssembleBlock(block, cur, prev, disk));
    }
  }

  lemma {:induction false} ResolvedOneMore(chain: Chain, block: Block, deps: seq<seq<TxOut>>)
    requires block != [] && |deps| == |block| && Resolved(chain, block[..|block| - 1], deps[..|block| - 1])
    requires AllSpent(chain, NonEmpty(block[|block| - 1].txins), deps[|block| - 1])
    ensures Resolved(chain, block, deps)
  {
    var init := block[..|block| - 1];
    forall t | 0 <= t < |block| ensures AllSpent(chain, NonEmpty(block[t].txins), deps[t]) {
      if t < |init| {
        assert init[t] == block[t] && deps[..|init|][t] == deps[t];
      }
    }
  }

  lemma {:induction false} RightSplit(chain: Chain, a: seq<OutPoint>, b: seq<OutPoint>, cur: TxOuts, prev: TxOuts)
    requires AllRight(chain, a + b, cur, prev) && AllInRange(a + b, cur, prev)
    ensures AllRight(chain, a, cur, prev) && AllInRange(a, cur, prev)
    ensures AllRight(chain, b, cur, prev) && AllInRange(b, cur, prev)
  {
    AtConcat(a, b);
    forall i | 0 <= i < |b| ensures Right(chain, b[i], cur, prev) && InRange(b[i], cur, prev) {
      assert Right(chain, (a + b)[|a| + i], cur, prev) && InRange((a + b)[|a| + i], cur, prev);
    }
    forall i | 0 <= i < |a| ensures Right(chain, a[i], cur, prev) && InRange(a[i], cur, prev) {
      assert Right(chain, (a + b)[i], cur, prev) && InRange((a + b)[i], cur, prev);
    }
  }

  lemma {:induction false} MissingStable(ops: seq<OutPoint>, cur: TxOuts, cur': TxOuts, prev: TxOuts)
    requires forall i :: 0 <= i < |ops| ==> (ops[i].hash in cur <==> ops[i].hash in cur')
    ensures Missing(ops, cur, prev) == Missing(ops, cur', prev)
  {
    if ops != [] {
      MissingStable(ops[..|ops| - 1], cur, cur', prev);
    }
  }

  /** Later blocks being inserted between the passes does not change what a block is missing. */
  lemma {:induction false} LaterInsertsDoNotMatter(chain: Chain, s: State, b: nat)
    requires WellFormed(chain) && Covers(chain, s)
    requires s.curStart <= b < s.received < |chain|
    ensures Missing(Spends(chain[b]), InsertBlock(s.cur, chain[s.received]), s.prev) == Missing(Spends(chain[b]), s.cur, s.prev)
  {
    var cur' := InsertBlock(s.cur, chain[s.received]);
    var ops := Spends(chain[b]);
    InsertContents(s.cur, chain[s.received]);
    forall i | 0 <= i < |ops| ensures ops[i].hash in s.cur <==> ops[i].hash in cur' {
      var op := ops[i];
      assert CreatedBy(chain, op, b);
      var c: nat, t: nat :| c <= b && Creates(chain, op, c, t);
      if u: nat :| u < |chain[s.received]| && chain[s.received][u].hash == op.hash {
        assert At(chain, s.received, u, op.hash);
      }
    }
    MissingStable(ops, s.cur, cur', s.prev);
  }

  // ---------------------------------------------------------------- the invariant

  /** What the maps and the disk hold: the disk always has every batch before the previous one. */
  ghost predicate Covers(chain: Chain, s: State) {
    && s.prevStart <= s.curStart <= s.received <= |chain|
    && Has(s.cur, chain, s.curStart, s.received) && Only(s.cur, chain, s.curStart, s.received)
    && Has(s.prev, chain, s.prevStart, s.curStart) && Only(s.prev, chain, s.prevStart, s.curStart)
    && Has(s.disk, chain, 0, if s.written then s.curStart else s.prevStart)
  }

  ghost predicate LoadedOk(chain: Chain, missing: seq<OutPoint>, loaded: seq<Option<TxOut>>) {
    && |loaded| == |missing|
    && forall k :: 0 <= k < |loaded| && loaded[k].Some? ==> IsSpent(chain, missing[k], loaded[k].value)
  }

  ghost predicate TaskOk(chain: Chain, cur: TxOuts, prev: TxOuts, block: Block, task: Task) {
    match task
    case Spawned => true
    case Fetching(missing, loaded) => missing == Missing(Spends(block), cur, prev) && LoadedOk(chain, missing, loaded)
    case Done(deps) => Resolved(chain, block, deps)
  }

  ghost predicate TasksOk(chain: Chain, s: State) {
    && |s.tasks| == s.received - s.curStart
    && s.received <= |chain|
    && forall i :: 0 <= i < |s.tasks| ==> TaskOk(chain, s.cur, s.prev, chain[s.curStart + i], s.tasks[i])
  }

  ghost predicate AnalyzedOk(chain: Chain, start: nat, s: State) {
    && |s.analyzed| == s.curStart - start
    && s.curStart <= |chain|
    && forall i :: 0 <= i < |s.analyzed| ==> Resolved(chain, chain[start + i], s.analyzed[i])
  }

  ghost predicate Inv(chain: Chain, start: nat, s: State) {
    && start <= s.curStart
    && Covers(chain, s)
    && TasksOk(chain, s)
    && AnalyzedOk(chain, start, s)
  }

  lemma {:induction false} AllLoadedSpent(chain: Chain, missing: seq<OutPoint>, loaded: seq<Option<TxOut>>)
    requires LoadedOk(chain, missing, loaded)
    requires forall k :: 0 <= k < |loaded| ==> loaded[k].Some?
    ensures AllSpent(chain, missing, LoadedValues(loaded)[..|missing|])
  {
  }

  /** When every read of a task has finished, its second pass finds what it needs. */
  lemma {:induction false} SecondPassReady(chain: Chain, s: State, i: nat)
    requires WellFormed(chain) && Covers(chain, s) && TasksOk(chain, s)
    requires i < |s.tasks| && AllLoaded(s.tasks[i])
    ensures var block, t := chain[s.curStart + i], s.tasks[i];
      && AllRight(chain, Spends(block), s.cur, s.prev)
      && AllInRange(Spends(block), s.cur, s.prev)
      && t.missing == Missing(Spends(block), s.cur, s.prev)
      && |t.loaded| == |t.missing|
      && AllSpent(chain, t.missing, LoadedValues(t.loaded)[..|t.missing|])
  {
    assert TaskOk(chain, s.cur, s.prev, chain[s.curStart + i], s.tasks[i]);
    ClassifyAll(chain, s, s.curStart + i);
    AllLoadedSpent(chain, s.tasks[i].missing, s.tasks[i].loaded);
  }

  lemma {:induction false} LoadSafe(chain: Chain, s: State, i: nat, k: nat)
    requires WellFormed(chain) && Covers(chain, s) && TasksOk(chain, s)
    requires Enabled(chain, s, Load(i, k))
    ensures |s.tasks[i].loaded| == |s.tasks[i].missing|
    ensures var op := s.tasks[i].missing[k];
      Readable(s.disk, op) && IsSpent(chain, op, s.disk[op.hash][op.index])
  {
    assert TaskOk(chain, s.cur, s.prev, chain[s.curStart + i], s.tasks[i]);
    MissingIsAmong(Spends(chain[s.curStart + i]), s.cur, s.prev, k);
    Classify(chain, s, s.curStart + i, s.tasks[i].missing[k]);
  }

  /** No lookup, no disk read and no indexing of any task can fail. */
  lemma {:induction false} InvSafe(chain: Chain, start: nat, s: State, a: Action)
    requires WellFormed(chain) && Inv(chain, start, s) && Enabled(chain, s, a)
    ensures Safe(chain, s, a)
  {
    match a
    case Load(i, k) => LoadSafe(chain, s, i, k);
    case SecondPass(i) => SecondPassSafe(chain, s, i);
    case _ =>
  }

  lemma {:induction false} SecondPassSafe(chain: Chain, s: State, i: nat)
    requires WellFormed(chain) && Covers(chain, s) && TasksOk(chain, s) && Enabled(chain, s, SecondPass(i))
    ensures Safe(chain, s, SecondPass(i))
  {
    SecondPassReady(chain, s, i);
  }

  lemma {:induction false} InsertKeepsTasks(chain: Chain, s: State)
    requires WellFormed(chain) && Covers(chain, s) && TasksOk(chain, s) && s.received < |chain|
    ensures forall i :: 0 <= i < |s.tasks| ==>
              TaskOk(chain, InsertBlock(s.cur, chain[s.received]), s.prev, chain[s.curStart + i], s.tasks[i])
  {
    forall i | 0 <= i < |s.tasks|
      ensures TaskOk(chain, InsertBlock(s.cur, chain[s.received]), s.prev, chain[s.curStart + i], s.tasks[i])
    {
      assert TaskOk(chain, s.cur, s.prev, chain[s.curStart + i], s.tasks[i]);
      LaterInsertsDoNotMatter(chain, s, s.curStart + i);
    }
  }

  lemma {:induction false} InsertKeeps(chain: Chain, start: nat, s: State)
    requires WellFormed(chain) && Inv(chain, start, s) && Enabled(chain, s, InsertNext)
    ensures Inv(chain, start, Next(chain, s, InsertNext))
  {
    var s' := Next(chain, s, InsertNext);
    InsertCovers(chain, s.cur, s.curStart, s.received);
    assert Covers(chain, s');
    InsertKeepsTasks(chain, s);
    assert TasksOk(chain, s');
  }

  /** Replacing one task by a sound one keeps the invariant. */
  lemma {:induction false} TaskKeeps(chain: Chain, start: nat, s: State, i: nat, task: Task)
    requires Inv(chain, start, s) && i < |s.tasks|
    requires TaskOk(chain, s.cur, s.prev, chain[s.curStart + i], task)
    ensures Inv(chain, start, s.(tasks := s.tasks[i := task]))
  {
    assert TasksOk(chain, s.(tasks := s.tasks[i := task]));
  }

  lemma {:induction false} LoadKeeps(chain: Chain, start: nat, s: State, i: nat, k: nat)
    requires WellFormed(chain) && Inv(chain, start, s)
    requires Enabled(chain, s, Load(i, k)) && Safe(chain, s, Load(i, k))
    ensures Inv(chain, start, Next(chain, s, Load(i, k)))
  {
    var task := LoadedTask(chain, s, i, k);
    TaskKeeps(chain, start, s, i, task);
  }

  lemma {:induction false} LoadedTask(chain: Chain, s: State, i: nat, k: nat) returns (task: Task)
    requires WellFormed(chain) && Covers(chain, s) && TasksOk(chain, s)
    requires Enabled(chain, s, Load(i, k)) && Safe(chain, s, Load(i, k))
    ensures TaskOk(chain, s.cur, s.prev, chain[s.curStart + i], task)
    ensures Next(chain, s, Load(i, k)) == s.(tasks := s.tasks[i := task])
  {
    var t := s.tasks[i];
    assert TaskOk(chain, s.cur, s.prev, chain[s.curStart + i], t);
    var op := t.missing[k];
    LoadSafe(chain, s, i, k);
    task := t.(loaded := t.loaded[k := Some(s.disk[op.hash][op.index])]);
  }

  lemma {:induction false} FirstPassKeeps(chain: Chain, start: nat, s: State, i: nat)
    requires Inv(chain, start, s) && Enabled(chain, s, FirstPass(i)) && Safe(chain, s, FirstPass(i))
    ensures Inv(chain, start, Next(chain, s, FirstPass(i)))
  {
    var task := StartedTask(chain, s, i);
    TaskKeeps(chain, start, s, i, task);
  }

  lemma {:induction false} StartedTask(chain: Chain, s: State, i: nat) returns (task: Task)
    requires TasksOk(chain, s) && Enabled(chain, s, FirstPass(i)) && Safe(chain, s, FirstPass(i))
    ensures TaskOk(chain, s.cur, s.prev, chain[s.curStart + i], task)
    ensures Next(chain, s, FirstPass(i)) == s.(tasks := s.tasks[i := task])
  {
    var missing := Missing(Spends(chain[s.curStart + i]), s.cur, s.prev);
    task := Fetching(missing, seq(|missing|, k => None));
  }

  lemma {:induction false} SecondPassKeeps(chain: Chain, start: nat, s: State, i: nat)
    requires WellFormed(chain) && Inv(chain, start, s)
    requires Enabled(chain, s, SecondPass(i)) && Safe(chain, s, SecondPass(i))
    ensures Inv(chain, start, Next(chain, s, SecondPass(i)))
  {
    var task := FinishedTask(chain, s, i);
    TaskKeeps(chain, start, s, i, task);
  }

  /** The second pass resolves its block. */
  lemma {:induction false} FinishedTask(chain: Chain, s: State, i: nat) returns (task: Task)
    requires WellFormed(chain) && Covers(chain, s) && TasksOk(chain, s)
    requires Enabled(chain, s, SecondPass(i)) && Safe(chain, s, SecondPass(i))
    ensures TaskOk(chain, s.cur, s.prev, chain[s.curStart + i], task)
    ensures Next(chain, s, SecondPass(i)) == s.(tasks := s.tasks[i := task])
  {
    var block, values := chain[s.curStart + i], LoadedValues(s.tasks[i].loaded);
    var deps := AssembleBlock(block, s.cur, s.prev, values);
    SecondPassReady(chain, s, i);
    AssembleBlockRight(chain, block, s.cur, s.prev, values);
    NextOfSecondPass(chain, s, i, block, values, deps);
    task := Done(deps);
  }

  lemma {:induction false} NextOfSecondPass(chain: Chain, s: State, i: nat, block: Block, values: seq<TxOut>, deps: seq<seq<TxOut>>)
    requires Enabled(chain, s, SecondPass(i)) && Safe(chain, s, SecondPass(i))
    requires block == chain[s.curStart + i] && values == LoadedValues(s.tasks[i].loaded)
    requires deps == AssembleBlock(block, s.cur, s.prev, values)
    ensures Next(chain, s, SecondPass(i)) == s.(tasks := s.tasks[i := Done(deps)])
  {
  }

  /** A write of the previous batch never changes what the disk already gives for the chain. */
  lemma {:induction false} WriteKeeps(chain: Chain, start: nat, s: State, h: Hash)
    requires WellFormed(chain) && Inv(chain, start, s) && Enabled(chain, s, WriteOne(h))
    ensures Inv(chain, start, Next(chain, s, WriteOne(h)))
  {
    var c: nat, u: nat :| s.prevStart <= c < s.curStart && At(chain, c, u, h);
    assert Covers(chain, Next(chain, s, WriteOne(h)));
  }

  lemma {:induction false} FinishWriteKeeps(chain: Chain, start: nat, s: State)
    requires WellFormed(chain) && Inv(chain, start, s) && Enabled(chain, s, FinishWrite)
    ensures Inv(chain, start, Next(chain, s, FinishWrite))
  {
    forall b: nat, t: nat, h: Hash | b < s.curStart && At(chain, b, t, h)
      ensures h in s.disk && s.disk[h] == chain[b][t].txouts
    {
      if b >= s.prevStart {
        assert h in s.prev;
      }
    }
  }

  lemma {:induction false} SwapKeeps(chain: Chain, start: nat, s: State)
    requires WellFormed(chain) && Inv(chain, start, s) && Enabled(chain, s, Swap)
    ensures Inv(chain, start, Next(chain, s, Swap))
  {
    var s' := Next(chain, s, Swap);
    assert AnalyzedOk(chain, start, s') by {
      forall i | 0 <= i < |s'.analyzed| ensures Resolved(chain, chain[start + i], s'.analyzed[i]) {
        if i >= |s.analyzed| {
          var j := i - |s.analyzed|;
          assert TaskOk(chain, s.cur, s.prev, chain[s.curStart + j], s.tasks[j]);
        }
      }
    }
  }

  lemma {:induction false} StepKeeps(chain: Chain, start: nat, s: State, a: Action)
    requires WellFormed(chain) && Inv(chain, start, s) && Enabled(chain, s, a) && Safe(chain, s, a)
    ensures Inv(chain, start, Next(chain, s, a))
  {
    match a
    case InsertNext => InsertKeeps(chain, start, s);
    case FirstPass(i) => FirstPassKeeps(chain, start, s, i);
    case Load(i, k) => LoadKeeps(chain, start, s, i, k);
    case SecondPass(i) => SecondPassKeeps(chain, start, s, i);
    case WriteOne(h) => WriteKeeps(chain, start, s, h);
    case FinishWrite => FinishWriteKeeps(chain, start, s);
    case Swap => SwapKeeps(chain, start, s);
  }

  // ---------------------------------------------------------------- whole runs

  /** Any enabled action may come next; a step that would panic leaves the next state unconstrained. */
  ghost predicate Run(chain: Chain, start: nat, states: seq<State>, actions: seq<Action>) {
    && |states| == |actions| + 1
    && Init(chain, start, states[0])
    && forall k :: 0 <= k < |actions| ==>
         && Enabled(chain, states[k], actions[k])
         && (Safe(chain, states[k], actions[k]) ==> states[k + 1] == Next(chain, states[k], actions[k]))
  }

  lemma {:induction false} RunInv(chain: Chain, start: nat, states: seq<State>, actions: seq<Action>, n: nat)
    requires WellFormed(chain) && Run(chain, start, states, actions) && n <= |actions|
    ensures Inv(chain, start, states[n])
  {
    if n > 0 {
      RunInv(chain, start, states, actions, n - 1);
      InvSafe(chain, start, states[n - 1], actions[n - 1]);
      StepKeeps(chain, start, states[n - 1], actions[n - 1]);
    }
  }

  /**
   * In every interleaving, of every chain without forward references and with distinct txids: no step
   * panics, the disk holds every batch before the previous one, and every finished block has resolved
   * each of its inputs to exactly the output it spends.
   */
  lemma {:induction false} ResolvesExactly(chain: Chain, start: nat, states: seq<State>, actions: seq<Action>, n: nat)
    requires WellFormed(chain) && Run(chain, start, states, actions) && n <= |actions|
    ensures n < |actions| ==> Safe(chain, states[n], actions[n])
    ensures Has(states[n].disk, chain, 0, states[n].prevStart)
    ensures start + |states[n].analyzed| == states[n].curStart
    ensures states[n].curStart + |states[n].tasks| == states[n].received <= |chain|
    ensures forall i :: 0 <= i < |states[n].analyzed| ==> Resolved(chain, chain[start + i], states[n].analyzed[i])
    ensures forall i :: 0 <= i < |states[n].tasks| && states[n].tasks[i].Done? ==>
              Resolved(chain, chain[states[n].curStart + i], states[n].tasks[i].deps)
  {
    RunInv(chain, start, states, actions, n);
    if n < |actions| {
      InvSafe(chain, start, states[n], actions[n]);
    }
    var s := states[n];
    forall i | 0 <= i < |s.tasks| && s.tasks[i].Done? ensures Resolved(chain, chain[s.curStart + i], s.tasks[i].deps) {
      assert TaskOk(chain, s.cur, s.prev, chain[s.curStart + i], s.tasks[i]);
    }
  }

  /** A batch has at most 64 blocks, so at most the last 128 blocks received are not on disk. */
  lemma {:induction false} AtMostTwoBatches(chain: Chain, start: nat, states: seq<State>, actions: seq<Action>, n: nat)
    requires WellFormed(chain) && Run(chain, start, states, actions) && n <= |actions|
    ensures |states[n].tasks| <= 64 && states[n].received <= states[n].prevStart + 128
    ensures Has(states[n].disk, chain, 0, states[n].prevStart)
  {
    BatchesAreShort(chain, start, states, actions, n);
    ResolvesExactly(chain, start, states, actions, n);
  }

  lemma {:induction false} BatchesAreShort(chain: Chain, start: nat, states: seq<State>, actions: seq<Action>, n: nat)
    requires WellFormed(chain) && Run(chain, start, states, actions) && n <= |actions|
    ensures IsShort(states[n])
  {
    if n > 0 {
      BatchesAreShort(chain, start, states, actions, n - 1);
      ResolvesExactly(chain, start, states, actions, n - 1);
      StepIsShort(chain, states[n - 1], actions[n - 1]);
    }
  }

  predicate IsShort(s: State) {
    |s.tasks| <= 64 && s.curStart <= s.prevStart + 64 && s.received == s.curStart + |s.tasks|
  }

  lemma {:induction false} StepIsShort(chain: Chain, s: State, a: Action)
    requires Enabled(chain, s, a) && Safe(chain, s, a) && IsShort(s)
    ensures IsShort(Next(chain, s, a))
  {
  }

  // ---------------------------------------------------------------- what resolved means, and that it comes about

  /** How many of the first k inputs spend an output. */
  function SpendingBefore(txins: seq<OutPoint>, k: nat): nat
    requires k <= |txins|
  {
    if k == 0 then 0 else SpendingBefore(txins, k - 1) + if txins[k - 1].hash == EMPTY_HASH then 0 else 1
  }

  lemma {:induction false} SpendingAt(txins: seq<OutPoint>, k: nat)
    requires k <= |txins|
    ensures |NonEmpty(txins[..k])| == SpendingBefore(txins, k)
    ensures k < |txins| && txins[k].hash != EMPTY_HASH ==> NonEmpty(txins[..k + 1]) == NonEmpty(txins[..k]) + [txins[k]]
    ensures k < |txins| && txins[k].hash == EMPTY_HASH ==> NonEmpty(txins[..k + 1]) == NonEmpty(txins[..k])
  {
    if k > 0 {
      SpendingAt(txins, k - 1);
    } else {
      assert txins[..k] == [];
    }
    if k < |txins| {
      assert txins[..k + 1][..k] == txins[..k];
    }
  }

  lemma {:induction false} PrefixStays(txins: seq<OutPoint>, j: nat, k: nat)
    requires j <= k <= |txins|
    ensures NonEmpty(txins[..j]) <= NonEmpty(txins[..k])
  {
    if j < k {
      PrefixStays(txins, j, k - 1);
      SpendingAt(txins, k - 1);
    }
  }

  /**
   * A resolved transaction has one output for every input but the empty one of a coinbase, in the order of its inputs,
   * and each is the output with the input's index of a transaction of the chain with the input's hash.
   */
  lemma {:induction false} ResolvedMeans(chain: Chain, block: Block, deps: seq<seq<TxOut>>, t: nat, k: nat) returns (c: nat, u: nat)
    requires Resolved(chain, block, deps) && t < |block| && k < |block[t].txins| && block[t].txins[k].hash != EMPTY_HASH
    ensures |deps| == |block| && |deps[t]| == SpendingBefore(block[t].txins, |block[t].txins|)
    ensures SpendingBefore(block[t].txins, k) < |deps[t]|
    ensures c < |chain| && u < |chain[c]| && chain[c][u].hash == block[t].txins[k].hash
    ensures block[t].txins[k].index < |chain[c][u].txouts|
    ensures deps[t][SpendingBefore(block[t].txins, k)] == chain[c][u].txouts[block[t].txins[k].index]
  {
    var txins := block[t].txins;
    SpendingAt(txins, k);
    SpendingAt(txins, |txins|);
    PrefixStays(txins, k + 1, |txins|);
    assert txins[..|txins|] == txins;
    var at := SpendingBefore(txins, k);
    assert NonEmpty(txins)[at] == NonEmpty(txins[..k + 1])[at] == txins[k];
    assert IsSpent(chain, txins[k], deps[t][at]);
    c, u :| Creates(chain, txins[k], c, u) && deps[t][at] == chain[c][u].txouts[txins[k].index];
  }

  /**
   * Nothing waits for more than it needs: a block is inserted whatever the tasks and the writer are doing, a task goes on whatever
   * is inserted and written, and only the exchange of the batches waits for all of them.
   */
  lemma {:induction false} NothingElseWaits(chain: Chain, s: State, i: nat, k: nat, h: Hash)
    ensures Enabled(chain, s, InsertNext) <==> s.received < |chain| && |s.tasks| < 64
    ensures i < |s.tasks| && s.tasks[i] == Spawned ==> Enabled(chain, s, FirstPass(i))
    ensures i < |s.tasks| && s.tasks[i].Fetching? && k < |s.tasks[i].missing| ==> Enabled(chain, s, Load(i, k))
    ensures i < |s.tasks| && s.tasks[i].Fetching? && (forall j :: 0 <= j < |s.tasks[i].loaded| ==> s.tasks[i].loaded[j].Some?) ==>
              Enabled(chain, s, SecondPass(i))
    ensures !s.written && h in s.prev ==> Enabled(chain, s, WriteOne(h))
    ensures s.written && (forall j :: 0 <= j < |s.tasks| ==> s.tasks[j].Done?) ==> Enabled(chain, s, Swap)
  {
  }

  /** An action that brings the work forward. */
  predicate IsUseful(s: State, a: Action) {
    match a
    case Load(i, k) => i < |s.tasks| && s.tasks[i].Fetching? && k < |s.tasks[i].loaded| && s.tasks[i].loaded[k].None?
    case WriteOne(h) => h in s.prev && (h !in s.disk || s.disk[h] != s.prev[h])
    case Swap => s.tasks != []
    case _ => true
  }

  /** Until every block is in a finished batch, some action is possible that brings the work forward. */
  lemma {:induction false} NeverStuck(chain: Chain, start: nat, s: State) returns (a: Action)
    requires Inv(chain, start, s) && s.curStart < |chain|
    ensures Enabled(chain, s, a) && IsUseful(s, a)
  {
    if i :| 0 <= i < |s.tasks| && !s.tasks[i].Done? {
      assert TaskOk(chain, s.cur, s.prev, chain[s.curStart + i], s.tasks[i]);
      if s.tasks[i].Spawned? {
        a := FirstPass(i);
      } else if k :| 0 <= k < |s.tasks[i].loaded| && s.tasks[i].loaded[k].None? {
        a := Load(i, k);
      } else {
        a := SecondPass(i);
      }
    } else if s.tasks == [] {
      a := InsertNext;
    } else if s.written {
      a := Swap;
    } else if h :| h in s.prev && (h !in s.disk || s.disk[h] != s.prev[h]) {
      a := WriteOne(h);
    } else {
      a := FinishWrite;
    }
  }
}
