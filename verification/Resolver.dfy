/** The loops of the resolver over one block: inserting its outputs, and the two passes over its inputs. */
module Resolver {
  import opened Bytes
  import opened ResolverSpec

  class ChainSyncState {
    var currentTxouts: TxOuts
    var previousTxouts: TxOuts

    constructor ()
      ensures currentTxouts == map[] && previousTxouts == map[]
    {
      currentTxouts := map[];
      previousTxouts := map[];
    }

    /** insert_transactions_from_block: copies every output of the block into the current batch. */
    method InsertTransactionsFromBlock(block: Block)
      modifies `currentTxouts
      ensures currentTxouts == InsertBlock(old(currentTxouts), block)
    {
      for t := 0 to |block|
        invariant currentTxouts == InsertBlock(old(currentTxouts), block[..t])
      {
        var cloned := [];
        for o := 0 to |block[t].txouts|
          invariant cloned == block[t].txouts[..o]
        {
          cloned := cloned + [block[t].txouts[o]];
        }
        assert cloned == block[t].txouts;
        currentTxouts := currentTxouts[block[t].hash := cloned];
        assert block[..t + 1][..t] == block[..t];
      }
      assert block[..|block|] == block;
    }

    /** First pass: which prevouts to read from disk, in input order. */
    method FetchMissingDependencies(block: Block) returns (missing: seq<OutPoint>)
      ensures missing == Missing(Spends(block), currentTxouts, previousTxouts)
    {
      missing := [];
      for t := 0 to |block|
        invariant missing == Missing(Spends(block[..t]), currentTxouts, previousTxouts)
      {
        var txMissing := MissingOfTx(block[t].txins);
        missing := missing + txMissing;
        MissingGrows(block, t, currentTxouts, previousTxouts);
      }
      assert block[..|block|] == block;
    }

    /** One transaction of the first pass: the source's inner loop. */
    method MissingOfTx(txins: seq<OutPoint>) returns (missing: seq<OutPoint>)
      ensures missing == MissingTo(txins, |txins|, currentTxouts, previousTxouts)
    {
      missing := [];
      for j := 0 to |txins|
        invariant missing == MissingTo(txins, j, currentTxouts, previousTxouts)
      {
        var txin := txins[j];
        if txin.hash == EMPTY_HASH {
          continue;
        }
        if txin.hash in currentTxouts {
          continue;
        }
        if txin.hash in previousTxouts {
          continue;
        }
        missing := missing + [txin];
      }
    }

    /** Second pass: the dependencies of every transaction, consuming the disk results in order. */
    method AssembleDependencies(block: Block, depsFromDisk: seq<TxOut>) returns (deps: seq<seq<TxOut>>)
      requires AllInRange(Spends(block), currentTxouts, previousTxouts)
      requires |depsFromDisk| == |Missing(Spends(block), currentTxouts, previousTxouts)|
      ensures deps == AssembleBlock(block, currentTxouts, previousTxouts, depsFromDisk)
    {
      deps := [];
      var diskIndex := 0;
      for t := 0 to |block|
        invariant PrefixFits(block, t, currentTxouts, previousTxouts, depsFromDisk)
        invariant diskIndex == |Missing(Spends(block[..t]), currentTxouts, previousTxouts)|
        invariant deps == AssembleBlock(block[..t], currentTxouts, previousTxouts, depsFromDisk)
      {
        BlockNext(block, t, currentTxouts, previousTxouts, depsFromDisk, diskIndex);
        var txDeps;
        txDeps, diskIndex := AssembleTx(block[t].txins, depsFromDisk, diskIndex);
        deps := deps + [txDeps];
      }
      assert block[..|block|] == block;
    }

    /** One transaction of the second pass: the source's inner loop, with its running disk index. */
    method AssembleTx(txins: seq<OutPoint>, depsFromDisk: seq<TxOut>, start: nat) returns (deps: seq<TxOut>, next: nat)
      requires start <= |depsFromDisk| && EachFound(txins, currentTxouts, previousTxouts, depsFromDisk[start..])
      ensures start <= next
      ensures (deps, next - start) == AssembleTo(txins, |txins|, currentTxouts, previousTxouts, depsFromDisk[start..])
    {
      deps := [];
      next := start;
      for j := 0 to |txins|
        invariant start <= next
        invariant (deps, next - start) == AssembleTo(txins, j, currentTxouts, previousTxouts, depsFromDisk[start..])
      {
        deps, next := AssembleInput(txins[j], deps, depsFromDisk, next, start);
      }
    }

    /** One input: the current batch, then the previous one, then the next disk result. */
    method AssembleInput(txin: OutPoint, deps: seq<TxOut>, depsFromDisk: seq<TxOut>, next: nat, ghost start: nat)
        returns (deps': seq<TxOut>, next': nat)
      requires start <= next && start <= |depsFromDisk|
      requires txin.hash != EMPTY_HASH ==> CanFind(txin, currentTxouts, previousTxouts, depsFromDisk[start..], next - start)
      ensures start <= next'
      ensures (deps', next' - start) == Extend(txin, deps, next - start, currentTxouts, previousTxouts, depsFromDisk[start..])
    {
      if txin.hash == EMPTY_HASH {
        return deps, next;
      }
      if txin.hash in currentTxouts {
        return deps + [currentTxouts[txin.hash][txin.index]], next;
      }
      if txin.hash in previousTxouts {
        return deps + [previousTxouts[txin.hash][txin.index]], next;
      }
      return deps + [depsFromDisk[next]], next + 1;
    }
  }

  predicate CanFind(op: OutPoint, cur: TxOuts, prev: TxOuts, disk: seq<TxOut>, used: nat) {
    InRange(op, cur, prev) && (IsMissing(op, cur, prev) ==> used < |disk|)
  }

  function Found(op: OutPoint, cur: TxOuts, prev: TxOuts, disk: seq<TxOut>, used: nat): TxOut
    requires CanFind(op, cur, prev, disk, used)
  {
    if op.hash in cur then cur[op.hash][op.index]
    else if op.hash in prev then prev[op.hash][op.index]
    else disk[used]
  }

  predicate Fits(ops: seq<OutPoint>, cur: TxOuts, prev: TxOuts, disk: seq<TxOut>) {
    AllInRange(ops, cur, prev) && |Missing(ops, cur, prev)| <= |disk|
  }

  /** What one input adds to what was found, and to how many disk results that took. */
  function Extend(op: OutPoint, deps: seq<TxOut>, used: nat, cur: TxOuts, prev: TxOuts, disk: seq<TxOut>): (seq<TxOut>, nat) {
    if op.hash == EMPTY_HASH || !CanFind(op, cur, prev, disk, used) then (deps, used)
    else (deps + [Found(op, cur, prev, disk, used)], used + if IsMissing(op, cur, prev) then 1 else 0)
  }

  /** What the first j inputs find, and how many disk results that takes. */
  function AssembleTo(txins: seq<OutPoint>, j: nat, cur: TxOuts, prev: TxOuts, disk: seq<TxOut>): (seq<TxOut>, nat)
    requires j <= |txins|
  {
    if j == 0 then ([], 0)
    else
      var (deps, used) := AssembleTo(txins, j - 1, cur, prev, disk);
      Extend(txins[j - 1], deps, used, cur, prev, disk)
  }

  /** What the first j inputs are missing. */
  function MissingTo(txins: seq<OutPoint>, j: nat, cur: TxOuts, prev: TxOuts): seq<OutPoint>
    requires j <= |txins|
  {
    if j == 0 then []
    else
      var before, op := MissingTo(txins, j - 1, cur, prev), txins[j - 1];
      if op.hash != EMPTY_HASH && IsMissing(op, cur, prev) then before + [op] else before
  }

  lemma {:induction false} MissingToIs(txins: seq<OutPoint>, j: nat, cur: TxOuts, prev: TxOuts)
    requires j <= |txins|
    ensures MissingTo(txins, j, cur, prev) == Missing(NonEmpty(txins[..j]), cur, prev)
  {
    if j == 0 {
      assert txins[..j] == [];
    } else {
      MissingToIs(txins, j - 1, cur, prev);
      MissingToGrows(txins, j, NonEmpty(txins[..j - 1]), NonEmpty(txins[..j]), cur, prev);
    }
  }

  lemma {:induction false} MissingToGrows(txins: seq<OutPoint>, j: nat, ops: seq<OutPoint>, more: seq<OutPoint>, cur: TxOuts, prev: TxOuts)
    requires 0 < j <= |txins| && ops == NonEmpty(txins[..j - 1]) && more == NonEmpty(txins[..j])
    requires MissingTo(txins, j - 1, cur, prev) == Missing(ops, cur, prev)
    ensures MissingTo(txins, j, cur, prev) == Missing(more, cur, prev)
  {
    NonEmptyStep(txins, j - 1);
    MissingStep(ops, txins[j - 1], cur, prev);
  }

  lemma {:induction false} MissingGrows(block: Block, t: nat, cur: TxOuts, prev: TxOuts)
    requires t < |block|
    ensures Missing(Spends(block[..t + 1]), cur, prev)
         == Missing(Spends(block[..t]), cur, prev) + MissingTo(block[t].txins, |block[t].txins|, cur, prev)
  {
    SpendsGrow(block, t);
    MissingToIs(block[t].txins, |block[t].txins|, cur, prev);
    assert block[t].txins[..|block[t].txins|] == block[t].txins;
    MissingOfAppend(Spends(block[..t]), NonEmpty(block[t].txins), cur, prev);
  }

  lemma {:induction false} NonEmptyStep(txins: seq<OutPoint>, j: nat)
    requires j < |txins|
    ensures NonEmpty(txins[..j + 1]) ==
              if txins[j].hash == EMPTY_HASH then NonEmpty(txins[..j]) else NonEmpty(txins[..j]) + [txins[j]]
  {
    assert txins[..j + 1][..j] == txins[..j];
  }

  lemma {:induction false} MissingStep(ops: seq<OutPoint>, op: OutPoint, cur: TxOuts, prev: TxOuts)
    ensures Missing(ops + [op], cur, prev) ==
              if IsMissing(op, cur, prev) then Missing(ops, cur, prev) + [op] else Missing(ops, cur, prev)
  {
    assert (ops + [op])[..|ops|] == ops;
  }

  /** One more input of `all`: where its output comes from. */
  lemma {:induction false} AssembleStep(ops: seq<OutPoint>, op: OutPoint, all: seq<OutPoint>,
                                        cur: TxOuts, prev: TxOuts, disk: seq<TxOut>)
    requires Fits(ops, cur, prev, disk) && Fits(all, cur, prev, disk) && ops + [op] <= all
    ensures Fits(ops + [op], cur, prev, disk) && CanFind(op, cur, prev, disk, |Missing(ops, cur, prev)|)
    ensures |Missing(ops + [op], cur, prev)| == |Missing(ops, cur, prev)| + if IsMissing(op, cur, prev) then 1 else 0
    ensures Assemble(ops + [op], cur, prev, disk)
         == Assemble(ops, cur, prev, disk) + [Found(op, cur, prev, disk, |Missing(ops, cur, prev)|)]
  {
    var more := ops + [op];
    assert more[..|ops|] == ops && more[|ops|] == op;
    MissingStep(ops, op, cur, prev);
    PrefixInRange(more, all, cur, prev);
  }

  /** No input's lookup fails. */
  ghost predicate EachFound(txins: seq<OutPoint>, cur: TxOuts, prev: TxOuts, disk: seq<TxOut>) {
    forall j :: 0 <= j < |txins| && txins[j].hash != EMPTY_HASH ==> CanFind(txins[j], cur, prev, disk, AssembleTo(txins, j, cur, prev, disk).1)
  }

  lemma {:induction false} AssembleAll(txins: seq<OutPoint>, cur: TxOuts, prev: TxOuts, disk: seq<TxOut>)
    requires Fits(NonEmpty(txins), cur, prev, disk)
    ensures EachFound(txins, cur, prev, disk)
    ensures AssembleTo(txins, |txins|, cur, prev, disk)
         == (Assemble(NonEmpty(txins), cur, prev, disk), |Missing(NonEmpty(txins), cur, prev)|)
  {
    forall j | 0 <= j < |txins| && txins[j].hash != EMPTY_HASH
      ensures CanFind(txins[j], cur, prev, disk, AssembleTo(txins, j, cur, prev, disk).1)
    {
      NextCanBeFound(txins, j, cur, prev, disk);
    }
    AssembleToIs(txins, |txins|, cur, prev, disk);
    assert txins[..|txins|] == txins;
  }

  lemma {:induction false} AssembleToIs(txins: seq<OutPoint>, j: nat, cur: TxOuts, prev: TxOuts, disk: seq<TxOut>)
    requires j <= |txins| && Fits(NonEmpty(txins), cur, prev, disk)
    ensures Fits(NonEmpty(txins[..j]), cur, prev, disk)
    ensures AssembleTo(txins, j, cur, prev, disk)
         == (Assemble(NonEmpty(txins[..j]), cur, prev, disk), |Missing(NonEmpty(txins[..j]), cur, prev)|)
  {
    if j == 0 {
      assert txins[..j] == [];
    } else {
      AssembleToIs(txins, j - 1, cur, prev, disk);
      NonEmptyPrefix(txins, j);
      AssembleToGrows(txins, j, NonEmpty(txins[..j - 1]), NonEmpty(txins[..j]), NonEmpty(txins), cur, prev, disk);
    }
  }

  lemma {:induction false} AssembleToGrows(txins: seq<OutPoint>, j: nat, ops: seq<OutPoint>, more: seq<OutPoint>, all: seq<OutPoint>,
                                           cur: TxOuts, prev: TxOuts, disk: seq<TxOut>)
    requires 0 < j <= |txins| && ops == NonEmpty(txins[..j - 1]) && more == NonEmpty(txins[..j]) && more <= all
    requires Fits(ops, cur, prev, disk) && Fits(all, cur, prev, disk)
    requires AssembleTo(txins, j - 1, cur, prev, disk) == (Assemble(ops, cur, prev, disk), |Missing(ops, cur, prev)|)
    ensures Fits(more, cur, prev, disk)
    ensures AssembleTo(txins, j, cur, prev, disk) == (Assemble(more, cur, prev, disk), |Missing(more, cur, prev)|)
  {
    NonEmptyStep(txins, j - 1);
    if txins[j - 1].hash != EMPTY_HASH {
      AssembleToTakes(txins, j, ops, all, cur, prev, disk);
    }
  }

  lemma {:induction false} AssembleToTakes(txins: seq<OutPoint>, j: nat, ops: seq<OutPoint>, all: seq<OutPoint>,
                                           cur: TxOuts, prev: TxOuts, disk: seq<TxOut>)
    requires 0 < j <= |txins| && txins[j - 1].hash != EMPTY_HASH && ops + [txins[j - 1]] <= all
    requires Fits(ops, cur, prev, disk) && Fits(all, cur, prev, disk)
    requires AssembleTo(txins, j - 1, cur, prev, disk) == (Assemble(ops, cur, prev, disk), |Missing(ops, cur, prev)|)
    ensures var more := ops + [txins[j - 1]];
      && Fits(more, cur, prev, disk)
      && AssembleTo(txins, j, cur, prev, disk) == (Assemble(more, cur, prev, disk), |Missing(more, cur, prev)|)
  {
    AssembleStep(ops, txins[j - 1], all, cur, prev, disk);
  }

  lemma {:induction false} NextCanBeFound(txins: seq<OutPoint>, j: nat, cur: TxOuts, prev: TxOuts, disk: seq<TxOut>)
    requires j < |txins| && txins[j].hash != EMPTY_HASH && Fits(NonEmpty(txins), cur, prev, disk)
    ensures CanFind(txins[j], cur, prev, disk, AssembleTo(txins, j, cur, prev, disk).1)
  {
    AssembleToIs(txins, j, cur, prev, disk);
    NonEmptyStep(txins, j);
    NonEmptyPrefix(txins, j + 1);
    AssembleStep(NonEmpty(txins[..j]), txins[j], NonEmpty(txins), cur, prev, disk);
  }

  lemma {:induction false} NonEmptyPrefix(txins: seq<OutPoint>, j: nat)
    requires j <= |txins|
    ensures NonEmpty(txins[..j]) <= NonEmpty(txins)
    decreases |txins|
  {
    if j == |txins| {
      assert txins[..j] == txins;
    } else {
      var init := txins[..|txins| - 1];
      assert init[..j] == txins[..j];
      NonEmptyPrefix(init, j);
    }
  }

  lemma {:induction false} MissingOfPrefix(a: seq<OutPoint>, b: seq<OutPoint>, cur: TxOuts, prev: TxOuts)
    requires a <= b
    ensures |Missing(a, cur, prev)| <= |Missing(b, cur, prev)|
  {
    assert b == a + b[|a|..];
    MissingOfAppend(a, b[|a|..], cur, prev);
  }

  lemma {:induction false} SpendsPrefix(block: Block, t: nat)
    requires t <= |block|
    ensures Spends(block[..t]) <= Spends(block)
    decreases |block|
  {
    if t == |block| {
      assert block[..t] == block;
    } else {
      var init := block[..|block| - 1];
      assert init[..t] == block[..t];
      SpendsPrefix(init, t);
    }
  }

  /** The second pass over the first t transactions is in range and has enough disk results. */
  predicate PrefixFits(block: Block, t: nat, cur: TxOuts, prev: TxOuts, disk: seq<TxOut>) {
    && t <= |block|
    && AllInRange(Spends(block[..t]), cur, prev)
    && |Missing(Spends(block[..t]), cur, prev)| <= |disk|
  }

  lemma {:induction false} PrefixInRange(a: seq<OutPoint>, b: seq<OutPoint>, cur: TxOuts, prev: TxOuts)
    requires a <= b && AllInRange(b, cur, prev)
    ensures AllInRange(a, cur, prev) && |Missing(a, cur, prev)| <= |Missing(b, cur, prev)|
  {
    forall i | 0 <= i < |a| ensures InRange(a[i], cur, prev) {
      assert a[i] == b[i];
    }
    MissingOfPrefix(a, b, cur, prev);
  }

  lemma {:induction false} PrefixFitsNext(block: Block, t: nat, cur: TxOuts, prev: TxOuts, disk: seq<TxOut>)
    requires t < |block| && PrefixFits(block, t, cur, prev, disk)
    requires AllInRange(Spends(block), cur, prev) && |disk| == |Missing(Spends(block), cur, prev)|
    ensures PrefixFits(block, t + 1, cur, prev, disk)
    ensures AllInRange(NonEmpty(block[t].txins), cur, prev)
    ensures Missing(Spends(block[..t + 1]), cur, prev) ==
              Missing(Spends(block[..t]), cur, prev) + Missing(NonEmpty(block[t].txins), cur, prev)
  {
    SpendsGrow(block, t);
    SpendsPrefix(block, t + 1);
    PrefixInRange(Spends(block[..t + 1]), Spends(block), cur, prev);
    MissingOfAppend(Spends(block[..t]), NonEmpty(block[t].txins), cur, prev);
    RestInRange(Spends(block[..t]), NonEmpty(block[t].txins), cur, prev);
  }

  lemma {:induction false} SpendsGrow(block: Block, t: nat)
    requires t < |block|
    ensures Spends(block[..t + 1]) == Spends(block[..t]) + NonEmpty(block[t].txins)
  {
    assert block[..t + 1][..t] == block[..t];
  }

  lemma {:induction false} RestInRange(a: seq<OutPoint>, b: seq<OutPoint>, cur: TxOuts, prev: TxOuts)
    requires AllInRange(a + b, cur, prev)
    ensures AllInRange(b, cur, prev)
  {
    forall i | 0 <= i < |b| ensures InRange(b[i], cur, prev) {
      assert (a + b)[|a| + i] == b[i];
    }
  }

  /** One more transaction of the second pass. */
  lemma {:induction false} BlockNext(block: Block, t: nat, cur: TxOuts, prev: TxOuts, disk: seq<TxOut>, index: nat)
    requires t < |block| && PrefixFits(block, t, cur, prev, disk) && index == |Missing(Spends(block[..t]), cur, prev)|
    requires AllInRange(Spends(block), cur, prev) && |disk| == |Missing(Spends(block), cur, prev)|
    ensures PrefixFits(block, t + 1, cur, prev, disk) && EachFound(block[t].txins, cur, prev, disk[index..])
    ensures var (found, used) := AssembleTo(block[t].txins, |block[t].txins|, cur, prev, disk[index..]);
      && |Missing(Spends(block[..t + 1]), cur, prev)| == index + used
      && AssembleBlock(block[..t + 1], cur, prev, disk) == AssembleBlock(block[..t], cur, prev, disk) + [found]
  {
    PrefixFitsNext(block, t, cur, prev, disk);
    AssembleAll(block[t].txins, cur, prev, disk[index..]);
    assert block[..t + 1][..t] == block[..t];
  }
}
