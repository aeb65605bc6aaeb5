/** The chain watcher: a queue of blocks to apply, kept beside the chain state. */
module ApplyQueue {
  import opened Wrappers
  import opened Bytes
  import opened Seqs
  import opened HeaderTree
  import opened ChainSpec
  import opened ChainState
  import opened ApplyQueueSpec

  class Watcher {
    const chain: ChainState
    var queue: seq<Entry>

    constructor (chain: ChainState)
      ensures this.chain == chain && queue == []
    {
      this.chain := chain;
      queue := [];
    }

    /** handle_new_header */
    method HandleNewHeader(header: Header) returns (out: Outcome)
      requires Inv(chain.AsChain()) && header.hash != EMPTY_HASH
      modifies this`queue, chain
      ensures HandlesHeader(old(chain.AsChain()), old(chain.downloaded), HashesOf(old(queue)),
                            header, RuleFor(old(chain.known), header), out,
                            chain.AsChain(), chain.downloaded, HashesOf(queue))
      ensures queue == old(queue) + QueuedFor(out, chain.top.number)
    {
      ghost var c, rule := chain.AsChain(), RuleFor(chain.known, header);
      ghost var c1;
      if header.hash in chain.known {
        c1, out := c, Accepted(None);
      } else if header.parent !in chain.known {
        c1, out := c, Rejected;
      } else {
        out, c1 := ApplyAndQueue(header);
      }
      HandlesHeaderBy(c, old(chain.downloaded), HashesOf(old(queue)), header, rule, out, c1,
                      chain.AsChain(), chain.downloaded, HashesOf(queue));
    }

    /** The part under the write lock. */
    method ApplyAndQueue(header: Header) returns (out: Outcome, ghost c1: Chain)
      requires Inv(chain.AsChain()) && header.hash != EMPTY_HASH
      modifies this`queue, chain
      ensures Applies(old(chain.AsChain()), header, RuleFor(old(chain.known), header), false, c1, out)
      ensures HandlesOutcome(old(chain.AsChain()), old(chain.downloaded), HashesOf(old(queue)), header, out, c1,
                             chain.AsChain(), chain.downloaded, HashesOf(queue))
      ensures queue == old(queue) + QueuedFor(out, chain.top.number)
    {
      ghost var c, rule := chain.AsChain(), RuleFor(chain.known, header);
      out := chain.ValidateAndApply(header, false);
      c1 := chain.AsChain();
      if out.Accepted? && out.result.Some? {
        ResultIsOnTop(c, header, rule, c1, out);
        chain.UpdateMostWorkChain(out.result.value);
        QueueBlocks(header.hash, chain.top.number, out.result.value.added);
        EntryHashes(old(queue), chain.top.number, out.result.value.added);
      } else {
        assert queue + [] == queue;
      }
    }

    /** One added block is the new header's own; of several, oldest first, the first regenerates the pages. */
    method QueueBlocks(hash: Hash, number: nat, added: Visited)
      requires |added| == 1 ==> added[0].0 == hash
      modifies this`queue
      ensures queue == old(queue) + EntriesFor(number, added)
    {
      if |added| == 1 {
        queue := queue + [Entry(WrapU64(number), hash, Append)];
      } else {
        PushAll(WrapU64(number - |added| - 1), added);
      }
    }

    method PushAll(first: U64, added: Visited)
      modifies this`queue
      ensures queue == old(queue) + ForkEntries(first, added)
    {
      for i := 0 to |added|
        invariant queue == old(queue) + ForkEntries(first, added[..i])
      {
        assert added[..i + 1][..i] == added[..i];
        ConcatAssociative(old(queue), ForkEntries(first, added[..i]), [ForkEntry(first, i, added[i].0)]);
        queue := queue + [Entry(WrapU64(first + i), added[i].0, if i == 0 then RegenerateFromScratch else Append)];
      }
      assert added[..|added|] == added;
    }

    /** handle_new_block; committed tells whether the block's witness commitment holds, which is not always asked. */
    method HandleNewBlock(hash: Hash, committed: bool, coinbase: seq<Byte>)
      requires Inv(chain.AsChain()) && forall i :: 0 <= i < |queue| ==> queue[i].hash in chain.known
      modifies this`queue, chain
      ensures if old(queue) == [] || old(queue)[0].hash != hash || !Passes(old(queue)[0], committed) then
                && queue == old(queue) && chain.AsChain() == old(chain.AsChain())
                && chain.downloaded == old(chain.downloaded) && chain.texts == old(chain.texts)
              else
                && queue == old(queue)[1..]
                && MarksDownloaded(old(chain.AsChain()), [hash], chain.AsChain(), chain.downloaded)
                && chain.texts == old(chain.texts)[hash := Utf8.Lossy(coinbase)]
    {
      if queue == [] {
        return;
      }
      if hash != queue[0].hash {
        return;
      }
      if queue[0].number >= SEGWIT_HEIGHT {
        if !committed {
          return;
        }
      }
      queue := queue[1..];
      chain.MarkAsDownloaded([hash], [coinbase]);
    }
  }

  /** The newest added block is the header itself, which is now the top. */
  lemma {:induction false} ResultIsOnTop(c: Chain, header: Header, rule: Rule, c1: Chain, out: Outcome)
    requires Inv(c) && header.hash != EMPTY_HASH
    requires Applies(c, header, rule, false, c1, out) && out.Accepted? && out.result.Some?
    ensures var added := out.result.value.added;
      |added| > 0 && added[|added| - 1].0 == header.hash
    ensures Inv(c1) && c1.top.header.hash == header.hash
  {
    AppliesKeeps(c, header, rule, false, c1, out);
    ResultPath(c, header, rule, c1, out);
    var a, m := out.result.value, Meet(c.known, header.parent, c.top.header.hash);
    var path := [header.hash] + Path(c.known, header.parent, m);
    assert a.added[|path| - 1 - 0].0 == path[0];
  }

  lemma {:induction false} HandlesHeaderBy(c: Chain, downloaded: nat, queue: seq<Hash>, header: Header, rule: Rule,
                                           out: Outcome, c1: Chain, c': Chain, downloaded': nat, queue': seq<Hash>)
    requires Inv(c) && Applies(c, header, rule, false, c1, out)
    requires HandlesOutcome(c, downloaded, queue, header, out, c1, c', downloaded', queue')
    ensures HandlesHeader(c, downloaded, queue, header, rule, out, c', downloaded', queue')
  {
  }
}
