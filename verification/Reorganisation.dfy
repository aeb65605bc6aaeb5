/** What the chain watcher's queue makes of a list of blocks, and how the list differs from the top chain. */
module Reorganisation {
  import opened Wrappers
  import opened Bytes
  import opened Seqs
  import opened HeaderTree
  import opened ChainSpec
  import opened ApplyQueueSpec

  /** From the genesis header up to a header. */
  ghost function ChainTo(known: Headers, h: Hash): (s: seq<Hash>)
    requires Tree(known) && h in known
    ensures s != [] && Last(s) == h
    decreases known[h].number
  {
    if Number(known, h) == 0 then [h] else ChainTo(known, Parent(known, h)) + [h]
  }

  lemma {:induction false} ChainToFrame(known: Headers, known': Headers, h: Hash)
    requires Tree(known) && Tree(known') && SameLinks(known, known') && h in known
    ensures ChainTo(known', h) == ChainTo(known, h)
    decreases known[h].number
  {
    if Number(known, h) > 0 {
      ChainToFrame(known, known', Parent(known, h));
    }
  }

  lemma {:induction false} ChainToIsBranch(known: Headers, h: Hash, i: nat)
    requires Tree(known) && h in known && i < |ChainTo(known, h)|
    ensures ChainTo(known, h)[i] in Ancestors(known, h) && ChainTo(known, h)[i] in known
    decreases known[h].number
  {
    AncestorsBelow(known, h);
    if i < |ChainTo(known, h)| - 1 {
      ChainToIsBranch(known, Parent(known, h), i);
    }
  }

  // ---------------------------------------------------------------- working off the queue

  ghost predicate AreKnown(queue: seq<Entry>, known: Headers) {
    forall i :: 0 <= i < |queue| ==> queue[i].hash in known
  }

  /** The blocks that stand after an entry: the whole chain of the block, or one more. */
  ghost function ListedAfterEntry(list: seq<Hash>, e: Entry, known: Headers): seq<Hash>
    requires Tree(known) && e.hash in known
  {
    match e.strategy
    case RegenerateFromScratch => ChainTo(known, e.hash)
    case Append => list + [e.hash]
  }

  ghost function ListedAfter(list: seq<Hash>, queue: seq<Entry>, known: Headers): seq<Hash>
    requires Tree(known) && AreKnown(queue, known)
  {
    if queue == [] then list
    else ListedAfterEntry(ListedAfter(list, Front(queue), known), Last(queue), known)
  }

  lemma {:induction false} ListedConcat(list: seq<Hash>, a: seq<Entry>, b: seq<Entry>, known: Headers)
    requires Tree(known) && AreKnown(a, known) && AreKnown(b, known)
    ensures AreKnown(a + b, known)
    ensures ListedAfter(list, a + b, known) == ListedAfter(ListedAfter(list, a, known), b, known)
  {
    if b == [] {
      assert a + b == a;
    } else {
      assert Front(a + b) == a + Front(b) && Last(a + b) == Last(b);
      ListedConcat(list, a, Front(b), known);
    }
  }

  lemma {:induction false} ListedOne(list: seq<Hash>, e: Entry, known: Headers)
    requires Tree(known) && e.hash in known
    ensures ListedAfter(list, [e], known) == ListedAfterEntry(list, e, known)
  {
    assert Front([e]) == [];
  }

  lemma {:induction false} ListedFrame(list: seq<Hash>, queue: seq<Entry>, known: Headers, known': Headers)
    requires Tree(known) && Tree(known') && SameLinks(known, known') && AreKnown(queue, known)
    ensures AreKnown(queue, known') && ListedAfter(list, queue, known') == ListedAfter(list, queue, known)
  {
    if queue != [] {
      ListedFrame(list, Front(queue), known, known');
      ChainToFrame(known, known', Last(queue).hash);
    }
  }

  /** A branch listed upwards, from a block that regenerates. */
  ghost predicate IsBranch(queue: seq<Entry>, known: Headers) {
    && queue != [] && queue[0].strategy.RegenerateFromScratch? && AreKnown(queue, known)
    && forall i :: 0 < i < |queue| ==> IsNext(known, queue[i - 1].hash, queue[i])
  }

  ghost predicate IsNext(known: Headers, below: Hash, e: Entry) {
    && e.strategy.Append? && e.hash in known
    && Number(known, e.hash) > 0 && Parent(known, e.hash) == below
  }

  lemma {:induction false} BranchIsListed(list: seq<Hash>, queue: seq<Entry>, known: Headers)
    requires Tree(known) && IsBranch(queue, known)
    ensures ListedAfter(list, queue, known) == ChainTo(known, Last(queue).hash)
  {
    if |queue| > 1 {
      var last := |queue| - 1;
      BranchIsListed(list, Front(queue), known);
      assert IsNext(known, queue[last - 1].hash, queue[last]);
    } else {
      assert Last(queue) == queue[0];
    }
  }

  lemma {:induction false} ForkIsBranch(known: Headers, h: Hash, m: Hash, path: seq<Hash>, added: seq<(Hash, nat)>, number: nat)
    requires Tree(known) && h in known && m in Ancestors(known, h) && path == Path(known, h, m)
    requires IsAdded(added, path, number) && |path| > 1
    ensures IsBranch(EntriesFor(number, added), known) && Last(EntriesFor(number, added)).hash == h
  {
    var queue, last := EntriesFor(number, added), |path| - 1;
    forall i | 0 <= i < |queue| ensures queue[i].hash in known && (i > 0 ==> IsNext(known, queue[i - 1].hash, queue[i])) {
      assert added[last - (last - i)].0 == path[last - i];
      PathShape(known, h, m, last - i);
      if i > 0 {
        assert added[last - (last - i + 1)].0 == path[last - i + 1];
      }
    }
    assert added[last - 0].0 == path[0];
  }

  // ---------------------------------------------------------------- what a new top queues

  lemma {:induction false} WrapTwice(a: int, b: int)
    ensures WrapU64(WrapU64(a) + b) == WrapU64(a + b)
  {
  }

  lemma {:induction false} EntryNumber(number: nat, added: seq<(Hash, nat)>, i: nat)
    requires i < |added| <= number
    ensures EntriesFor(number, added)[i].number == WrapU64(number - |added| + i + if |added| == 1 then 1 else -1)
  {
    WrapTwice(number - |added| - 1, i);
  }

  lemma {:induction false} BranchNumber(known: Headers, h: Hash, m: Hash, path: seq<Hash>, added: seq<(Hash, nat)>, number: nat, i: nat)
    requires Tree(known) && h in known && m in Ancestors(known, h) && path == Path(known, h, m)
    requires IsAdded(added, path, number) && number == Number(known, h) && i < |added|
    ensures added[i].0 in known && Number(known, added[i].0) == number - |added| + i + 1 && |added| <= number
  {
    var last := |path| - 1;
    assert added[last - (last - i)].0 == path[last - i];
    PathShape(known, h, m, last - i);
    PathShape(known, h, m, last);
  }

  lemma {:induction false} AllNumbered(known: Headers, h: Hash, m: Hash, path: seq<Hash>, added: seq<(Hash, nat)>, number: nat, one: bool)
    requires Tree(known) && h in known && m in Ancestors(known, h) && path == Path(known, h, m)
    requires IsAdded(added, path, number) && number == Number(known, h) && (one <==> |added| == 1)
    ensures AreKnown(EntriesFor(number, added), known)
    ensures forall i :: 0 <= i < |added| ==>
              var e := EntriesFor(number, added)[i];
              e.number == WrapU64(Number(known, e.hash) - if one then 0 else 2)
  {
    forall i | 0 <= i < |added|
      ensures var e := EntriesFor(number, added)[i];
        e.hash in known && e.number == WrapU64(Number(known, e.hash) - if one then 0 else 2)
    {
      BranchNumber(known, h, m, path, added, number, i);
      EntryNumber(number, added, i);
    }
  }

  lemma {:induction false} ForkLength(c: Chain, header: Header, a: Applied, number: nat)
    requires Inv(c) && header.parent in c.known && SwitchesAtMeet(c, header, a) && number == Number(c.known, header.parent) + 1
    ensures var m := Meet(c.known, header.parent, c.top.header.hash);
      m in c.known && number - |a.added| == Number(c.known, m)
  {
    var m := Meet(c.known, header.parent, c.top.header.hash);
    MeetSeparates(c.known, header.parent, c.top.header.hash);
    PathSplits(c.known, header.parent, m);
  }

  /** A header takes over the top of a sound chain. */
  ghost predicate TakesOver(c: Chain, header: Header, rule: Rule, c1: Chain, out: Outcome) {
    && Inv(c) && OnTop(c) && header.hash != EMPTY_HASH
    && Applies(c, header, rule, false, c1, out) && out.Accepted? && out.result.Some?
  }

  lemma {:induction false} ResultBranch(c: Chain, header: Header, rule: Rule, c1: Chain, out: Outcome)
      returns (m: Hash, path: seq<Hash>)
    requires TakesOver(c, header, rule, c1, out)
    ensures Inv(c1) && header.parent in c.known && header.hash in c1.known
    ensures c1.top.number == Number(c1.known, header.hash)
    ensures m in Ancestors(c1.known, header.hash) && path == Path(c1.known, header.hash, m)
    ensures IsAdded(out.result.value.added, path, c1.top.number)
    ensures |out.result.value.added| == 1 <==> header.parent in c.mostWork
    ensures var x := Meet(c.known, header.parent, c.top.header.hash);
      x in c.known && c1.top.number - |out.result.value.added| == Number(c.known, x)
  {
    var removed;
    m, removed, path := ResultIsSwitch(c, header, rule, c1, out);
    ResultPath(c, header, rule, c1, out);
    OneAddedIffParentOnTopChain(c, header, out.result.value);
    ForkLength(c, header, out.result.value, c1.top.number);
  }

  /** What is queued is one entry to append, or a branch that regenerates. */
  lemma {:induction false} QueuedIs(c: Chain, header: Header, rule: Rule, c1: Chain, out: Outcome)
    requires TakesOver(c, header, rule, c1, out)
    ensures Inv(c1) && header.parent in c.known && header.hash in c1.known && header.hash !in c.known
    ensures Number(c1.known, header.hash) > 0 && Parent(c1.known, header.hash) == header.parent
    ensures c1.top.header.hash == header.hash && Grows(c.known, c1.known) && SameLinks(c.known, c1.known)
    ensures AreKnown(QueuedFor(out, c1.top.number), c1.known)
    ensures if header.parent in c.mostWork then QueuedFor(out, c1.top.number) == [Entry(WrapU64(c1.top.number), header.hash, Append)]
            else |QueuedFor(out, c1.top.number)| > 1 && IsBranch(QueuedFor(out, c1.top.number), c1.known)
    ensures Last(QueuedFor(out, c1.top.number)).hash == header.hash
  {
    var m, path := ResultBranch(c, header, rule, c1, out);
    var added := out.result.value.added;
    AllNumbered(c1.known, header.hash, m, path, added, c1.top.number, |added| == 1);
    AppliesKeeps(c, header, rule, false, c1, out);
    ResultPath(c, header, rule, c1, out);
    assert added[|path| - 1 - 0].0 == path[0] == header.hash;
    if |added| > 1 {
      ForkIsBranch(c1.known, header.hash, m, path, added, c1.top.number);
    }
  }

  /**
   * A block is queued under its own number when it is the only one, and under two less in a fork. That goes below
   * zero, and comes out near 2 to the 64, exactly when the branches meet at genesis.
   */
  lemma {:induction false} QueuedNumbers(c: Chain, header: Header, rule: Rule, c1: Chain, out: Outcome)
    requires TakesOver(c, header, rule, c1, out)
    ensures Inv(c1) && header.parent in c.known && AreKnown(QueuedFor(out, c1.top.number), c1.known)
    ensures forall i :: 0 <= i < |QueuedFor(out, c1.top.number)| ==>
              var e := QueuedFor(out, c1.top.number)[i];
              e.number == (Number(c1.known, e.hash) - if header.parent in c.mostWork then 0 else 2) % 0x1_0000_0000_0000_0000
    ensures var m := Meet(c.known, header.parent, c.top.header.hash);
      && m in c.known
      && (c1.top.number - |out.result.value.added| - 1 < 0 <==> Number(c.known, m) == 0)
  {
    var m, path := ResultBranch(c, header, rule, c1, out);
    AllNumbered(c1.known, header.hash, m, path, out.result.value.added, c1.top.number, header.parent in c.mostWork);
  }

  /** One block alone is appended to the pages; of several the first regenerates them and the others are appended. */
  lemma {:induction false} QueuedStrategies(c: Chain, header: Header, rule: Rule, c1: Chain, out: Outcome, i: nat)
    requires TakesOver(c, header, rule, c1, out) && i < |QueuedFor(out, c1.top.number)|
    ensures QueuedFor(out, c1.top.number)[i].strategy == if i == 0 && header.parent !in c.mostWork then RegenerateFromScratch else Append
    ensures |QueuedFor(out, c1.top.number)| == 1 <==> header.parent in c.mostWork
  {
    QueuedIs(c, header, rule, c1, out);
    if i > 0 {
      assert IsNext(c1.known, QueuedFor(out, c1.top.number)[i - 1].hash, QueuedFor(out, c1.top.number)[i]);
    }
  }

  // ---------------------------------------------------------------- how the list differs from the top chain

  /**
   * After the header: how many blocks at the end of the list have come since the last one that replaced a sibling, itself
   * included; nothing when none has, or a longer fork has regenerated the list since.
   */
  ghost function SinceAfter(c: Chain, header: Header, since: Option<nat>): Option<nat>
    requires Inv(c)
  {
    if header.parent == c.top.header.hash then (if since.Some? then Some(since.value + 1) else None)
    else if header.parent in c.mostWork then Some(1)
    else None
  }

  /** The list is the chain, or agrees with it in just the last blocks. */
  ghost predicate Agrees(list: seq<Hash>, chain: seq<Hash>, since: Option<nat>) {
    match since
    case None => list == chain
    case Some(n) =>
      && 0 < n < |list| && n < |chain|
      && list[|list| - n..] == chain[|chain| - n..]
      && list[|list| - n - 1] != chain[|chain| - n - 1]
  }

  lemma {:induction false} AgreesSnoc(list: seq<Hash>, chain: seq<Hash>, since: Option<nat>, h: Hash)
    requires Agrees(list, chain, since)
    ensures Agrees(list + [h], chain + [h], if since.Some? then Some(since.value + 1) else None)
  {
    if since.Some? {
      var n := since.value;
      assert (list + [h])[|list| - n..] == list[|list| - n..] + [h];
      assert (chain + [h])[|chain| - n..] == chain[|chain| - n..] + [h];
    }
  }

  lemma {:induction false} AgreesLast(list: seq<Hash>, chain: seq<Hash>, since: Option<nat>)
    requires Agrees(list, chain, since) && chain != []
    ensures list != [] && Last(list) == Last(chain)
  {
    if since.Some? {
      var n := since.value;
      assert list[|list| - n..][n - 1] == chain[|chain| - n..][n - 1];
    }
  }

  lemma {:induction false} AgreesInOne(list: seq<Hash>, chain: seq<Hash>, h: Hash)
    requires list != [] && chain != [] && Last(list) != Last(chain)
    ensures Agrees(list + [h], chain + [h], Some(1))
  {
  }

  /** Once the entries of a new top are worked off, the list agrees with the new top chain as foreseen. */
  lemma {:induction false} NewTopAgrees(c: Chain, header: Header, rule: Rule, c1: Chain, out: Outcome, list: seq<Hash>, since: Option<nat>)
    requires TakesOver(c, header, rule, c1, out) && Agrees(list, ChainTo(c.known, c.top.header.hash), since)
    ensures Inv(c1) && header.hash in c1.known && AreKnown(QueuedFor(out, c1.top.number), c1.known)
    ensures Agrees(ListedAfter(list, QueuedFor(out, c1.top.number), c1.known), ChainTo(c1.known, header.hash), SinceAfter(c, header, since))
  {
    QueuedIs(c, header, rule, c1, out);
    AncestorsBelow(c.known, c.top.header.hash);
    if header.parent in c.mostWork {
      var below, chain := ChainTo(c.known, header.parent), ChainTo(c.known, c.top.header.hash);
      ChainToFrame(c.known, c1.known, header.parent);
      ListedOne(list, QueuedFor(out, c1.top.number)[0], c1.known);
      if header.parent == c.top.header.hash {
        AgreesSnoc(list, chain, since, header.hash);
      } else {
        AgreesLast(list, chain, since);
        AgreesInOne(list, below, header.hash);
      }
    } else {
      BranchIsListed(list, QueuedFor(out, c1.top.number), c1.known);
    }
  }

  // ---------------------------------------------------------------- the witness check

  /** Whether a block without its witness commitment is refused: the queued number decides, not the height. */
  lemma {:induction false} CheckFollowsHeightIff(c: Chain, header: Header, rule: Rule, c1: Chain, out: Outcome, i: nat)
    requires TakesOver(c, header, rule, c1, out) && c1.top.number < 0x1_0000_0000_0000_0000
    requires i < |QueuedFor(out, c1.top.number)|
    ensures Inv(c1) && QueuedFor(out, c1.top.number)[i].hash in c1.known
    ensures Passes(QueuedFor(out, c1.top.number)[i], true)
    ensures var e := QueuedFor(out, c1.top.number)[i];
      var height := Number(c1.known, e.hash);
      (!Passes(e, false) <==> height >= 481_824)
      <==> (header.parent in c.mostWork || (height != 481_824 && height != 481_825 && height != 1))
  {
    var height, less := QueuedHeight(c, header, rule, c1, out, i);
    GateIff(height, less);
  }

  lemma {:induction false} QueuedHeight(c: Chain, header: Header, rule: Rule, c1: Chain, out: Outcome, i: nat)
      returns (height: nat, less: nat)
    requires TakesOver(c, header, rule, c1, out) && i < |QueuedFor(out, c1.top.number)|
    ensures Inv(c1) && QueuedFor(out, c1.top.number)[i].hash in c1.known
    ensures height == Number(c1.known, QueuedFor(out, c1.top.number)[i].hash) && 0 < height <= c1.top.number
    ensures less == (if header.parent in c.mostWork then 0 else 2)
    ensures QueuedFor(out, c1.top.number)[i].number == WrapU64(height - less)
  {
    QueuedNumbers(c, header, rule, c1, out);
    var m, path := ResultBranch(c, header, rule, c1, out);
    BranchNumber(c1.known, header.hash, m, path, out.result.value.added, c1.top.number, i);
    height := Number(c1.known, QueuedFor(out, c1.top.number)[i].hash);
    less := if header.parent in c.mostWork then 0 else 2;
  }

  lemma {:induction false} GateIff(height: nat, less: nat)
    requires 0 < height < 0x1_0000_0000_0000_0000 && (less == 0 || less == 2)
    ensures (WrapU64(height - less) >= SEGWIT_HEIGHT <==> height >= 481_824)
            <==> (less == 0 || (height != 481_824 && height != 481_825 && height != 1))
  {
  }
}
