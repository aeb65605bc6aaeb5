/** Why blocks are applied parents first and none is forgotten, whatever the interleaving. */
module ApplyQueueProof {
  import opened Wrappers
  import opened Bytes
  import opened Seqs
  import opened HeaderTree
  import opened ChainSpec
  import opened FetchSpec
  import opened ApplyQueueSpec
  import opened ChainWork

  // ---------------------------------------------------------------- applying the front of the work list

  /** Fetching the front of the work list leaves a work list, and the fetched blocks closed below. */
  lemma {:induction false} FetchFront(known: Headers, work: seq<Hash>, n: nat)
    requires Tree(known) && FetchedClosed(known) && Ready(known, work) && n <= |work|
    ensures forall i :: 0 <= i < n ==> work[..n][i] in known
    ensures FetchedClosed(Fetch(known, work[..n]))
    ensures Ready(Fetch(known, work[..n]), work[n..])
  {
    forall i | 0 <= i < n ensures work[..n][i] in known {
      assert ParentDone(known, work[i], work[..i]);
    }
    var known' := Fetch(known, work[..n]);
    FetchKeeps(known, work[..n]);
    forall h | h in known' && known'[h].fetchedFull && known'[h].number > 0
      ensures Parent(known', h) in known' && known'[Parent(known', h)].fetchedFull
    {
      FetchFrontParent(known, work, n, h);
    }
    forall i | 0 <= i < |work[n..]| ensures ParentDone(known', work[n..][i], work[n..][..i]) {
      FetchFrontReady(known, known', work, n, i);
    }
  }

  lemma {:induction false} FetchFrontReady(known: Headers, known': Headers, work: seq<Hash>, n: nat, i: nat)
    requires n + i < |work| && SameLinks(known, known') && ParentDone(known, work[n + i], work[..n + i])
    requires forall h :: h in known ==> known'[h].fetchedFull == (known[h].fetchedFull || h in work[..n])
    ensures ParentDone(known', work[n..][i], work[n..][..i])
  {
    var h := work[n + i];
    if Number(known, h) > 0 && Parent(known, h) in work[..n + i] {
      InPrefixOrAfter(work, Parent(known, h), n, i);
    }
  }

  /** A block fetched from the front has a parent fetched before, or with it. */
  lemma {:induction false} FetchFrontParent(known: Headers, work: seq<Hash>, n: nat, h: Hash)
    requires FetchedClosed(known) && Ready(known, work) && n <= |work|
    requires h in known && known[h].number > 0 && (known[h].fetchedFull || h in work[..n])
    ensures Parent(known, h) in known && (known[Parent(known, h)].fetchedFull || Parent(known, h) in work[..n])
  {
    if !known[h].fetchedFull {
      var i :| 0 <= i < n && work[..n][i] == h;
      assert ParentDone(known, work[i], work[..i]);
      if Parent(known, h) in work[..i] {
        InLongerPrefix(work, Parent(known, h), i, n);
      }
    }
  }

  lemma {:induction false} FetchFrontCovers(known: Headers, top: Hash, work: seq<Hash>, n: nat)
    requires Tree(known) && top in known && Covered(known, top, work) && n <= |work|
    requires forall i :: 0 <= i < n ==> work[..n][i] in known
    ensures Tree(Fetch(known, work[..n])) && Covered(Fetch(known, work[..n]), top, work[n..])
  {
    FetchKeeps(known, work[..n]);
    FetchedCovers(known, Fetch(known, work[..n]), top, work, n);
  }

  lemma {:induction false} FetchedCovers(known: Headers, known': Headers, top: Hash, work: seq<Hash>, n: nat)
    requires Tree(known) && Tree(known') && SameLinks(known, known') && top in known && Covered(known, top, work) && n <= |work|
    requires forall h :: h in known ==> h in known' && known'[h].fetchedFull == (known[h].fetchedFull || h in work[..n])
    ensures Covered(known', top, work[n..])
  {
    AncestorsFrame(known, known', top);
    StillCovered(known, known', Ancestors(known, top), work[..n], work[n..], work);
  }

  lemma {:induction false} StillCovered(known: Headers, known': Headers, hashes: set<Hash>, done: seq<Hash>, more: seq<Hash>, work: seq<Hash>)
    requires work == done + more
    requires forall h :: h in hashes ==> h in known && (known[h].fetchedFull || h in work)
    requires forall h :: h in known ==> h in known' && known'[h].fetchedFull == (known[h].fetchedFull || h in done)
    ensures forall h :: h in hashes ==> h in known' && (known'[h].fetchedFull || h in more)
  {
  }

  // ---------------------------------------------------------------- a new top

  lemma {:induction false} DownloadedFrame(known: Headers, known': Headers, h: Hash)
    requires Tree(known) && Tree(known') && Grows(known, known') && h in known
    ensures Downloaded(known', h) == Downloaded(known, h)
    decreases known[h].number
  {
    if !known[h].fetchedFull && Number(known, h) > 0 {
      DownloadedFrame(known, known', Parent(known, h));
    }
  }

  /** Work stays ready when the blocks of a new branch are put behind it, on top of a covered block. */
  lemma {:induction false} AppendReady(known: Headers, top: Hash, m: Hash, path: seq<Hash>, work: seq<Hash>, more: seq<Hash>)
    requires Tree(known) && top in known && m in Ancestors(known, top) && path == Path(known, top, m)
    requires Ready(known, work) && m in known && (known[m].fetchedFull || m in work)
    requires |more| == |path| && forall i :: 0 <= i < |more| ==> more[i] == path[|path| - 1 - i]
    ensures Ready(known, work + more)
  {
    var all := work + more;
    forall i | 0 <= i < |all| ensures ParentDone(known, all[i], all[..i]) {
      if i < |work| {
        assert all[..i] == work[..i];
        assert ParentDone(known, work[i], work[..i]);
      } else {
        var k := |path| - 1 - (i - |work|);
        PathShape(known, top, m, k);
        if k + 1 < |path| {
          assert all[..i][i - 1] == path[k + 1];
        } else {
          assert all[..i] == work;
        }
      }
    }
  }

  lemma {:induction false} AppendCovers(known: Headers, top: Hash, m: Hash, path: seq<Hash>, work: seq<Hash>, more: seq<Hash>)
    requires Tree(known) && top in known && m in Ancestors(known, top) && path == Path(known, top, m)
    requires m in known && Covered(known, m, work)
    requires |more| == |path| && forall i :: 0 <= i < |more| ==> more[i] == path[|path| - 1 - i]
    ensures Covered(known, top, work + more)
  {
    PathSplits(known, top, m);
    forall h | h in Elements(path) ensures h in more {
      var k :| 0 <= k < |path| && path[k] == h;
      assert more[|path| - 1 - k] == h;
    }
    AncestorsBelow(known, top);
  }

  lemma {:induction false} ReadyFrame(known: Headers, known': Headers, work: seq<Hash>)
    requires Grows(known, known') && Ready(known, work)
    ensures Ready(known', work)
  {
    forall i | 0 <= i < |work| ensures ParentDone(known', work[i], work[..i]) {
      assert ParentDone(known, work[i], work[..i]);
    }
  }

  lemma {:induction false} CoveredFrame(known: Headers, known': Headers, h: Hash, work: seq<Hash>)
    requires Tree(known) && Tree(known') && Grows(known, known') && h in known && Covered(known, h, work)
    ensures Covered(known', h, work)
  {
    AncestorsFrame(known, known', h);
  }

  lemma {:induction false} ClosedFrame(known: Headers, known': Headers, top: Hash)
    requires Tree(known) && Grows(known, known') && FetchedClosed(known)
    requires forall h :: h in known' && h !in known ==> !known'[h].fetchedFull
    ensures FetchedClosed(known')
  {
    forall h | h in known' && known'[h].fetchedFull && known'[h].number > 0
      ensures Parent(known', h) in known' && known'[Parent(known', h)].fetchedFull
    {
      assert Parent(known', h) == Parent(known, h);
    }
  }

  // ---------------------------------------------------------------- each step keeps the invariant

  lemma {:induction false} WorkIsFetched(s: Node, n: nat, s': Node)
    requires NodeInv(s) && !s.syncing && !s'.syncing && n <= |s.pending + s.queue|
    requires MarksDownloaded(s.chain, (s.pending + s.queue)[..n], s'.chain, s'.downloaded)
    requires s'.pending + s'.queue == (s.pending + s.queue)[n..]
    ensures NodeInv(s')
  {
    var known, top, work := s.chain.known, s.chain.top.header.hash, s.pending + s.queue;
    FetchFront(known, work, n);
    FetchFrontCovers(known, top, work, n);
    FetchKeeps(known, work[..n]);
    AncestorsFrame(known, s'.chain.known, top);
  }

  lemma {:induction false} NewBlockKeeps(s: Node, hash: Hash, valid: bool, s': Node)
    requires NodeInv(s) && Step(s, NewBlock(hash, valid), s')
    ensures NodeInv(s')
  {
    if s' != s {
      FrontOfWork(s.pending, s.queue);
      WorkIsFetched(s, 1, s');
    }
  }

  lemma {:induction false} FrontOfWork(pending: seq<Hash>, queue: seq<Hash>)
    requires pending == [] && queue != []
    ensures (pending + queue)[..1] == [queue[0]] && (pending + queue)[1..] == pending + queue[1..]
  {
  }

  lemma {:induction false} BlocksWrittenKeeps(s: Node, count: nat, s': Node)
    requires NodeInv(s) && Step(s, BlocksWritten(count), s')
    ensures NodeInv(s')
  {
    DropConcat(s.pending, s.queue, count);
    WorkIsFetched(s, count, s');
  }

  lemma {:induction false} StartBlocksKeeps(s: Node, s': Node)
    requires NodeInv(s) && Step(s, StartBlocks, s')
    ensures NodeInv(s')
  {
    var known, top := s.chain.known, s.chain.top.header.hash;
    assert s'.pending + s'.queue == s'.pending;
    NumberMapIs(known, top);
    if known[top].fetchedFull {
      FetchedBelow(known, top);
    } else {
      MissingAreUnfetched(known, top);
      MissingReady(known, top);
      MissingCovers(known, top);
    }
  }

  lemma {:induction false} MissingReady(known: Headers, top: Hash)
    requires Tree(known) && top in known
    ensures Ready(known, Missing(known, top))
  {
    var missing := Missing(known, top);
    forall i | 0 <= i < |missing| ensures ParentDone(known, missing[i], missing[..i]) {
      MissingShape(known, top, i);
      if i > 0 {
        assert missing[..i][i - 1] == missing[i - 1];
      }
    }
  }

  lemma {:induction false} MissingCovers(known: Headers, top: Hash)
    requires Tree(known) && FetchedClosed(known) && top in known && !known[top].fetchedFull
    ensures Covered(known, top, Missing(known, top))
  {
    MissingAreUnfetched(known, top);
    AncestorsBelow(known, top);
    forall h | h in Ancestors(known, top) ensures h in known && (known[h].fetchedFull || h in Missing(known, top)) {
      assert h in FetchedAncestors(known, top) || h in Elements(Missing(known, top));
    }
  }

  /** A new top goes behind the work list; the block it forks off from is fetched or already there. */
  lemma {:induction false} NewTopKeeps(s: Node, header: Header, rule: Rule, a: Applied, c1: Chain, s': Node)
    requires NodeInv(s) && !s.syncing && !s'.syncing && header.hash != EMPTY_HASH && s'.pending == s.pending
    requires Applies(s.chain, header, rule, false, c1, Accepted(Some(a)))
    requires HandlesOutcome(s.chain, s.downloaded, s.queue, header, Accepted(Some(a)), c1, s'.chain, s'.downloaded, s'.queue)
    ensures NodeInv(s')
  {
    var c := s.chain;
    var m, removed, path := ResultIsSwitch(c, header, rule, c1, Accepted(Some(a)));
    AppliesKeeps(c, header, rule, false, c1, Accepted(Some(a)));
    UpdateFollowsTop(c, header, rule, c1, Accepted(Some(a)));
    UpdateCovers(c, header, rule, c1, Accepted(Some(a)));
    ResultIffNewTop(c, header, rule, c1, Accepted(Some(a)));
    NewTopWork(c.known, c.top.header.hash, c1.known, header.hash, m, path, s.pending + s.queue, a.added, c1.top.number);
    ConcatAssociative(s.pending, s.queue, AddedInOrder(a.added));
    ClosedFrame(c.known, c1.known, header.hash);
    NewTopDownloaded(c.known, c1.known, header.hash);
  }

  lemma {:induction false} NewTopDownloaded(known: Headers, known': Headers, h: Hash)
    requires Tree(known) && Tree(known') && Grows(known, known') && h in known' && !known'[h].fetchedFull
    requires Number(known', h) > 0 && Parent(known', h) in known
    ensures Downloaded(known', h) == Downloaded(known, Parent(known', h))
  {
    DownloadedFrame(known, known', Parent(known', h));
  }

  lemma {:induction false} NewTopWork(known: Headers, oldTop: Hash, known': Headers, newTop: Hash, m: Hash, path: seq<Hash>,
                                      work: seq<Hash>, added: seq<(Hash, nat)>, number: nat)
    requires Tree(known) && Tree(known') && Grows(known, known') && oldTop in known && newTop in known'
    requires m in Ancestors(known, oldTop) && m in Ancestors(known', newTop) && path == Path(known', newTop, m)
    requires Ready(known, work) && Covered(known, oldTop, work) && IsAdded(added, path, number)
    ensures Ready(known', work + AddedInOrder(added)) && Covered(known', newTop, work + AddedInOrder(added))
  {
    var more := AddedInOrder(added);
    forall i | 0 <= i < |more| ensures more[i] == path[|path| - 1 - i] {
      assert added[|path| - 1 - (|path| - 1 - i)].0 == path[|path| - 1 - i];
    }
    ReadyFrame(known, known', work);
    AncestorsTransitive(known, oldTop, m);
    CoveredFrame(known, known', m, work);
    AppendReady(known', newTop, m, path, work, more);
    AppendCovers(known', newTop, m, path, work, more);
  }

  lemma {:induction false} NewHeaderKeeps(s: Node, header: Header, rule: Rule, out: Outcome, s': Node)
    requires NodeInv(s) && Step(s, NewHeader(header, rule, out), s')
    ensures NodeInv(s')
  {
    var c1: Chain :|
      && Applies(s.chain, header, rule, false, c1, out)
      && HandlesOutcome(s.chain, s.downloaded, s.queue, header, out, c1, s'.chain, s'.downloaded, s'.queue);
    if out.Accepted? && out.result.Some? {
      NewTopKeeps(s, header, rule, out.result.value, c1, s');
    } else {
      SameTopKeeps(s, header, rule, out, s');
    }
  }

  lemma {:induction false} SameTopKeeps(s: Node, header: Header, rule: Rule, out: Outcome, s': Node)
    requires NodeInv(s) && !s.syncing && header.hash != EMPTY_HASH && s' == s.(chain := s'.chain)
    requires Applies(s.chain, header, rule, false, s'.chain, out) && !out.Panics? && !(out.Accepted? && out.result.Some?)
    ensures NodeInv(s')
  {
    var c, c' := s.chain, s'.chain;
    AppliesKeeps(c, header, rule, false, c', out);
    ResultIffNewTop(c, header, rule, c', out);
    ReadyFrame(c.known, c'.known, s.pending + s.queue);
    CoveredFrame(c.known, c'.known, c.top.header.hash, s.pending + s.queue);
    ClosedFrame(c.known, c'.known, header.hash);
    DownloadedFrame(c.known, c'.known, c.top.header.hash);
    AncestorsFrame(c.known, c'.known, c.top.header.hash);
  }

  lemma {:induction false} SyncHeaderKeeps(s: Node, header: Header, rule: Rule, out: Outcome, s': Node)
    requires NodeInv(s) && Step(s, SyncHeader(header, rule, out), s')
    ensures NodeInv(s')
  {
    AppliesKeeps(s.chain, header, rule, true, s'.chain, out);
    ClosedFrame(s.chain.known, s'.chain.known, header.hash);
  }

  lemma {:induction false} StepKeeps(s: Node, e: Event, s': Node)
    requires NodeInv(s) && Step(s, e, s')
    ensures NodeInv(s')
  {
    match e
    case SyncHeader(header, rule, out) => SyncHeaderKeeps(s, header, rule, out, s');
    case StartBlocks => StartBlocksKeeps(s, s');
    case BlocksWritten(count) => BlocksWrittenKeeps(s, count, s');
    case NewHeader(header, rule, out) => NewHeaderKeeps(s, header, rule, out, s');
    case NewBlock(hash, valid) => NewBlockKeeps(s, hash, valid, s');
  }

  // ---------------------------------------------------------------- whole runs

  ghost predicate Follows(s: Node, e: Event, s': Node) {
    Inv(s.chain) && Step(s, e, s')
  }

  /** Some run of these events leads from one state to the other. */
  ghost predicate Reaches(s: Node, events: seq<Event>, s': Node) {
    if events == [] then s' == s
    else exists mid :: Reaches(s, Front(events), mid) && Follows(mid, Last(events), s')
  }

  lemma {:induction false} RunKeeps(s: Node, events: seq<Event>, s': Node)
    requires NodeInv(s) && Reaches(s, events, s')
    ensures NodeInv(s')
  {
    if events != [] {
      var mid :| Reaches(s, Front(events), mid) && Follows(mid, Last(events), s');
      RunKeeps(s, Front(events), mid);
      StepKeeps(mid, Last(events), s');
    }
  }

  /** What the rest of the program relies on once the headers are synced. */
  ghost predicate Sound(s: Node)
    requires Inv(s.chain)
  {
    var known, top := s.chain.known, s.chain.top.header.hash;
    && s.chain.mostWork == Ancestors(known, top) && NumbersCover(s.chain)
    && (forall h :: h in known ==> known[h].totalWork <= s.chain.top.totalWork)
    && (forall h, x :: h in known && known[h].fetchedFull && x in Ancestors(known, h) ==> x in known && known[x].fetchedFull)
    && (forall x :: x in Ancestors(known, top) ==>
          x in known && (known[x].fetchedFull || x in s.pending || x in s.queue))
    && s.downloaded == |FetchedAncestors(known, top)|
  }

  /** However header sync, block download, new headers, forks and new blocks interleave, every state is sound. */
  lemma {:induction false} RunIsSound(s: Node, events: seq<Event>, s': Node)
    requires NodeInv(s) && Reaches(s, events, s') && !s'.syncing
    ensures Inv(s'.chain) && Sound(s')
  {
    RunKeeps(s, events, s');
    InvIsSound(s');
  }

  lemma {:induction false} InvIsSound(s: Node)
    requires NodeInv(s) && !s.syncing
    ensures Sound(s)
  {
    DownloadedCounts(s.chain.known, s.chain.top.header.hash);
    ClosedAll(s.chain.known);
    CoveredAll(s.chain.known, s.chain.top.header.hash, s.pending, s.queue);
  }

  lemma {:induction false} ClosedAll(known: Headers)
    requires Tree(known) && FetchedClosed(known)
    ensures forall h, x :: h in known && known[h].fetchedFull && x in Ancestors(known, h) ==> x in known && known[x].fetchedFull
  {
    forall h, x | h in known && known[h].fetchedFull && x in Ancestors(known, h) ensures x in known && known[x].fetchedFull {
      FetchedBelow(known, h);
    }
  }

  lemma {:induction false} CoveredAll(known: Headers, top: Hash, pending: seq<Hash>, queue: seq<Hash>)
    requires Tree(known) && top in known && Covered(known, top, pending + queue)
    ensures forall x :: x in Ancestors(known, top) ==> x in known && (known[x].fetchedFull || x in pending || x in queue)
  {
  }

  /** With nothing left to do, the whole top chain is fetched. */
  lemma {:induction false} NothingIsForgotten(s: Node)
    requires NodeInv(s) && !s.syncing && s.pending == s.queue == []
    ensures forall h :: h in Ancestors(s.chain.known, s.chain.top.header.hash) ==>
              h in s.chain.known && s.chain.known[h].fetchedFull
    ensures s.downloaded == s.chain.top.number + 1
  {
    AncestorsBelow(s.chain.known, s.chain.top.header.hash);
    assert s.pending + s.queue == [];
  }

  /** The block the chain watcher asks for can always be applied when it comes. */
  lemma {:induction false} FrontCanBeApplied(s: Node)
    requires NodeInv(s) && !s.syncing && s.pending == [] && s.queue != []
    ensures exists s' :: Step(s, NewBlock(s.queue[0], true), s') && s'.queue == s.queue[1..]
  {
    var known, top, h := s.chain.known, s.chain.top.header.hash, s.queue[0];
    assert (s.pending + s.queue)[0] == h;
    assert ParentDone(known, (s.pending + s.queue)[0], (s.pending + s.queue)[..0]);
    FetchKeeps(known, [h]);
    var known' := Fetch(known, [h]);
    var c' := s.chain.(known := known', top := known'[top]);
    var s' := s.(chain := c', downloaded := Downloaded(known', top), queue := s.queue[1..]);
    assert Step(s, NewBlock(h, true), s');
  }

  /** A header can always come, however much is left to write or to apply, and is answered unless its fork falls off genesis. */
  lemma {:induction false} HeaderIsAnswered(s: Node, header: Header, rule: Rule) returns (out: Outcome, s': Node)
    requires NodeInv(s) && !s.syncing && header.hash != EMPTY_HASH && rule.expectedBits.Some?
    requires header.parent in s.chain.known && Number(s.chain.known, header.parent) > s.chain.top.number ==>
               s.chain.known[header.parent].totalWork + rule.work < s.chain.top.totalWork
    ensures Step(s, NewHeader(header, rule, out), s')
  {
    var c := s.chain;
    var c1;
    c1, out := AppliesIsTotal(c, header, rule, false);
    PanicsIffParentAboveTop(c, header, rule, c1, out);
    AppliesKeeps(c, header, rule, false, c1, out);
    var c', downloaded, queue := c1, s.downloaded, s.queue;
    if out.Accepted? && out.result.Some? {
      c' := UpdateMostWork(c1, out.result.value);
      queue := s.queue + AddedInOrder(out.result.value.added);
      if header.parent != c.top.header.hash {
        downloaded := Downloaded(c1.known, c1.top.header.hash);
      }
    }
    s' := s.(chain := c', downloaded := downloaded, queue := queue);
    assert HandlesOutcome(c, s.downloaded, s.queue, header, out, c1, c', downloaded, queue);
  }

  /** Any number of the pending blocks can be written next, and a node that is done with headers can start on the blocks. */
  lemma {:induction false} BlocksCanBeWritten(s: Node, count: nat) returns (s': Node)
    requires NodeInv(s) && count <= |s.pending|
    ensures if s.syncing then Step(s, StartBlocks, s') else Step(s, BlocksWritten(count), s')
  {
    var known, top := s.chain.known, s.chain.top.header.hash;
    if s.syncing {
      var downloaded := Downloaded(known, top);
      s' := s.(chain := s.chain.(mostWork := Ancestors(known, top), numberToHash := NumberMap(known, top)),
               downloaded := downloaded, syncing := false,
               pending := if downloaded > s.chain.top.number then [] else Missing(known, top));
    } else {
      PendingAreKnown(s, count);
      FetchKeeps(known, s.pending[..count]);
      var known' := Fetch(known, s.pending[..count]);
      s' := s.(chain := s.chain.(known := known', top := known'[top]), downloaded := Downloaded(known', top),
               pending := s.pending[count..]);
    }
  }

  lemma {:induction false} PendingAreKnown(s: Node, count: nat)
    requires NodeInv(s) && !s.syncing && count <= |s.pending|
    ensures forall i :: 0 <= i < count ==> s.pending[..count][i] in s.chain.known
  {
    var work := s.pending + s.queue;
    forall i | 0 <= i < count ensures s.pending[..count][i] in s.chain.known {
      assert ParentDone(s.chain.known, work[i], work[..i]);
    }
  }

  /** A node that starts with the genesis header alone. */
  lemma {:induction false} GenesisIsSound(genesis: Header, work: nat)
    requires genesis.parent == EMPTY_HASH && genesis.hash != EMPTY_HASH
    ensures var first := Known(genesis, 0, false, work);
      NodeInv(Node(Chain(first, map[genesis.hash := first], map[0 := genesis.hash], {genesis.hash}), 0, true, [], []))
  {
  }
}
