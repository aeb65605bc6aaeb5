/**
 * The front page beside the chain watcher: whatever the interleaving of downloads, headers, forks and blocks, when it
 * shows the top chain. Pages are compared without the miners and shares on them, which have a law of their own.
 */
module PageRuns {
  import opened Wrappers
  import opened Bytes
  import opened Seqs
  import opened HeaderTree
  import opened ChainSpec
  import opened FetchSpec
  import opened ApplyQueueSpec
  import opened ApplyQueueProof
  import opened Reorganisation
  import opened FrontPage

  /** The stored block of every hash. */
  type Store = Hash -> FrontPage.Block

  ghost predicate IsStore(store: Store) {
    forall h :: store(h).hash == h && store(h).txs != []
  }

  function Blocks(hashes: seq<Hash>, store: Store): (s: seq<FrontPage.Block>)
    ensures |s| == |hashes| && forall i :: 0 <= i < |s| ==> s[i] == store(hashes[i])
  {
    seq(|hashes|, i requires 0 <= i < |hashes| => store(hashes[i]))
  }

  lemma {:induction false} BlocksConcat(a: seq<Hash>, b: seq<Hash>, store: Store)
    ensures Blocks(a + b, store) == Blocks(a, store) + Blocks(b, store)
  {
  }

  // ---------------------------------------------------------------- pages without credits

  const NO_CREDIT := MinerSpec.Credit(MinerSpec.UNKNOWN_ID, 0.0)

  function Uncredited(blocks: seq<ShortBlock>): (s: seq<ShortBlock>)
    ensures |s| == |blocks| && forall i :: 0 <= i < |s| ==> s[i] == blocks[i].(credit := NO_CREDIT)
  {
    seq(|blocks|, i requires 0 <= i < |blocks| => blocks[i].(credit := NO_CREDIT))
  }

  function Listing(page: Page): Page {
    Page(Uncredited(page.blocks), page.txs)
  }

  /** The page shows the latest of these blocks, whoever they are credited to. */
  ghost predicate Shows(page: Page, hashes: seq<Hash>, store: Store)
    requires IsStore(store)
  {
    Listing(page) == Listing(PageOf(Blocks(hashes, store)))
  }

  lemma {:induction false} ListingOfCredited(chain: seq<FrontPage.Block>, credits: Credits)
    requires HaveTxs(chain)
    ensures HaveTxs(Credited(chain, credits)) && Listing(PageOf(Credited(chain, credits))) == Listing(PageOf(chain))
  {
    CreditedTxs(chain, credits);
    var a, b := PageOf(Credited(chain, credits)).blocks, PageOf(chain).blocks;
    forall k | 0 <= k < |a| ensures Uncredited(a)[k] == Uncredited(b)[k] {
      AllBlocksAt(chain, k);
      AllBlocksAt(Credited(chain, credits), k);
    }
  }

  lemma {:induction false} UncreditedConcat(a: seq<ShortBlock>, b: seq<ShortBlock>, n: nat)
    ensures Uncredited(a + Take(b, n)) == Uncredited(a) + Take(Uncredited(b), n)
  {
  }

  /** Updating sees no credits but the new blocks' own. */
  lemma {:induction false} ListingOfUpdated(p: Page, q: Page, batch: seq<FrontPage.Block>, credits: Credits)
    requires HaveTxs(batch) && Listing(p) == Listing(q)
    ensures HaveTxs(Credited(batch, credits))
    ensures Listing(Updated(p, Credited(batch, credits))) == Listing(Updated(q, batch))
  {
    ListingOfCredited(batch, credits);
    var a, b := PageOf(Credited(batch, credits)), PageOf(batch);
    assert |a.blocks| == |b.blocks| && Uncredited(a.blocks) == Uncredited(b.blocks) && a.txs == b.txs;
    assert Uncredited(p.blocks) == Uncredited(q.blocks) && p.txs == q.txs;
    UncreditedConcat(a.blocks, p.blocks, BLOCKS_COUNT - |a.blocks|);
    UncreditedConcat(b.blocks, q.blocks, BLOCKS_COUNT - |b.blocks|);
  }

  /** A page that shows some blocks shows them and a batch after an update. */
  lemma {:induction false} UpdateShows(page: Page, hashes: seq<Hash>, more: seq<Hash>, store: Store, credits: Credits)
    requires IsStore(store) && Shows(page, hashes, store)
    ensures HaveTxs(Credited(Blocks(more, store), credits))
    ensures Shows(Updated(page, Credited(Blocks(more, store), credits)), hashes + more, store)
  {
    ListingOfUpdated(page, PageOf(Blocks(hashes, store)), Blocks(more, store), credits);
    UpdateIsRegenerate(Blocks(hashes, store), Blocks(more, store));
    BlocksConcat(hashes, more, store);
  }

  /** Two lists that agree in just their last blocks look the same once there are fifty of those. */
  lemma {:induction false} SamePageIff(list: seq<Hash>, chain: seq<Hash>, since: Option<nat>, store: Store)
    requires IsStore(store) && Agrees(list, chain, since)
    ensures Listing(PageOf(Blocks(list, store))) == Listing(PageOf(Blocks(chain, store)))
            <==> since.None? || since.value >= BLOCKS_COUNT
  {
    if since.Some? && since.value >= BLOCKS_COUNT {
      SharedLast(list, chain, since.value, store);
    } else if since.Some? {
      ShownAt(list, since.value, store);
      ShownAt(chain, since.value, store);
    }
  }

  lemma {:induction false} SharedLast(list: seq<Hash>, chain: seq<Hash>, n: nat, store: Store)
    requires IsStore(store) && BLOCKS_COUNT <= n <= |list| && n <= |chain| && list[|list| - n..] == chain[|chain| - n..]
    ensures PageOf(Blocks(list, store)) == PageOf(Blocks(chain, store))
  {
    EnoughShared(list[..|list| - n], list[|list| - n..], store);
    EnoughShared(chain[..|chain| - n], chain[|chain| - n..], store);
    assert list == list[..|list| - n] + list[|list| - n..] && chain == chain[..|chain| - n] + chain[|chain| - n..];
  }

  lemma {:induction false} ShownAt(list: seq<Hash>, n: nat, store: Store)
    requires IsStore(store) && n < |list| && n < BLOCKS_COUNT
    ensures var blocks := Listing(PageOf(Blocks(list, store))).blocks;
      n < |blocks| && blocks[n].hash == list[|list| - 1 - n]
  {
    AllBlocksAt(Blocks(list, store), n);
  }

  lemma {:induction false} EnoughShared(before: seq<Hash>, last: seq<Hash>, store: Store)
    requires IsStore(store) && |last| >= BLOCKS_COUNT
    ensures PageOf(Blocks(before + last, store)) == PageOf(Blocks(last, store))
  {
    BlocksConcat(before, last, store);
    AllConcat(Blocks(before, store), Blocks(last, store));
    MoreTxsThanBlocks(Blocks(last, store));
    TakeEnough(AllBlocks(Blocks(last, store)), AllBlocks(Blocks(before, store)), BLOCKS_COUNT);
    TakeEnough(AllTxs(Blocks(last, store)), AllTxs(Blocks(before, store)), TXS_COUNT);
  }

  lemma {:induction false} TakeEnough<T>(a: seq<T>, b: seq<T>, n: nat)
    requires |a| >= n
    ensures Take(a + b, n) == Take(a, n)
  {
  }

  // ---------------------------------------------------------------- working off the queue

  /** The end of apply_block, with the credits of that moment: the page is built anew, or the block is put on top of it. */
  ghost function PageAfterEntry(page: Page, e: Entry, known: Headers, store: Store, credits: Credits): Page
    requires Tree(known) && e.hash in known && IsStore(store)
  {
    match e.strategy
    case RegenerateFromScratch => PageOf(Credited(Blocks(ChainTo(known, e.hash), store), credits))
    case Append => Updated(page, Credited(Blocks([e.hash], store), credits))
  }

  ghost function PageAfter(page: Page, queue: seq<Entry>, known: Headers, store: Store, credits: seq<Credits>): Page
    requires Tree(known) && AreKnown(queue, known) && IsStore(store) && |credits| == |queue|
  {
    if queue == [] then page
    else PageAfterEntry(PageAfter(page, Front(queue), known, store, Front(credits)), Last(queue), known, store, Last(credits))
  }

  lemma {:induction false} EntryShows(page: Page, list: seq<Hash>, e: Entry, known: Headers, store: Store, credits: Credits)
    requires Tree(known) && e.hash in known && IsStore(store) && Shows(page, list, store)
    ensures Shows(PageAfterEntry(page, e, known, store, credits), ListedAfterEntry(list, e, known), store)
  {
    match e.strategy
    case RegenerateFromScratch => ListingOfCredited(Blocks(ChainTo(known, e.hash), store), credits);
    case Append => UpdateShows(page, list, [e.hash], store, credits);
  }

  lemma {:induction false} QueueShows(page: Page, list: seq<Hash>, queue: seq<Entry>, known: Headers, store: Store, credits: seq<Credits>)
    requires Tree(known) && AreKnown(queue, known) && IsStore(store) && |credits| == |queue| && Shows(page, list, store)
    ensures Shows(PageAfter(page, queue, known, store, credits), ListedAfter(list, queue, known), store)
  {
    if queue != [] {
      QueueShows(page, list, Front(queue), known, store, Front(credits));
      EntryShows(PageAfter(page, Front(queue), known, store, Front(credits)), ListedAfter(list, Front(queue), known), Last(queue),
                 known, store, Last(credits));
    }
  }

  /**
   * Once the blocks of a new top are applied, a page that showed the old top chain shows the new one exactly when the
   * new block extends the old top, or leaves the top chain below its own parent. A sibling that takes over leaves the
   * replaced block on the page.
   */
  lemma {:induction false} PageFollowsIff(c: Chain, header: Header, rule: Rule, c1: Chain, out: Outcome,
                                          page: Page, store: Store, credits: seq<Credits>)
    requires TakesOver(c, header, rule, c1, out) && IsStore(store) && Shows(page, ChainTo(c.known, c.top.header.hash), store)
    requires |credits| == |QueuedFor(out, c1.top.number)|
    ensures Inv(c1) && header.hash in c1.known && AreKnown(QueuedFor(out, c1.top.number), c1.known)
    ensures Shows(PageAfter(page, QueuedFor(out, c1.top.number), c1.known, store, credits), ChainTo(c1.known, header.hash), store)
            <==> header.parent == c.top.header.hash || header.parent !in c.mostWork
  {
    var chain := ChainTo(c.known, c.top.header.hash);
    var queue := QueuedFor(out, c1.top.number);
    NewTopAgrees(c, header, rule, c1, out, chain, None);
    ListShowsIff(page, chain, queue, c1.known, header.hash, SinceAfter(c, header, None), store, credits);
  }

  // ---------------------------------------------------------------- whole runs

  /**
   * The node with whole queue entries and the page, and how many blocks have come on top since a block replaced its
   * sibling, if none has regenerated the page since.
   */
  datatype Display = Display(node: Node, queue: seq<Entry>, page: Page, since: Option<nat>)

  /** The page after a batch, with the credits of that moment. */
  ghost predicate IsUpdated(page: Page, batch: seq<Hash>, store: Store, page': Page)
    requires IsStore(store)
  {
    exists credits: Credits :: page' == Updated(page, Credited(Blocks(batch, store), credits))
  }

  ghost predicate IsAfterEntry(page: Page, e: Entry, known: Headers, store: Store, page': Page)
    requires Tree(known) && e.hash in known && IsStore(store)
  {
    exists credits: Credits :: page' == PageAfterEntry(page, e, known, store, credits)
  }

  ghost predicate PageStep(d: Display, e: Event, d': Display, store: Store)
    requires Inv(d.node.chain) && Inv(d'.node.chain) && IsStore(store)
  {
    match e
    case BlocksWritten(count) =>
      && d'.queue == d.queue && d'.since == d.since && count <= |d.node.pending|
      && IsUpdated(d.page, d.node.pending[..count], store, d'.page)
    case NewHeader(header, rule, out) =>
      && d'.queue == d.queue + QueuedFor(out, d'.node.chain.top.number) && d'.page == d.page
      && d'.since == if out.Accepted? && out.result.Some? then SinceAfter(d.node.chain, header, d.since) else d.since
    case NewBlock(hash, valid) =>
      && d'.since == d.since
      && if d.queue == [] || d.queue[0].hash != hash || !valid then d'.queue == d.queue && d'.page == d.page
         else
           && d'.queue == d.queue[1..] && hash in d'.node.chain.known
           && IsAfterEntry(d.page, d.queue[0], d'.node.chain.known, store, d'.page)
    case _ => false
  }

  /** A step of the node and of the page beside it, once the headers are synced. */
  ghost predicate DisplayFollows(d: Display, e: Event, d': Display, store: Store)
    requires IsStore(store)
  {
    Follows(d.node, e, d'.node) && Inv(d'.node.chain) && PageStep(d, e, d', store)
  }

  ghost predicate DisplayReaches(d: Display, events: seq<Event>, d': Display, store: Store)
    requires IsStore(store)
  {
    if events == [] then d' == d
    else exists mid :: DisplayReaches(d, Front(events), mid, store) && DisplayFollows(mid, Last(events), d', store)
  }

  /** The list agrees with the top chain as far as it should, once the pending and queued blocks are in. */
  ghost predicate WillAgree(list: seq<Hash>, pending: seq<Hash>, queue: seq<Entry>, known: Headers, top: Hash, since: Option<nat>)
    requires Tree(known) && top in known
  {
    AreKnown(queue, known) && Agrees(ListedAfter(list + pending, queue, known), ChainTo(known, top), since)
  }

  ghost predicate IsListed(d: Display, list: seq<Hash>, store: Store)
    requires Inv(d.node.chain) && IsStore(store)
  {
    && Shows(d.page, list, store)
    && WillAgree(list, d.node.pending, d.queue, d.node.chain.known, d.node.chain.top.header.hash, d.since)
  }

  ghost predicate DisplayInv(d: Display, store: Store)
    requires IsStore(store)
  {
    && NodeInv(d.node) && !d.node.syncing && HashesOf(d.queue) == d.node.queue
    && exists list :: IsListed(d, list, store)
  }

  /** The page when all pending and queued blocks are in, whatever they are credited to then. */
  ghost function WorkedOff(d: Display, store: Store, first: Credits, credits: seq<Credits>): Page
    requires Inv(d.node.chain) && AreKnown(d.queue, d.node.chain.known) && IsStore(store) && |credits| == |d.queue|
  {
    PageAfter(Updated(d.page, Credited(Blocks(d.node.pending, store), first)), d.queue, d.node.chain.known, store, credits)
  }

  lemma {:induction false} WrittenKeeps(d: Display, count: nat, d': Display, store: Store)
    requires IsStore(store) && DisplayInv(d, store) && DisplayFollows(d, BlocksWritten(count), d', store)
    ensures DisplayInv(d', store)
  {
    WrittenNode(d.node, count, d'.node);
    var list :| IsListed(d, list, store);
    WrittenListed(d, count, d', list, store);
    InvBy(d', list + d.node.pending[..count], store);
  }

  lemma {:induction false} InvBy(d: Display, list: seq<Hash>, store: Store)
    requires IsStore(store) && NodeInv(d.node) && !d.node.syncing && HashesOf(d.queue) == d.node.queue && IsListed(d, list, store)
    ensures DisplayInv(d, store)
  {
  }

  lemma {:induction false} WrittenNode(s: Node, count: nat, s': Node)
    requires NodeInv(s) && Step(s, BlocksWritten(count), s')
    ensures NodeInv(s') && !s'.syncing && s'.queue == s.queue
    ensures count <= |s.pending| && MarksDownloaded(s.chain, s.pending[..count], s'.chain, s'.downloaded)
    ensures s'.pending == s.pending[count..]
  {
    BlocksWrittenKeeps(s, count, s');
  }

  lemma {:induction false} WrittenListed(d: Display, count: nat, d': Display, list: seq<Hash>, store: Store)
    requires IsStore(store) && NodeInv(d.node) && Inv(d'.node.chain) && count <= |d.node.pending| && IsListed(d, list, store)
    requires MarksDownloaded(d.node.chain, d.node.pending[..count], d'.node.chain, d'.node.downloaded)
    requires d'.node.pending == d.node.pending[count..] && d'.queue == d.queue && d'.since == d.since
    requires IsUpdated(d.page, d.node.pending[..count], store, d'.page)
    ensures IsListed(d', list + d.node.pending[..count], store)
  {
    var credits: Credits :| d'.page == Updated(d.page, Credited(Blocks(d.node.pending[..count], store), credits));
    UpdateShows(d.page, list, d.node.pending[..count], store, credits);
    FetchedKeepsList(d.node, d.node.pending[..count], d'.node, list, d.node.pending, d.queue, d.since);
    PendingMoves(list, d.node.pending, count, d.queue, d'.node.chain.known, d'.node.chain.top.header.hash, d.since);
  }

  lemma {:induction false} PendingMoves(list: seq<Hash>, pending: seq<Hash>, count: nat, queue: seq<Entry>, known: Headers, top: Hash,
                                        since: Option<nat>)
    requires Tree(known) && top in known && count <= |pending| && WillAgree(list, pending, queue, known, top, since)
    ensures WillAgree(list + pending[..count], pending[count..], queue, known, top, since)
  {
    ConcatAssociative(list, pending[..count], pending[count..]);
    assert pending == pending[..count] + pending[count..];
  }

  /** Marking blocks as fetched moves no header. */
  lemma {:induction false} FetchedKeepsList(s: Node, blocks: seq<Hash>, s': Node, list: seq<Hash>, pending: seq<Hash>,
                                            queue: seq<Entry>, since: Option<nat>)
    requires NodeInv(s) && Inv(s'.chain) && MarksDownloaded(s.chain, blocks, s'.chain, s'.downloaded)
    requires WillAgree(list, pending, queue, s.chain.known, s.chain.top.header.hash, since)
    ensures WillAgree(list, pending, queue, s'.chain.known, s'.chain.top.header.hash, since)
  {
    FetchKeeps(s.chain.known, blocks);
    ListedFrame(list + pending, queue, s.chain.known, s'.chain.known);
    ChainToFrame(s.chain.known, s'.chain.known, s.chain.top.header.hash);
  }

  lemma {:induction false} BlockKeeps(d: Display, hash: Hash, valid: bool, d': Display, store: Store)
    requires IsStore(store) && DisplayInv(d, store) && DisplayFollows(d, NewBlock(hash, valid), d', store)
    ensures DisplayInv(d', store)
  {
    SameFront(d.queue, d.node.queue);
    if d.queue == [] || d.queue[0].hash != hash || !valid {
      assert d' == d;
    } else {
      StepKeeps(d.node, NewBlock(hash, valid), d'.node);
      AppliedKeeps(d, d', store);
    }
  }

  lemma {:induction false} SameFront(queue: seq<Entry>, hashes: seq<Hash>)
    requires HashesOf(queue) == hashes
    ensures |queue| == |hashes|
    ensures queue != [] ==> queue[0].hash == hashes[0] && HashesOf(queue[1..]) == hashes[1..]
  {
  }

  lemma {:induction false} AppliedKeeps(d: Display, d': Display, store: Store)
    requires IsStore(store) && NodeInv(d.node) && NodeInv(d'.node) && d.queue != [] && d.node.pending == d'.node.pending == []
    requires exists list :: IsListed(d, list, store)
    requires MarksDownloaded(d.node.chain, [d.queue[0].hash], d'.node.chain, d'.node.downloaded)
    requires d'.queue == d.queue[1..] && d'.since == d.since && d.queue[0].hash in d'.node.chain.known
    requires IsAfterEntry(d.page, d.queue[0], d'.node.chain.known, store, d'.page)
    ensures exists list :: IsListed(d', list, store)
  {
    var list :| IsListed(d, list, store);
    var e, known' := d.queue[0], d'.node.chain.known;
    var credits: Credits :| d'.page == PageAfterEntry(d.page, e, known', store, credits);
    EntryShows(d.page, list, e, known', store, credits);
    FetchedKeepsList(d.node, [e.hash], d'.node, list, [], d.queue, d.since);
    FrontApplied(list, d.queue, known', d'.node.chain.top.header.hash, d.since);
    assert IsListed(d', ListedAfterEntry(list, e, known'), store);
  }

  lemma {:induction false} FrontApplied(list: seq<Hash>, queue: seq<Entry>, known: Headers, top: Hash, since: Option<nat>)
    requires Tree(known) && top in known && queue != [] && WillAgree(list, [], queue, known, top, since)
    ensures queue[0].hash in known && WillAgree(ListedAfterEntry(list, queue[0], known), [], queue[1..], known, top, since)
  {
    var next := ListedAfterEntry(list, queue[0], known);
    assert list + [] == list && next + [] == next;
    QueueFromFront(list, queue, known);
  }

  lemma {:induction false} QueueFromFront(list: seq<Hash>, queue: seq<Entry>, known: Headers)
    requires Tree(known) && AreKnown(queue, known) && queue != []
    ensures AreKnown(queue[1..], known)
    ensures ListedAfter(ListedAfterEntry(list, queue[0], known), queue[1..], known) == ListedAfter(list, queue, known)
  {
    assert queue == [queue[0]] + queue[1..];
    ListedConcat(list, [queue[0]], queue[1..], known);
    ListedOne(list, queue[0], known);
  }

  lemma {:induction false} HeaderKeeps(d: Display, header: Header, rule: Rule, out: Outcome, d': Display, store: Store)
    requires IsStore(store) && DisplayInv(d, store) && DisplayFollows(d, NewHeader(header, rule, out), d', store)
    ensures DisplayInv(d', store)
  {
    StepKeeps(d.node, NewHeader(header, rule, out), d'.node);
    var list :| IsListed(d, list, store);
    var c1: Chain :|
      && Applies(d.node.chain, header, rule, false, c1, out)
      && HandlesOutcome(d.node.chain, d.node.downloaded, d.node.queue, header, out, c1,
                        d'.node.chain, d'.node.downloaded, d'.node.queue);
    if out.Accepted? && out.result.Some? {
      NewTopListed(d.node.chain, header, rule, out, c1, list, d.node.pending, d.queue, d.since);
      EntryHashes(d.queue, c1.top.number, out.result.value.added);
    } else {
      SameTopListed(d.node.chain, header, rule, out, c1, list, d.node.pending, d.queue, d.since);
      assert d.queue + [] == d.queue;
    }
    assert IsListed(d', list, store);
  }

  lemma {:induction false} SameTopListed(c: Chain, header: Header, rule: Rule, out: Outcome, c1: Chain, list: seq<Hash>,
                                         pending: seq<Hash>, queue: seq<Entry>, since: Option<nat>)
    requires Inv(c) && header.hash != EMPTY_HASH && Applies(c, header, rule, false, c1, out) && !out.Panics?
    requires !(out.Accepted? && out.result.Some?)
    requires WillAgree(list, pending, queue, c.known, c.top.header.hash, since)
    ensures Inv(c1) && WillAgree(list, pending, queue, c1.known, c1.top.header.hash, since)
  {
    AppliesKeeps(c, header, rule, false, c1, out);
    ResultIffNewTop(c, header, rule, c1, out);
    ListedFrame(list + pending, queue, c.known, c1.known);
    ChainToFrame(c.known, c1.known, c.top.header.hash);
  }

  lemma {:induction false} NewTopListed(c: Chain, header: Header, rule: Rule, out: Outcome, c1: Chain, list: seq<Hash>,
                                        pending: seq<Hash>, queue: seq<Entry>, since: Option<nat>)
    requires TakesOver(c, header, rule, c1, out)
    requires WillAgree(list, pending, queue, c.known, c.top.header.hash, since)
    ensures Inv(c1)
    ensures WillAgree(list, pending, queue + QueuedFor(out, c1.top.number), c1.known, c1.top.header.hash, SinceAfter(c, header, since))
  {
    NewTopAgrees(c, header, rule, c1, out, ListedAfter(list + pending, queue, c.known), since);
    QueuedIs(c, header, rule, c1, out);
    ListedFrame(list + pending, queue, c.known, c1.known);
    ListedConcat(list + pending, queue, QueuedFor(out, c1.top.number), c1.known);
  }

  lemma {:induction false} DisplayKeeps(d: Display, events: seq<Event>, d': Display, store: Store)
    requires IsStore(store) && DisplayInv(d, store) && DisplayReaches(d, events, d', store)
    ensures DisplayInv(d', store)
  {
    if events != [] {
      var mid :| DisplayReaches(d, Front(events), mid, store) && DisplayFollows(mid, Last(events), d', store);
      DisplayKeeps(d, Front(events), mid, store);
      DisplayStepKeeps(mid, Last(events), d', store);
    }
  }

  lemma {:induction false} DisplayStepKeeps(d: Display, e: Event, d': Display, store: Store)
    requires IsStore(store) && DisplayInv(d, store) && DisplayFollows(d, e, d', store)
    ensures DisplayInv(d', store)
  {
    match e
    case BlocksWritten(count) => WrittenKeeps(d, count, d', store);
    case NewHeader(header, rule, out) => HeaderKeeps(d, header, rule, out, d', store);
    case NewBlock(hash, valid) => BlockKeeps(d, hash, valid, d', store);
    case _ =>
  }

  /** The page at the start of keeping up: it shows the part of the top chain that is not still to be downloaded. */
  ghost predicate Starts(d: Display, list: seq<Hash>, store: Store)
    requires IsStore(store)
  {
    && NodeInv(d.node) && !d.node.syncing && d.node.queue == [] && d.queue == [] && d.since.None?
    && Shows(d.page, list, store)
    && list + d.node.pending == ChainTo(d.node.chain.known, d.node.chain.top.header.hash)
  }

  /**
   * However downloaded blocks, new headers, forks and new blocks interleave: once all pending and queued blocks are in,
   * the page shows the top chain exactly when no block that replaced its sibling is among the last fifty since the page
   * was last regenerated.
   */
  lemma {:induction false} RunShowsIff(d: Display, list: seq<Hash>, events: seq<Event>, d': Display, store: Store,
                                       first: Credits, credits: seq<Credits>)
    requires IsStore(store) && Starts(d, list, store) && DisplayReaches(d, events, d', store) && |credits| == |d'.queue|
    ensures Inv(d'.node.chain) && AreKnown(d'.queue, d'.node.chain.known)
    ensures Shows(WorkedOff(d', store, first, credits), ChainTo(d'.node.chain.known, d'.node.chain.top.header.hash), store)
            <==> d'.since.None? || d'.since.value >= BLOCKS_COUNT
  {
    assert IsListed(d, list, store);
    DisplayKeeps(d, events, d', store);
    InvShowsIff(d', store, first, credits);
  }

  lemma {:induction false} InvShowsIff(d: Display, store: Store, first: Credits, credits: seq<Credits>)
    requires IsStore(store) && DisplayInv(d, store) && |credits| == |d.queue|
    ensures AreKnown(d.queue, d.node.chain.known)
    ensures Shows(WorkedOff(d, store, first, credits), ChainTo(d.node.chain.known, d.node.chain.top.header.hash), store)
            <==> d.since.None? || d.since.value >= BLOCKS_COUNT
  {
    var list :| IsListed(d, list, store);
    UpdateShows(d.page, list, d.node.pending, store, first);
    ListShowsIff(Updated(d.page, Credited(Blocks(d.node.pending, store), first)), list + d.node.pending, d.queue,
                 d.node.chain.known, d.node.chain.top.header.hash, d.since, store, credits);
  }

  lemma {:induction false} ListShowsIff(page: Page, list: seq<Hash>, queue: seq<Entry>, known: Headers, top: Hash, since: Option<nat>,
                                        store: Store, credits: seq<Credits>)
    requires IsStore(store) && Tree(known) && top in known && |credits| == |queue| && Shows(page, list, store)
    requires AreKnown(queue, known) && Agrees(ListedAfter(list, queue, known), ChainTo(known, top), since)
    ensures Shows(PageAfter(page, queue, known, store, credits), ChainTo(known, top), store)
            <==> since.None? || since.value >= BLOCKS_COUNT
  {
    QueueShows(page, list, queue, known, store, credits);
    SamePageIff(ListedAfter(list, queue, known), ChainTo(known, top), since, store);
  }

  /** The download carries on from the chain below it, which is fetched already. */
  lemma {:induction false} DownloadContinues(known: Headers, top: Hash) returns (list: seq<Hash>)
    requires Tree(known) && top in known
    ensures list + Missing(known, top) == ChainTo(known, top)
    ensures list != [] ==> Last(list) in known && known[Last(list)].fetchedFull && list == ChainTo(known, Last(list))
    decreases known[top].number
  {
    if Number(known, top) == 0 {
      list := [];
    } else if known[Parent(known, top)].fetchedFull {
      list := ChainTo(known, Parent(known, top));
    } else {
      list := DownloadContinues(known, Parent(known, top));
      ConcatAssociative(list, Missing(known, Parent(known, top)), [top]);
    }
  }
}
