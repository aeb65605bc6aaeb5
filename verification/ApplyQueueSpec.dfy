/**
 * The life of the node: header sync, then downloading the missing blocks, then keeping up with new headers
 * and blocks. Whatever the interleaving, blocks are applied parents first and none is forgotten.
 */
module ApplyQueueSpec {
  import opened Bytes
  import opened HeaderTree
  import opened ChainSpec
  import opened FetchSpec

  /** pending is what the initial block download still has to write, queue what the chain watcher has to apply. */
  datatype Node = Node(chain: Chain, downloaded: nat, syncing: bool, pending: seq<Hash>, queue: seq<Hash>)

  datatype Event =
    | SyncHeader(header: Header, rule: Rule, out: Outcome)
    | StartBlocks
    | BlocksWritten(count: nat)
    | NewHeader(header: Header, rule: Rule, out: Outcome)
    | NewBlock(hash: Hash, valid: bool)

  // ---------------------------------------------------------------- the chain watcher's queue

  /** FrontPageDataUpdateStrategy */
  datatype Strategy = RegenerateFromScratch | Append

  /** A block to apply: the number it is said to have, and what to do with the pages then. */
  datatype Entry = Entry(number: U64, hash: Hash, strategy: Strategy)

  function WrapU64(n: int): U64 {
    n % 0x1_0000_0000_0000_0000
  }

  /** What handle_new_header queues for the blocks of a result; with several the subtraction can go below zero. */
  function EntriesFor(number: nat, added: seq<(Hash, nat)>): (s: seq<Entry>)
    ensures |s| == |added|
  {
    if |added| == 1 then [Entry(WrapU64(number), added[0].0, Append)]
    else ForkEntries(WrapU64(number - |added| - 1), added)
  }

  function ForkEntries(first: U64, added: seq<(Hash, nat)>): (s: seq<Entry>)
    ensures |s| == |added| && forall i :: 0 <= i < |s| ==> s[i] == ForkEntry(first, i, added[i].0)
  {
    if added == [] then []
    else
      var last := |added| - 1;
      ForkEntries(first, added[..last]) + [ForkEntry(first, last, added[last].0)]
  }

  function ForkEntry(first: U64, i: nat, hash: Hash): Entry {
    Entry(WrapU64(first + i), hash, if i == 0 then RegenerateFromScratch else Append)
  }

  function QueuedFor(out: Outcome, number: nat): seq<Entry> {
    if out.Accepted? && out.result.Some? then EntriesFor(number, out.result.value.added) else []
  }

  const SEGWIT_HEIGHT := 481_824

  /** The witness commitment is checked only from the queued number on, whatever the block's height. */
  predicate IsChecked(e: Entry) {
    e.number >= SEGWIT_HEIGHT
  }

  /** A block is taken unless its commitment is checked and does not hold. */
  predicate Passes(e: Entry, committed: bool) {
    IsChecked(e) ==> committed
  }

  function HashesOf(queue: seq<Entry>): (s: seq<Hash>)
    ensures |s| == |queue| && forall i :: 0 <= i < |s| ==> s[i] == queue[i].hash
  {
    if queue == [] then [] else HashesOf(queue[..|queue| - 1]) + [queue[|queue| - 1].hash]
  }

  lemma {:induction false} EntryHashes(queue: seq<Entry>, number: nat, added: seq<(Hash, nat)>)
    ensures HashesOf(queue + EntriesFor(number, added)) == HashesOf(queue) + AddedInOrder(added)
  {
    var more := EntriesFor(number, added);
    assert forall i :: 0 <= i < |added| ==> more[i].hash == added[i].0;
  }

  // ---------------------------------------------------------------- steps

  /** handle_new_header on the chain, the download count and the queue. */
  ghost predicate HandlesHeader(c: Chain, downloaded: nat, queue: seq<Hash>, header: Header, rule: Rule, out: Outcome,
                                c': Chain, downloaded': nat, queue': seq<Hash>)
    requires Inv(c)
  {
    exists c1: Chain ::
      && Applies(c, header, rule, false, c1, out)
      && HandlesOutcome(c, downloaded, queue, header, out, c1, c', downloaded', queue')
  }

  ghost predicate HandlesOutcome(c: Chain, downloaded: nat, queue: seq<Hash>, header: Header, out: Outcome, c1: Chain,
                                 c': Chain, downloaded': nat, queue': seq<Hash>)
    requires Inv(c)
  {
    if out.Accepted? && out.result.Some? then
      && c' == UpdateMostWork(c1, out.result.value)
      && queue' == queue + AddedInOrder(out.result.value.added)
      && Inv(c1)
      && downloaded' == (if header.parent == c.top.header.hash then downloaded else Downloaded(c1.known, c1.top.header.hash))
    else c' == c1 && queue' == queue && downloaded' == downloaded
  }

  function AddedInOrder(added: seq<(Hash, nat)>): (s: seq<Hash>)
    ensures |s| == |added| && forall i :: 0 <= i < |s| ==> s[i] == added[i].0
  {
    if added == [] then [] else AddedInOrder(added[..|added| - 1]) + [added[|added| - 1].0]
  }

  /** mark_as_downloaded */
  ghost predicate MarksDownloaded(c: Chain, blocks: seq<Hash>, c': Chain, downloaded': nat)
    requires Inv(c)
  {
    && (forall i :: 0 <= i < |blocks| ==> blocks[i] in c.known)
    && c' == c.(known := Fetch(c.known, blocks), top := Fetch(c.known, blocks)[c.top.header.hash])
    && Inv(c') && downloaded' == Downloaded(c'.known, c'.top.header.hash)
  }

  ghost predicate StartsBlocks(s: Node, s': Node)
    requires Inv(s.chain)
  {
    var c, top := s.chain, s.chain.top.header.hash;
    && s.syncing && !s'.syncing
    && s'.chain == c.(mostWork := Ancestors(c.known, top), numberToHash := NumberMap(c.known, top))
    && s'.downloaded == Downloaded(c.known, top)
    && s'.queue == s.queue
    && s'.pending == if s'.downloaded > c.top.number then [] else Missing(c.known, top)
  }

  /** New blocks are looked at only once the initial download is over. */
  ghost predicate Step(s: Node, e: Event, s': Node)
    requires Inv(s.chain)
  {
    match e
    case SyncHeader(header, rule, out) =>
      && s.syncing && header.hash != EMPTY_HASH && !out.Panics?
      && Applies(s.chain, header, rule, true, s'.chain, out) && s' == s.(chain := s'.chain)
    case StartBlocks => StartsBlocks(s, s')
    case BlocksWritten(count) =>
      && !s.syncing && count <= |s.pending|
      && MarksDownloaded(s.chain, s.pending[..count], s'.chain, s'.downloaded)
      && s' == s.(chain := s'.chain, downloaded := s'.downloaded, pending := s.pending[count..])
    case NewHeader(header, rule, out) =>
      && !s.syncing && header.hash != EMPTY_HASH && !out.Panics?
      && HandlesHeader(s.chain, s.downloaded, s.queue, header, rule, out, s'.chain, s'.downloaded, s'.queue)
      && s' == s.(chain := s'.chain, downloaded := s'.downloaded, queue := s'.queue)
    case NewBlock(hash, valid) =>
      && !s.syncing && s.pending == []
      && if s.queue == [] || s.queue[0] != hash || !valid then s' == s
         else
           && MarksDownloaded(s.chain, [hash], s'.chain, s'.downloaded)
           && s' == s.(chain := s'.chain, downloaded := s'.downloaded, queue := s.queue[1..])
  }

  // ---------------------------------------------------------------- what every step keeps

  /** The parent of h is fetched, or among the blocks to be fetched before it. */
  ghost predicate ParentDone(known: Headers, h: Hash, before: seq<Hash>) {
    h in known && (Number(known, h) > 0 ==>
      Parent(known, h) in known && (known[Parent(known, h)].fetchedFull || Parent(known, h) in before))
  }

  /** The work list can be applied from the front. */
  ghost predicate Ready(known: Headers, work: seq<Hash>) {
    forall i :: 0 <= i < |work| ==> ParentDone(known, work[i], work[..i])
  }

  /** Every header of the branch is fetched or will be. */
  ghost predicate Covered(known: Headers, top: Hash, work: seq<Hash>)
    requires Tree(known) && top in known
  {
    forall h :: h in Ancestors(known, top) ==> h in known && (known[h].fetchedFull || h in work)
  }

  ghost predicate NodeInv(s: Node) {
    && Inv(s.chain) && FetchedClosed(s.chain.known)
    && if s.syncing then s.pending == s.queue == []
       else
         && OnTop(s.chain) && NumbersCover(s.chain)
         && Ready(s.chain.known, s.pending + s.queue)
         && Covered(s.chain.known, s.chain.top.header.hash, s.pending + s.queue)
         && s.downloaded == Downloaded(s.chain.known, s.chain.top.header.hash)
  }
}
