# Verified model of a Bitcoin explorer backend

This project models, in Dafny, the parts of bitlens-rs that carry state, ordering or arithmetic, and
proves what they keep. Paths below are those of the repository.

- **Block download** (`SchedulerSpec`, `SchedulerProof`, `Scheduler`). The master hands out jobs, takes results late,
  twice or out of order, and passes blocks on in chain order through a sorted backlog. The class is
  proved to take exactly the steps of a relation on values; the relation is proved safe over whole runs.
- **Resolving spent outputs** (`ResolverSpec`, `ResolverProof`, `Resolver`). A two-batch pipeline looks
  every spent output up in the current batch, the batch being written, or on disk, while later blocks are
  still being inserted. Every interleaving of its steps is covered.
- **Header tree, reorganisations and the apply queue** (`HeaderTree`, `ChainSpec`, `ChainWork`, `Difficulty`,
  `FetchSpec`, `ChainState`, `ApplyQueueSpec`, `ApplyQueueProof`,
  `ApplyQueue`, `Reorganisation`, `PageRuns`, `StatsFollow`, `WorkExamples`, `ChainExamples`, `Locator`). The sets kept
  up header by header agree with a walk from the top header; blocks are applied parents first and none is
  forgotten; the front page follows the top chain but for one kind of fork; block locators find where two
  chains parted.
- **Merkle roots** (`MerkleSpec`, `Merkle`), with the mutation flag and what the root binds.
- **Stored records** (`VarInt`, `TxCodec`, `WireFormat`, `RecordWriter`): nested varint, string and witness encodings,
  written into buffers whose size is computed ahead.
- **Scripts and signature operation cost** (`Script`, `SigopCost`), under BIP 16 and BIP 141.
- **Compact targets and retargeting** (`Compact`, `Retarget`).
- **Incremental indexes against recomputation**: address rows (`AddressSpec`, `AddressRows`,
  `AddressBatch`), miner statistics (`Utf8`, `MinerSpec`, `MinerStats`), front page (`FrontPage`).
- **Lock-free allocation** (`Arena`, `ArenaPool`): compare-and-exchange protocols under any interleaving.

Code that changes state step by step is a class or a method with loops, proved against a function or a
relation on values; the properties are lemmas about those. `Wrappers`, `Bytes`, `Seqs` and `Arithmetic`
hold shared definitions. Concurrent code is a step system: one step per atomic action.

## What the proofs found

- The fork walk (src/chainman/mod.rs:832-845) steps down from the old top until it reaches the number of
  the new header's parent. When the parent is higher than the old top it falls off the genesis header and
  panics. For the loops themselves this is `ChainState.ChainState.StepDownOld` and `ChainState.ChainState.ApplyFork`;
  `ChainSpec.PanicsIffParentAboveTop` says it of a whole header and
  `ChainSpec.NoPanicWhenWorkFollowsHeight` shows it cannot happen while more height means more work.
  `ChainExamples.WalkFallsOffGenesis` gives a chain on which it does, with every header's bits and work as the
  rules have them: the first period ends twice, after half a week and after two weeks, and the slow branch
  overtakes at number 2019 a top at number 2016 that has a quarter of its target.
- The walk's counter for the new branch starts one too high (src/chainman/mod.rs:828), so after a fork
  `number_to_hash` is right exactly when the new header's parent was on the top chain and the old top is at most
  one above that parent (`ChainSpec.NumberMapIff`, `ChainExamples.NumbersGoWrong`). It still leads from every
  number up to the top to some known header (`ChainSpec.UpdateCovers`), so `respond_to_getheaders` does not
  panic. Counting from the parent's number gives the right hash for every number up to the new top
  (`ChainSpec.NumberedFromParentIsRight`).
- A header that takes over the top with one added block is queued as an extension (src/chainman/keepup.rs:211-217),
  also when it is a sibling with equal work. The block it replaces then stays on the front page until there are fifty
  from its replacement on or a longer fork regenerates it: over any run, the page shows the top chain exactly when that is not pending
  (`PageRuns.RunShowsIff`; `PageRuns.PageFollowsIff` for one header).
- The numbers queued in a fork (src/chainman/keepup.rs:220) are two too low, and wrap around below zero exactly
  when the branches meet at genesis (`Reorganisation.QueuedNumbers`). The witness check goes by them
  (src/chainman/keepup.rs:261): in a fork it is left out for blocks 481824 and 481825, and asked of block 1
  (`Reorganisation.CheckFollowsHeightIff`).
- The miner statistics are extended under those numbers too (src/chainman/keepup.rs:411-415), and recomputed under the
  headers'. So after a fork of any length they are not the recomputed ones, nor after a sibling, which leaves the
  replaced block counted; after an extension they are exactly when the window moves on in order and the block reads
  alike (`StatsFollow.StatsFollowIff`, `StatsFollow.ForkDiffers`, `MinerSpec.ReplacedStaysCounted`).
- A block on the front page keeps the share its miner had when it was put there. The page is the one that would be
  generated now exactly when no share of the blocks on it has changed (`FrontPage.UpdateIsRegenerateIff`); a block of
  another miner changes it (`MinerSpec.ShareMovesOn`).
- `try_alloc` claims the padding but does not move its value by it (src/util/arena.rs:61), so a single value
  is aligned only when no padding was needed (`Arena.SingleIsAlignedIff`, `Arena.SingleCanBeMisaligned`).
- Varint thresholds are exclusive (src/packets/varint.rs:7-17), so 0xFFFF and 0xFFFFFFFF, and no other
  values, take one size more than they need (`VarInt.VarintIsShortestIff`).
- Kept miner statistics differ from recomputed ones for three reasons, and `MinerSpec.ExtendedIsRecomputedIff` has the
  exact condition. A batch in the window may be passed under other numbers than its own, as in a fork. A block dated
  before its parent can move the two-week window back (`MinerSpec.WindowCanMoveBack`). And a new block is matched by
  the bytes of its coinbase (src/miners/mod.rs:178), a recomputed one by the text stored of them, in which U+FFFD
  replaces what is not UTF-8 (src/chainman/mod.rs:962, src/miners/mod.rs:298): under a rule like `a.b` the bytes
  61 FF 62 are of no known miner at first and the pool's later (`MinerSpec.OddByteIsCountedTwice`).
- The work of a zero target does not fit 256 bits, and the addition that computes it overflows; for every
  other target it fits (`Retarget.WorkFitsIff`).
- A pushed length is cut to 32 bits (src/tx/script.rs:67), so a push reads back exactly when its data is
  shorter than 2^32 bytes (`Script.PushReadsBack`).
- The comment on job choice speaks of two seconds and the code waits for one (src/chainman/blocksync.rs:284,
  src/chainman/blocksync.rs:328); `respond_to_getheaders` sends the matched header again and never the top one
  (src/chainman/mod.rs:325-343). The model follows the code.

## Model

| member | source | states |
|---|---|---|
| SchedulerProof.RunIsSafe | src/chainman/blocksync.rs:185-276 | for any run of late, repeated or reordered worker messages: what was flushed is the first missing blocks, in order, consecutively numbered and never taken back; every job is in range and for a block neither flushed nor held; a worker is retired only when every missing block is flushed |
| SchedulerProof.StepKeeps | src/chainman/blocksync.rs:185-376 | every message keeps the invariant: backlog strictly descending, above the wanted number and below what was asked for; request time 0 exactly for held blocks |
| SchedulerProof.InsertKeeps | src/chainman/blocksync.rs:211-213 | inserting keeps the backlog strictly descending, with exactly the old numbers and the new one |
| SchedulerProof.DrainKeeps | src/chainman/blocksync.rs:262-276 | draining restores the invariant (the wanted block is no longer held), flushes in order, and takes nothing back |
| SchedulerProof.SomethingIsWaiting | src/chainman/blocksync.rs:341-351 | with a nonempty backlog the wanted block has been asked for and is neither flushed nor held, so the panic cannot be reached |
| SchedulerProof.JobStepKeeps | src/chainman/blocksync.rs:295-376 | choosing a job keeps the invariant and gives a job in range for a block that is neither flushed nor held |
| SchedulerProof.StaleIsAskedFirst | src/chainman/blocksync.rs:313-329 | the lowest block waited for more than 1000 ms is asked for again before anything else, and only its request time changes |
| SchedulerProof.FullAsksLongest | src/chainman/blocksync.rs:331-351 | else, while no new block may be asked for, the lowest of those waited for longest is |
| SchedulerProof.ElseAdvances | src/chainman/blocksync.rs:353-376 | else the next new block is, or the wanted one when all have been asked for, or none when all are flushed |
| SchedulerProof.FullBacklogHolds | src/chainman/blocksync.rs:241-250 | a block that leaves more than 512 held brings no request for a new one; a first pull always may |
| SchedulerProof.InsertAdds | src/chainman/blocksync.rs:211-213 | a block already held leaves the backlog as it is, any other is added to it |
| Scheduler.MasterState.HandleWorkerMessage | src/chainman/blocksync.rs:185-260 | one message makes the class take exactly a step of the relation |
| Scheduler.MasterState.AcceptBlock | src/chainman/blocksync.rs:209-238 | a block is held, discarded or flushed, with the whole new state |
| Scheduler.MasterState.ApplyFromBacklog | src/chainman/blocksync.rs:262-276 | the pop loop is the recursive draining of the backlog |
| Scheduler.MasterState.FindNextBestJob | src/chainman/blocksync.rs:295-376 | first timed-out block, else the longest waiting one when the backlog is full, else the next new one, else the wanted one, else none; the panic branch is dead |
| Scheduler.BinarySearch | src/chainman/blocksync.rs:211 | finds a number in a descending backlog, or the place that separates larger from smaller ones |
| Scheduler.InsertIsAt | src/chainman/blocksync.rs:211-213 | splicing at the searched place is ordered insertion |
| ResolverProof.ResolvesExactly | src/chainman/blocksync.rs:455-759 | in every interleaving of insertion, processing and writing, every finished block has each non-coinbase input resolved to exactly the output it spends, the disk holds all batches before the previous one, and no step fails |
| ResolverProof.ResolvedMeans | src/chainman/blocksync.rs:684-708 | being resolved, input by input: one output for each input with a previous transaction, in order, and it is the output with that index of a transaction of the chain with that hash |
| ResolverProof.AtMostTwoBatches | src/chainman/blocksync.rs:484-626 | over any run a batch has at most 64 blocks and all but the last 128 received are on disk |
| ResolverProof.NeverStuck | src/chainman/blocksync.rs:484-626 | until every block is in a finished batch some action is possible that brings the work forward |
| ResolverProof.NothingElseWaits | src/chainman/blocksync.rs:484-626 | insertion waits for neither tasks nor writer, a task for nothing but its own reads, and only the exchange of batches for all |
| ResolverProof.InvSafe | src/chainman/blocksync.rs:684-708 | no lookup, disk read or indexing of any task can fail |
| ResolverProof.StepKeeps | src/chainman/blocksync.rs:484-626 | every step of the pipeline keeps what the two maps, the disk and the tasks hold |
| ResolverProof.Classify | src/chainman/blocksync.rs:684-708 | wherever an input is looked up (current batch, previous batch, disk) it is found, and right |
| ResolverProof.AssembleBlockRight | src/chainman/blocksync.rs:684-708 | both passes list the same missing inputs, so the k-th disk result lands on the k-th of them |
| ResolverProof.LaterInsertsDoNotMatter | src/chainman/blocksync.rs:586-622 | blocks inserted between the two passes do not change what a block is missing |
| ResolverProof.SpentIsUnique | src/chainman/blocksync.rs:684-708 | an input spends at most one output, so being resolved says which |
| ResolverProof.SwapKeeps | src/chainman/blocksync.rs:484-570 | exchanging the two batches keeps the invariant |
| ResolverProof.InsertContents | src/chainman/blocksync.rs:628-646 | the map after a block holds its transactions and what was there before |
| Resolver.ChainSyncState.InsertTransactionsFromBlock | src/chainman/blocksync.rs:628-646 | the insert loop adds exactly the block's outputs to the current map |
| Resolver.ChainSyncState.FetchMissingDependencies | src/chainman/blocksync.rs:761-814 | the first pass lists exactly the inputs in neither map, in order |
| Resolver.ChainSyncState.AssembleDependencies | src/chainman/blocksync.rs:675-726 | the second pass with its running index into the disk results is the assembly proved right |
| HeaderTree.MeetSeparates | src/chainman/mod.rs:824-860 | two branches share their headers up to the meeting point and none above it |
| HeaderTree.NewHeaderSwitches | src/chainman/mod.rs:824-860 | a new header's branch and the old one differ exactly above the meeting point of its parent and the old top |
| HeaderTree.SwitchAncestors | src/chainman/chain.rs:85-93 | removing one side and adding the other turns the old branch into the new one |
| HeaderTree.NumberMapAt | src/chainman/mod.rs:897-911 | an ancestor's number leads back to it |
| HeaderTree.PathShape | src/chainman/mod.rs:832-860 | a path runs down parent by parent with falling numbers |
| ChainSpec.AppliesKeeps | src/chainman/mod.rs:756-873 | after every header that does not panic the tree is sound, nothing known changed, and the top has the greatest total work of all known headers |
| ChainSpec.ResultIffNewTop | src/chainman/mod.rs:799-822 | a result is returned exactly when the header is valid, new and takes over the top; otherwise the top stays |
| ChainWork.TopIsLatestOfGreatest | src/chainman/mod.rs:786-822 | after any run of headers from genesis, in and after header sync, the top is a header whose branch holds the most work, summed header by header, and of those the one that came last |
| ChainWork.AppliesKeepsWork | src/chainman/mod.rs:786-793 | the total kept with each header is the sum of the work of its branch |
| ChainWork.AcceptedIsStored | src/chainman/mod.rs:786-812 | a new header is stored one above its parent, unfetched, with its work added, and becomes the top exactly when its total is not below the top's |
| ChainWork.RejectedIff | src/chainman/mod.rs:761-784 | a header is refused exactly when it is new and its parent is unknown or calls for other bits; a known or refused one changes nothing |
| ChainWork.AppliesIsTotal | src/chainman/mod.rs:756-873 | every header has an outcome in every sound state |
| ChainWork.ForkRemoves | src/chainman/mod.rs:832-860 | a fork lists the old top twice and every other block above the meeting point once |
| ChainSpec.ResultIsSwitch | src/chainman/mod.rs:814-872 | the blocks of a result are the two branches above their meeting point, extension and fork alike |
| ChainSpec.UpdateFollowsTop | src/chainman/chain.rs:85-93 | the incrementally kept hash set is the ancestor set of the new top, whatever the fork |
| ChainSpec.PanicsIffParentAboveTop | src/chainman/mod.rs:832-845 | the walk panics exactly when a winning fork's parent is above the old top |
| ChainSpec.NoPanicWhenWorkFollowsHeight | src/chainman/mod.rs:832-845 | it never does while a higher header always has more work |
| ChainSpec.NumberMapIff | src/chainman/mod.rs:824-872 | after a new top the number map is right exactly when the header's parent was on the top chain and the old top was at most one above that parent |
| ChainSpec.OneAddedIffParentOnTopChain | src/chainman/mod.rs:814-872 | one block is added exactly when the header's parent is on the top chain |
| ChainSpec.UpdateCovers | src/chainman/chain.rs:85-93 | whatever the fork, every number up to the new top still leads to a known header |
| ChainSpec.NumberedFromParentIsRight | src/chainman/mod.rs:824-872 | with the counter started at the parent's number, every number up to the new top would be right |
| ChainExamples.WalkFallsOffGenesis | src/chainman/mod.rs:836-845 | a chain and a header, with bits and work as the rules give them, on which the walk panics |
| ChainExamples.NumbersGoWrong | src/chainman/mod.rs:827-860 | a two-block fork, with bits and work as the rules give them, after which the number map is wrong |
| ChainState.ChainState.constructor | src/chainman/chain.rs:21-43 | the genesis chain satisfies the invariant and all kept sets are right |
| ChainState.ChainState.GetAncestor | src/chainman/chain.rs:46-63 | the walk ends at the header of the branch at the height, and never at none |
| ChainState.ChainState.GetNextBitsRequired | src/chainman/chain.rs:65-83 | gives the bits the difficulty rules call for |
| ChainState.ChainState.ValidateAndApply | src/chainman/mod.rs:756-873 | with its walk loops, does exactly what the relation says, and recounts downloads on a fork |
| ChainState.ChainState.StepDownOld | src/chainman/mod.rs:832-845 | reaches the branch at a number exactly when it is not above the top, and visits the path down to it |
| ChainState.ChainState.StepDownBoth | src/chainman/mod.rs:847-860 | ends at the common ancestor having visited both paths, with the counters as written |
| ChainState.ChainState.ApplyFork | src/chainman/mod.rs:824-872 | with both walks, panics exactly when the parent is above the old top, and otherwise lists both branches and recounts |
| ChainState.LevelPath | src/chainman/mod.rs:832-860 | walking by way of the parent's height finds the same meeting point and paths |
| ChainState.ChainState.UpdateMostWorkChain | src/chainman/chain.rs:85-93 | the two loops remove and insert exactly the listed hashes and numbers |
| ChainState.ChainState.GenerateTopWorkChain | src/chainman/mod.rs:897-911 | a rebuild gives the ancestor set and the number map of the top |
| ChainState.ChainState.CalculateDownloadedBlocks | src/chainman/mod.rs:883-895 | one more than the number of the highest fetched header of the top chain |
| ChainState.ChainState.GetBlockHashesToDownload | src/chainman/mod.rs:928-952 | the path up to the top from the lowest block without a fetched parent, and its first number |
| ChainState.ChainState.MarkAsDownloaded | src/chainman/mod.rs:954-977 | marks exactly the blocks given and stores their coinbase texts, keeps the two copies of the top equal, and recounts |
| ChainState.TextIsStored | src/chainman/mod.rs:956-963 | every block's stored text is its coinbase with what is not UTF-8 replaced |
| FetchSpec.DownloadedCounts | src/chainman/mod.rs:883-895 | when fetched blocks are closed under parents, the walk counts the fetched headers of the top chain |
| FetchSpec.MissingAreUnfetched | src/chainman/mod.rs:928-952 | the list to download is then exactly the unfetched part of the top chain |
| FetchSpec.MissingShape | src/chainman/mod.rs:928-952 | the list is consecutive, each block on its predecessor, the first on a fetched block or genesis |
| Difficulty.NextBitsStaysInLimit | src/chainman/chain.rs:65-83 | the required bits can always be computed and stay within the limit |
| Difficulty.BitsInsidePeriod | src/chainman/chain.rs:65-83 | below a header whose successor's number is no multiple of 2016 the bits stay |
| Difficulty.BitsAfterPeriod | src/chainman/chain.rs:65-83 | after header 2016 n - 1, for every n, they follow from its timestamp and that of header 2016 (n - 1) of its branch |
| Difficulty.AppliesKeepsLimit | src/chainman/mod.rs:772-784 | accepted headers keep all targets within the limit, so no header lacks a rule |
| Difficulty.AppliesKeepsNormal | src/chainman/mod.rs:772-784 | accepted headers keep all bits normalised |
| ChainExamples.GenesisMeetsRules | src/util/genesis.rs:5-19 | the genesis header starts with a target within the limit and normalised bits |
| Difficulty.TwoWeeksKeepAcceptedBits | src/chainman/chain.rs:65-83 | so a period of exactly two weeks keeps the bits of any accepted header |
| ApplyQueueProof.RunIsSound | src/chainman/keepup.rs:187-274 | however header sync, download, headers, forks and blocks interleave: most_work_chain is the ancestor set of the top, the top has the most work, fetched blocks are closed under ancestors, every header of the top chain is fetched or queued, and the download count is right |
| ApplyQueueProof.NewHeaderKeeps | src/chainman/keepup.rs:205-241 | queueing a new branch keeps every queued block's parent fetched or earlier in the queue |
| ApplyQueueProof.NewBlockKeeps | src/chainman/keepup.rs:246-270 | applying the front of the queue keeps the invariant |
| ApplyQueueProof.BlocksWrittenKeeps | src/chainman/blocksync.rs:545 | so does writing a batch of the initial download |
| ApplyQueueProof.StartBlocksKeeps | src/chainman/mod.rs:77-91 | so does the step from header sync to block download |
| ApplyQueueProof.NothingIsForgotten | src/chainman/keepup.rs:205-270 | with nothing left to do the whole top chain is fetched |
| ApplyQueueProof.FrontCanBeApplied | src/chainman/keepup.rs:246-270 | the block asked for can always be applied when it comes |
| ApplyQueueProof.HeaderIsAnswered | src/chainman/keepup.rs:186-240 | with any blocks left to write or apply, every header has a next state, unless it takes over the top from a parent above it |
| ApplyQueueProof.BlocksCanBeWritten | src/chainman/mod.rs:77-91 | the initial download can start once headers are synced, and any number of its blocks be written next |
| ApplyQueueProof.GenesisIsSound | src/chainman/chain.rs:21-43 | a node with the genesis header alone satisfies the invariant |
| ApplyQueue.Watcher.HandleNewHeader | src/chainman/keepup.rs:187-244 | a header changes chain and count as the relation says, and queues the entries of its result with number, hash and page strategy |
| ApplyQueue.Watcher.QueueBlocks | src/chainman/keepup.rs:209-239 | one added block is queued to be appended under the top's number; several oldest first, the first to regenerate the page, numbered in 64 bits from the subtraction as written |
| ApplyQueue.Watcher.HandleNewBlock | src/chainman/keepup.rs:246-270 | pops the front of the queue, marks it and stores its text only for a block that is at the front and passes the check its queued number asks for; otherwise nothing changes |
| PageRuns.RunShowsIff | src/chainman/keepup.rs:187-418 | however downloads, headers, forks and blocks interleave: once all pending and queued blocks are in, the page shows the top chain exactly when, since it was last regenerated, no block has replaced a sibling or fifty blocks have come from the last that did |
| PageRuns.PageFollowsIff | src/chainman/keepup.rs:205-241 | once a new top's blocks are applied to a page of the old top, it shows the new top exactly when the header's parent is the old top or is not on the old top chain |
| PageRuns.DownloadContinues | src/chainman/mod.rs:77-96 | what is to be downloaded carries on from the fetched part of the top chain, which the page shows at the start |
| StatsFollow.StatsFollowIff | src/chainman/keepup.rs:404-418 | once a new top's blocks are applied, statistics of the old top are those recomputed of the new one exactly when the header extends the old top, the window moves on in order and the block is attributed by its bytes as by its stored text |
| StatsFollow.ForkDiffers | src/chainman/keepup.rs:220-240 | after any fork of two or more blocks the newest block in the window has two less than its number, in 64 bits, where recomputation has its number |
| Reorganisation.CheckFollowsHeightIff | src/chainman/keepup.rs:255-266 | a queued block's commitment is checked as its height asks exactly when it is no fork block, or has another height than 481824, 481825 and 1 |
| Reorganisation.QueuedNumbers | src/chainman/keepup.rs:209-239 | a single block is queued under its number, the blocks of a fork under two less in 64 bits; the subtraction goes below zero exactly when the branches meet at genesis |
| Reorganisation.QueuedStrategies | src/chainman/keepup.rs:211-236 | a block alone, which is exactly one whose parent was on the top chain, is appended to the pages; of several the first regenerates them |
| Locator.BuildGetHeaders | src/chainman/mod.rs:699-744 | the loop yields the headers of the top chain at the locator's heights and never panics |
| Locator.HeightsAre | src/chainman/mod.rs:713-737 | heights lie at depth 0 to 9 and then at doubling distances, and end at genesis |
| Locator.StepsDouble | src/chainman/mod.rs:713-737 | nine steps of one and one of two, then each step twice the one before, but for the last, which ends at genesis |
| Locator.StrictlyDescending | src/chainman/mod.rs:713-737 | heights strictly descend |
| Locator.LengthIsLogarithmic | src/chainman/mod.rs:713-737 | a locator longer than ten entries needs a height above two to the power of the excess |
| Locator.MatchIsNearFork | src/chainman/mod.rs:288-304 | another node always finds a match, at depth d to 2d when the chains parted d below our top |
| Locator.FindMatch | src/chainman/mod.rs:288-304 | the first entry on the most-work chain, or none is on it |
| Locator.RespondToGetHeaders | src/chainman/mod.rs:280-346 | in every state a run can reach, also after forks that spoil the number map, never panics, and sends the headers the map has from the first match up to the limit, the stop hash or below the top |
| Locator.ReplyIsConnected | src/chainman/mod.rs:305-346 | with a right number map these are consecutive headers of the top chain, each on its predecessor |
| Locator.ReplyStops | src/chainman/mod.rs:319-345 | a reply ends at 2000 headers, below the top, or before the stop hash, which it never contains |
| MerkleSpec.RootBinds | src/util/merkle.rs:30-51 | when no two of the pairs hashed for two unmutated lists hash alike and no leaf is the hash of one, lists with the same root are equal, also of different heights |
| MerkleSpec.DifferentListsCollide | src/util/merkle.rs:30-51 | for any pair hash, two different unmutated lists with the same root give away two hashed pairs that hash alike, or a leaf that is the hash of such a pair |
| MerkleSpec.BindingCanBeMet | src/util/merkle.rs:30-51 | a pair hash and four leaves that meet the conditions |
| MerkleSpec.RootIsTreeRoot | src/util/merkle.rs:30-66 | the level-by-level root is the root of the perfect tree in which missing right halves repeat the left |
| MerkleSpec.RepetitionIsFlagged | src/util/merkle.rs:33-37 | repeating the leaves of a lone last subtree keeps the root and is always flagged |
| MerkleSpec.FlagIff | src/util/merkle.rs:33-41 | the flag is set exactly when on some level, before padding, two neighbours are equal |
| MerkleSpec.DistinctIsUnflagged | src/util/merkle.rs:30-51 | for every length: distinct leaves are not flagged while the pairs hashed do not collide |
| MerkleSpec.SmallRoots | src/util/merkle.rs:30-51 | the roots of no, one, two and three leaves written out |
| Merkle.MerkleTree.IntoRoot | src/util/merkle.rs:30-51 | the loop over the flat buffer returns the root and the flag of the hashes in it |
| Merkle.MerkleTree.Climb | src/util/merkle.rs:39-44 | padding, collapsing in place and truncating is one level up |
| Merkle.MerkleTree.Collapse | src/util/merkle.rs:53-66 | the hash at k becomes the pair hash of the old hashes at 2k and 2k+1, though it overwrites them |
| Merkle.MerkleTree.SetHash | src/util/merkle.rs:84-86 | overwrites one hash and no other |
| Merkle.MerkleTree.HasEqualNeighbours | src/util/merkle.rs:33-37 | tells whether any two neighbours are equal |
| Merkle.MerkleTree.AppendHash | src/util/merkle.rs:16-18 | adds one hash at the end |
| VarInt.VarintRoundTrip | src/packets/varint.rs:19-52 | every value reads back, whatever follows |
| VarInt.VarintIsShortestIff | src/packets/varint.rs:7-52 | a value reads from fewer bytes than the writer uses exactly when it is 0xFFFF or 0xFFFFFFFF |
| WireFormat.VarintIsRead | src/packets/varint.rs:38-52 | which bytes a varint is read from, for every leading byte, and when there are too few |
| Bytes.FourBytes | src/packets/buffer.rs:29-34 | the number four bytes stand for, least significant first |
| WireFormat.VarintIsWritten | src/packets/varint.rs:19-36 | how many bytes are written for every value, with which leading byte |
| VarInt.VarstrRoundTrip | src/packets/varstr.rs:14-29 | every byte string reads back, whatever follows |
| WireFormat.StringIsCounted | src/packets/varstr.rs:14-29 | a byte string is written after its length |
| VarInt.ArrayRoundTrip | src/packets/mod.rs:41-71 | arrays of items that read back read back |
| WireFormat.ArrayIsCounted | src/packets/mod.rs:65-71 | an array is its count and then its items |
| WireFormat.ItemsJoin | src/packets/mod.rs:65-71 | items are written one after another |
| WireFormat.OneItem | src/packets/mod.rs:65-71 | one item is its own bytes |
| VarInt.DeserializeArray | src/packets/mod.rs:54-63 | the item loop with its running offset is the recursive reader |
| VarInt.BlobRoundTrip | src/packets/varstr.rs:56-82 | a blob that spans itself is cut out exactly, whatever follows |
| VarInt.EncodedBlobIsWellFormed | src/packets/varstr.rs:56-82 | every encoded list of byte strings is such a blob |
| VarInt.IterateEncoded | src/packets/varstr.rs:84-116 | iterating over it gives back its strings |
| WireFormat.LengthCanWrap | src/packets/varstr.rs:56-68 | ten bytes on which the skipping offset wraps around and a string is read from the start again |
| TxCodec.RecordRoundTrip | src/tx/mod.rs:48-79 | every field of a stored record reads back, with the transaction without outputs; trailing bytes change nothing |
| TxCodec.TxRoundTrip | src/packets/tx.rs:166-211 | a transaction with inputs and one well-formed witness blob each reads back without its outputs |
| TxCodec.MarkerIsUnambiguous | src/packets/tx.rs:169-174 | the marker bytes appear exactly when there are witnesses |
| TxCodec.TxInRoundTrip | src/packets/tx.rs:422-438 | an input reads back |
| TxCodec.TxOutsRoundTrip | src/packets/tx.rs:540-552 | the stored outputs read back |
| TxCodec.TxSizeIs | src/packets/tx.rs:308-340 | the size computed ahead is the number of bytes written |
| TxCodec.AnalysisRoundTrip | src/tx/mod.rs:49-53 | fee, sum, size, sigops and block hash read back from their offsets |
| WireFormat.RecordBytes | src/tx/mod.rs:104-131 | at which offset every field of a stored record lies: fee 0, sum 8, size 16, operations 20, block 24, transaction 56, then the values |
| WireFormat.ValueBytes | src/tx/mod.rs:127-130 | an input value is its eight bytes |
| WireFormat.TxBytes | src/packets/tx.rs:342-369 | the same of a transaction: version first, the marker at 4 and the witnesses exactly when there are some, the lock time last |
| WireFormat.InputBytes | src/packets/tx.rs:422-438 | the same of an input: hash 0, index 32, script 36, then the sequence number |
| WireFormat.OutputBytes | src/packets/tx.rs:540-552 | the same of an output: value 0, script 8 |
| RecordWriter.SerializeVarintIntoSlice | src/packets/varint.rs:54-74 | writes the encoding in place and returns its length |
| RecordWriter.FlatSerialize | src/packets/tx.rs:596-604 | writes an output in place and returns its length |
| RecordWriter.SerializeTxouts | src/tx/mod.rs:150-168 | the summed size is exactly what gets written, and the result is the encoded array |
| RecordWriter.SerializeWithoutTxouts | src/packets/tx.rs:342-369 | writes the encoded transaction and nothing else |
| RecordWriter.WriteRecord | src/tx/mod.rs:104-131 | the record is the encoding followed by eight spare zero bytes |
| Script.PushReadsBack | src/tx/script.rs:47-70 | a push reads back as its data exactly when the data is shorter than 2^32 bytes |
| Script.PushIsShortest | src/tx/script.rs:50-70 | no script that reads as one push of the data is shorter |
| Script.NumberIsPushed | src/tx/script.rs:37-49 | -1, 0 and 1 to 16 have opcodes of their own, every other number reads back from its bytes |
| Script.GetSigopCount | src/tx/script.rs:187-209 | the loop counts as the recursive definition does, stopping at a failed read |
| Script.ReadIff | src/tx/script.rs:265-309 | a read succeeds exactly on a whole push in one of its four forms, and gives its data, or on an opcode above 0x4e |
| Script.LegacyCount | src/tx/script.rs:187-209 | over the opcodes read up to the first read that fails: the number of 0xac and 0xad, and twenty times that of 0xae and 0xaf |
| Script.AccurateCount | src/tx/script.rs:187-209 | the same with the keys named by the opcode before, from 1 to 16, or else twenty |
| Script.LegacyCountAdds | src/tx/script.rs:187-209 | behind a script read whole, counting is additive |
| Script.PushAddsNothing | src/tx/script.rs:187-209 | a push in front of code adds nothing |
| Script.PayToKeyHash | src/tx/script.rs:187-209 | 76 A9 14, twenty bytes, 88 AC counts exactly one |
| Script.CheckPushOnly | src/tx/script.rs:391-405 | the loop decides whether a script only pushes |
| Script.PushOnlyIff | src/tx/script.rs:391-405 | push-only scripts are exactly those read whole with no opcode above 0x60 |
| Script.PushOnlyHasNoSigops | src/tx/script.rs:187-209 | a push-only script has no signature operations |
| Script.SerializeI64 | src/tx/script.rs:408-442 | the loop and the sign rules give the script number |
| Script.NumberRoundTrip | src/tx/script.rs:408-442 | every number decodes back |
| Script.SignIsTopBit | src/tx/script.rs:408-442 | a positive number has its digits with the top bit clear, its negative the same with the bit set, zero no bytes |
| Script.NumberIsShortest | src/tx/script.rs:408-442 | no shorter script number has the same value |
| Script.MultisigSigops | src/tx/script.rs:444-453 | for any keys the accurate count is the number of keys for 1 to 16 and 20 otherwise; the legacy count is 20 |
| Script.MultisigEnds | src/tx/script.rs:444-453 | a script for m of n keys begins with m and ends with n and the check |
| SigopCost.WrappingKeepsCost | src/tx/script.rs:139-171 | wrapping any of a transaction's witness programs in P2SH leaves its cost unchanged, for every witness and all flags |
| SigopCost.CostByKinds | src/tx/script.rs:139-171 | the cost of any transaction but a coinbase: four times the legacy count of all its scripts, and per input 0, 1, the accurate count of the last witness item, or four times that of the script redeemed, by how it spends |
| SigopCost.CoinbaseCost | src/tx/script.rs:139-171 | a coinbase costs four times the legacy count of its scripts |
| SigopCost.P2SHIff | src/tx/script.rs:325-327 | which scripts pay to a script hash |
| SigopCost.WitnessProgramIff | src/tx/script.rs:355-371 | which scripts are witness programs, of which version |
| SigopCost.NumberHidesScript | src/tx/script.rs:229-263 | behind the script redeemed, a number opcode hides it from the P2SH count and not from the witness count |
| SigopCost.WrappedInput | src/tx/script.rs:229-263 | one wrapped input has no legacy or P2SH operations and the native witness count |
| SigopCost.ProgramShape | src/tx/script.rs:355-371 | a witness program is push-only, is not P2SH and has a program of 2 to 40 bytes |
| SigopCost.ScriptHashCountsLastItem | src/tx/script.rs:373-389 | a script hash program counts the last witness item |
| SigopCost.GetSigopCount2 | src/tx/script.rs:329-353 | the loop over the input script counts the last pushed script |
| SigopCost.FindLastData | src/tx/script.rs:244-249 | the loop finds the last pushed data |
| SigopCost.SumWitnessSigops | src/tx/script.rs:150-168 | the loop over the inputs adds up their witness operations |
| Compact.RoundsDownToRepresentable | src/util/compact.rs:3-33 | encoding and decoding gives the greatest representable value not above |
| Compact.CompactIsFloat | src/util/compact.rs:3-14 | the decoded target in numbers: the low 23 bits times 256 to the size less three, modulo 2^256, fractions dropped |
| Compact.RoundingIsMonotone | src/util/compact.rs:3-33 | rounding keeps order |
| Compact.DecodedIsFixed | src/util/compact.rs:3-33 | decoded values encode and decode to themselves |
| Compact.RoundTripDropsLowBytes | src/util/compact.rs:16-33 | rounding clears exactly the low-order bytes below the mantissa |
| Compact.ReencodeIffNormal | src/util/compact.rs:3-33 | decoding and encoding gives the same bits exactly for normalised forms |
| Retarget.RetargetStaysInLimit | src/util/pow.rs:18-35 | retargeting within the limit never overflows and stays within the limit |
| Retarget.RetargetIsProportional | src/util/pow.rs:18-35 | the new bits decode to the greatest representable value not above the least of the limit and the target times the seconds elapsed, kept within 302400 and 4838400, over 1209600 |
| Retarget.TwoWeeksKeepsBits | src/util/pow.rs:18-35 | after exactly two weeks the bits stay the same, exactly when they are normalised |
| Retarget.RetargetIsMonotone | src/util/pow.rs:18-35 | a longer timespan never lowers the target, which at most quadruples |
| Retarget.WorkIsExpectedHashes | src/packets/blockheader.rs:170-180 | the work is 2^256 divided by the target plus one, by way of the complement |
| Retarget.WorkFitsIff | src/packets/blockheader.rs:170-180 | the work fits 256 bits exactly when the target is not zero |
| Retarget.WorkIsAntitone | src/packets/blockheader.rs:170-180 | a larger target means no more work |
| AddressSpec.RowsOfTransaction | src/tx/mod.rs:187-237 | however the amends were sorted, the merged rows strictly increase, each belongs to an address with outputs to it minus inputs from it, and every amended address has a row |
| AddressSpec.KeyIsInjective | src/tx/mod.rs:256-302 | different addresses, times or transactions have different keys |
| AddressSpec.NewerIsLess | src/tx/mod.rs:262-263 | of two keys of one address the one of the later time is less, whatever the transactions |
| AddressSpec.LessIff | src/db/mod.rs:173-175 | the order of keys: bytewise, a key that ends first being less |
| AddressSpec.AddressIff | src/tx/mod.rs:304-355 | which scripts have an address, and which bytes of them it is |
| AddressSpec.OneAmend | src/tx/mod.rs:207-229 | an output created adds its value to its address, and one spent takes it off |
| AddressSpec.PaidToAdds | src/tx/mod.rs:207-229 | what an address is paid is the sum of the outputs whose script has it |
| AddressSpec.WrapIs | src/tx/mod.rs:219-230 | amounts are kept in 64 bits, up to multiples of 2^64 |
| AddressSpec.MergedIncreases | src/db/mod.rs:146-171 | merging a sorted list leaves one row per key, in strictly increasing order |
| AddressSpec.MergedTotalAt | src/db/mod.rs:155-166 | merging keeps the total at every key, in 64 bits |
| AddressSpec.MergedKeys | src/db/mod.rs:146-171 | merging neither loses a key nor adds one |
| AddressRows.SerializeAddressAmends | src/tx/mod.rs:187-232 | the two loops push exactly the deltas and the counted capacity is exact |
| AddressRows.ArenaArray.Push | src/util/arenaarray.rs:39-47 | appends, given room |
| AddressRows.ArenaArray.Pop | src/util/arenaarray.rs:49-56 | takes the last item |
| AddressRows.PushMerged | src/db/mod.rs:148-170 | the pop-and-push loop merges runs of equal keys and never fills the array |
| AddressRows.CollectEntries | src/db/mod.rs:127-172 | all blocks' rows are collected with their block, within the preallocated capacity |
| AddressBatch.RowsOfBatch | src/db/mod.rs:127-176 | for a batch in which no txid occurs twice, however its lists were sorted: keys strictly increase, every row is one transaction's, of the block it names, with outputs to the address minus inputs from it, and every address a transaction pays or spends from has its row |
| AddressBatch.NewestFirst | src/tx/mod.rs:262-263 | in the stored rows of a batch, those of one address stand newest first |
| AddressBatch.BatchIsStrict | src/db/mod.rs:173-175 | with distinct txids the sorted keys of a batch strictly increase |
| AddressBatch.RowOrigin | src/db/mod.rs:143-175 | every row comes from a transaction of the block it names |
| AddressBatch.BatchKeepsTotal | src/db/mod.rs:127-176 | the amounts written add up to all amends of the batch, in 64 bits |
| MinerSpec.ExtendedIsRecomputedIff | src/miners/mod.rs:144-222 | extending gives the recomputed window, counts and lists exactly when no dropped block returns to the window, none that should leave it hides behind one that stays, every new block in the window is passed under its own number, and every new block is attributed by its bytes as by its stored text |
| MinerSpec.RunIsRecomputedIff | src/miners/mod.rs:259-345 | over any run of batches with timestamps that never go back, the kept statistics are the recomputed ones exactly when every new block is attributed by its bytes as by its stored text and every new block still in the window at the end was passed under its own number |
| MinerSpec.OneBlock | src/miners/mod.rs:154-200 | what one block adds: it is recent when at most 1209600 seconds older than the last one, and counts for its miner |
| MinerSpec.ShareIsPart | src/miners/mod.rs:114-133 | a share is the part of the blocks in the window that are the miner's |
| MinerSpec.OddByteIsCountedTwice | src/miners/mod.rs:168-200 | under the rule a.b, a block with coinbase 61 FF 62 is of no known miner when it arrives and the pool's once recomputed |
| MinerSpec.TextsAreReadAlike | src/miners/mod.rs:292-322 | where coinbases are UTF-8 already, both ways attribute alike |
| MinerSpec.ReplacedStaysCounted | src/chainman/keepup.rs:211-217 | a last block that the new chain does not have stays in the kept statistics and is not in recomputed ones |
| MinerSpec.ShareMovesOn | src/miners/mod.rs:114-133 | while nothing leaves the window, a block of one miner lowers the share that older blocks of any other are credited with |
| Utf8.LossyKeepsIff | src/chainman/mod.rs:962 | storing a coinbase changes its bytes exactly when they are not UTF-8 |
| Utf8.LossyIsText | src/chainman/mod.rs:962 | what is stored is UTF-8 |
| Utf8.CharIff | src/chainman/mod.rs:962 | bytes begin with a character exactly when they begin with the shortest form of a Unicode scalar value, and it is kept |
| Utf8.BrokenIsLongest | src/chainman/mod.rs:962 | otherwise EF BF BD replaces one byte, or the longest beginning of a character |
| MinerSpec.WindowCanMoveBack | src/miners/mod.rs:154-168 | an example with distinct blocks of 2023 and later, one dated before its parent, where they differ |
| MinerSpec.DropIsKeepIff | src/miners/mod.rs:157-168 | popping from the front keeps exactly the recent blocks iff the old ones all come first |
| MinerStats.Miners.PopOld | src/miners/mod.rs:157-168 | every count stays its miner's tally, so no decrement goes below zero |
| MinerStats.Miners.ChainExtended | src/miners/mod.rs:144-222 | the loops give exactly the extended statistics, by the bytes of the coinbases and under the numbers passed, with every count its miner's tally |
| MinerStats.Miners.Recalculate | src/miners/mod.rs:259-345 | the loops give exactly the recomputed statistics, by the stored texts and under the headers' numbers |
| FrontPage.UpdateIsRegenerate | src/chainman/mod.rs:464-563 | updating the page of a chain with a batch gives the page of the longer chain, every block credited as when it was put there |
| FrontPage.UpdateIsRegenerateIff | src/chainman/mod.rs:464-563 | updating gives the page that would be generated now exactly when the older blocks still on it are credited as before |
| FrontPage.RunIsCurrentIff | src/chainman/mod.rs:464-563 | the same over any run of batches |
| FrontPage.BatchingDoesNotMatter | src/chainman/mod.rs:464-563 | however a chain was cut into batches, the page is that of the whole chain |
| FrontPage.BlockShown | src/chainman/mod.rs:392-421 | the k-th block on the page is the k-th from the top, up to fifty, and every field of its entry; the reward is the value of its first transaction |
| FrontPage.TxShown | src/chainman/mod.rs:423-440 | the transactions begin with those of the top block, and every field of an entry |
| FrontPage.TxsShown | src/chainman/mod.rs:423-447 | they go on with those of the block below, up to fifty |
| FrontPage.FrontPageData.Collect | src/chainman/mod.rs:392-447 | the loop collects the latest 50 blocks, with the miner and share of that moment, and 50 transactions, never more, and its subtractions never underflow |
| FrontPage.FrontPageData.Generate | src/chainman/mod.rs:376-462 | generating gives the page of the chain with the credits of that moment |
| FrontPage.FrontPageData.Update | src/chainman/mod.rs:486-563 | updating fills the new blocks' part, with the credits of that moment, up from the old page, within the limits |
| Arena.RegionsAreSafe | src/util/arena.rs:43-222 | under any interleaving all regions lie inside the capacity, are pairwise disjoint, and arrays are aligned |
| Arena.StepKeeps | src/util/arena.rs:43-222 | every attempt keeps the claims consecutive up to the counter |
| Arena.ClaimsIff | src/util/arena.rs:43-80 | an attempt claims exactly when the counter is as seen, the exchange is not spurious and padding and size fit; what it claims and hands out |
| Arena.SingleIsAlignedIff | src/util/arena.rs:43-80 | a single value is aligned exactly when no padding was needed |
| Arena.SingleCanBeMisaligned | src/util/arena.rs:43-80 | a run that hands out a misaligned value |
| Arena.GivesUpOnlyWhenFull | src/util/arena.rs:54-79 | a task that gives up would not find room at the current counter either |
| Arena.SomeoneMakesProgress | src/util/arena.rs:54-79 | an attempt that finds room and does not fail for no reason either claims, or finds that another task has claimed since |
| ArenaPool.CounterIsRight | src/packets/arenapool.rs:51-105 | with any number of tasks and any limit changes, the counter is the live arenas plus additions to come less drops to come |
| ArenaPool.StepRespectsLimit | src/packets/arenapool.rs:62-95 | no step grows past or shrinks below the limit its task has read |
| ArenaPool.GivenOutIff | src/packets/arenapool.rs:51-105 | an arena taken is given out exactly when the size read is within the limit |
| ArenaPool.ExchangeIff | src/packets/arenapool.rs:62-95 | the size changes exactly when a wanted exchange is not spurious and finds the size its task has read |
| ArenaPool.FreedIff | src/packets/arenapool.rs:51-105 | exactly which turns put an arena into the pool or take one |
| ArenaPool.SizeMovesToLimit | src/packets/arenapool.rs:47-105 | under a fixed limit the size only moves towards the limit and stays once there |

## Left out

- Sockets, handshake, crawler, HTTP API, metrics, logging, environment and serialisers to JSON: plumbing. Messages are the steps of the models.
- SQLite and RocksDB: maps or sorted rows they receive. Loading headers from SQLite on start is not modelled; a run may start from any sound state.
- SHA-256, hash160, regular expressions and text conversion: arbitrary functions, or parameters such as whether a witness commitment holds. How a rule matches a coinbase is an arbitrary function; the rule a.b and the replacement of what is not UTF-8 are written out for the example.
- No header hash is all zeros; this is assumed of every header applied, since the code uses zeros for the parent of genesis.
- Header work sums: 256-bit overflow of total work is not modelled.
- Panics: a panic while a header is applied leaves the lock poisoned; runs end there. In the codecs an error and a panic are the same `Err`.
- Clocks are positive and do not run backwards; the flush channel does not fail; the flush batch size is the default 64.
- Resolver memory: arenas and their lifetimes, and the empty last batch on shutdown, are not modelled.
- ApplyQueueSpec.Step: blocks of the initial download and of the queue do not overlap in time, as the two sync flags intend; of the queue it keeps the hashes (`ApplyQueue`, `Reorganisation` and `PageRuns` have the whole entries).
- ApplyQueue.Watcher.HandleNewBlock: resolving and writing the block and its metrics are left out, and a failed lookup, which drops the block, is taken not to happen; what an entry does to page and statistics is `PageRuns.PageAfterEntry` and `StatsFollow.StatsAfterEntry`.
- PageRuns.Shows: pages are compared there without miners and shares, whose law is `FrontPage.IsCurrentIff`; day statistics and sync status are not on the modelled page.
- Reorganisation.QueuedNumbers: an underflow wraps around, as in a release build; in a debug build it panics.
- StatsFollow.Describes: no header is dated within two weeks of 1970.
- Floating point: download speed estimates, worker count tuning, fee rates, miner shares.
- `OnlineList` and the day grouping of `calculate_stats`: no clean statement holds of them.
- FrontPage.Short: prices are constants in the code; the credits of a moment are any function, and `MinerSpec.CreditOf` is what the statistics give.
- Retarget.WorkIsExpectedHashes: a zero target, on which the code overflows, has a value here; see `Retarget.WorkFitsIff`.
- SigopCost.Cost: the flags are parameters; `analyze_tx` always sets the P2SH one, and the witness one for transactions with witnesses. Counts are unbounded; 32-bit sums cannot overflow for transactions that fit in a block.
- VarInt.DecodeArray: allocation failure for absurd counts is not modelled.
- RecordWriter.WriteRecord: transaction hashes, fee, weight and the spend keys are inputs or left out; allocation in the arena succeeds.
- AddressRows.CollectEntries: the library sort is any reordering in key order; the spend and transaction tables, which are sorted copies, are left out.
- MinerStats.Miners.Recalculate: blocks newer than two weeks after 1970 are required, as the code subtracts without a check.
- Arena.Fits: sizes are unbounded. The product of element size and count, and the sum of counter, padding and size (src/util/arena.rs:54), could wrap in a release build for absurd counts, pass the capacity test and move the counter back.
- FrontPage.FrontPageData.Collect: every block has a transaction, as the code reads the first one.
- Arena: writing the values and releasing the memory; `reset` bounds the runs considered. The pool's own queueing is a counter of free arenas.
- Transaction weight, fixed-layout packets and human-readable addresses: only easy members.
