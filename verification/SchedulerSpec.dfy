/**
 * What one message does to the block download scheduler, as a relation on values, and what every
 * run keeps. The class in Scheduler.dfy is proved to take exactly these steps.
 */
module SchedulerSpec {
  import opened Wrappers
  import opened Bytes

  /** A downloaded block: the hash of its header, and the rest of the packet. */
  datatype Payload = Payload(hash: Hash, body: seq<Byte>)
  datatype BlockWithNumber = BlockWithNumber(payload: Payload, number: nat)
  datatype Job = Job(hash: Hash, number: nat)

  datatype Message =
    | PullFirstJob
    | PushResultAndGetNewJob(block: BlockWithNumber)

  datatype Master = Master(
    missing: seq<Hash>,               // hashes to download, lowest block first
    first: nat,                       // number of the first of them
    times: seq<nat>,                  // when each was last asked for; 0 once it is held
    nextToApply: nat,
    nextNever: nat,                   // next_never_asked_for
    backlog: seq<BlockWithNumber>,    // held blocks, youngest first
    flushed: seq<BlockWithNumber>     // everything sent on the flush channel so far
  )

  /** Milliseconds after which a requested block is asked for again. */
  const RETRY_AFTER: nat := 1_000
  /** While the backlog is longer than this, no new block is asked for. */
  const BACKLOG_LIMIT: nat := 512

  function Init(missing: seq<Hash>, first: nat): Master {
    Master(missing, first, seq(|missing|, i => 0), 0, 0, [], [])
  }

  function JobAt(m: Master, i: nat): Job
    requires i < |m.missing|
  {
    Job(m.missing[i], m.first + i)
  }

  // ---------------------------------------------------------------- receiving a block

  /** Puts a block into the youngest-first backlog; a number already there is left alone. */
  function Insert(backlog: seq<BlockWithNumber>, b: BlockWithNumber): seq<BlockWithNumber> {
    if backlog == [] then [b]
    else if backlog[0].number > b.number then [backlog[0]] + Insert(backlog[1..], b)
    else if backlog[0].number == b.number then backlog
    else [b] + backlog
  }

  function SendOldest(m: Master): Master
    requires m.backlog != []
  {
    var last := |m.backlog| - 1;
    m.(backlog := m.backlog[..last], nextToApply := m.nextToApply + 1, flushed := m.flushed + [m.backlog[last]])
  }

  predicate OldestIsWanted(m: Master) {
    m.backlog != [] && m.backlog[|m.backlog| - 1].number == m.first + m.nextToApply
  }

  /** Sends held blocks from the old end of the backlog for as long as the wanted one is there. */
  function Drain(m: Master): Master
    decreases |m.backlog|
  {
    if OldestIsWanted(m) then Drain(SendOldest(m)) else m
  }

  function Receive(m: Master, b: BlockWithNumber): Master
    requires |m.times| == |m.missing|
    requires m.first <= b.number < m.first + |m.missing|
  {
    if b.number > m.first + m.nextToApply then
      m.(backlog := Insert(m.backlog, b), times := m.times[b.number - m.first := 0])
    else if b.number < m.first + m.nextToApply then
      m
    else
      Drain(m.(nextToApply := m.nextToApply + 1, flushed := m.flushed + [b]))
  }

  // ---------------------------------------------------------------- choosing a job

  /** Asked for, not sent to flush, and not held. */
  predicate Waiting(m: Master, i: nat) {
    m.nextToApply <= i < m.nextNever && i < |m.times| && m.times[i] != 0
  }

  predicate TimedOut(m: Master, i: nat, now: nat) {
    Waiting(m, i) && now - m.times[i] > RETRY_AFTER
  }

  ghost predicate FirstTimedOut(m: Master, i: nat, now: nat) {
    TimedOut(m, i, now) && forall j: nat :: TimedOut(m, j, now) ==> i <= j
  }

  /** The lowest of the blocks waited for longest. */
  ghost predicate LongestWaiting(m: Master, i: nat) {
    && Waiting(m, i)
    && forall j: nat :: Waiting(m, j) ==> m.times[i] < m.times[j] || (m.times[i] == m.times[j] && i <= j)
  }

  predicate AskAgain(m: Master, i: nat, now: nat, m': Master, job: Option<Job>)
    requires i < |m.times| == |m.missing|
  {
    m' == m.(times := m.times[i := now]) && job == Some(JobAt(m, i))
  }

  ghost predicate JobStep(m: Master, canAdvance: bool, now: nat, m': Master, job: Option<Job>)
    requires |m.times| == |m.missing|
    requires m.nextToApply <= m.nextNever <= |m.missing|
  {
    if exists i: nat :: TimedOut(m, i, now) then
      exists i: nat :: FirstTimedOut(m, i, now) && AskAgain(m, i, now, m', job)
    else if !canAdvance then
      exists i: nat :: LongestWaiting(m, i) && AskAgain(m, i, now, m', job)
    else if m.nextNever < |m.missing| then
      && m' == m.(times := m.times[m.nextNever := now], nextNever := m.nextNever + 1)
      && job == Some(JobAt(m, m.nextNever))
    else if m.nextToApply < m.nextNever then
      m' == m && job == Some(JobAt(m, m.nextToApply))
    else
      m' == m && job == None
  }

  // ---------------------------------------------------------------- one message

  /** A worker only sends a block that matches a job it was given, however late. */
  predicate Legal(m: Master, msg: Message) {
    msg.PushResultAndGetNewJob? ==>
      var n := msg.block.number;
      m.first <= n < m.first + m.nextNever && n - m.first < |m.missing|
      && msg.block.payload.hash == m.missing[n - m.first]
  }

  function AfterReceive(m: Master, msg: Message): Master
    requires |m.times| == |m.missing| && Legal(m, msg)
  {
    if msg.PullFirstJob? then m else Receive(m, msg.block)
  }

  predicate CanAdvance(m: Master, msg: Message)
    requires |m.times| == |m.missing| && Legal(m, msg)
  {
    msg.PullFirstJob? || |AfterReceive(m, msg).backlog| <= BACKLOG_LIMIT
  }

  ghost predicate Step(m: Master, msg: Message, now: nat, m': Master, job: Option<Job>)
    requires |m.times| == |m.missing| && Legal(m, msg)
  {
    var mid := AfterReceive(m, msg);
    && |mid.times| == |mid.missing|
    && mid.nextToApply <= mid.nextNever <= |mid.missing|
    && JobStep(mid, CanAdvance(m, msg), now, m', job)
  }

  // ---------------------------------------------------------------- the invariant

  predicate HasNumber(backlog: seq<BlockWithNumber>, number: nat) {
    exists k :: 0 <= k < |backlog| && backlog[k].number == number
  }

  /** The i-th missing block has been received and waits in the backlog. */
  predicate Held(m: Master, i: nat) {
    HasNumber(m.backlog, m.first + i)
  }

  predicate Descending(backlog: seq<BlockWithNumber>) {
    forall i, j :: 0 <= i < j < |backlog| ==> backlog[i].number > backlog[j].number
  }

  predicate Genuine(m: Master, b: BlockWithNumber) {
    && m.first <= b.number < m.first + |m.missing|
    && b.payload.hash == m.missing[b.number - m.first]
  }

  /** The backlog is youngest-first, duplicate-free, and strictly between the wanted and the next unasked block. */
  predicate BacklogOk(m: Master) {
    && Descending(m.backlog)
    && BacklogWithin(m, m.first + m.nextToApply + 1)
  }

  predicate BacklogWithin(m: Master, low: nat) {
    forall k :: 0 <= k < |m.backlog| ==>
      Genuine(m, m.backlog[k]) && low <= m.backlog[k].number < m.first + m.nextNever
  }

  /** The flush channel carried missing_blocks[0..next_to_apply], in order, each once. */
  predicate FlushedOk(m: Master) {
    && |m.flushed| == m.nextToApply
    && forall i :: 0 <= i < |m.flushed| ==>
         Genuine(m, m.flushed[i]) && m.flushed[i].number == m.first + i
  }

  /** Request time 0 means exactly: held. */
  ghost predicate TimesOk(m: Master) {
    && |m.times| == |m.missing|
    && forall i: nat :: m.nextToApply <= i < m.nextNever && i < |m.times| ==> (m.times[i] == 0 <==> Held(m, i))
  }

  predicate ClockOk(m: Master, clock: nat) {
    forall i :: 0 <= i < |m.times| ==> m.times[i] <= clock
  }

  ghost predicate Inv(m: Master) {
    && m.nextToApply <= m.nextNever <= |m.missing|
    && TimesOk(m)
    && BacklogOk(m)
    && FlushedOk(m)
  }
}
