/** The block download master: its fields, and the handling of one worker message. */
module Scheduler {
  import opened Wrappers
  import opened Bytes
  import opened Seqs
  import opened SchedulerSpec
  import opened SchedulerProof

  class MasterState {
    var missingBlocks: seq<Hash>
    var firstMissingNumber: nat
    var lastRequestTimes: seq<nat>
    var nextToApply: nat
    var nextNeverAskedFor: nat
    var backlog: seq<BlockWithNumber>
    /** What has been sent on the flush channel. */
    var flushed: seq<BlockWithNumber>

    function State(): Master
      reads this
    {
      Master(missingBlocks, firstMissingNumber, lastRequestTimes, nextToApply, nextNeverAskedFor, backlog, flushed)
    }

    constructor (missingBlocks: seq<Hash>, firstMissingNumber: nat)
      ensures State() == Init(missingBlocks, firstMissingNumber)
      ensures Inv(State()) && ClockOk(State(), 0)
    {
      this.missingBlocks := missingBlocks;
      this.firstMissingNumber := firstMissingNumber;
      lastRequestTimes := seq(|missingBlocks|, i => 0);
      nextToApply := 0;
      nextNeverAskedFor := 0;
      backlog := [];
      flushed := [];
    }

    /** One worker message: takes the result, if any, and answers with the next job. */
    method HandleWorkerMessage(msg: Message, now: nat) returns (job: Option<Job>)
      requires Inv(State()) && Legal(State(), msg) && now > 0 && ClockOk(State(), now)
      modifies this
      ensures Step(old(State()), msg, now, State(), job)
      ensures Inv(State()) && ClockOk(State(), now) && JobOk(State(), job)
    {
      var canAdvance := true;
      if msg.PushResultAndGetNewJob? {
        ReceiveKeeps(State(), msg.block);
        AcceptBlock(msg.block);
        canAdvance := |backlog| <= BACKLOG_LIMIT;
      }
      ghost var mid := State();
      job := FindNextBestJob(canAdvance, now);
      JobStepKeeps(mid, canAdvance, now, State(), job);
    }

    /** First half of handling a result: flush it, keep it for later, or discard it. */
    method AcceptBlock(block: BlockWithNumber)
      requires Descending(backlog) && |lastRequestTimes| == |missingBlocks|
      requires firstMissingNumber <= block.number < firstMissingNumber + |missingBlocks|
      modifies this
      ensures State() == Receive(old(State()), block)
    {
      if block.number > firstMissingNumber + nextToApply {
        var found, i := BinarySearch(backlog, block.number);
        InsertIsAt(backlog, block, found, i);
        if !found {
          backlog := backlog[..i] + [block] + backlog[i..];
        }
        lastRequestTimes := lastRequestTimes[block.number - firstMissingNumber := 0];
      } else if block.number < firstMissingNumber + nextToApply {
        // already flushed: discard it
      } else {
        nextToApply := nextToApply + 1;
        flushed := flushed + [block];
        ApplyFromBacklog();
      }
    }

    method ApplyFromBacklog()
      modifies `backlog, `nextToApply, `flushed
      ensures State() == Drain(old(State()))
    {
      while backlog != [] && backlog[|backlog| - 1].number == firstMissingNumber + nextToApply
        invariant Drain(State()) == Drain(old(State()))
        decreases |backlog|
      {
        var popped := backlog[|backlog| - 1];
        backlog := backlog[..|backlog| - 1];
        nextToApply := nextToApply + 1;
        flushed := flushed + [popped];
      }
    }

    /** The next block to ask for; the source's panic is the assertion in the middle. */
    method FindNextBestJob(canAdvance: bool, now: nat) returns (job: Option<Job>)
      requires Inv(State()) && ClockOk(State(), now)
      requires canAdvance || backlog != []
      modifies `lastRequestTimes, `nextNeverAskedFor
      ensures JobStep(old(State()), canAdvance, now, State(), job)
    {
      ghost var m := State();
      var oldest := 0;
      var oldestIndex: Option<nat> := None;
      for i := nextToApply to nextNeverAskedFor
        invariant State() == m
        invariant forall j: nat :: j < i ==> !TimedOut(m, j, now)
        invariant oldestIndex.None? ==> forall j: nat :: j < i ==> !Waiting(m, j)
        invariant oldestIndex.Some? ==>
                    && Waiting(m, oldestIndex.value) && oldestIndex.value < i
                    && oldest == now - m.times[oldestIndex.value]
                    && (forall j: nat :: j < i && Waiting(m, j) ==>
                          now - m.times[j] < oldest || (now - m.times[j] == oldest && oldestIndex.value <= j))
      {
        var requestedAt := lastRequestTimes[i];
        if requestedAt == 0 {
          // held, but waiting for a block before it
          continue;
        }
        var elapsed := now - requestedAt;
        if elapsed > RETRY_AFTER {
          assert TimedOut(m, i, now);
          assert FirstTimedOut(m, i, now);
          lastRequestTimes := lastRequestTimes[i := now];
          assert AskAgain(m, i, now, State(), Some(JobAt(m, i)));
          return Some(Job(missingBlocks[i], firstMissingNumber + i));
        }
        if oldestIndex.None? || elapsed > oldest {
          oldestIndex, oldest := Some(i), elapsed;
        }
      }
      assert forall j: nat :: !TimedOut(m, j, now);
      if !canAdvance {
        match oldestIndex {
          case Some(i) =>
            assert LongestWaiting(m, i);
            lastRequestTimes := lastRequestTimes[i := now];
            assert AskAgain(m, i, now, State(), Some(JobAt(m, i)));
            return Some(Job(missingBlocks[i], firstMissingNumber + i));
          case None =>
            SomethingIsWaiting(m);
            assert false;
        }
      }
      if nextNeverAskedFor < |missingBlocks| {
        var index := nextNeverAskedFor;
        lastRequestTimes := lastRequestTimes[index := now];
        nextNeverAskedFor := nextNeverAskedFor + 1;
        return Some(Job(missingBlocks[index], firstMissingNumber + index));
      }
      if nextToApply < nextNeverAskedFor {
        return Some(Job(missingBlocks[nextToApply], firstMissingNumber + nextToApply));
      }
      return None;
    }
  }

  /** Everything before i is younger than the number, everything from i on older. */
  predicate Separates(backlog: seq<BlockWithNumber>, i: nat, number: nat)
    requires i <= |backlog|
  {
    && (forall j :: 0 <= j < i ==> backlog[j].number > number)
    && (forall j :: i <= j < |backlog| ==> backlog[j].number < number)
  }

  /** The place of a number in a youngest-first backlog, or where it would go. */
  method BinarySearch(backlog: seq<BlockWithNumber>, number: nat) returns (found: bool, i: nat)
    requires Descending(backlog)
    ensures i <= |backlog|
    ensures found ==> i < |backlog| && backlog[i].number == number
    ensures !found ==> Separates(backlog, i, number)
  {
    var lo, hi := 0, |backlog|;
    while lo < hi
      invariant 0 <= lo <= hi <= |backlog|
      invariant forall j :: 0 <= j < lo ==> backlog[j].number > number
      invariant forall j :: hi <= j < |backlog| ==> backlog[j].number < number
    {
      var mid := (lo + hi) / 2;
      if backlog[mid].number == number {
        return true, mid;
      } else if backlog[mid].number > number {
        lo := mid + 1;
      } else {
        hi := mid;
      }
    }
    return false, lo;
  }

  /** Splicing at the searched place is the ordered insertion. */
  lemma {:induction false} InsertIsAt(backlog: seq<BlockWithNumber>, b: BlockWithNumber, found: bool, i: nat)
    requires i <= |backlog| && Descending(backlog)
    requires found ==> i < |backlog| && backlog[i].number == b.number
    requires !found ==> Separates(backlog, i, b.number)
    ensures Insert(backlog, b) == if found then backlog else backlog[..i] + [b] + backlog[i..]
  {
    if i > 0 {
      InsertIsAt(backlog[1..], b, found, i - 1);
      InsertFurther(backlog, b, i);
    }
  }
}
