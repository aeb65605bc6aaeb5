/** What every message keeps, and safety over whole runs of the scheduler. */
module SchedulerProof {
  import opened Wrappers
  import opened Bytes
  import opened SchedulerSpec

  lemma {:induction false} InsertKeeps(backlog: seq<BlockWithNumber>, b: BlockWithNumber)
    requires Descending(backlog)
    ensures var r := Insert(backlog, b);
      && Descending(r)
      && (forall x :: x in r ==> x in backlog || x == b)
      && (forall n: nat :: HasNumber(r, n) <==> HasNumber(backlog, n) || n == b.number)
  {
    var r := Insert(backlog, b);
    if backlog != [] && backlog[0].number > b.number {
      var t := Insert(backlog[1..], b);
      InsertKeeps(backlog[1..], b);
      assert r == [backlog[0]] + t;
      DescendingCons(backlog[0], t);
      HasNumberCons(backlog[0], t);
      HasNumberCons(backlog[0], backlog[1..]);
      assert backlog == [backlog[0]] + backlog[1..];
    } else if backlog != [] && backlog[0].number == b.number {
      assert HasNumber(backlog, b.number);
    } else {
      HasNumberCons(b, backlog);
      assert r == [b] + backlog;
    }
  }

  lemma {:induction false} DescendingCons(b: BlockWithNumber, t: seq<BlockWithNumber>)
    requires Descending(t) && forall x :: x in t ==> b.number > x.number
    ensures Descending([b] + t)
  {
    var r := [b] + t;
    forall i, j | 0 <= i < j < |r| ensures r[i].number > r[j].number {
      assert r[j] == t[j - 1] && t[j - 1] in t;
      if i > 0 {
        assert r[i] == t[i - 1];
      }
    }
  }

  lemma {:induction false} HasNumberCons(b: BlockWithNumber, t: seq<BlockWithNumber>)
    ensures forall n: nat :: HasNumber([b] + t, n) <==> HasNumber(t, n) || n == b.number
  {
    var r := [b] + t;
    forall n: nat ensures HasNumber(r, n) <==> HasNumber(t, n) || n == b.number {
      assert r[0] == b;
      if HasNumber(t, n) {
        var k :| 0 <= k < |t| && t[k].number == n;
        assert r[k + 1].number == n;
      }
      if HasNumber(r, n) && n != b.number {
        var k :| 0 <= k < |r| && r[k].number == n;
        assert t[k - 1].number == n;
      }
    }
  }

  /** Taking the oldest held block off a descending backlog removes exactly its number. */
  lemma {:induction false} HasNumberInit(backlog: seq<BlockWithNumber>)
    requires backlog != []
    ensures forall n: nat :: HasNumber(backlog, n) <==>
              HasNumber(backlog[..|backlog| - 1], n) || n == backlog[|backlog| - 1].number
  {
    var t := backlog[..|backlog| - 1];
    forall n: nat ensures HasNumber(backlog, n) <==> HasNumber(t, n) || n == backlog[|backlog| - 1].number {
      if HasNumber(t, n) {
        var k :| 0 <= k < |t| && t[k].number == n;
        assert backlog[k].number == n;
      }
      if HasNumber(backlog, n) && n != backlog[|backlog| - 1].number {
        var k :| 0 <= k < |backlog| && backlog[k].number == n;
        assert t[k].number == n;
      }
    }
  }

  /** The invariant in the middle of draining, when the oldest held block may be the wanted one. */
  ghost predicate Draining(m: Master) {
    && m.nextToApply <= m.nextNever <= |m.missing|
    && TimesOk(m)
    && Descending(m.backlog)
    && BacklogWithin(m, m.first + m.nextToApply)
    && FlushedOk(m)
  }

  lemma {:induction false} SendOldestKeeps(m: Master)
    requires Draining(m) && OldestIsWanted(m)
    ensures Draining(SendOldest(m))
  {
    HasNumberInit(m.backlog);
  }

  /** Draining restores the invariant: it stops only when the oldest held block is not the wanted one. */
  lemma {:induction false} DrainKeeps(m: Master)
    requires Draining(m)
    ensures var d := Drain(m);
      && Inv(d)
      && d == m.(nextToApply := d.nextToApply, backlog := d.backlog, flushed := d.flushed)
      && m.nextToApply <= d.nextToApply
      && m.flushed <= d.flushed
    decreases |m.backlog|
  {
    if OldestIsWanted(m) {
      SendOldestKeeps(m);
      DrainKeeps(SendOldest(m));
    } else if m.backlog != [] {
      assert BacklogWithin(m, m.first + m.nextToApply + 1);
    }
  }

  lemma {:induction false} ReceiveAheadKeeps(m: Master, b: BlockWithNumber)
    requires Inv(m) && Legal(m, PushResultAndGetNewJob(b))
    requires b.number > m.first + m.nextToApply
    ensures Inv(Receive(m, b))
  {
    InsertKeeps(m.backlog, b);
    InsertedWithin(m, b, Receive(m, b));
  }

  lemma {:induction false} InsertedWithin(m: Master, b: BlockWithNumber, r: Master)
    requires Inv(m) && Legal(m, PushResultAndGetNewJob(b)) && b.number > m.first + m.nextToApply
    requires r == m.(backlog := r.backlog, times := r.times) && forall x :: x in r.backlog ==> x in m.backlog || x == b
    ensures BacklogWithin(r, r.first + r.nextToApply + 1)
  {
    forall k | 0 <= k < |r.backlog|
      ensures Genuine(r, r.backlog[k])
      ensures r.first + r.nextToApply < r.backlog[k].number < r.first + r.nextNever
    {
      assert r.backlog[k] in r.backlog;
    }
  }

  lemma {:induction false} ReceiveKeeps(m: Master, b: BlockWithNumber)
    requires Inv(m) && Legal(m, PushResultAndGetNewJob(b))
    ensures var r := Receive(m, b);
      && Inv(r)
      && r.missing == m.missing && r.first == m.first && r.nextNever == m.nextNever
      && m.nextToApply <= r.nextToApply
      && m.flushed <= r.flushed
      && (forall i :: 0 <= i < |m.times| ==> r.times[i] <= m.times[i])
  {
    if b.number > m.first + m.nextToApply {
      ReceiveAheadKeeps(m, b);
    } else if b.number == m.first + m.nextToApply {
      DrainKeeps(m.(nextToApply := m.nextToApply + 1, flushed := m.flushed + [b]));
    }
  }

  /** With anything held, the wanted block itself is being waited for: the panic cannot be reached. */
  lemma {:induction false} SomethingIsWaiting(m: Master)
    requires Inv(m) && m.backlog != []
    ensures Waiting(m, m.nextToApply)
  {
    var b := m.backlog[0];
    assert m.first + m.nextToApply < b.number < m.first + m.nextNever;
    assert !Held(m, m.nextToApply);
  }

  lemma {:induction false} AskAgainKeeps(m: Master, i: nat, now: nat, m': Master, job: Option<Job>)
    requires Inv(m) && now > 0 && ClockOk(m, now)
    requires Waiting(m, i) && AskAgain(m, i, now, m', job)
    ensures Inv(m') && ClockOk(m', now) && JobOk(m', job)
  {
    assert !Held(m, i);
    assert JobAt(m', i) == JobAt(m, i);
  }

  /** Asking for a block that is not held keeps the invariant. */
  lemma {:induction false} JobStepKeeps(m: Master, canAdvance: bool, now: nat, m': Master, job: Option<Job>)
    requires Inv(m) && now > 0 && ClockOk(m, now)
    requires JobStep(m, canAdvance, now, m', job)
    ensures Inv(m') && ClockOk(m', now)
    ensures m'.missing == m.missing && m'.first == m.first && m'.nextToApply == m.nextToApply
    ensures m'.flushed == m.flushed && m'.backlog == m.backlog && m.nextNever <= m'.nextNever
    ensures JobOk(m', job)
  {
    if exists i: nat :: TimedOut(m, i, now) {
      var i: nat :| FirstTimedOut(m, i, now) && AskAgain(m, i, now, m', job);
      AskAgainKeeps(m, i, now, m', job);
    } else if !canAdvance {
      var i: nat :| LongestWaiting(m, i) && AskAgain(m, i, now, m', job);
      AskAgainKeeps(m, i, now, m', job);
    } else {
      AdvanceKeeps(m, now, m', job);
    }
  }

  /** Nothing has timed out and the backlog is short: the next new block, the wanted one again, or no job. */
  lemma {:induction false} AdvanceKeeps(m: Master, now: nat, m': Master, job: Option<Job>)
    requires Inv(m) && now > 0 && ClockOk(m, now)
    requires JobStep(m, true, now, m', job) && !exists i: nat :: TimedOut(m, i, now)
    ensures Inv(m') && ClockOk(m', now)
    ensures m'.missing == m.missing && m'.first == m.first && m'.nextToApply == m.nextToApply
    ensures m'.flushed == m.flushed && m'.backlog == m.backlog && m.nextNever <= m'.nextNever
    ensures JobOk(m', job)
  {
    if m.nextNever < |m.missing| {
      assert !Held(m, m.nextNever);
    } else if m.nextToApply < m.nextNever {
      assert !Held(m, m.nextToApply);
    } else if m.backlog != [] {
      SomethingIsWaiting(m);
    }
  }

  /**
   * A job names a block in range that is neither flushed nor held; no job means that every missing
   * block has been flushed.
   */
  predicate JobOk(m: Master, job: Option<Job>) {
    match job
    case None => m.nextToApply == |m.missing| && |m.flushed| == |m.missing| && m.backlog == []
    case Some(j) =>
      var i := j.number - m.first;
      && m.nextToApply <= i < m.nextNever <= |m.missing|
      && j == JobAt(m, i)
      && !Held(m, i)
  }

  /** One message keeps the invariant, only appends to the flush channel, and answers with a sound job. */
  lemma {:induction false} StepKeeps(m: Master, msg: Message, now: nat, m': Master, job: Option<Job>)
    requires Inv(m) && Legal(m, msg) && now > 0 && ClockOk(m, now)
    requires Step(m, msg, now, m', job)
    ensures Inv(m') && ClockOk(m', now)
    ensures m'.missing == m.missing && m'.first == m.first
    ensures m.nextToApply <= m'.nextToApply && m.nextNever <= m'.nextNever && m.flushed <= m'.flushed
    ensures JobOk(m', job)
  {
    var mid := AfterReceive(m, msg);
    if msg.PushResultAndGetNewJob? {
      ReceiveKeeps(m, msg.block);
    }
    JobStepKeeps(mid, CanAdvance(m, msg), now, m', job);
  }

  // ---------------------------------------------------------------- whole runs

  datatype Event = Event(msg: Message, now: nat, reply: Option<Job>)

  /** The block of a pushed result answers some job handed out before event k. */
  ghost predicate AnswersEarlierJob(events: seq<Event>, k: nat)
    requires k < |events|
  {
    events[k].msg.PushResultAndGetNewJob? ==>
      exists e :: 0 <= e < k && events[e].reply.Some?
        && events[e].reply.value.number == events[k].msg.block.number
        && events[e].reply.value.hash == events[k].msg.block.payload.hash
  }

  /**
   * states[k+1] is what event k makes of states[k]. Workers may answer late, twice, out of order or
   * never; the clock is positive and never goes back.
   */
  ghost predicate Run(missing: seq<Hash>, first: nat, states: seq<Master>, events: seq<Event>) {
    && |states| == |events| + 1
    && states[0] == Init(missing, first)
    && (forall k :: 0 <= k < |events| ==> AnswersEarlierJob(events, k))
    && (forall k :: 0 <= k < |events| ==> events[k].now > 0)
    && (forall j, k :: 0 <= j <= k < |events| ==> events[j].now <= events[k].now)
    && (forall k :: 0 <= k < |events| ==>
          && |states[k].times| == |states[k].missing|
          && (Legal(states[k], events[k].msg) ==>
                Step(states[k], events[k].msg, events[k].now, states[k + 1], events[k].reply)))
  }

  /** What is known at the n-th state of a run. */
  ghost predicate KnownAt(missing: seq<Hash>, first: nat, states: seq<Master>, events: seq<Event>, n: nat)
    requires n <= |events| && |states| == |events| + 1
  {
    && Inv(states[n])
    && states[n].missing == missing && states[n].first == first
    && ClockOk(states[n], if n == 0 then 0 else events[n - 1].now)
    && (forall e :: 0 <= e < n && events[e].reply.Some? ==>
          var i := events[e].reply.value.number - first;
          0 <= i < states[n].nextNever && events[e].reply.value == JobAt(states[n], i))
  }

  lemma {:induction false} RunKnown(missing: seq<Hash>, first: nat, states: seq<Master>, events: seq<Event>, n: nat)
    requires Run(missing, first, states, events) && n <= |events|
    ensures KnownAt(missing, first, states, events, n)
    decreases n, 0
  {
    if n > 0 {
      RunStep(missing, first, states, events, n - 1);
    }
  }

  /** Event n of a run is a legal step from a state where everything known holds. */
  lemma {:induction false} RunStep(missing: seq<Hash>, first: nat, states: seq<Master>, events: seq<Event>, n: nat)
    requires Run(missing, first, states, events) && n < |events|
    ensures KnownAt(missing, first, states, events, n + 1)
    ensures states[n].flushed <= states[n + 1].flushed
    ensures JobOk(states[n + 1], events[n].reply)
    decreases n, 1
  {
    RunKnown(missing, first, states, events, n);
    var m, e := states[n], events[n];
    EventIsLegal(missing, first, states, events, n);
    StepKeeps(m, e.msg, e.now, states[n + 1], e.reply);
    KnownNext(missing, first, states, events, n);
  }

  lemma {:induction false} KnownNext(missing: seq<Hash>, first: nat, states: seq<Master>, events: seq<Event>, n: nat)
    requires |states| == |events| + 1 && n < |events| && KnownAt(missing, first, states, events, n)
    requires var m, m' := states[n], states[n + 1];
      && Inv(m') && ClockOk(m', events[n].now)
      && m'.missing == m.missing && m'.first == m.first && m.nextNever <= m'.nextNever && JobOk(m', events[n].reply)
    ensures KnownAt(missing, first, states, events, n + 1)
  {
  }

  lemma {:induction false} EventIsLegal(missing: seq<Hash>, first: nat, states: seq<Master>, events: seq<Event>, n: nat)
    requires Run(missing, first, states, events) && n < |events| && KnownAt(missing, first, states, events, n)
    ensures var m, e := states[n], events[n];
      && Legal(m, e.msg) && |m.times| == |m.missing| && ClockOk(m, e.now) && e.now > 0
      && Step(m, e.msg, e.now, states[n + 1], e.reply)
  {
    assert AnswersEarlierJob(events, n);
    assert n > 0 ==> events[n - 1].now <= events[n].now;
  }

  /**
   * Safety over whole runs: whatever the workers do, the flush channel has carried exactly the first
   * next_to_apply missing blocks, consecutively numbered; nothing sent is ever taken back; every reply
   * is a job in range for a block neither flushed nor held; and a worker is dismissed only when all
   * missing blocks have been flushed.
   */
  lemma {:induction false} RunIsSafe(missing: seq<Hash>, first: nat, states: seq<Master>, events: seq<Event>, n: nat)
    requires Run(missing, first, states, events) && n < |events|
    ensures var m := states[n + 1];
      && Inv(m)
      && states[n].flushed <= m.flushed
      && |m.flushed| <= |missing|
      && (forall i :: 0 <= i < |m.flushed| ==>
            m.flushed[i].payload.hash == missing[i] && m.flushed[i].number == first + i)
      && JobOk(m, events[n].reply)
      && (events[n].reply.None? ==> |m.flushed| == |missing|)
  {
    RunStep(missing, first, states, events, n);
    var m := states[n + 1];
    forall i | 0 <= i < |m.flushed|
      ensures m.flushed[i].payload.hash == missing[i] && m.flushed[i].number == first + i
    {
      assert Genuine(m, m.flushed[i]);
    }
  }

  // ---------------------------------------------------------------- which block is asked for

  /** The first of the blocks waited for more than a second is asked for again, before anything else. */
  lemma {:induction false} StaleIsAskedFirst(m: Master, canAdvance: bool, now: nat, m': Master, job: Option<Job>, i: nat)
    requires |m.times| == |m.missing| && m.nextToApply <= m.nextNever <= |m.missing| && JobStep(m, canAdvance, now, m', job)
    requires m.nextToApply <= i < m.nextNever && m.times[i] != 0 && now > m.times[i] + 1_000
    requires forall j :: m.nextToApply <= j < i && m.times[j] != 0 ==> now <= m.times[j] + 1_000
    ensures job == Some(Job(m.missing[i], m.first + i)) && m' == m.(times := m.times[i := now])
  {
    assert TimedOut(m, i, now);
    var k :| FirstTimedOut(m, k, now) && AskAgain(m, k, now, m', job);
    assert TimedOut(m, k, now);
  }

  /** Nothing has been waited for longer than a second. */
  ghost predicate NoneStale(m: Master, now: nat)
    requires |m.times| == |m.missing| && m.nextNever <= |m.missing|
  {
    forall j :: m.nextToApply <= j < m.nextNever && m.times[j] != 0 ==> now <= m.times[j] + 1_000
  }

  /** Otherwise, while it may not advance, the block waited for longest is asked for again. */
  lemma {:induction false} FullAsksLongest(m: Master, now: nat, m': Master, job: Option<Job>, i: nat)
    requires |m.times| == |m.missing| && m.nextToApply <= m.nextNever <= |m.missing| && JobStep(m, false, now, m', job)
    requires NoneStale(m, now) && m.nextToApply <= i < m.nextNever && m.times[i] != 0
    requires forall j :: m.nextToApply <= j < m.nextNever && m.times[j] != 0 ==>
               m.times[i] < m.times[j] || (m.times[i] == m.times[j] && i <= j)
    ensures job == Some(Job(m.missing[i], m.first + i)) && m' == m.(times := m.times[i := now])
  {
    var k :| LongestWaiting(m, k) && AskAgain(m, k, now, m', job);
    assert Waiting(m, k) && Waiting(m, i);
  }

  /** Otherwise the next new block is asked for; when there is none, the wanted one; when that is not missing either, none. */
  lemma {:induction false} ElseAdvances(m: Master, now: nat, m': Master, job: Option<Job>)
    requires |m.times| == |m.missing| && m.nextToApply <= m.nextNever <= |m.missing| && JobStep(m, true, now, m', job)
    requires NoneStale(m, now)
    ensures m.nextNever < |m.missing| ==>
              && job == Some(Job(m.missing[m.nextNever], m.first + m.nextNever))
              && m' == m.(times := m.times[m.nextNever := now], nextNever := m.nextNever + 1)
    ensures m.nextNever == |m.missing| && m.nextToApply < |m.missing| ==>
              job == Some(Job(m.missing[m.nextToApply], m.first + m.nextToApply)) && m' == m
    ensures m.nextToApply == |m.missing| ==> job == None && m' == m
  {
    NoneTimedOut(m, now);
  }

  lemma {:induction false} NoneTimedOut(m: Master, now: nat)
    requires |m.times| == |m.missing| && m.nextNever <= |m.missing| && NoneStale(m, now)
    ensures forall j: nat :: !TimedOut(m, j, now)
  {
  }

  /** While more than 512 blocks are held, a block that comes in brings no request for a new one. */
  lemma {:induction false} FullBacklogHolds(m: Master, b: BlockWithNumber, now: nat, m': Master, job: Option<Job>)
    requires Inv(m) && Legal(m, PushResultAndGetNewJob(b)) && Step(m, PushResultAndGetNewJob(b), now, m', job)
    ensures CanAdvance(m, PullFirstJob)
    ensures CanAdvance(m, PushResultAndGetNewJob(b)) <==> |Receive(m, b).backlog| <= 512
    ensures |Receive(m, b).backlog| > 512 ==> m'.nextNever == Receive(m, b).nextNever
  {
  }

  /** A block already held is left as it is; any other goes in among the held ones. */
  lemma {:induction false} InsertAdds(backlog: seq<BlockWithNumber>, b: BlockWithNumber)
    requires Descending(backlog)
    ensures HasNumber(backlog, b.number) ==> Insert(backlog, b) == backlog
    ensures !HasNumber(backlog, b.number) ==> multiset(Insert(backlog, b)) == multiset(backlog) + multiset{b}
  {
    if backlog != [] {
      var rest := backlog[1..];
      assert backlog == [backlog[0]] + rest;
      if backlog[0].number > b.number {
        InsertAdds(rest, b);
        HasNumberTail(backlog, b.number);
      } else if backlog[0].number < b.number && HasNumber(backlog, b.number) {
        assert false;
      }
    }
  }

  lemma {:induction false} HasNumberTail(backlog: seq<BlockWithNumber>, n: nat)
    requires backlog != [] && backlog[0].number != n
    ensures HasNumber(backlog, n) <==> HasNumber(backlog[1..], n)
  {
    if HasNumber(backlog, n) {
      var k :| 0 <= k < |backlog| && backlog[k].number == n;
      assert backlog[1..][k - 1].number == n;
    }
    if HasNumber(backlog[1..], n) {
      var k :| 0 <= k < |backlog[1..]| && backlog[1..][k].number == n;
      assert backlog[k + 1].number == n;
    }
  }
}
