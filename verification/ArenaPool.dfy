/** The pool of arenas: tasks grow and shrink it to a limit by compare-and-exchange on its size. */
module ArenaPool {
  import opened Seqs

  /**
   * Where a task is in get_arena. Got, Sized, Shrinking, WonDrop and Holding have an arena out of the pool.
   * WonDrop and WonAdd have changed the counter and not yet dropped or added the arena.
   */
  datatype Task =
    | Idle
    | Waiting
    | Got
    | Sized(seen: nat)
    | Shrinking(seen: nat, limit: nat)
    | WonDrop
    | TimedOut
    | Counted(seen: nat)
    | Growing(seen: nat, limit: nat)
    | WonAdd
    | Holding

  datatype State = State(size: nat, limit: nat, free: nat, tasks: seq<Task>)

  datatype Event =
    | SetLimit(limit: nat)
    | Advance(task: nat, timeout: bool, spurious: bool)

  /** One atomic action of a task, given what it acts on: the counter, the limit and the pool. */
  function TaskStep(s: State, t: Task, timeout: bool, spurious: bool): (r: (nat, int, Task)) {
    match t
    case Idle => (s.size, s.free, Waiting)
    case Waiting =>
      if s.free > 0 && !timeout then (s.size, s.free - 1, Got)
      else if timeout then (s.size, s.free, TimedOut)
      else (s.size, s.free, Waiting)
    case Got => (s.size, s.free, Sized(s.size))
    case Sized(seen) => if seen <= s.limit then (s.size, s.free, Holding) else (s.size, s.free, Shrinking(seen, s.limit))
    case Shrinking(seen, limit) =>
      if seen <= limit then (s.size, s.free + 1, Waiting)
      else if s.size == seen && !spurious then (seen - 1, s.free, WonDrop)
      else (s.size, s.free, Shrinking(s.size, limit))
    case WonDrop => (s.size, s.free, Waiting)
    case TimedOut => (s.size, s.free, Counted(s.size))
    case Counted(seen) => (s.size, s.free, Growing(seen, s.limit))
    case Growing(seen, limit) =>
      if seen >= limit then (s.size, s.free, Waiting)
      else if s.size == seen && !spurious then (seen + 1, s.free, WonAdd)
      else (s.size, s.free, Growing(s.size, limit))
    case WonAdd => (s.size, s.free + 1, Waiting)
    case Holding => (s.size, s.free + 1, Idle)
  }

  ghost predicate Step(s: State, e: Event, s': State) {
    match e
    case SetLimit(limit) => s' == s.(limit := limit)
    case Advance(i, timeout, spurious) =>
      i < |s.tasks| &&
      var (size, free, t) := TaskStep(s, s.tasks[i], timeout, spurious);
      free >= 0 && s' == s.(size := size, free := free, tasks := s.tasks[i := t])
  }

  predicate Initial(s: State) {
    s.size == s.limit == s.free && forall i :: 0 <= i < |s.tasks| ==> s.tasks[i].Idle?
  }

  // ---------------------------------------------------------------- the counter counts the arenas

  function HoldsArena(t: Task): nat {
    if t.Got? || t.Sized? || t.Shrinking? || t.WonDrop? || t.Holding? then 1 else 0
  }

  function Sum(tasks: seq<Task>, f: Task -> nat): nat {
    if tasks == [] then 0 else Sum(Front(tasks), f) + f(Last(tasks))
  }

  function IsWonAdd(t: Task): nat {
    if t.WonAdd? then 1 else 0
  }

  function IsWonDrop(t: Task): nat {
    if t.WonDrop? then 1 else 0
  }

  /** The arenas that exist: in the pool, or held by a task. */
  function Live(s: State): nat {
    s.free + Sum(s.tasks, HoldsArena)
  }

  predicate Inv(s: State) {
    s.size + Sum(s.tasks, IsWonDrop) == Live(s) + Sum(s.tasks, IsWonAdd)
  }

  lemma {:induction false} SumUpdated(tasks: seq<Task>, i: nat, t: Task, f: Task -> nat)
    requires i < |tasks|
    ensures Sum(tasks[i := t], f) + f(tasks[i]) == Sum(tasks, f) + f(t)
  {
    if i == |tasks| - 1 {
      assert Front(tasks[i := t]) == Front(tasks);
    } else {
      assert Front(tasks[i := t]) == Front(tasks)[i := t];
      SumUpdated(Front(tasks), i, t, f);
    }
  }

  /** What an action changes in the counter it changes in the arenas and in the outstanding additions and drops. */
  lemma {:induction false} TaskStepBalances(s: State, t: Task, timeout: bool, spurious: bool)
    ensures var (size, free, t') := TaskStep(s, t, timeout, spurious);
      size + IsWonDrop(t') + s.free + HoldsArena(t) + IsWonAdd(t)
        == s.size + IsWonDrop(t) + free + HoldsArena(t') + IsWonAdd(t')
  {
  }

  lemma {:induction false} StepKeeps(s: State, e: Event, s': State)
    requires Inv(s) && Step(s, e, s')
    ensures Inv(s') && |s'.tasks| == |s.tasks|
  {
    if e.Advance? {
      var t := s'.tasks[e.task];
      TaskStepBalances(s, s.tasks[e.task], e.timeout, e.spurious);
      SumUpdated(s.tasks, e.task, t, HoldsArena);
      SumUpdated(s.tasks, e.task, t, IsWonAdd);
      SumUpdated(s.tasks, e.task, t, IsWonDrop);
    }
  }

  ghost predicate Reaches(s: State, events: seq<Event>, s': State) {
    if events == [] then s' == s
    else exists mid :: Reaches(s, Front(events), mid) && Step(mid, Last(events), s')
  }

  lemma {:induction false} IdleSums(tasks: seq<Task>, f: Task -> nat)
    requires (forall i :: 0 <= i < |tasks| ==> tasks[i].Idle?) && f(Idle) == 0
    ensures Sum(tasks, f) == 0
  {
    if tasks != [] {
      IdleSums(Front(tasks), f);
    }
  }

  /** With any number of tasks and any changes of the limit, the counter is the live arenas plus the additions still to come, less the drops still to come. */
  lemma {:induction false} CounterIsRight(s: State, events: seq<Event>, s': State)
    requires Initial(s) && Reaches(s, events, s')
    ensures s'.size + Sum(s'.tasks, IsWonDrop) == Live(s') + Sum(s'.tasks, IsWonAdd)
  {
    if events == [] {
      IdleSums(s.tasks, HoldsArena);
      IdleSums(s.tasks, IsWonAdd);
      IdleSums(s.tasks, IsWonDrop);
    } else {
      var mid :| Reaches(s, Front(events), mid) && Step(mid, Last(events), s');
      CounterIsRight(s, Front(events), mid);
      StepKeeps(mid, Last(events), s');
    }
  }

  // ---------------------------------------------------------------- the limit

  /** The limit a task compares with. */
  predicate Sees(t: Task, limit: nat) {
    (t.Shrinking? || t.Growing?) ==> t.limit == limit
  }

  /** A step moves the counter by at most one, and never past the limit its task has read. */
  lemma {:induction false} StepRespectsLimit(s: State, e: Event, s': State)
    requires Step(s, e, s')
    ensures s'.size > s.size ==>
              e.Advance? && s.tasks[e.task].Growing? && s'.size == s.size + 1 <= s.tasks[e.task].limit
    ensures s'.size < s.size ==>
              e.Advance? && s.tasks[e.task].Shrinking? && s'.size == s.size - 1 >= s.tasks[e.task].limit
  {
  }

  /** Nobody has read another limit, and the limit does not change. */
  predicate FixedLimit(s: State) {
    forall i :: 0 <= i < |s.tasks| ==> Sees(s.tasks[i], s.limit)
  }

  predicate NoLimitChange(events: seq<Event>) {
    forall i :: 0 <= i < |events| ==> events[i].Advance?
  }

  predicate Between(limit: nat, before: nat, after: nat) {
    (before >= limit ==> limit <= after <= before) && (before <= limit ==> before <= after <= limit)
  }

  /** Under a fixed limit the size only ever moves towards the limit, and stays once it is there. */
  lemma {:induction false} SizeMovesToLimit(s: State, events: seq<Event>, s': State)
    requires FixedLimit(s) && NoLimitChange(events) && Reaches(s, events, s')
    ensures FixedLimit(s') && s'.limit == s.limit && Between(s.limit, s.size, s'.size)
  {
    if events != [] {
      var mid :| Reaches(s, Front(events), mid) && Step(mid, Last(events), s');
      assert events[|events| - 1].Advance?;
      SizeMovesToLimit(s, Front(events), mid);
      StepRespectsLimit(mid, Last(events), s');
      assert Sees(mid.tasks[Last(events).task], mid.limit);
    }
  }

  // ---------------------------------------------------------------- what a turn does

  /** An arena taken while the size is within the limit is given out; otherwise its task tries to shrink the pool. */
  lemma {:induction false} GivenOutIff(s: State, e: Event, s': State)
    requires Step(s, e, s') && e.Advance? && s.tasks[e.task].Sized?
    ensures s'.tasks[e.task] == Holding <==> s.tasks[e.task].seen <= s.limit
    ensures s.tasks[e.task].seen > s.limit ==> s'.tasks[e.task] == Shrinking(s.tasks[e.task].seen, s.limit)
    ensures s'.size == s.size && s'.free == s.free
  {
  }

  /** An exchange that is wanted changes the size by one, unless it is spurious or another task has changed the size since. */
  lemma {:induction false} ExchangeIff(s: State, e: Event, s': State)
    requires Step(s, e, s') && e.Advance?
    ensures var t := s.tasks[e.task];
      && (t.Growing? ==> (s'.size == s.size + 1 <==> t.seen < t.limit && s.size == t.seen && !e.spurious))
      && (t.Growing? && t.seen < t.limit ==> s'.tasks[e.task] == if s'.size > s.size then WonAdd else Growing(s.size, t.limit))
      && (t.Shrinking? ==> (s'.size + 1 == s.size <==> t.seen > t.limit && s.size == t.seen && !e.spurious))
      && (t.Shrinking? && t.seen > t.limit ==> s'.tasks[e.task] == if s'.size < s.size then WonDrop else Shrinking(s.size, t.limit))
  {
  }

  /** An arena that is added, given back, or found to be within the limit after all is free again. */
  lemma {:induction false} FreedIff(s: State, e: Event, s': State)
    requires Step(s, e, s') && e.Advance?
    ensures var t := s.tasks[e.task];
      && (s'.free == s.free + 1 <==> t.WonAdd? || t.Holding? || (t.Shrinking? && t.seen <= t.limit))
      && (s'.free + 1 == s.free <==> t.Waiting? && s.free > 0 && !e.timeout)
  {
  }
}
