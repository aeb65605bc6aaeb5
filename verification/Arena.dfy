/**
 * The lock-free arena: tasks claim space by compare-and-exchange on one counter, in any interleaving,
 * between two resets.
 */
module Arena {
  import opened Seqs

  /** try_alloc does not move its value up to the alignment; the three array functions do. */
  datatype Kind = Single | Array

  datatype Request = Request(kind: Kind, size: nat, alignment: nat)

  /** A region handed out: where its value lies, and the space claimed for it. */
  datatype Region = Region(start: nat, request: Request, claimed: nat, end: nat)

  /** What a task knows: its request and the last counter value it saw. */
  datatype Task = Idle | Trying(request: Request, seen: nat)

  datatype State = State(base: nat, capacity: nat, consumed: nat, regions: seq<Region>, tasks: seq<Task>)

  datatype Event =
    | Begin(task: nat, request: Request)
    | Attempt(task: nat, spurious: bool)

  /** The remainder, by repeated subtraction. */
  function Mod(n: nat, a: nat): (r: nat)
    requires a > 0
    ensures r < a
  {
    if n < a then n else Mod(n - a, a)
  }

  function Padding(address: nat, alignment: nat): (p: nat) {
    if alignment == 0 then 0 else Mod(alignment - Mod(address, alignment), alignment)
  }

  /** The padding for a request at a counter value, in memory that starts at an address. */
  function PaddingAt(base: nat, r: Request, at: nat): nat {
    Padding(base + at, r.alignment)
  }

  predicate Fits(s: State, r: Request, at: nat) {
    at + PaddingAt(s.base, r, at) + r.size <= s.capacity
  }

  /** The region a successful exchange claims. */
  function Claimed(base: nat, r: Request, at: nat): Region {
    var pad := PaddingAt(base, r, at);
    Region(if r.kind == Array then at + pad else at, r, at, at + pad + r.size)
  }

  function Begun(s: State, i: nat, r: Request): State
    requires i < |s.tasks|
  {
    s.(tasks := s.tasks[i := Trying(r, s.consumed)])
  }

  /** One turn of the loop: give up, claim, or look again. A weak exchange may fail for no reason. */
  function Attempted(s: State, i: nat, spurious: bool): State
    requires i < |s.tasks| && s.tasks[i].Trying?
  {
    var r, seen := s.tasks[i].request, s.tasks[i].seen;
    if !Fits(s, r, seen) then s.(tasks := s.tasks[i := Idle])
    else if s.consumed == seen && !spurious then
      var region := Claimed(s.base, r, seen);
      s.(consumed := region.end, regions := s.regions + [region], tasks := s.tasks[i := Idle])
    else s.(tasks := s.tasks[i := Trying(r, s.consumed)])
  }

  predicate Step(s: State, e: Event, s': State) {
    match e
    case Begin(i, r) => i < |s.tasks| && s.tasks[i].Idle? && s' == Begun(s, i, r)
    case Attempt(i, spurious) => i < |s.tasks| && s.tasks[i].Trying? && s' == Attempted(s, i, spurious)
  }

  predicate Initial(s: State) {
    s.consumed == 0 && s.regions == [] && forall i :: 0 <= i < |s.tasks| ==> s.tasks[i].Idle?
  }

  // ---------------------------------------------------------------- alignment

  /** Padding moves an address up to the next multiple, and by less than the alignment. */
  lemma {:induction false} PaddingAligns(address: nat, a: nat)
    requires a > 0
    ensures Mod(address + Padding(address, a), a) == 0
    ensures Padding(address, a) < a
    ensures Padding(address, a) == 0 <==> Mod(address, a) == 0
  {
    if address >= a {
      PaddingAligns(address - a, a);
    }
  }

  /** A later address is not moved up to an earlier multiple. */
  lemma {:induction false} PaddingIsMonotone(x: nat, y: nat, a: nat)
    requires x <= y
    ensures x + Padding(x, a) <= y + Padding(y, a)
  {
    if a > 0 {
      if x >= a {
        PaddingIsMonotone(x - a, y - a, a);
      } else if y >= a {
        PaddingAligns(x, a);
      }
    }
  }

  // ---------------------------------------------------------------- what every step keeps

  /** A region lies inside the space claimed for it; an array's start is aligned. */
  predicate WellPlaced(base: nat, r: Region) {
    && r.claimed <= r.start && r.start + r.request.size <= r.end
    && (r.request.kind == Array && r.request.alignment > 0 ==> Mod(base + r.start, r.request.alignment) == 0)
    && (r.request.kind == Single ==> r.start == r.claimed)
    && r.end == r.claimed + PaddingAt(base, r.request, r.claimed) + r.request.size
  }

  /** Where the claim after the i-th begins, or the counter. */
  function NextClaim(regions: seq<Region>, i: nat, consumed: nat): nat {
    if i + 1 < |regions| then regions[i + 1].claimed else consumed
  }

  /** The claims follow one another without gaps, from the start of the arena up to the counter. */
  predicate Consecutive(regions: seq<Region>, consumed: nat) {
    && (forall i :: 0 <= i < |regions| ==> regions[i].end == NextClaim(regions, i, consumed))
    && (if regions == [] then consumed == 0 else regions[0].claimed == 0)
  }

  predicate AllWellPlaced(base: nat, regions: seq<Region>) {
    forall i :: 0 <= i < |regions| ==> WellPlaced(base, regions[i])
  }

  predicate Inv(s: State) {
    && s.consumed <= s.capacity
    && AllWellPlaced(s.base, s.regions)
    && Consecutive(s.regions, s.consumed)
    && (forall i :: 0 <= i < |s.tasks| && s.tasks[i].Trying? ==> s.tasks[i].seen <= s.consumed)
  }

  lemma {:induction false} OneMoreClaim(regions: seq<Region>, consumed: nat, region: Region)
    requires Consecutive(regions, consumed) && region.claimed == consumed
    ensures Consecutive(regions + [region], region.end)
  {
    var all := regions + [region];
    forall i | 0 <= i < |all| ensures all[i].end == NextClaim(all, i, region.end) {
      if i < |regions| {
        assert regions[i].end == NextClaim(regions, i, consumed);
      }
    }
  }

  lemma {:induction false} OneMorePlaced(base: nat, regions: seq<Region>, region: Region)
    requires AllWellPlaced(base, regions) && WellPlaced(base, region)
    ensures AllWellPlaced(base, regions + [region])
  {
    var all := regions + [region];
    forall i | 0 <= i < |all| ensures WellPlaced(base, all[i]) {
      assert all[i] == if i < |regions| then regions[i] else region;
    }
  }

  lemma {:induction false} StepKeeps(s: State, e: Event, s': State)
    requires Inv(s) && Step(s, e, s')
    ensures Inv(s') && s'.base == s.base && s'.capacity == s.capacity
    ensures s.regions <= s'.regions && s.consumed <= s'.consumed
  {
    if e.Attempt? {
      var r, seen := s.tasks[e.task].request, s.tasks[e.task].seen;
      if Fits(s, r, seen) && s.consumed == seen && !e.spurious {
        ClaimIsWellPlaced(s.base, r, seen);
        OneMoreClaim(s.regions, s.consumed, Claimed(s.base, r, seen));
        OneMorePlaced(s.base, s.regions, Claimed(s.base, r, seen));
      }
    }
  }

  lemma {:induction false} ClaimIsWellPlaced(base: nat, r: Request, at: nat)
    ensures WellPlaced(base, Claimed(base, r, at))
  {
    if r.alignment > 0 {
      var address, pad := base + at, PaddingAt(base, r, at);
      PaddingAligns(address, r.alignment);
      assert base + (at + pad) == address + pad;
    }
  }

  // ---------------------------------------------------------------- whole runs

  ghost predicate Reaches(s: State, events: seq<Event>, s': State) {
    if events == [] then s' == s
    else exists mid :: Reaches(s, Front(events), mid) && Step(mid, Last(events), s')
  }

  lemma {:induction false} RunKeeps(s: State, events: seq<Event>, s': State)
    requires Inv(s) && Reaches(s, events, s')
    ensures Inv(s') && s.regions <= s'.regions && s'.capacity == s.capacity && s'.base == s.base
  {
    if events != [] {
      var mid :| Reaches(s, Front(events), mid) && Step(mid, Last(events), s');
      RunKeeps(s, Front(events), mid);
      StepKeeps(mid, Last(events), s');
    }
  }

  predicate Spans(regions: seq<Region>) {
    forall i :: 0 <= i < |regions| ==> regions[i].claimed <= regions[i].end
  }

  lemma {:induction false} ClaimsInOrder(regions: seq<Region>, consumed: nat, i: nat, j: nat)
    requires Spans(regions) && Consecutive(regions, consumed) && i < j < |regions|
    ensures regions[i].end <= regions[j].claimed
  {
    assert regions[j - 1].end == NextClaim(regions, j - 1, consumed);
    if i + 1 < j {
      ClaimsInOrder(regions, consumed, i, j - 1);
    }
  }

  lemma {:induction false} ClaimsWithin(regions: seq<Region>, consumed: nat, i: nat)
    requires Spans(regions) && Consecutive(regions, consumed) && i < |regions|
    ensures regions[i].end <= consumed
  {
    var last := |regions| - 1;
    assert regions[last].end == NextClaim(regions, last, consumed);
    if i < last {
      ClaimsInOrder(regions, consumed, i, last);
    }
  }

  predicate Disjoint(a: Region, b: Region) {
    a.start + a.request.size <= b.start || b.start + b.request.size <= a.start
  }

  /** Under any interleaving, all regions handed out lie inside the capacity and apart from each other, and arrays are aligned. */
  lemma {:induction false} RegionsAreSafe(s: State, events: seq<Event>, s': State)
    requires Initial(s) && Reaches(s, events, s')
    ensures forall i :: 0 <= i < |s'.regions| ==>
              var r := s'.regions[i];
              && r.start + r.request.size <= s'.capacity
              && (r.request.kind == Array && r.request.alignment > 0 ==> Mod(s'.base + r.start, r.request.alignment) == 0)
    ensures forall i, j :: 0 <= i < j < |s'.regions| ==> Disjoint(s'.regions[i], s'.regions[j])
  {
    RunKeeps(s, events, s');
    assert Spans(s'.regions) by {
      forall i | 0 <= i < |s'.regions| ensures s'.regions[i].claimed <= s'.regions[i].end {
        assert WellPlaced(s'.base, s'.regions[i]);
      }
    }
    forall i | 0 <= i < |s'.regions|
      ensures s'.regions[i].start + s'.regions[i].request.size <= s'.capacity && WellPlaced(s'.base, s'.regions[i])
    {
      ClaimsWithin(s'.regions, s'.consumed, i);
      assert WellPlaced(s'.base, s'.regions[i]);
    }
    forall i, j | 0 <= i < j < |s'.regions| ensures Disjoint(s'.regions[i], s'.regions[j]) {
      ClaimsInOrder(s'.regions, s'.consumed, i, j);
      assert WellPlaced(s'.base, s'.regions[i]) && WellPlaced(s'.base, s'.regions[j]);
    }
  }

  /** A single value is aligned exactly when the counter it was claimed at was: the padding is claimed but not applied. */
  lemma {:induction false} SingleIsAlignedIff(s: State, i: nat)
    requires Inv(s) && i < |s.regions| && s.regions[i].request.kind == Single && s.regions[i].request.alignment > 0
    ensures Mod(s.base + s.regions[i].start, s.regions[i].request.alignment) == 0
            <==> PaddingAt(s.base, s.regions[i].request, s.regions[i].claimed) == 0
  {
    var r := s.regions[i];
    assert WellPlaced(s.base, r);
    PaddingAligns(s.base + r.claimed, r.request.alignment);
  }

  /** An eight-byte value claimed after a single byte lies at an odd address. */
  lemma {:induction false} SingleCanBeMisaligned() returns (s: State, a: State, b: State, c: State, d: State)
    ensures Initial(s) && Step(s, Begin(0, Request(Array, 1, 1)), a) && Step(a, Attempt(0, false), b)
    ensures Step(b, Begin(0, Request(Single, 8, 8)), c) && Step(c, Attempt(0, false), d)
    ensures |d.regions| == 2 && Mod(d.base + d.regions[1].start, 8) != 0
  {
    s := State(0, 100, 0, [], [Idle]);
    a := Begun(s, 0, Request(Array, 1, 1));
    b := Attempted(a, 0, false);
    c := Begun(b, 0, Request(Single, 8, 8));
    d := Attempted(c, 0, false);
  }

  /** A task that gives up would not find room now either: space only ever shrinks between resets. */
  lemma {:induction false} GivesUpOnlyWhenFull(s: State, i: nat)
    requires Inv(s) && i < |s.tasks| && s.tasks[i].Trying? && !Fits(s, s.tasks[i].request, s.tasks[i].seen)
    ensures !Fits(s, s.tasks[i].request, s.consumed)
  {
    PaddingIsMonotone(s.base + s.tasks[i].seen, s.base + s.consumed, s.tasks[i].request.alignment);
  }

  /** A turn that is not spurious and does not give up either claims or finds that another task has claimed. */
  lemma {:induction false} SomeoneMakesProgress(s: State, i: nat)
    requires Inv(s) && i < |s.tasks| && s.tasks[i].Trying? && Fits(s, s.tasks[i].request, s.tasks[i].seen)
    ensures var s' := Attempted(s, i, false);
      |s'.regions| == |s.regions| + 1 || (s.tasks[i].seen < s.consumed && s'.tasks[i] == Trying(s.tasks[i].request, s.consumed))
  {
  }

  // ---------------------------------------------------------------- what one turn claims

  /** The distance to the next multiple is unique. */
  lemma {:induction false} PaddingIs(address: nat, a: nat, pad: nat)
    requires a > 0 && pad < a && Mod(address + pad, a) == 0
    ensures Padding(address, a) == pad
  {
    if address >= a {
      PaddingIs(address - a, a, pad);
    }
  }

  /**
   * A turn claims exactly when the counter is still the one seen, the exchange is not spurious, and the request fits behind
   * the padding to its alignment. It claims the padding and the size, and hands out the place behind the padding for an array
   * and the one before it for a single value.
   */
  lemma {:induction false} ClaimsIff(s: State, i: nat, spurious: bool, s': State, pad: nat)
    requires Step(s, Attempt(i, spurious), s')
    requires var t := s.tasks[i];
      if t.request.alignment == 0 then pad == 0
      else pad < t.request.alignment && Mod(s.base + t.seen + pad, t.request.alignment) == 0
    ensures var r, seen := s.tasks[i].request, s.tasks[i].seen;
      if seen == s.consumed && !spurious && seen + pad + r.size <= s.capacity then
        && s'.consumed == seen + pad + r.size && s'.tasks[i].Idle?
        && s'.regions == s.regions + [Region(if r.kind == Array then seen + pad else seen, r, seen, seen + pad + r.size)]
      else
        && s'.consumed == s.consumed && s'.regions == s.regions
        && (s'.tasks[i].Idle? <==> seen + pad + r.size > s.capacity)
  {
    var t := s.tasks[i];
    if t.request.alignment > 0 {
      PaddingIs(s.base + t.seen, t.request.alignment, pad);
    }
  }
}
