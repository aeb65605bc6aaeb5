/** The block locator: which headers describe our chain, and where another node's chain meets it. */
module Locator {
  import opened Wrappers
  import opened Bytes
  import opened Arithmetic
  import opened HeaderTree
  import opened ChainSpec
  import opened ChainState

  /** The step the loop takes next: it doubles from the tenth entry on, and never goes below genesis. */
  function NextStep(step: nat, height: nat, len: nat): (s: nat)
    requires step > 0 && height > 0
    ensures 0 < s <= height
  {
    var wanted := if len >= 10 then 2 * step else step;
    if wanted > height then height else wanted
  }

  /** The heights the loop visits below a header. */
  function Tail(height: nat, step: nat, len: nat): seq<nat>
    requires step > 0
    decreases height
  {
    if height == 0 then []
    else
      var s := NextStep(step, height, len);
      [height - s] + Tail(height - s, s, len + 1)
  }

  function Heights(top: nat): seq<nat> {
    [top] + Tail(top, 1, 1)
  }

  /** How far below the top the i-th entry lies: ten entries in a row, then at doubling distances. */
  function Depth(i: nat): nat {
    if i <= 9 then i else Pow2(i - 8) + 7
  }

  // ---------------------------------------------------------------- the shape of a locator

  /** The step before entry i. */
  function StepAt(i: nat): (s: nat)
    ensures s > 0
  {
    if i <= 9 then 1 else Pow2(i - 9)
  }

  lemma {:induction false} DepthMonotone(i: nat, j: nat)
    requires i < j
    ensures Depth(i) < Depth(j)
  {
    if i < j - 1 {
      DepthMonotone(i, j - 1);
    }
  }

  /** Below entry i every entry lies at its depth, and the last one is genesis. */
  ghost predicate TailShape(tail: seq<nat>, top: nat, i: nat) {
    && tail != [] && tail[|tail| - 1] == 0 && Depth(i + |tail|) >= top
    && forall j: nat :: i < j < i + |tail| ==> tail[j - i - 1] == top - Depth(j) && Depth(j) < top
  }

  lemma {:induction false} TailIs(top: nat, i: nat)
    requires Depth(i) < top
    ensures TailShape(Tail(top - Depth(i), StepAt(i), i + 1), top, i)
    decreases top - Depth(i)
  {
    TailUnfolds(top - Depth(i), StepAt(i), i + 1, StepAt(i + 1));
    if Depth(i + 1) < top {
      TailIs(top, i + 1);
      TailCons(Tail(top - Depth(i + 1), StepAt(i + 1), i + 2), top, i);
    }
  }

  lemma {:induction false} TailUnfolds(height: nat, step: nat, len: nat, wanted: nat)
    requires height > 0 && step > 0 && wanted == if len >= 10 then 2 * step else step
    ensures wanted >= height ==> Tail(height, step, len) == [0]
    ensures wanted < height ==> Tail(height, step, len) == [height - wanted] + Tail(height - wanted, wanted, len + 1)
  {
    assert Tail(0, NextStep(step, height, len), len + 1) == [];
  }

  lemma {:induction false} TailCons(rest: seq<nat>, top: nat, i: nat)
    requires Depth(i + 1) < top && TailShape(rest, top, i + 1)
    ensures TailShape([top - Depth(i + 1)] + rest, top, i)
  {
    var tail := [top - Depth(i + 1)] + rest;
    forall j: nat | i < j < i + |tail| ensures tail[j - i - 1] == top - Depth(j) && Depth(j) < top {
      if j > i + 1 {
        assert tail[j - i - 1] == rest[j - (i + 1) - 1];
      }
    }
  }

  /** The locator from a height: descending along the depths until genesis, which is always the last entry. */
  lemma {:induction false} HeightsAre(top: nat)
    ensures var h := Heights(top);
      && h != [] && h[0] == top && h[|h| - 1] == 0
      && Depth(|h| - 1) >= top
      && forall i :: 0 <= i < |h| - 1 ==> h[i] == top - Depth(i) && Depth(i) < top
  {
    var h := Heights(top);
    if top > 0 {
      TailIs(top, 0);
      forall i | 0 <= i < |h| - 1 ensures h[i] == top - Depth(i) && Depth(i) < top {
        if i > 0 {
          assert h[i] == Tail(top, 1, 1)[i - 0 - 1];
        }
      }
    }
  }

  lemma {:induction false} StrictlyDescending(top: nat, i: nat, j: nat)
    requires i < j < |Heights(top)|
    ensures Heights(top)[i] > Heights(top)[j]
  {
    HeightsAre(top);
    DepthMonotone(i, j);
  }

  /** A locator is short: beyond ten entries, each further one needs twice the height. */
  lemma {:induction false} LengthIsLogarithmic(top: nat)
    ensures |Heights(top)| > 10 ==> Pow2(|Heights(top)| - 10) < top
    ensures |Heights(top)| <= top + 1
  {
    HeightsAre(top);
    var h := Heights(top);
    DepthAtLeast(|h| - 1);
    if |h| > 1 {
      DepthAtLeast(|h| - 2);
    }
  }

  /** Ten entries go down one by one and the next skips one; from there on each step is twice the one before, except the last. */
  lemma {:induction false} StepsDouble(top: nat, i: nat)
    requires i < |Heights(top)| - 2
    ensures var h: seq<int> := Heights(top);
      && (i <= 8 ==> h[i] - h[i + 1] == 1)
      && (i == 9 ==> h[i] - h[i + 1] == 2)
      && (i >= 10 ==> h[i] - h[i + 1] == 2 * (h[i - 1] - h[i]))
  {
    HeightsAre(top);
    assert Pow2(2) == 2 * Pow2(1) == 4;
    if i >= 10 {
      assert Pow2(i - 7) == 2 * Pow2(i - 8) == 4 * Pow2(i - 9);
    }
  }

  lemma {:induction false} DepthAtLeast(i: nat)
    ensures Depth(i) >= i
  {
    if i > 0 {
      DepthAtLeast(i - 1);
    }
  }

  /** The first entry at least d below the top is at most 2d below it. */
  lemma {:induction false} FirstAtDepth(top: nat, d: nat, i: nat)
    requires d <= top && i < |Heights(top)|
    requires Heights(top)[i] <= top - d && (i > 0 ==> Heights(top)[i - 1] > top - d)
    ensures d <= top - Heights(top)[i] <= 2 * d
  {
    HeightsAre(top);
    if i > 0 {
      assert Depth(i - 1) < d;
      if i >= 10 {
        assert Pow2(i - 8) == 2 * Pow2(i - 9);
      }
    }
  }

  // ---------------------------------------------------------------- two nodes

  /** Another node's chain contains exactly our headers up to where the chains meet. */
  lemma {:induction false} OnOtherChainIffBelowMeet(known: Headers, ours: Hash, theirs: Hash, height: nat)
    requires Tree(known) && ours in known && theirs in known && height <= Number(known, ours)
    ensures Meet(known, ours, theirs) in known
    ensures Number(known, Meet(known, ours, theirs)) <= Number(known, ours)
    ensures AncestorAt(known, ours, height) in Ancestors(known, theirs) <==>
              height <= Number(known, Meet(known, ours, theirs))
  {
    var m, x := Meet(known, ours, theirs), AncestorAt(known, ours, height);
    MeetSeparates(known, ours, theirs);
    AncestorAtIs(known, ours, height);
    PathSplits(known, ours, m);
    if height <= Number(known, m) {
      AncestorAtIs(known, m, height);
      AncestorsTransitive(known, ours, m);
      AncestorsTransitive(known, theirs, m);
      OnePerNumber(known, ours, x, AncestorAt(known, m, height));
    } else {
      AncestorsBelow(known, m);
    }
  }

  /** The locator of a branch. */
  ghost predicate IsLocator(known: Headers, top: Hash, locator: seq<Hash>)
    requires Tree(known) && top in known
  {
    && |locator| == |Heights(Number(known, top))|
    && forall i :: 0 <= i < |locator| ==> locator[i] == AncestorAt(known, top, Heights(Number(known, top))[i])
  }

  /** i is the first entry of the locator on the chain. */
  ghost predicate FirstOn(locator: seq<Hash>, chain: set<Hash>, i: nat) {
    && i < |locator| && locator[i] in chain
    && forall k :: 0 <= k < i ==> locator[k] !in chain
  }

  /**
   * Another node on the same tree of headers always finds a match, and it lies between d and 2d below our
   * top when the chains parted d below it.
   */
  lemma {:induction false} MatchIsNearFork(known: Headers, ours: Hash, theirs: Hash, locator: seq<Hash>)
    requires Tree(known) && ours in known && theirs in known && IsLocator(known, ours, locator)
    ensures exists i: nat :: FirstOn(locator, Ancestors(known, theirs), i)
    ensures forall i: nat :: FirstOn(locator, Ancestors(known, theirs), i) ==>
              var m := Meet(known, ours, theirs);
              && m in known && locator[i] in known && locator[i] in Ancestors(known, ours)
              && Number(known, m) <= Number(known, ours)
              && var d := Number(known, ours) - Number(known, m);
                 d <= Number(known, ours) - Number(known, locator[i]) <= 2 * d
  {
    var top, chain := Number(known, ours), Ancestors(known, theirs);
    HeightsAre(top);
    var last := |locator| - 1;
    OnOtherChainIffBelowMeet(known, ours, theirs, 0);
    assert locator[last] in chain;
    FirstExists(locator, chain, last);
    forall i: nat | FirstOn(locator, chain, i)
      ensures var m := Meet(known, ours, theirs);
        && m in known && locator[i] in known && locator[i] in Ancestors(known, ours)
        && Number(known, m) <= Number(known, ours)
        && var d := Number(known, ours) - Number(known, m);
           d <= Number(known, ours) - Number(known, locator[i]) <= 2 * d
    {
      FirstIsNearFork(known, ours, theirs, locator, i);
    }
  }

  lemma {:induction false} FirstExists(locator: seq<Hash>, chain: set<Hash>, n: nat)
    requires n < |locator| && locator[n] in chain
    ensures exists i: nat :: FirstOn(locator, chain, i)
  {
    if k :| 0 <= k < n && locator[k] in chain {
      FirstExists(locator, chain, k);
    } else {
      assert FirstOn(locator, chain, n);
    }
  }

  lemma {:induction false} FirstIsNearFork(known: Headers, ours: Hash, theirs: Hash, locator: seq<Hash>, i: nat)
    requires Tree(known) && ours in known && theirs in known && IsLocator(known, ours, locator)
    requires FirstOn(locator, Ancestors(known, theirs), i)
    ensures var m := Meet(known, ours, theirs);
      && m in known && locator[i] in known && locator[i] in Ancestors(known, ours)
      && Number(known, m) <= Number(known, ours)
      && var d := Number(known, ours) - Number(known, m);
         d <= Number(known, ours) - Number(known, locator[i]) <= 2 * d
  {
    var top := Number(known, ours);
    var heights := Heights(top);
    HeightBound(top, i);
    AncestorAtIs(known, ours, heights[i]);
    OnOtherChainIffBelowMeet(known, ours, theirs, heights[i]);
    if i > 0 {
      HeightBound(top, i - 1);
      OnOtherChainIffBelowMeet(known, ours, theirs, heights[i - 1]);
      assert locator[i - 1] !in Ancestors(known, theirs);
    }
    FirstAtDepth(top, top - Number(known, Meet(known, ours, theirs)), i);
  }

  lemma {:induction false} HeightBound(top: nat, i: nat)
    requires i < |Heights(top)|
    ensures Heights(top)[i] <= top
  {
    HeightsAre(top);
  }

  // ---------------------------------------------------------------- the loops

  /** build_get_headers: the locator it sends. None is its panic. */
  method BuildGetHeaders(chain: ChainState) returns (r: Option<seq<Hash>>)
    requires Inv(chain.AsChain())
    ensures r.Some? && IsLocator(chain.known, chain.top.header.hash, r.value)
  {
    var top := chain.top;
    if top.number == 0 {
      return Some([top.header.hash]);
    }
    var step := 1;
    var current := top;
    var locator := [current.header.hash];
    while current.number > 0
      invariant current.header.hash in chain.known && chain.known[current.header.hash] == current
      invariant step > 0 && Building(chain.known, top.header.hash, locator, current.header.hash, step)
      decreases current.number
    {
      if |locator| >= 10 {
        step := step * 2;
      }
      if step > current.number {
        step := current.number;
      }
      var next := chain.GetAncestor(current, current.number - step);
      if next.None? {
        return None;
      }
      BuildStep(chain.known, top.header.hash, locator, current.header.hash, step);
      current := next.value;
      locator := locator + [current.header.hash];
    }
    return Some(locator);
  }

  /** The loop has come down to a header; what is left of the heights is its tail. */
  ghost predicate Building(known: Headers, top: Hash, locator: seq<Hash>, current: Hash, step: nat)
    requires Tree(known) && top in known && step > 0
  {
    var heights := Heights(Number(known, top));
    && current in known && Number(known, current) <= Number(known, top)
    && current == AncestorAt(known, top, Number(known, current))
    && |locator| <= |heights| && heights[|locator|..] == Tail(Number(known, current), step, |locator|)
    && forall i :: 0 <= i < |locator| ==> locator[i] == AncestorAt(known, top, heights[i])
  }

  lemma {:induction false} BuildStep(known: Headers, top: Hash, locator: seq<Hash>, current: Hash, s: nat)
    requires Tree(known) && top in known && current in known && Number(known, current) > 0
    requires exists step :: step > 0 && Building(known, top, locator, current, step) && s == NextStep(step, Number(known, current), |locator|)
    ensures s <= Number(known, current)
    ensures var next := AncestorAt(known, current, Number(known, current) - s);
      s > 0 && Building(known, top, locator + [next], next, s) && Number(known, next) == Number(known, current) - s
  {
    var step :| step > 0 && Building(known, top, locator, current, step) && s == NextStep(step, Number(known, current), |locator|);
    var heights, number := Heights(Number(known, top)), Number(known, current);
    var next := AncestorAt(known, current, number - s);
    AncestorAtAncestor(known, top, number, number - s);
    AncestorAtIs(known, current, number - s);
    assert heights[|locator|] == heights[|locator|..][0] == number - s;
    assert heights[|locator| + 1..] == heights[|locator|..][1..];
  }

  /** The first loop of respond_to_getheaders. */
  method FindMatch(chain: ChainState, locator: seq<Hash>) returns (i: Option<nat>)
    ensures i.Some? ==> FirstOn(locator, chain.mostWork, i.value)
    ensures i.None? ==> forall k :: 0 <= k < |locator| ==> locator[k] !in chain.mostWork
  {
    for k := 0 to |locator|
      invariant forall j :: 0 <= j < k ==> locator[j] !in chain.mostWork
    {
      if locator[k] in chain.mostWork {
        return Some(k);
      }
    }
    return None;
  }

  datatype Response = Nothing | Panic | Send(headers: seq<Header>)

  const MAX_HEADERS := 2000

  /** respond_to_getheaders; its empty-locator check is the case of no match. */
  method RespondToGetHeaders(chain: ChainState, locator: seq<Hash>, stop: Hash) returns (r: Response)
    requires Inv(chain.AsChain()) && OnTop(chain.AsChain()) && NumbersCover(chain.AsChain())
    ensures !r.Panic?
    ensures r.Nothing? <==>
              || (forall k :: 0 <= k < |locator| ==> locator[k] !in chain.mostWork)
              || exists i: nat :: FirstOn(locator, chain.mostWork, i) && locator[i] == chain.top.header.hash
    ensures r.Send? ==>
              exists i: nat ::
                && FirstOn(locator, chain.mostWork, i) && locator[i] in chain.known
                && IsReply(chain.AsChain(), chain.known[locator[i]].number, stop, r.headers)
  {
    var i := FindMatch(chain, locator);
    if i.None? {
      return Nothing;
    }
    var matched := locator[i.value];
    AncestorsBelow(chain.known, chain.top.header.hash);
    var number, top := chain.known[matched].number, chain.top.number;
    OnlyOneFirst(locator, chain.mostWork, i.value);
    if number == top {
      return Nothing;
    }
    r := SendFrom(chain, number, if top - number > MAX_HEADERS then MAX_HEADERS else top - number, stop);
  }

  /** The second loop of respond_to_getheaders: it starts at the matched header itself. */
  method SendFrom(chain: ChainState, number: nat, count: nat, stop: Hash) returns (r: Response)
    requires Inv(chain.AsChain()) && NumbersCover(chain.AsChain())
    requires number + count <= chain.top.number && count <= MAX_HEADERS
    requires count == MAX_HEADERS || number + count == chain.top.number
    ensures r.Send? && IsReply(chain.AsChain(), number, stop, r.headers)
  {
    ghost var c := chain.AsChain();
    var headers: seq<Header> := [];
    for k := 0 to count
      invariant |headers| == k
      invariant forall j :: 0 <= j < k ==> IsEntry(c, number + j, headers[j]) && headers[j].hash != stop
    {
      assert number + k in c.numberToHash && c.numberToHash[number + k] in c.known;
      if number + k !in chain.numberToHash {
        return Panic;
      }
      var hash := chain.numberToHash[number + k];
      if hash == stop {
        break;
      }
      headers := headers + [chain.known[hash].header];
      assert IsEntry(c, number + k, headers[k]);
    }
    return Send(headers);
  }

  /** The header the kept map gives a number. */
  ghost predicate IsEntry(c: Chain, number: nat, header: Header) {
    number in c.numberToHash && header.hash == c.numberToHash[number]
    && header.hash in c.known && c.known[header.hash].header == header
  }

  /** The headers of consecutive numbers: 2000, or up to the stop hash, or all below the top. */
  ghost predicate IsReply(c: Chain, number: nat, stop: Hash, headers: seq<Header>) {
    && |headers| <= MAX_HEADERS && number + |headers| <= c.top.number
    && (forall j :: 0 <= j < |headers| ==> IsEntry(c, number + j, headers[j]) && headers[j].hash != stop)
    && (|headers| == MAX_HEADERS || number + |headers| == c.top.number
        || (number + |headers| in c.numberToHash && c.numberToHash[number + |headers|] == stop))
  }

  /** While the number map is right, a reply is a stretch of the top chain, each header on the one before. */
  lemma {:induction false} ReplyIsConnected(c: Chain, number: nat, stop: Hash, headers: seq<Header>, j: nat)
    requires Inv(c) && c.numberToHash == NumberMap(c.known, c.top.header.hash)
    requires IsReply(c, number, stop, headers) && j < |headers|
    ensures headers[j].hash in Ancestors(c.known, c.top.header.hash)
    ensures headers[j].hash in c.known && Number(c.known, headers[j].hash) == number + j
    ensures j > 0 ==> headers[j].parent == headers[j - 1].hash
  {
    var known, top := c.known, c.top.header.hash;
    NumberMapIs(known, top);
    assert IsEntry(c, number + j, headers[j]);
    if j > 0 {
      assert IsEntry(c, number + (j - 1), headers[j - 1]);
      AncestorsBelow(known, top);
      assert Parent(known, headers[j].hash) == headers[j].parent;
      OnePerNumber(known, top, headers[j].parent, headers[j - 1].hash);
    }
  }

  /** A reply stops at 2000 headers, below the top, or before the stop hash. */
  lemma {:induction false} ReplyStops(c: Chain, number: nat, stop: Hash, headers: seq<Header>)
    requires Inv(c) && c.numberToHash == NumberMap(c.known, c.top.header.hash) && IsReply(c, number, stop, headers)
    ensures |headers| <= 2_000 && number + |headers| <= c.top.number
    ensures forall j :: 0 <= j < |headers| ==> headers[j].hash != stop
    ensures |headers| == 2_000 || number + |headers| == c.top.number
            || (stop in Ancestors(c.known, c.top.header.hash) && stop in c.known && Number(c.known, stop) == number + |headers|)
  {
    NumberMapIs(c.known, c.top.header.hash);
  }

  lemma {:induction false} OnlyOneFirst(locator: seq<Hash>, chain: set<Hash>, i: nat)
    requires FirstOn(locator, chain, i)
    ensures forall k: nat :: FirstOn(locator, chain, k) ==> k == i
  {
  }
}
