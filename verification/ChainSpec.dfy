/** Validating a header and applying it to the chain: what changes, and what every step keeps. */
module ChainSpec {
  import opened Wrappers
  import opened Bytes
  import opened HeaderTree

  datatype Chain = Chain(
    top: Known,
    known: Headers,
    numberToHash: map<nat, Hash>,
    mostWork: set<Hash>
  )

  /** HeaderApplicationResult: removed blocks, and added blocks oldest to newest with the numbers the code gives them. */
  datatype Applied = Applied(removed: seq<Hash>, added: seq<(Hash, nat)>)

  /** Rejected is the source's Err; Panics an unwrap of a missing header or an overflow. */
  datatype Outcome = Rejected | Panics | Accepted(result: Option<Applied>)

  ghost predicate Inv(c: Chain) {
    && Tree(c.known)
    && c.top.header.hash in c.known && c.known[c.top.header.hash] == c.top
    && (forall h :: h in c.known ==> c.known[h].totalWork <= c.top.totalWork)
  }

  /** The top chain sets agree with a walk down from the top header. */
  ghost predicate OnTop(c: Chain)
    requires Inv(c)
  {
    c.mostWork == Ancestors(c.known, c.top.header.hash)
  }

  // ---------------------------------------------------------------- one header

  /** What the difficulty rules say about a header: its work, and the bits its parent calls for (None panics). */
  datatype Rule = Rule(work: nat, expectedBits: Option<U32>)

  function NewKnown(known: Headers, header: Header, rule: Rule): Known
    requires header.parent in known
  {
    var parent := known[header.parent];
    Known(header, parent.number + 1, false, parent.totalWork + rule.work)
  }

  /** The counter the fork walk gives to the k-th new block from the top: one too high below the new header. */
  function CounterAt(number: nat, k: nat): int {
    if k == 0 then number else number - k + 1
  }

  /** added is the path, oldest first, with the walk's counters. */
  ghost predicate IsAdded(added: seq<(Hash, nat)>, path: seq<Hash>, number: nat) {
    && |added| == |path|
    && forall k :: 0 <= k < |path| ==> added[|path| - 1 - k].0 == path[k] && added[|path| - 1 - k].1 == CounterAt(number, k)
  }

  /** A fork: both branches down to where they meet. The old top is listed twice. */
  ghost predicate IsFork(c: Chain, header: Header, a: Applied)
    requires Inv(c) && header.parent in c.known
  {
    var m := Meet(c.known, header.parent, c.top.header.hash);
    && m in Ancestors(c.known, header.parent) && m in Ancestors(c.known, c.top.header.hash)
    && a.removed == [c.top.header.hash] + Path(c.known, c.top.header.hash, m)
    && IsAdded(a.added, [header.hash] + Path(c.known, header.parent, m), Number(c.known, header.parent) + 1)
  }

  /** The header is valid, new and takes over the top. */
  ghost predicate BecomesTop(c: Chain, header: Header, rule: Rule)
    requires Inv(c)
  {
    && header.hash !in c.known && header.parent in c.known
    && rule.expectedBits == Some(header.bits)
    && NewKnown(c.known, header, rule).totalWork >= c.top.totalWork
  }

  /** validate_and_apply_header_inner */
  ghost predicate Applies(c: Chain, header: Header, rule: Rule, sync: bool, c': Chain, out: Outcome)
    requires Inv(c)
  {
    if header.hash in c.known then c' == c && out == Accepted(None)
    else if header.parent !in c.known then c' == c && out == Rejected
    else match rule.expectedBits
      case None => c' == c && out == Panics
      case Some(bits) =>
        if bits != header.bits then c' == c && out == Rejected
        else
          var next := NewKnown(c.known, header, rule);
          var grown := c.(known := c.known[header.hash := next]);
          if next.totalWork < c.top.totalWork then c' == grown && out == Accepted(None)
          else if sync then c' == grown.(top := next) && out == Accepted(None)
          else if header.parent == c.top.header.hash then
            c' == grown.(top := next) && out == Accepted(Some(Applied([], [(header.hash, next.number)])))
          else if Number(c.known, header.parent) > c.top.number then
            c' == grown && out == Panics
          else
            && c' == grown.(top := next)
            && out.Accepted? && out.result.Some? && IsFork(c, header, out.result.value)
  }

  /** update_most_work_chain */
  ghost function UpdateMostWork(c: Chain, a: Applied): Chain {
    c.(mostWork := (c.mostWork - Elements(a.removed)) + AddedHashes(a.added),
       numberToHash := InsertNumbers(c.numberToHash, a.added))
  }

  ghost function AddedHashes(added: seq<(Hash, nat)>): set<Hash> {
    set p | p in added :: p.0
  }

  function InsertNumbers(m: map<nat, Hash>, added: seq<(Hash, nat)>): map<nat, Hash> {
    if added == [] then m
    else InsertNumbers(m, added[..|added| - 1])[added[|added| - 1].1 := added[|added| - 1].0]
  }

  // ---------------------------------------------------------------- keeping the invariant

  /** Nothing known sits on an unknown hash; an all-zero hash is never given to a header. */
  lemma {:induction false} InsertKeepsTree(known: Headers, header: Header, rule: Rule)
    requires Tree(known) && header.hash !in known && header.parent in known && header.hash != EMPTY_HASH
    ensures Tree(known[header.hash := NewKnown(known, header, rule)])
    ensures SameLinks(known, known[header.hash := NewKnown(known, header, rule)])
  {
    var known' := known[header.hash := NewKnown(known, header, rule)];
    forall h | h in known' && known'[h].number > 0 ensures IsChild(known', h) {
      if h != header.hash {
        assert IsChild(known, h);
      }
    }
  }

  /** After every header that does not panic, the tree is sound and the top has the greatest total work. */
  lemma {:induction false} AppliesKeeps(c: Chain, header: Header, rule: Rule, sync: bool, c': Chain, out: Outcome)
    requires Inv(c) && header.hash != EMPTY_HASH
    requires Applies(c, header, rule, sync, c', out) && !out.Panics?
    ensures Inv(c') && SameLinks(c.known, c'.known)
    ensures c'.mostWork == c.mostWork && c'.numberToHash == c.numberToHash
    ensures c.top.totalWork <= c'.top.totalWork
    ensures forall h :: h in c.known ==> h in c'.known && c'.known[h] == c.known[h]
  {
    if c' != c {
      InsertKeepsTree(c.known, header, rule);
      GrownKeeps(c, header, rule, c'.top);
    }
  }

  lemma {:induction false} GrownKeeps(c: Chain, header: Header, rule: Rule, top: Known)
    requires Inv(c) && header.hash !in c.known && header.parent in c.known
    requires Tree(c.known[header.hash := NewKnown(c.known, header, rule)])
    requires var next := NewKnown(c.known, header, rule);
      if next.totalWork < c.top.totalWork then top == c.top else top == next
    ensures Inv(c.(known := c.known[header.hash := NewKnown(c.known, header, rule)], top := top))
  {
  }

  /** In keep-up mode, a result means exactly that the header became the top; without one the top stays. */
  lemma {:induction false} ResultIffNewTop(c: Chain, header: Header, rule: Rule, c': Chain, out: Outcome)
    requires Inv(c) && Applies(c, header, rule, false, c', out) && !out.Panics?
    ensures out.Accepted? && out.result.Some? <==> BecomesTop(c, header, rule)
    ensures BecomesTop(c, header, rule) ==> c'.top == NewKnown(c.known, header, rule)
    ensures !BecomesTop(c, header, rule) ==> c'.top == c.top
  {
  }

  // ---------------------------------------------------------------- the fork walk's panic

  /** The walk falls off the genesis header exactly when a fork wins from a parent above the old top. */
  lemma {:induction false} PanicsIffParentAboveTop(c: Chain, header: Header, rule: Rule, c': Chain, out: Outcome)
    requires Inv(c) && rule.expectedBits.Some? && Applies(c, header, rule, false, c', out)
    ensures out.Panics? <==> BecomesTop(c, header, rule) && Number(c.known, header.parent) > c.top.number
  {
  }

  /** When a higher header always has more work, no header makes it panic. */
  lemma {:induction false} NoPanicWhenWorkFollowsHeight(c: Chain, header: Header, rule: Rule, c': Chain, out: Outcome)
    requires Inv(c) && rule.expectedBits.Some? && Applies(c, header, rule, false, c', out)
    requires forall a, b :: a in c.known && b in c.known && Number(c.known, a) > Number(c.known, b) ==>
               c.known[a].totalWork > c.known[b].totalWork
    ensures !out.Panics?
  {
    PanicsIffParentAboveTop(c, header, rule, c', out);
    assert BecomesTop(c, header, rule) ==> c.known[header.parent].totalWork <= c.top.totalWork;
  }

  // ---------------------------------------------------------------- the top chain after a new top

  /** On a fork the old top is above the meeting point, so listing it once more removes nothing else. */
  lemma {:induction false} TopIsRemoved(c: Chain, header: Header, a: Applied)
    requires Inv(c) && header.parent in c.known && header.parent != c.top.header.hash
    requires Number(c.known, header.parent) <= c.top.number
    requires IsFork(c, header, a)
    ensures SwitchesAtMeet(c, header, a)
  {
    var m := Meet(c.known, header.parent, c.top.header.hash);
    MeetSeparates(c.known, header.parent, c.top.header.hash);
    AncestorsBelow(c.known, header.parent);
    assert m != c.top.header.hash;
    assert Path(c.known, c.top.header.hash, m)[0] == c.top.header.hash;
  }

  /** The blocks of a result are the branch of the new header above the meeting point. */
  lemma {:induction false} ResultPath(c: Chain, header: Header, rule: Rule, c': Chain, out: Outcome)
    requires Inv(c) && Applies(c, header, rule, false, c', out) && out.Accepted? && out.result.Some?
    ensures BecomesTop(c, header, rule)
    ensures c'.top == NewKnown(c.known, header, rule) && c'.known == c.known[header.hash := c'.top]
    ensures SwitchesAtMeet(c, header, out.result.value)
  {
    if header.parent != c.top.header.hash {
      TopIsRemoved(c, header, out.result.value);
    }
  }

  ghost predicate SwitchesAtMeet(c: Chain, header: Header, a: Applied)
    requires Inv(c) && header.parent in c.known
  {
    var m := Meet(c.known, header.parent, c.top.header.hash);
    && m in Ancestors(c.known, header.parent) && m in Ancestors(c.known, c.top.header.hash)
    && Elements(a.removed) == Elements(Path(c.known, c.top.header.hash, m))
    && IsAdded(a.added, [header.hash] + Path(c.known, header.parent, m), Number(c.known, header.parent) + 1)
  }

  /** A result switches branches, whether it is an extension or a fork. */
  lemma {:induction false} ResultIsSwitch(c: Chain, header: Header, rule: Rule, c': Chain, out: Outcome)
      returns (m: Hash, removed: seq<Hash>, path: seq<Hash>)
    requires Inv(c) && header.hash != EMPTY_HASH
    requires Applies(c, header, rule, false, c', out) && out.Accepted? && out.result.Some?
    ensures Inv(c') && SameLinks(c.known, c'.known) && header.hash == c'.top.header.hash
    ensures header.hash !in c.known && Parent(c'.known, header.hash) in c.known && Number(c'.known, header.hash) > 0
    ensures Switch(c.known, c.top.header.hash, c'.known, header.hash, m, removed, path)
    ensures Elements(removed) == Elements(out.result.value.removed)
    ensures IsAdded(out.result.value.added, path, c'.top.number)
    ensures |path| > 0
  {
    AppliesKeeps(c, header, rule, false, c', out);
    ResultPath(c, header, rule, c', out);
    m := Meet(c.known, header.parent, c.top.header.hash);
    removed := Path(c.known, c.top.header.hash, m);
    path := [header.hash] + Path(c.known, header.parent, m);
    NewHeaderSwitches(c.known, c.top.header.hash, c'.known, header.hash, header.parent);
  }

  lemma {:induction false} AddedHashesAre(added: seq<(Hash, nat)>, path: seq<Hash>, number: nat)
    requires IsAdded(added, path, number)
    ensures AddedHashes(added) == Elements(path)
  {
    forall h | h in path ensures h in AddedHashes(added) {
      var k :| 0 <= k < |path| && path[k] == h;
      assert added[|path| - 1 - k] in added;
    }
    forall h | h in AddedHashes(added) ensures h in path {
      var p :| p in added && p.0 == h;
      var j :| 0 <= j < |added| && added[j] == p;
      assert added[|path| - 1 - (|path| - 1 - j)].0 == path[|path| - 1 - j];
    }
  }

  /**
   * The incrementally kept set is the ancestor set of the new top: removing the blocks above the meeting
   * point and adding the new branch gives what a walk from the new top gives.
   */
  lemma {:induction false} UpdateFollowsTop(c: Chain, header: Header, rule: Rule, c1: Chain, out: Outcome)
    requires Inv(c) && OnTop(c) && header.hash != EMPTY_HASH
    requires Applies(c, header, rule, false, c1, out) && out.Accepted? && out.result.Some?
    ensures var c' := UpdateMostWork(c1, out.result.value); Inv(c') && OnTop(c')
  {
    var a := out.result.value;
    var m, removed, path := ResultIsSwitch(c, header, rule, c1, out);
    AppliesKeeps(c, header, rule, false, c1, out);
    AddedHashesAre(a.added, path, c1.top.number);
    SwitchAncestors(c.known, c.top.header.hash, c1.known, header.hash, m, removed, path);
  }

  // ---------------------------------------------------------------- the number map

  /** Inserting the added blocks changes the number map only at the walk's counters. */
  lemma {:induction false} InsertNumbersMisses(m: map<nat, Hash>, added: seq<(Hash, nat)>, n: nat)
    requires forall j :: 0 <= j < |added| ==> added[j].1 != n
    ensures n in InsertNumbers(m, added) <==> n in m
    ensures n in m ==> InsertNumbers(m, added)[n] == m[n]
  {
    if added != [] {
      InsertNumbersMisses(m, added[..|added| - 1], n);
    }
  }

  lemma {:induction false} InsertOneNumber(m: map<nat, Hash>, added: seq<(Hash, nat)>, path: seq<Hash>, number: nat)
    requires |path| == 1 && IsAdded(added, path, number)
    ensures InsertNumbers(m, added) == m[number := path[0]]
  {
    assert added[|path| - 1 - 0] == (path[0], number);
    assert InsertNumbers(m, added[..0]) == m;
  }

  lemma {:induction false} InsertNumbersHits(m: map<nat, Hash>, added: seq<(Hash, nat)>, j: nat)
    requires j < |added| && forall i :: j < i < |added| ==> added[i].1 != added[j].1
    ensures added[j].1 in InsertNumbers(m, added) && InsertNumbers(m, added)[added[j].1] == added[j].0
  {
    if j < |added| - 1 {
      InsertNumbersHits(m, added[..|added| - 1], j);
    }
  }

  /** With two or more added blocks no counter is the number of the lowest one. */
  lemma {:induction false} CountersMissLowest(added: seq<(Hash, nat)>, path: seq<Hash>, number: nat)
    requires |path| >= 2 && IsAdded(added, path, number)
    ensures forall j :: 0 <= j < |added| ==> added[j].1 != number - (|path| - 1)
  {
    forall j | 0 <= j < |added| ensures added[j].1 != number - (|path| - 1) {
      var k := |path| - 1 - j;
      assert added[|path| - 1 - k].1 == CounterAt(number, k);
    }
  }

  /** One block added: the map is right exactly when the old top is not above the new one. */
  lemma {:induction false} OneAddedNumbers(known: Headers, oldTop: Hash, known': Headers, newTop: Hash, m: Hash)
    requires Tree(known) && Tree(known') && SameLinks(known, known') && oldTop in known && newTop in known'
    requires m in Ancestors(known, oldTop) && m in known && Number(known', newTop) > 0 && Parent(known', newTop) == m
    ensures (NumberMap(known, oldTop)[Number(known', newTop) := newTop] == NumberMap(known', newTop)) <==>
              Number(known, oldTop) <= Number(known', newTop)
  {
    var n := Number(known', newTop);
    var r, cur := NumberMap(known, oldTop)[n := newTop], NumberMap(known', newTop);
    NumberMapIs(known, oldTop);
    NumberMapIs(known', newTop);
    NumberMapPrefix(known, oldTop, m);
    AncestorsFrame(known, known', m);
    assert n == Number(known, m) + 1;
    if Number(known, oldTop) <= n {
      NumberMapIs(known, m);
      assert r.Keys == cur.Keys;
      assert r == cur;
    } else {
      assert Number(known, oldTop) in r && Number(known, oldTop) !in cur;
    }
  }

  /** Two or more blocks added: the lowest of them never gets its number. */
  lemma {:induction false} SeveralAddedNumbers(known: Headers, oldTop: Hash, known': Headers, newTop: Hash, m: Hash,
                                               removed: seq<Hash>, path: seq<Hash>, added: seq<(Hash, nat)>)
    requires Tree(known) && Tree(known') && SameLinks(known, known') && oldTop in known && newTop in known'
    requires Switch(known, oldTop, known', newTop, m, removed, path)
    requires IsAdded(added, path, Number(known', newTop)) && |path| >= 2
    ensures InsertNumbers(NumberMap(known, oldTop), added) != NumberMap(known', newTop)
  {
    var last := |path| - 1;
    PathShape(known', newTop, m, last);
    var low, n := path[last], Number(known', path[last]);
    NumberMapAt(known', newTop, low);
    CountersMissLowest(added, path, Number(known', newTop));
    InsertNumbersMisses(NumberMap(known, oldTop), added, n);
    NumberMapIs(known, oldTop);
    assert low in Elements(path);
  }

  /** One block is added exactly when the header's parent is on the top chain. */
  lemma {:induction false} OneAddedIffParentOnTopChain(c: Chain, header: Header, a: Applied)
    requires Inv(c) && OnTop(c) && header.parent in c.known && SwitchesAtMeet(c, header, a)
    ensures |a.added| == 1 <==> header.parent in c.mostWork
  {
    var m := Meet(c.known, header.parent, c.top.header.hash);
    MeetSeparates(c.known, header.parent, c.top.header.hash);
    PathSplits(c.known, header.parent, m);
    if |Path(c.known, header.parent, m)| > 0 {
      assert Path(c.known, header.parent, m)[0] == header.parent;
      assert header.parent in Elements(Path(c.known, header.parent, m));
    } else {
      assert header.parent == m;
    }
  }

  /**
   * Starting from a correct number map, a header that takes over the top leaves it correct exactly when its
   * parent was on the top chain and the old top was not above it: the walk's counter is one too high.
   */
  lemma {:induction false} NumberMapIff(c: Chain, header: Header, rule: Rule, c1: Chain, out: Outcome)
    requires Inv(c) && OnTop(c) && header.hash != EMPTY_HASH && c.numberToHash == NumberMap(c.known, c.top.header.hash)
    requires Applies(c, header, rule, false, c1, out) && out.Accepted? && out.result.Some?
    ensures header.parent in c.known
    ensures var c' := UpdateMostWork(c1, out.result.value);
      && Inv(c')
      && (c'.numberToHash == NumberMap(c'.known, c'.top.header.hash) <==>
            header.parent in c.mostWork && c.top.number <= Number(c.known, header.parent) + 1)
  {
    AppliesKeeps(c, header, rule, false, c1, out);
    ResultPath(c, header, rule, c1, out);
    OneAddedIffParentOnTopChain(c, header, out.result.value);
    NumberMapByLength(c, header, rule, c1, out);
  }

  lemma {:induction false} NumberMapByLength(c: Chain, header: Header, rule: Rule, c1: Chain, out: Outcome)
    requires Inv(c) && header.hash != EMPTY_HASH && c.numberToHash == NumberMap(c.known, c.top.header.hash)
    requires Applies(c, header, rule, false, c1, out) && out.Accepted? && out.result.Some?
    ensures var c' := UpdateMostWork(c1, out.result.value);
      && Inv(c')
      && (c'.numberToHash == NumberMap(c'.known, c'.top.header.hash) <==>
            |out.result.value.added| == 1 && c.top.number <= c'.top.number)
  {
    var a := out.result.value;
    var m, removed, path := ResultIsSwitch(c, header, rule, c1, out);
    AppliesKeeps(c, header, rule, false, c1, out);
    if |path| == 1 {
      PathShape(c1.known, header.hash, m, 0);
      OneAddedNumbers(c.known, c.top.header.hash, c1.known, header.hash, m);
      InsertOneNumber(c.numberToHash, a.added, path, c1.top.number);
    } else {
      SeveralAddedNumbers(c.known, c.top.header.hash, c1.known, header.hash, m, removed, path, a.added);
    }
  }

  /** Every number up to the top leads to a known header, if not always to the one of the top chain. */
  ghost predicate NumbersCover(c: Chain) {
    forall n: nat :: n <= c.top.number ==> n in c.numberToHash && c.numberToHash[n] in c.known
  }

  lemma {:induction false} InsertNumbersCovers(m: map<nat, Hash>, added: seq<(Hash, nat)>, known: Headers, n: nat)
    requires forall j :: 0 <= j < |added| ==> added[j].0 in known
    requires (n in m && m[n] in known) || (added != [] && added[|added| - 1].1 == n)
    ensures n in InsertNumbers(m, added) && InsertNumbers(m, added)[n] in known
  {
    if added != [] && added[|added| - 1].1 != n {
      InsertNumbersCovers(m, added[..|added| - 1], known, n);
    }
  }

  /** No fork loses a number: the one the walk skips has a header in the map already. */
  lemma {:induction false} UpdateCovers(c: Chain, header: Header, rule: Rule, c1: Chain, out: Outcome)
    requires Inv(c) && NumbersCover(c) && header.hash != EMPTY_HASH
    requires Applies(c, header, rule, false, c1, out) && out.Accepted? && out.result.Some?
    ensures NumbersCover(UpdateMostWork(c1, out.result.value))
  {
    var added := out.result.value.added;
    var m, removed, path := ResultIsSwitch(c, header, rule, c1, out);
    AppliesKeeps(c, header, rule, false, c1, out);
    AddedAreKnown(c1.known, header.hash, m, path, added, c1.top.number);
    NewTopIsNext(c, header, rule, c1, out);
    NextNumberCovers(c.numberToHash, added, c1.known, c.top.number, c1.top.number);
  }

  lemma {:induction false} AddedAreKnown(known: Headers, h: Hash, m: Hash, path: seq<Hash>, added: seq<(Hash, nat)>, number: nat)
    requires Tree(known) && h in known && m in Ancestors(known, h) && path == Path(known, h, m)
    requires IsAdded(added, path, number) && |path| > 0
    ensures forall j :: 0 <= j < |added| ==> added[j].0 in known
    ensures added[|added| - 1].1 == number
  {
    forall j | 0 <= j < |added| ensures added[j].0 in known {
      PathShape(known, h, m, |path| - 1 - j);
      assert added[|path| - 1 - (|path| - 1 - j)].0 == path[|path| - 1 - j];
    }
    assert added[|path| - 1 - 0].1 == CounterAt(number, 0);
  }

  lemma {:induction false} NextNumberCovers(m: map<nat, Hash>, added: seq<(Hash, nat)>, known: Headers, before: nat, number: nat)
    requires added != [] && added[|added| - 1].1 == number <= before + 1
    requires forall j :: 0 <= j < |added| ==> added[j].0 in known
    requires forall n: nat :: n <= before ==> n in m && m[n] in known
    ensures forall n: nat :: n <= number ==> n in InsertNumbers(m, added) && InsertNumbers(m, added)[n] in known
  {
    forall n: nat | n <= number ensures n in InsertNumbers(m, added) && InsertNumbers(m, added)[n] in known {
      InsertNumbersCovers(m, added, known, n);
    }
  }

  /** A new top is at most one above the old one. */
  lemma {:induction false} NewTopIsNext(c: Chain, header: Header, rule: Rule, c1: Chain, out: Outcome)
    requires Inv(c) && Applies(c, header, rule, false, c1, out) && out.Accepted? && out.result.Some?
    ensures c1.top.number <= c.top.number + 1
  {
  }

  /** The walk's counter started one lower: every added block gets its own number. */
  predicate IsNumbered(added: seq<(Hash, nat)>, path: seq<Hash>, number: nat) {
    && |added| == |path| <= number
    && forall k :: 0 <= k < |path| ==> added[|path| - 1 - k] == (path[k], number - k)
  }

  lemma {:induction false} NumberedAt(added: seq<(Hash, nat)>, path: seq<Hash>, number: nat, m: map<nat, Hash>, n: nat)
    requires IsNumbered(added, path, number) && n <= number
    ensures number - n < |path| ==> n in InsertNumbers(m, added) && InsertNumbers(m, added)[n] == path[number - n]
    ensures number - n >= |path| && n in m ==> n in InsertNumbers(m, added) && InsertNumbers(m, added)[n] == m[n]
  {
    forall i | 0 <= i < |added| ensures added[i].1 == number - (|path| - 1 - i) {
      assert added[|path| - 1 - (|path| - 1 - i)] == (path[|path| - 1 - i], number - (|path| - 1 - i));
    }
    if number - n < |path| {
      assert added[|path| - 1 - (number - n)] == (path[number - n], n);
      InsertNumbersHits(m, added, |path| - 1 - (number - n));
    } else {
      InsertNumbersMisses(m, added, n);
    }
  }

  ghost predicate AgreeUpTo(a: map<nat, Hash>, b: map<nat, Hash>, number: nat) {
    forall n: nat :: n <= number ==> n in a && n in b && a[n] == b[n]
  }

  ghost predicate NumbersPath(m: map<nat, Hash>, path: seq<Hash>, number: nat) {
    |path| <= number && forall n: nat :: number - |path| < n <= number ==> n in m && m[n] == path[number - n]
  }

  /** The numbers of a branch are those of the path on top of the part it shares with another. */
  lemma {:induction false} NumberedPath(before: map<nat, Hash>, cur: map<nat, Hash>, added: seq<(Hash, nat)>,
                                        path: seq<Hash>, number: nat)
    requires IsNumbered(added, path, number) && AgreeUpTo(before, cur, number - |path|)
    requires NumbersPath(cur, path, number)
    ensures AgreeUpTo(InsertNumbers(before, added), cur, number)
  {
    forall n: nat | n <= number
      ensures n in cur && n in InsertNumbers(before, added) && InsertNumbers(before, added)[n] == cur[n]
    {
      NumberedAt(added, path, number, before, n);
      assert number - (number - n) == n;
    }
  }

  /** Counting from the parent's own number would make the map right for every number up to the new top. */
  lemma {:induction false} NumberedFromParentIsRight(known: Headers, oldTop: Hash, known': Headers, newTop: Hash, m: Hash,
                                                     added: seq<(Hash, nat)>)
    requires Tree(known) && Tree(known') && SameLinks(known, known') && oldTop in known && newTop in known'
    requires m in Ancestors(known, oldTop) && m in Ancestors(known', newTop)
    requires IsNumbered(added, Path(known', newTop, m), Number(known', newTop))
    ensures AgreeUpTo(InsertNumbers(NumberMap(known, oldTop), added), NumberMap(known', newTop), Number(known', newTop))
  {
    var number, path := Number(known', newTop), Path(known', newTop, m);
    BranchNumbers(known, oldTop, known', newTop, m);
    NumberedPath(NumberMap(known, oldTop), NumberMap(known', newTop), added, path, number);
  }

  lemma {:induction false} BranchNumbers(known: Headers, oldTop: Hash, known': Headers, newTop: Hash, m: Hash)
    requires Tree(known) && Tree(known') && SameLinks(known, known') && oldTop in known && newTop in known'
    requires m in Ancestors(known, oldTop) && m in Ancestors(known', newTop)
    ensures |Path(known', newTop, m)| <= Number(known', newTop)
    ensures AgreeUpTo(NumberMap(known, oldTop), NumberMap(known', newTop), Number(known', newTop) - |Path(known', newTop, m)|)
    ensures NumbersPath(NumberMap(known', newTop), Path(known', newTop, m), Number(known', newTop))
  {
    SharedNumbers(known, oldTop, known', newTop, m);
    PathNumbers(known', newTop, m);
  }

  lemma {:induction false} SharedNumbers(known: Headers, oldTop: Hash, known': Headers, newTop: Hash, m: Hash)
    requires Tree(known) && Tree(known') && SameLinks(known, known') && oldTop in known && newTop in known'
    requires m in Ancestors(known, oldTop) && m in Ancestors(known', newTop)
    ensures m in known' && |Path(known', newTop, m)| == Number(known', newTop) - Number(known', m)
    ensures AgreeUpTo(NumberMap(known, oldTop), NumberMap(known', newTop), Number(known', m))
  {
    PathSplits(known, oldTop, m);
    PathSplits(known', newTop, m);
    forall n: nat | n <= Number(known', m)
      ensures n in NumberMap(known, oldTop) && n in NumberMap(known', newTop)
      ensures NumberMap(known, oldTop)[n] == NumberMap(known', newTop)[n]
    {
      NumberMapShared(known, oldTop, known', newTop, m, n);
    }
  }

  lemma {:induction false} PathNumbers(known: Headers, h: Hash, m: Hash)
    requires Tree(known) && h in known && m in Ancestors(known, h)
    ensures NumbersPath(NumberMap(known, h), Path(known, h, m), Number(known, h))
  {
    PathSplits(known, h, m);
    forall n: nat | Number(known, h) - |Path(known, h, m)| < n <= Number(known, h)
      ensures n in NumberMap(known, h) && NumberMap(known, h)[n] == Path(known, h, m)[Number(known, h) - n]
    {
      PathNumber(known, h, m, n);
    }
  }

  lemma {:induction false} PathNumber(known: Headers, h: Hash, m: Hash, n: nat)
    requires Tree(known) && h in known && m in Ancestors(known, h)
    requires Number(known, h) - |Path(known, h, m)| < n <= Number(known, h)
    ensures n in NumberMap(known, h) && NumberMap(known, h)[n] == Path(known, h, m)[Number(known, h) - n]
  {
    NumberMapOnPath(known, h, m, Number(known, h) - n);
  }
}
