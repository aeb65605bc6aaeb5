/** Which header a run of headers leaves on top: the latest of those whose branches hold the most work. */
module ChainWork {
  import opened Wrappers
  import opened Bytes
  import opened HeaderTree
  import opened ChainSpec
  import opened Difficulty
  import opened Retarget

  // ---------------------------------------------------------------- one header

  /** A header is refused exactly when it is new and its parent is unknown or calls for other bits; then nothing changes. */
  lemma {:induction false} RejectedIff(c: Chain, header: Header, rule: Rule, sync: bool, c': Chain, out: Outcome)
    requires Inv(c) && Applies(c, header, rule, sync, c', out)
    ensures out.Rejected? <==>
              && header.hash !in c.known
              && (header.parent !in c.known || (rule.expectedBits.Some? && rule.expectedBits.value != header.bits))
    ensures out.Rejected? || header.hash in c.known ==> c' == c
    ensures sync && out.Accepted? ==> out.result == None
  {
  }

  /** An accepted header is stored one above its parent, with its work on top of the parent's, and not yet fetched. */
  lemma {:induction false} AcceptedIsStored(c: Chain, header: Header, rule: Rule, sync: bool, c': Chain, out: Outcome)
    requires Inv(c) && Applies(c, header, rule, sync, c', out) && out.Accepted? && header.hash !in c.known
    ensures header.parent in c.known && rule.expectedBits == Some(header.bits)
    ensures var parent := c.known[header.parent];
      c'.known == c.known[header.hash := Known(header, parent.number + 1, false, parent.totalWork + rule.work)]
    ensures c'.top == if c.known[header.parent].totalWork + rule.work >= c.top.totalWork then c'.known[header.hash] else c.top
  {
  }

  /** A fork lists the old top twice, and the other blocks above the meeting point once. */
  lemma {:induction false} ForkRemoves(c: Chain, header: Header, rule: Rule, c': Chain, out: Outcome)
    requires Inv(c) && Applies(c, header, rule, false, c', out) && out.Accepted? && out.result.Some?
    requires header.parent != c.top.header.hash
    ensures var m, top := Meet(c.known, header.parent, c.top.header.hash), c.top.header.hash;
      && m in Ancestors(c.known, top) && m in c.known && Number(c.known, m) < c.top.number
      && |out.result.value.removed| == c.top.number - Number(c.known, m) + 1
      && out.result.value.removed[0] == out.result.value.removed[1] == top
  {
    var m := Meet(c.known, header.parent, c.top.header.hash);
    TopIsRemoved(c, header, out.result.value);
    MeetSeparates(c.known, header.parent, c.top.header.hash);
    AncestorsBelow(c.known, header.parent);
    PathSplits(c.known, c.top.header.hash, m);
  }

  /** Every header is answered: accepted, refused, or panicked on. */
  lemma {:induction false} AppliesIsTotal(c: Chain, header: Header, rule: Rule, sync: bool) returns (c': Chain, out: Outcome)
    requires Inv(c) && header.hash != EMPTY_HASH
    ensures Applies(c, header, rule, sync, c', out)
  {
    if header.hash in c.known {
      c', out := c, Accepted(None);
    } else if header.parent !in c.known {
      c', out := c, Rejected;
    } else if rule.expectedBits.None? {
      c', out := c, Panics;
    } else if rule.expectedBits.value != header.bits {
      c', out := c, Rejected;
    } else {
      var next := NewKnown(c.known, header, rule);
      var grown := c.(known := c.known[header.hash := next]);
      if next.totalWork < c.top.totalWork {
        c', out := grown, Accepted(None);
      } else if sync {
        c', out := grown.(top := next), Accepted(None);
      } else if header.parent == c.top.header.hash {
        c', out := grown.(top := next), Accepted(Some(Applied([], [(header.hash, next.number)])));
      } else if Number(c.known, header.parent) > c.top.number {
        c', out := grown, Panics;
      } else {
        var a := ForkExists(c, header);
        c', out := grown.(top := next), Accepted(Some(a));
      }
    }
  }

  lemma {:induction false} ForkExists(c: Chain, header: Header) returns (a: Applied)
    requires Inv(c) && header.parent in c.known
    ensures IsFork(c, header, a)
  {
    var m, top := Meet(c.known, header.parent, c.top.header.hash), c.top.header.hash;
    MeetSeparates(c.known, header.parent, top);
    PathSplits(c.known, header.parent, m);
    var path, number := [header.hash] + Path(c.known, header.parent, m), Number(c.known, header.parent) + 1;
    var added := Counted(path, number);
    a := Applied([top] + Path(c.known, top, m), added);
  }

  lemma {:induction false} Counted(path: seq<Hash>, number: nat) returns (added: seq<(Hash, nat)>)
    requires |path| <= number + 1
    ensures IsAdded(added, path, number)
  {
    added := seq(|path|, j requires 0 <= j < |path| =>
      (path[|path| - 1 - j], if j == |path| - 1 then number else number - (|path| - 1 - j) + 1));
  }

  // ---------------------------------------------------------------- the work of a branch

  /** The work of all headers of a branch together. */
  ghost function BranchWork(known: Headers, h: Hash): nat
    requires Tree(known) && h in known
    decreases known[h].number
  {
    GetWork(known[h].header.bits) + if Number(known, h) == 0 then 0 else BranchWork(known, Parent(known, h))
  }

  ghost predicate WorkAdds(known: Headers)
    requires Tree(known)
  {
    forall h :: h in known ==> known[h].totalWork == BranchWork(known, h)
  }

  lemma {:induction false} BranchWorkFrame(known: Headers, known': Headers, h: Hash)
    requires Tree(known) && Tree(known') && Grows(known, known') && h in known
    ensures BranchWork(known', h) == BranchWork(known, h)
    decreases known[h].number
  {
    if Number(known, h) > 0 {
      BranchWorkFrame(known, known', Parent(known, h));
    }
  }

  /** The total kept with each header is the work of its branch. */
  lemma {:induction false} AppliesKeepsWork(c: Chain, header: Header, rule: Rule, sync: bool, c': Chain, out: Outcome)
    requires Inv(c) && WorkAdds(c.known) && header.hash != EMPTY_HASH
    requires header.parent in c.known ==> rule.work == GetWork(header.bits)
    requires Applies(c, header, rule, sync, c', out) && !out.Panics?
    ensures Tree(c'.known) && WorkAdds(c'.known)
  {
    StoredOrSame(c, header, rule, sync, c', out);
    if c'.known != c.known {
      InsertKeepsTree(c.known, header, rule);
      StoredAddsUp(c.known, header, rule, c'.known);
    }
  }

  lemma {:induction false} StoredOrSame(c: Chain, header: Header, rule: Rule, sync: bool, c': Chain, out: Outcome)
    requires Inv(c) && Applies(c, header, rule, sync, c', out)
    ensures c'.known != c.known ==>
              && header.hash !in c.known && header.parent in c.known
              && c'.known == c.known[header.hash := NewKnown(c.known, header, rule)]
  {
  }

  lemma {:induction false} StoredAddsUp(known: Headers, header: Header, rule: Rule, known': Headers)
    requires Tree(known) && Tree(known') && WorkAdds(known) && header.parent in known && header.hash !in known
    requires rule.work == GetWork(header.bits) && known' == known[header.hash := NewKnown(known, header, rule)]
    ensures WorkAdds(known')
  {
    forall h | h in known' ensures known'[h].totalWork == BranchWork(known', h) {
      BranchWorkFrame(known, known', if h in known then h else header.parent);
    }
  }

  // ---------------------------------------------------------------- runs

  datatype HeaderStep = HeaderStep(header: Header, rule: Rule, sync: bool, out: Outcome)

  /** From the genesis header alone, n headers are applied one after another, by the difficulty rules. */
  ghost predicate HeaderRun(genesis: Header, states: seq<Chain>, steps: seq<HeaderStep>, n: nat) {
    && n < |states| && n <= |steps|
    && if n == 0 then StartsAt(genesis, states[0])
       else
         && HeaderRun(genesis, states, steps, n - 1)
         && steps[n - 1].header.hash != EMPTY_HASH
         && Follows(states[n - 1], steps[n - 1], states[n])
  }

  ghost predicate StartsAt(genesis: Header, c: Chain) {
    && genesis.hash != EMPTY_HASH && genesis.parent == EMPTY_HASH
    && c.top == Known(genesis, 0, false, GetWork(genesis.bits)) && c.known == map[genesis.hash := c.top]
  }

  ghost predicate Follows(c: Chain, e: HeaderStep, c': Chain) {
    Inv(c) ==>
      FollowsRule(c.known, e.header, e.rule) && Applies(c, e.header, e.rule, e.sync, c', e.out) && !e.out.Panics?
  }

  /** What one header may do to the known headers and the top. */
  ghost predicate Moves(c: Chain, c': Chain) {
    && Grows(c.known, c'.known)
    && if c'.top == c.top then
         forall x :: x in c'.known && c'.known[x].totalWork == c'.top.totalWork ==> x in c.known
       else c'.top.header.hash !in c.known
  }

  lemma {:induction false} StepMoves(c: Chain, e: HeaderStep, c': Chain)
    requires Inv(c) && WorkAdds(c.known) && e.header.hash != EMPTY_HASH && Follows(c, e, c')
    ensures Inv(c') && WorkAdds(c'.known) && Moves(c, c')
  {
    AppliesKeeps(c, e.header, e.rule, e.sync, c', e.out);
    AppliesKeepsWork(c, e.header, e.rule, e.sync, c', e.out);
    AppliesMoves(c, e.header, e.rule, e.sync, c', e.out);
  }

  lemma {:induction false} AppliesMoves(c: Chain, header: Header, rule: Rule, sync: bool, c': Chain, out: Outcome)
    requires Inv(c) && Grows(c.known, c'.known) && Applies(c, header, rule, sync, c', out) && !out.Panics?
    ensures Moves(c, c')
  {
  }

  lemma {:induction false} GenesisAddsUp(genesis: Header, c: Chain)
    requires StartsAt(genesis, c)
    ensures Inv(c) && WorkAdds(c.known)
  {
  }

  lemma {:induction false} RunKeeps(genesis: Header, states: seq<Chain>, steps: seq<HeaderStep>, n: nat)
    requires HeaderRun(genesis, states, steps, n)
    ensures Inv(states[n]) && WorkAdds(states[n].known) && AllMove(states, n)
  {
    if n > 0 {
      RunKeeps(genesis, states, steps, n - 1);
      StepMoves(states[n - 1], steps[n - 1], states[n]);
    } else {
      GenesisAddsUp(genesis, states[0]);
    }
  }

  ghost predicate AllMove(states: seq<Chain>, n: nat) {
    n < |states| && (n > 0 ==> AllMove(states, n - 1) && Moves(states[n - 1], states[n]))
  }

  lemma {:induction false} MovesGrow(states: seq<Chain>, i: nat, n: nat)
    requires AllMove(states, n) && i <= n
    ensures Grows(states[i].known, states[n].known)
    decreases n
  {
    if i < n {
      MovesGrow(states, i, n - 1);
    }
  }

  /** x was there whenever the top was. */
  ghost predicate NotAfter(states: seq<Chain>, n: nat, x: Hash, top: Hash)
    requires n < |states|
  {
    forall i :: 0 <= i <= n && top in states[i].known ==> x in states[i].known
  }

  lemma {:induction false} TopIsLatest(states: seq<Chain>, n: nat, x: Hash)
    requires AllMove(states, n)
    requires x in states[n].known && states[n].known[x].totalWork == states[n].top.totalWork
    ensures NotAfter(states, n, x, states[n].top.header.hash)
  {
    if n > 0 {
      if states[n].top == states[n - 1].top {
        TopIsLatest(states, n - 1, x);
      } else {
        forall i | 0 <= i <= n - 1 ensures states[n].top.header.hash !in states[i].known {
          MovesGrow(states, i, n - 1);
        }
      }
    }
  }

  /** After any run the top is a header whose branch holds the most work, and of those the one that came last. */
  lemma {:induction false} TopIsLatestOfGreatest(genesis: Header, states: seq<Chain>, steps: seq<HeaderStep>, n: nat, x: Hash)
    requires HeaderRun(genesis, states, steps, n)
    ensures Inv(states[n])
    ensures x in states[n].known ==> IsBest(states, n, x)
  {
    RunKeeps(genesis, states, steps, n);
    if x in states[n].known {
      BestOf(states, n, x);
    }
  }

  /** The top's branch holds at least as much work as that of x, and as much only if x was there before the top. */
  ghost predicate IsBest(states: seq<Chain>, n: nat, x: Hash)
    requires n < |states| && Inv(states[n]) && x in states[n].known
  {
    var c := states[n]; var top := c.top.header.hash;
    && BranchWork(c.known, x) <= BranchWork(c.known, top)
    && (BranchWork(c.known, x) == BranchWork(c.known, top) ==> NotAfter(states, n, x, top))
  }

  lemma {:induction false} BestOf(states: seq<Chain>, n: nat, x: Hash)
    requires AllMove(states, n) && Inv(states[n]) && WorkAdds(states[n].known) && x in states[n].known
    ensures IsBest(states, n, x)
  {
    if states[n].known[x].totalWork == states[n].top.totalWork {
      TopIsLatest(states, n, x);
    }
  }
}
