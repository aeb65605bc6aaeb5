/** The shared chain state and the walks over its headers. */
module ChainState {
  import opened Wrappers
  import opened Bytes
  import opened Seqs
  import opened HeaderTree
  import opened ChainSpec
  import opened FetchSpec
  import opened Difficulty
  import opened Retarget
  import Utf8

  /** The hashes a walk visited and the counters it gave them. */
  type Visited = seq<(Hash, nat)>

  /** Visited from the new header down: the walk's counters are one too high below it. */
  ghost predicate IsVisited(s: Visited, path: seq<Hash>, number: nat) {
    && |s| == |path| <= number + 1
    && forall k :: 0 <= k < |path| ==> s[k].0 == path[k] && s[k].1 == CounterAt(number, k)
  }

  class ChainState {
    var top: Known
    var known: Headers
    var numberToHash: map<nat, Hash>
    var mostWork: set<Hash>
    /** DOWNLOADED_BLOCKS, which the code keeps beside the chain. */
    var downloaded: nat
    /** The coinbase text of every fetched block, which the code keeps in the header. */
    var texts: map<Hash, seq<Byte>>

    ghost function AsChain(): Chain
      reads this
    {
      Chain(top, known, numberToHash, mostWork)
    }

    /** The chain of the genesis header alone. */
    constructor (genesis: Header)
      requires genesis.parent == EMPTY_HASH && genesis.hash != EMPTY_HASH
      ensures AsChain().known == map[genesis.hash := Known(genesis, 0, false, GetWork(genesis.bits))]
      ensures Inv(AsChain()) && OnTop(AsChain())
      ensures numberToHash == NumberMap(known, genesis.hash)
      ensures downloaded == Downloaded(known, genesis.hash) && texts == map[]
    {
      var first := Known(genesis, 0, false, GetWork(genesis.bits));
      OnlyGenesis(first);
      top := first;
      known := map[genesis.hash := first];
      numberToHash := map[0 := genesis.hash];
      mostWork := {genesis.hash};
      downloaded := 0;
      texts := map[];
    }

    /** get_ancestor */
    method GetAncestor(header: Known, height: nat) returns (r: Option<Known>)
      requires Tree(known) && header.header.hash in known && known[header.header.hash] == header
      ensures r == Some(known[AncestorAt(known, header.header.hash, height)])
    {
      var current := header;
      while current.number > height
        invariant current.header.hash in known && known[current.header.hash] == current
        invariant AncestorAt(known, header.header.hash, height) == AncestorAt(known, current.header.hash, height)
        decreases current.number
      {
        assert IsChild(known, current.header.hash);
        if current.header.parent !in known {
          return None;
        }
        current := known[current.header.parent];
      }
      return Some(current);
    }

    /** get_next_bits_required; None is its panic. */
    method GetNextBitsRequired(header: Known) returns (r: Option<U32>)
      requires Tree(known) && header.header.hash in known && known[header.header.hash] == header
      ensures r == NextBits(known, header.header.hash)
    {
      if !EndsPeriod(header.number) {
        return Some(header.header.bits);
      }
      var first := GetAncestor(header, FirstOfPeriod(header.number));
      if first.None? {
        return None;
      }
      return NextWorkRequired(header.header.timestamp, first.value.header.timestamp, header.header.bits);
    }

    /** The fork walk's first loop: down from the old top to the parent's number. None when it falls off genesis. */
    method StepDownOld(number: nat) returns (visited: seq<Hash>, r: Option<Hash>)
      requires Tree(known) && top.header.hash in known && known[top.header.hash] == top
      ensures r.Some? <==> number <= top.number
      ensures r.Some? ==>
        && r.value in Ancestors(known, top.header.hash) && r.value in known && Number(known, r.value) == number
        && visited == [top.header.hash] + Path(known, top.header.hash, r.value)
    {
      var last := top.header.hash;
      visited := [top.header.hash];
      AncestorsBelow(known, last);
      assert Path(known, last, last) == [];
      while true
        invariant last in known ==> last in Ancestors(known, top.header.hash) && Number(known, last) <= top.number
        invariant last in known ==> visited == [top.header.hash] + Path(known, top.header.hash, last)
        invariant last in known && Number(known, last) < number ==> top.number < number
        invariant last !in known ==> top.number < number
        decreases if last in known then Number(known, last) + 1 else 0
      {
        if last !in known {
          return visited, None;
        }
        var header := known[last];
        if header.number == number {
          return visited, Some(last);
        }
        visited := visited + [header.header.hash];
        if header.number > 0 {
          PathSnoc(known, top.header.hash, last);
          AncestorsBelow(known, top.header.hash);
        }
        last := header.header.parent;
      }
    }

    /** The fork walk's second loop: down both branches until they meet. */
    method StepDownBoth(newTop: Hash, number: nat, parent: Hash, level: Hash, visitedOld: seq<Hash>)
        returns (newBlocks: Visited, oldBlocks: seq<Hash>)
      requires Tree(known) && parent in known && level in known
      requires Number(known, parent) == Number(known, level) && number == Number(known, parent) + 1
      ensures var m := Meet(known, parent, level);
        && m in Ancestors(known, parent) && m in Ancestors(known, level)
        && IsVisited(newBlocks, [newTop] + Path(known, parent, m), number)
        && oldBlocks == visitedOld + Path(known, level, m)
    {
      var fromNew, fromNewNumber, fromOld := parent, number, level;
      newBlocks, oldBlocks := [(newTop, number)], visitedOld;
      WalkStarts(known, newTop, number, parent, level);
      while fromNew != fromOld
        invariant Walking(known, newTop, number, parent, level, fromNew, fromOld, newBlocks, oldBlocks, visitedOld)
        invariant fromNewNumber == Number(known, fromNew) + 1
        decreases Number(known, fromNew)
      {
        WalkStep(known, newTop, number, parent, level, fromNew, fromOld, newBlocks, oldBlocks, visitedOld);
        newBlocks, oldBlocks := newBlocks + [(fromNew, fromNewNumber)], oldBlocks + [fromOld];
        fromOld := Parent(known, fromOld);
        fromNew, fromNewNumber := Parent(known, fromNew), fromNewNumber - 1;
      }
    }

    /** validate_and_apply_header_inner */
    method ValidateAndApply(header: Header, sync: bool) returns (out: Outcome)
      requires Inv(AsChain()) && header.hash != EMPTY_HASH
      modifies this`top, this`known, this`downloaded
      ensures Applies(old(AsChain()), header, RuleFor(old(known), header), sync, AsChain(), out)
      ensures !out.Panics? ==> Inv(AsChain())
      ensures downloaded ==
                if out.Accepted? && out.result.Some? && header.parent != old(top).header.hash
                then Downloaded(known, header.hash) else old(downloaded)
    {
      if header.hash in known {
        return Accepted(None);
      }
      if header.parent !in known {
        return Rejected;
      }
      var parent := known[header.parent];
      var expectedBits := GetNextBitsRequired(parent);
      if expectedBits.None? {
        return Panics;
      }
      if expectedBits.value != header.bits {
        return Rejected;
      }
      out := ApplyValid(header, parent, GetWork(header.bits), sync);
    }

    /** The part after the difficulty check: the header is stored, and may become the top. */
    method ApplyValid(header: Header, parent: Known, work: nat, sync: bool) returns (out: Outcome)
      requires Inv(AsChain()) && header.hash != EMPTY_HASH && header.hash !in known
      requires header.parent in known && known[header.parent] == parent
      modifies this`top, this`known, this`downloaded
      ensures Applies(old(AsChain()), header, Rule(work, Some(header.bits)), sync, AsChain(), out)
      ensures !out.Panics? ==> Inv(AsChain())
      ensures downloaded ==
                if out.Accepted? && out.result.Some? && header.parent != old(top).header.hash
                then Downloaded(known, header.hash) else old(downloaded)
    {
      ghost var before, rule := AsChain(), Rule(work, Some(header.bits));
      var newHeader := Known(header, parent.number + 1, false, parent.totalWork + work);
      InsertKeepsTree(known, header, rule);
      known := known[header.hash := newHeader];
      if newHeader.totalWork < top.totalWork {
        GrownKeeps(before, header, rule, top);
        return Accepted(None);
      }
      GrownKeeps(before, header, rule, newHeader);
      if sync {
        top := newHeader;
        return Accepted(None);
      }
      if header.parent == top.header.hash {
        top := newHeader;
        return Accepted(Some(Applied([], [(top.header.hash, top.number)])));
      }
      out := ApplyFork(header, newHeader, before);
    }

    /** The new top is on another branch: both are walked down to where they meet. */
    method ApplyFork(header: Header, newHeader: Known, ghost before: Chain) returns (out: Outcome)
      requires Inv(before) && header.parent in before.known && header.parent != before.top.header.hash
      requires header.hash != EMPTY_HASH && header.hash !in before.known
      requires newHeader.header == header && newHeader.number == Number(before.known, header.parent) + 1
      requires AsChain() == before.(known := before.known[header.hash := newHeader])
      requires Tree(known) && SameLinks(before.known, known) && Inv(AsChain().(top := newHeader))
      modifies this`top, this`downloaded
      ensures out.Panics? <==> Number(before.known, header.parent) > before.top.number
      ensures out.Panics? ==> top == before.top && downloaded == old(downloaded)
      ensures !out.Panics? ==>
        && top == newHeader && downloaded == Downloaded(known, header.hash)
        && out.Accepted? && out.result.Some? && IsFork(before, header, out.result.value)
    {
      var visitedOld, level := StepDownOld(newHeader.number - 1);
      if level.None? {
        return Panics;
      }
      ghost var m := Meet(known, header.parent, level.value);
      ghost var first := Path(known, top.header.hash, level.value);
      var visitedNew;
      visitedNew, visitedOld := StepDownBoth(header.hash, newHeader.number, header.parent, level.value, visitedOld);
      var a := Applied(visitedOld, Reverse(visitedNew));
      WalkIsFork(before, known, header, level.value, m, first, Path(known, level.value, m),
                 Path(known, header.parent, m), a, visitedNew);
      top := newHeader;
      downloaded := CalculateDownloadedBlocks();
      out := Accepted(Some(a));
    }

    /** calculate_downloaded_blocks */
    method CalculateDownloadedBlocks() returns (n: nat)
      requires Tree(known) && top.header.hash in known && known[top.header.hash] == top
      ensures n == Downloaded(known, top.header.hash)
    {
      var last := top;
      while true
        invariant last.header.hash in known && known[last.header.hash] == last
        invariant Downloaded(known, top.header.hash) == Downloaded(known, last.header.hash)
        decreases last.number
      {
        if last.fetchedFull {
          return last.number + 1;
        }
        if last.number == 0 {
          return 0;
        }
        assert IsChild(known, last.header.hash);
        last := known[last.header.parent];
      }
    }

    /** update_most_work_chain */
    method UpdateMostWorkChain(a: Applied)
      modifies this`mostWork, this`numberToHash
      ensures AsChain() == UpdateMostWork(old(AsChain()), a)
    {
      RemoveAll(a.removed);
      InsertAll(a.added);
    }

    method RemoveAll(removed: seq<Hash>)
      modifies this`mostWork
      ensures mostWork == old(mostWork) - Elements(removed)
    {
      for i := 0 to |removed|
        invariant mostWork == old(mostWork) - Elements(removed[..i])
      {
        assert removed[..i + 1] == removed[..i] + [removed[i]];
        mostWork := mostWork - {removed[i]};
      }
      assert removed[..|removed|] == removed;
    }

    method InsertAll(added: Visited)
      modifies this`mostWork, this`numberToHash
      ensures mostWork == old(mostWork) + AddedHashes(added)
      ensures numberToHash == InsertNumbers(old(numberToHash), added)
    {
      assert added[..0] == [] && AddedHashes([]) == {};
      for i := 0 to |added|
        invariant mostWork == old(mostWork) + AddedHashes(added[..i])
        invariant numberToHash == InsertNumbers(old(numberToHash), added[..i])
      {
        var (hash, number) := added[i];
        assert added[..i + 1] == added[..i] + [added[i]];
        assert added[..i + 1][..i] == added[..i];
        AddedSnoc(added[..i], hash, number);
        mostWork := mostWork + {hash};
        numberToHash := numberToHash[number := hash];
      }
      assert added[..|added|] == added;
    }

    /** generate_top_work_chain_hashset */
    method GenerateTopWorkChain()
      requires Inv(AsChain())
      modifies this`mostWork, this`numberToHash
      ensures AsChain() == old(AsChain()).(mostWork := Ancestors(known, top.header.hash),
                                           numberToHash := NumberMap(known, top.header.hash))
      ensures Inv(AsChain()) && OnTop(AsChain())
    {
      var newSet: set<Hash>, newNumbers: map<nat, Hash> := {}, map[];
      var last := top;
      while true
        invariant last.header.hash in known && known[last.header.hash] == last
        invariant Ancestors(known, top.header.hash) == newSet + Ancestors(known, last.header.hash)
        invariant NumberMap(known, top.header.hash) == NumberMap(known, last.header.hash) + newNumbers
        invariant forall n :: n in newNumbers ==> n > last.number
        decreases last.number
      {
        assert IsChild(known, last.header.hash) || last.number == 0;
        MoveEntry(if last.number == 0 then map[] else NumberMap(known, Parent(known, last.header.hash)),
                  newNumbers, last.number, last.header.hash);
        newSet, newNumbers := newSet + {last.header.hash}, newNumbers[last.number := last.header.hash];
        if last.number == 0 {
          break;
        }
        last := known[last.header.parent];
      }
      mostWork, numberToHash := newSet, newNumbers;
    }

    /** get_block_hashes_to_download */
    method GetBlockHashesToDownload() returns (r: Option<(seq<Hash>, nat)>)
      requires Inv(AsChain())
      ensures r.None? <==> downloaded > top.number
      ensures r.Some? ==>
        && r.value.0 == Missing(known, top.header.hash)
        && r.value.1 == Number(known, top.header.hash) + 1 - |r.value.0|
    {
      if downloaded > top.number {
        return None;
      }
      var all: seq<Hash>, c, lastAdded := [], top, 0;
      ghost var wanted := Missing(known, top.header.hash);
      while true
        invariant c.header.hash in known && known[c.header.hash] == c
        invariant wanted == Missing(known, c.header.hash) + Reverse(all)
        invariant |all| == top.number - c.number
        decreases c.number
      {
        all, lastAdded := all + [c.header.hash], c.number;
        if c.number == 0 {
          break;
        }
        assert IsChild(known, c.header.hash);
        if c.header.parent !in known {
          break;
        }
        c := known[c.header.parent];
        if c.fetchedFull {
          break;
        }
      }
      return Some((Reverse(all), lastAdded));
    }

    /** mark_as_downloaded. The code expects every block to be known. */
    method MarkAsDownloaded(blocks: seq<Hash>, coinbases: seq<seq<Byte>>)
      requires Inv(AsChain()) && |coinbases| == |blocks| && forall i :: 0 <= i < |blocks| ==> blocks[i] in known
      modifies this`top, this`known, this`downloaded, this`texts
      ensures known == Fetch(old(known), blocks) && texts == WithTexts(old(texts), blocks, coinbases)
      ensures top == known[old(top).header.hash]
      ensures Inv(AsChain()) && downloaded == Downloaded(known, top.header.hash)
    {
      MarkEach(blocks, coinbases);
      FetchKeeps(old(known), blocks);
      FetchKeepsTop(old(AsChain()), blocks);
      top := top.(fetchedFull := known[top.header.hash].fetchedFull);
      downloaded := CalculateDownloadedBlocks();
    }

    /** The loop of mark_as_downloaded. */
    method MarkEach(blocks: seq<Hash>, coinbases: seq<seq<Byte>>)
      requires |coinbases| == |blocks| && forall i :: 0 <= i < |blocks| ==> blocks[i] in known
      modifies this`known, this`texts
      ensures known == Fetch(old(known), blocks) && texts == WithTexts(old(texts), blocks, coinbases)
    {
      for i := 0 to |blocks|
        invariant known == Fetch(old(known), blocks[..i]) && known.Keys == old(known).Keys
        invariant texts == WithTexts(old(texts), blocks[..i], coinbases[..i])
      {
        assert blocks[..i + 1][..i] == blocks[..i] && coinbases[..i + 1][..i] == coinbases[..i];
        var h := known[blocks[i]];
        known := known[blocks[i] := h.(fetchedFull := true)];
        texts := texts[blocks[i] := Utf8.Lossy(coinbases[i])];
      }
      assert blocks[..|blocks|] == blocks && coinbases[..|coinbases|] == coinbases;
    }
  }

  /** The texts after some blocks were fetched: what is not UTF-8 is replaced. */
  function WithTexts(texts: map<Hash, seq<Byte>>, blocks: seq<Hash>, coinbases: seq<seq<Byte>>): map<Hash, seq<Byte>>
    requires |coinbases| == |blocks|
  {
    if blocks == [] then texts
    else
      var last := |blocks| - 1;
      WithTexts(texts, blocks[..last], coinbases[..last])[blocks[last] := Utf8.Lossy(coinbases[last])]
  }

  /** A block's text is the last one given for it. */
  lemma {:induction false} TextIsStored(texts: map<Hash, seq<Byte>>, blocks: seq<Hash>, coinbases: seq<seq<Byte>>, i: nat)
    requires |coinbases| == |blocks| && i < |blocks| && forall j :: i < j < |blocks| ==> blocks[j] != blocks[i]
    ensures blocks[i] in WithTexts(texts, blocks, coinbases)
    ensures WithTexts(texts, blocks, coinbases)[blocks[i]] == Utf8.Lossy(coinbases[i])
  {
    if i < |blocks| - 1 {
      TextIsStored(texts, blocks[..|blocks| - 1], coinbases[..|blocks| - 1], i);
    }
  }

  /** The fork walk's second loop has come down to fromNew and fromOld. */
  ghost predicate Walking(known: Headers, newTop: Hash, number: nat, parent: Hash, level: Hash, fromNew: Hash, fromOld: Hash,
                          newBlocks: Visited, oldBlocks: seq<Hash>, visitedOld: seq<Hash>)
    requires Tree(known) && parent in known && level in known
  {
    && fromNew in known && fromOld in known && Number(known, fromNew) == Number(known, fromOld)
    && fromNew in Ancestors(known, parent) && fromOld in Ancestors(known, level)
    && Meet(known, fromNew, fromOld) == Meet(known, parent, level)
    && IsVisited(newBlocks, [newTop] + Path(known, parent, fromNew), number)
    && oldBlocks == visitedOld + Path(known, level, fromOld)
  }

  lemma {:induction false} OnlyGenesis(first: Known)
    requires first.number == 0 && !first.fetchedFull && first.header.parent == EMPTY_HASH && first.header.hash != EMPTY_HASH
    ensures var h := first.header.hash; var known := map[h := first];
      Tree(known) && Ancestors(known, h) == {h} && NumberMap(known, h) == map[0 := h] && Downloaded(known, h) == 0
  {
  }

  lemma {:induction false} WalkStarts(known: Headers, newTop: Hash, number: nat, parent: Hash, level: Hash)
    requires Tree(known) && parent in known && level in known && Number(known, parent) == Number(known, level)
    ensures parent in Ancestors(known, parent) && level in Ancestors(known, level)
    ensures Path(known, level, level) == [] && [newTop] + Path(known, parent, parent) == [newTop]
  {
    AncestorsBelow(known, parent);
    AncestorsBelow(known, level);
  }

  lemma {:induction false} WalkStep(known: Headers, newTop: Hash, number: nat, parent: Hash, level: Hash, fromNew: Hash, fromOld: Hash,
                                    newBlocks: Visited, oldBlocks: seq<Hash>, visitedOld: seq<Hash>)
    requires Tree(known) && parent in known && level in known && number == Number(known, parent) + 1
    requires Walking(known, newTop, number, parent, level, fromNew, fromOld, newBlocks, oldBlocks, visitedOld)
    requires fromNew != fromOld && Number(known, fromNew) > 0
    ensures Walking(known, newTop, number, parent, level, Parent(known, fromNew), Parent(known, fromOld),
                    newBlocks + [(fromNew, Number(known, fromNew) + 1)], oldBlocks + [fromOld], visitedOld)
  {
    VisitNext(known, parent, fromNew, newBlocks, newTop, number);
    PathSnoc(known, level, fromOld);
    ConcatAssociative(visitedOld, Path(known, level, fromOld), [fromOld]);
  }

  /** What the difficulty rules say of a header; of no consequence when its parent is unknown. */
  ghost function RuleFor(known: Headers, header: Header): (r: Rule)
    requires Tree(known)
    ensures FollowsRule(known, header, r)
  {
    Rule(GetWork(header.bits), if header.parent in known then NextBits(known, header.parent) else None)
  }

  /** The top header is kept twice; marking the blocks and copying the mark keeps the copies equal. */
  lemma {:induction false} FetchKeepsTop(c: Chain, blocks: seq<Hash>)
    requires Inv(c) && forall i :: 0 <= i < |blocks| ==> blocks[i] in c.known
    ensures var known, h := Fetch(c.known, blocks), c.top.header.hash;
      && h in known && known[h] == c.top.(fetchedFull := known[h].fetchedFull)
      && Inv(c.(known := known, top := known[h]))
  {
    FetchKeeps(c.known, blocks);
  }

  lemma {:induction false} AddedSnoc(added: Visited, hash: Hash, number: nat)
    ensures AddedHashes(added + [(hash, number)]) == AddedHashes(added) + {hash}
  {
    assert (added + [(hash, number)])[|added|] == (hash, number);
    forall p | p in added ensures p in added + [(hash, number)] {
    }
  }

  /** Moving the lowest number of a branch from one map to the other keeps their union. */
  lemma {:induction false} MoveEntry(m: map<nat, Hash>, numbers: map<nat, Hash>, n: nat, h: Hash)
    requires n !in numbers
    ensures m[n := h] + numbers == m + numbers[n := h]
  {
    assert (m[n := h] + numbers).Keys == (m + numbers[n := h]).Keys;
  }

  /** The two loops of the walk find the branches above the meeting point of the old chain. */
  lemma {:induction false} WalkIsFork(before: Chain, known: Headers, header: Header, level: Hash, m: Hash,
                                      first: seq<Hash>, second: seq<Hash>, path: seq<Hash>, a: Applied, visited: Visited)
    requires Inv(before) && Tree(known) && SameLinks(before.known, known) && header.parent in before.known
    requires level in Ancestors(known, before.top.header.hash) && level in known
    requires Number(known, level) == Number(before.known, header.parent)
    requires m == Meet(known, header.parent, level) && m in Ancestors(known, header.parent) && m in Ancestors(known, level)
    requires first == Path(known, before.top.header.hash, level) && second == Path(known, level, m)
    requires path == Path(known, header.parent, m)
    requires a.removed == [before.top.header.hash] + first + second && a.added == Reverse(visited)
    requires IsVisited(visited, [header.hash] + path, Number(before.known, header.parent) + 1)
    ensures IsFork(before, header, a)
  {
    LevelPath(before.known, known, header.parent, before.top.header.hash, level);
    ConcatAssociative([before.top.header.hash], first, second);
    ReversedIsAdded(visited, [header.hash] + path, Number(before.known, header.parent) + 1);
    IsForkBy(before, header, m, first + second, path, a);
  }

  lemma {:induction false} ReversedIsAdded(visited: Visited, path: seq<Hash>, number: nat)
    requires IsVisited(visited, path, number)
    ensures IsAdded(Reverse(visited), path, number)
  {
  }

  lemma {:induction false} IsForkBy(c: Chain, header: Header, m: Hash, removed: seq<Hash>, path: seq<Hash>, a: Applied)
    requires Inv(c) && header.parent in c.known && m == Meet(c.known, header.parent, c.top.header.hash)
    requires m in Ancestors(c.known, header.parent) && m in Ancestors(c.known, c.top.header.hash)
    requires removed == Path(c.known, c.top.header.hash, m) && path == Path(c.known, header.parent, m)
    requires a.removed == [c.top.header.hash] + removed
    requires IsAdded(a.added, [header.hash] + path, Number(c.known, header.parent) + 1)
    ensures IsFork(c, header, a)
  {
  }

  /** Walking in the grown tree, by way of the parent's height, gives the paths of the old tree. */
  lemma {:induction false} LevelPath(before: Headers, known: Headers, parent: Hash, oldTop: Hash, level: Hash)
    requires Tree(before) && Tree(known) && SameLinks(before, known) && parent in before && oldTop in before
    requires level in Ancestors(known, oldTop) && level in known && Number(known, level) == Number(before, parent)
    requires Meet(known, parent, level) in Ancestors(known, parent) && Meet(known, parent, level) in Ancestors(known, level)
    ensures var m := Meet(before, parent, oldTop);
      && m == Meet(known, parent, level) && m in Ancestors(before, parent) && m in Ancestors(before, oldTop)
      && Path(before, parent, m) == Path(known, parent, m)
      && Path(before, oldTop, m) == Path(known, oldTop, level) + Path(known, level, m)
  {
    var m := Meet(known, parent, level);
    LevelMeets(known, parent, oldTop, level);
    MeetFrame(before, known, parent, oldTop);
    AncestorsTransitive(known, oldTop, level);
    AncestorsFrame(before, known, oldTop);
    AncestorsFrame(before, known, parent);
    PathFrame(before, known, parent, m);
    PathFrame(before, known, oldTop, m);
    PathConcat(known, oldTop, level, m);
  }

  /** Going down to the other branch's height keeps the meeting point. */
  lemma {:induction false} LevelMeets(known: Headers, a: Hash, b: Hash, level: Hash)
    requires Tree(known) && a in known && b in known && level in Ancestors(known, b) && level in known
    requires Number(known, level) == Number(known, a)
    ensures Meet(known, a, b) == Meet(known, a, level)
    decreases known[b].number
  {
    if b != level {
      AncestorsBelow(known, b);
      LevelMeets(known, a, Parent(known, b), level);
    }
  }

  lemma {:induction false} PathConcat(known: Headers, h: Hash, x: Hash, stop: Hash)
    requires Tree(known) && h in known && x in Ancestors(known, h) && x in known
    requires stop in Ancestors(known, x) && stop in Ancestors(known, h)
    ensures Path(known, h, stop) == Path(known, h, x) + Path(known, x, stop)
    decreases known[h].number
  {
    if h != x {
      var p := Parent(known, h);
      BelowBoth(known, h, x, stop);
      PathConcat(known, p, x, stop);
      ConcatAssociative([h], Path(known, p, x), Path(known, x, stop));
    } else {
      assert Path(known, h, x) == [];
    }
  }

  /** What lies below a proper ancestor lies below the parent. */
  lemma {:induction false} BelowBoth(known: Headers, h: Hash, x: Hash, stop: Hash)
    requires Tree(known) && h in known && x in Ancestors(known, h) && x in known && h != x && stop in Ancestors(known, x)
    ensures Number(known, h) > 0 && Parent(known, h) in known && h != stop
    ensures x in Ancestors(known, Parent(known, h)) && stop in Ancestors(known, Parent(known, h))
  {
    AncestorsBelow(known, x);
    AncestorsBelow(known, h);
    AncestorsBelow(known, Parent(known, h));
    AncestorsTransitive(known, Parent(known, h), x);
  }

  lemma {:induction false} VisitNext(known: Headers, parent: Hash, x: Hash, visited: Visited, newTop: Hash, number: nat)
    requires Tree(known) && parent in known && x in Ancestors(known, parent) && x in known && Number(known, x) > 0
    requires number == Number(known, parent) + 1
    requires IsVisited(visited, [newTop] + Path(known, parent, x), number)
    ensures Parent(known, x) in Ancestors(known, parent)
    ensures IsVisited(visited + [(x, Number(known, x) + 1)], [newTop] + Path(known, parent, Parent(known, x)), number)
  {
    PathSnoc(known, parent, x);
    PathSplits(known, parent, x);
  }
}
