/**
 * The tree of known headers: ancestors, the meeting point of two branches, and what adding a header
 * does to the top chain.
 */
module HeaderTree {
  import opened Bytes

  datatype Header = Header(hash: Hash, parent: Hash, timestamp: U32, bits: U32)

  /** BlockHeaderWithNumber */
  datatype Known = Known(header: Header, number: nat, fetchedFull: bool, totalWork: nat)

  type Headers = map<Hash, Known>

  predicate IsChild(known: Headers, h: Hash)
    requires h in known
  {
    var parent := Parent(known, h);
    parent in known && known[h].number == known[parent].number + 1
  }

  /** Every header sits on its parent; only the genesis header has number 0. */
  ghost predicate Tree(known: Headers) {
    && (forall h :: h in known ==> known[h].header.hash == h)
    && (forall h {:trigger Parent(known, h)} {:trigger IsChild(known, h)} :: h in known && known[h].number > 0 ==> IsChild(known, h))
    && (forall h :: h in known && known[h].number == 0 ==> known[h].header.parent == EMPTY_HASH)
    && EMPTY_HASH !in known
    && (forall g, h :: g in known && h in known && known[g].number == 0 && known[h].number == 0 ==> g == h)
  }

  function Parent(known: Headers, h: Hash): Hash
    requires h in known
  {
    known[h].header.parent
  }

  function Number(known: Headers, h: Hash): nat
    requires h in known
  {
    known[h].number
  }

  /** The header and all headers below it. */
  ghost function Ancestors(known: Headers, h: Hash): set<Hash>
    requires Tree(known) && h in known
    decreases known[h].number
  {
    if Number(known, h) == 0 then {h} else {h} + Ancestors(known, Parent(known, h))
  }

  /** Hash of each number on the branch of h. */
  ghost function NumberMap(known: Headers, h: Hash): map<nat, Hash>
    requires Tree(known) && h in known
    decreases known[h].number
  {
    if Number(known, h) == 0 then map[0 := h]
    else NumberMap(known, Parent(known, h))[Number(known, h) := h]
  }

  /** The last header two branches have in common. */
  ghost function Meet(known: Headers, a: Hash, b: Hash): Hash
    requires Tree(known) && a in known && b in known
    decreases known[a].number + known[b].number
  {
    if a == b then a
    else if Number(known, a) > Number(known, b) then Meet(known, Parent(known, a), b)
    else if Number(known, b) > Number(known, a) then Meet(known, a, Parent(known, b))
    else Meet(known, Parent(known, a), Parent(known, b))
  }

  /** From h down to, but not including, one of its ancestors. */
  ghost function Path(known: Headers, h: Hash, stop: Hash): seq<Hash>
    requires Tree(known) && h in known && stop in Ancestors(known, h)
    decreases known[h].number
  {
    if h == stop then [] else [h] + Path(known, Parent(known, h), stop)
  }

  /** get_ancestor: the header of a branch at a height. */
  ghost function AncestorAt(known: Headers, h: Hash, height: nat): (x: Hash)
    requires Tree(known) && h in known
    ensures x in known
    decreases known[h].number
  {
    if Number(known, h) <= height then h else AncestorAt(known, Parent(known, h), height)
  }

  ghost function Elements(s: seq<Hash>): set<Hash> {
    set h | h in s
  }

  // ---------------------------------------------------------------- ancestors

  lemma {:induction false} AncestorsBelow(known: Headers, h: Hash)
    requires Tree(known) && h in known
    ensures h in Ancestors(known, h)
    ensures forall x :: x in Ancestors(known, h) ==>
              x in known && Number(known, x) <= Number(known, h) && (Number(known, x) == Number(known, h) ==> x == h)
    ensures forall x :: x in Ancestors(known, h) && Number(known, x) > 0 ==> Parent(known, x) in Ancestors(known, h)
    decreases known[h].number
  {
    if Number(known, h) > 0 {
      AncestorsBelow(known, Parent(known, h));
    }
  }

  /** A branch has one header of each number. */
  lemma {:induction false} OnePerNumber(known: Headers, h: Hash, x: Hash, y: Hash)
    requires Tree(known) && h in known && x in Ancestors(known, h) && y in Ancestors(known, h)
    requires x in known && y in known && Number(known, x) == Number(known, y)
    ensures x == y
    decreases known[h].number
  {
    if Number(known, h) > 0 {
      AncestorsBelow(known, Parent(known, h));
      if x != h && y != h {
        OnePerNumber(known, Parent(known, h), x, y);
      }
    }
  }

  lemma {:induction false} AncestorsTransitive(known: Headers, h: Hash, x: Hash)
    requires Tree(known) && h in known && x in Ancestors(known, h)
    ensures x in known && Ancestors(known, x) <= Ancestors(known, h)
    decreases known[h].number
  {
    AncestorsBelow(known, h);
    if x != h {
      AncestorsTransitive(known, Parent(known, h), x);
    }
  }

  /** Two views of the headers agree on where each header sits. */
  ghost predicate SameLinks(known: Headers, known': Headers) {
    forall h :: h in known ==>
      h in known' && known'[h].header.parent == known[h].header.parent && known'[h].number == known[h].number
  }

  /** Every header keeps its place and its mark when a header is added. */
  ghost predicate Grows(known: Headers, known': Headers) {
    forall h :: h in known ==> h in known' && known'[h] == known[h]
  }

  lemma {:induction false} AncestorsFrame(known: Headers, known': Headers, h: Hash)
    requires Tree(known) && Tree(known') && SameLinks(known, known') && h in known
    ensures Ancestors(known', h) == Ancestors(known, h)
    ensures NumberMap(known', h) == NumberMap(known, h)
    decreases known[h].number
  {
    if Number(known, h) > 0 {
      AncestorsFrame(known, known', Parent(known, h));
    }
  }

  lemma {:induction false} AncestorAtIs(known: Headers, h: Hash, height: nat)
    requires Tree(known) && h in known && height <= Number(known, h)
    ensures AncestorAt(known, h, height) in Ancestors(known, h)
    ensures Number(known, AncestorAt(known, h, height)) == height
    decreases known[h].number
  {
    if Number(known, h) > height {
      AncestorAtIs(known, Parent(known, h), height);
    }
  }

  lemma {:induction false} AncestorAtAncestor(known: Headers, h: Hash, high: nat, low: nat)
    requires Tree(known) && h in known && low <= high
    ensures AncestorAt(known, AncestorAt(known, h, high), low) == AncestorAt(known, h, low)
    decreases known[h].number
  {
    if Number(known, h) > high {
      AncestorAtAncestor(known, Parent(known, h), high, low);
    }
  }

  /** The header of a branch at a height stays the same after other headers were added. */
  lemma {:induction false} AncestorAtFrame(known: Headers, known': Headers, h: Hash, height: nat)
    requires Tree(known) && Tree(known') && SameLinks(known, known') && h in known
    ensures AncestorAt(known', h, height) == AncestorAt(known, h, height)
    decreases known[h].number
  {
    if Number(known, h) > height {
      AncestorAtFrame(known, known', Parent(known, h), height);
    }
  }

  // ---------------------------------------------------------------- the meeting point

  /** A branch is the path down to one of its headers, and that header's own branch. */
  lemma {:induction false} PathSplits(known: Headers, h: Hash, stop: Hash)
    requires Tree(known) && h in known && stop in Ancestors(known, h)
    ensures stop in known && Number(known, stop) <= Number(known, h)
    ensures Ancestors(known, h) == Elements(Path(known, h, stop)) + Ancestors(known, stop)
    ensures |Path(known, h, stop)| == Number(known, h) - Number(known, stop)
    decreases known[h].number
  {
    AncestorsBelow(known, h);
    if h != stop {
      PathSplits(known, Parent(known, h), stop);
      var p, q := Path(known, h, stop), Path(known, Parent(known, h), stop);
      assert p == [h] + q;
      assert Elements(p) == {h} + Elements(q);
    } else {
      assert Elements(Path(known, h, stop)) == {};
    }
  }

  /** The headers on a path, from h downwards: each is known, numbered in turn, and the next one's child. */
  lemma {:induction false} PathShape(known: Headers, h: Hash, stop: Hash, i: nat)
    requires Tree(known) && h in known && stop in Ancestors(known, h)
    requires i < |Path(known, h, stop)|
    ensures var p := Path(known, h, stop);
      && p[i] in Ancestors(known, h) && p[i] in known
      && Number(known, p[i]) == Number(known, h) - i
      && Number(known, p[i]) > 0
      && Parent(known, p[i]) == (if i + 1 < |p| then p[i + 1] else stop)
    decreases known[h].number
  {
    AncestorsBelow(known, h);
    var parent := Parent(known, h);
    if i > 0 {
      PathShape(known, parent, stop, i - 1);
    } else if parent != stop {
      assert Path(known, parent, stop)[0] == parent;
    }
  }

  /** Above the meeting point two branches share nothing. */
  lemma {:induction false} MeetSeparates(known: Headers, a: Hash, b: Hash)
    requires Tree(known) && a in known && b in known
    ensures var m := Meet(known, a, b);
      && m in Ancestors(known, a) && m in Ancestors(known, b) && m in known
      && Elements(Path(known, a, m)) !! Ancestors(known, b)
      && Elements(Path(known, b, m)) !! Ancestors(known, a)
    decreases known[a].number + known[b].number
  {
    AncestorsBelow(known, a);
    AncestorsBelow(known, b);
    var m := Meet(known, a, b);
    if a == b {
    } else if Number(known, a) > Number(known, b) {
      MeetSeparates(known, Parent(known, a), b);
      StepSeparates(known, a, b, m);
    } else if Number(known, b) > Number(known, a) {
      MeetSeparates(known, a, Parent(known, b));
      StepSeparates(known, b, a, m);
    } else {
      MeetSeparates(known, Parent(known, a), Parent(known, b));
      BothStepSeparates(known, a, b, m);
    }
  }

  /** Putting one more header on top of each of two equally tall branches keeps them apart. */
  lemma {:induction false} BothStepSeparates(known: Headers, a: Hash, b: Hash, m: Hash)
    requires Tree(known) && a in known && b in known && a != b && Number(known, a) == Number(known, b) > 0
    requires m in Ancestors(known, Parent(known, a)) && m in Ancestors(known, Parent(known, b))
    requires Elements(Path(known, Parent(known, a), m)) !! Ancestors(known, Parent(known, b))
    requires Elements(Path(known, Parent(known, b), m)) !! Ancestors(known, Parent(known, a))
    ensures m in Ancestors(known, a) && m in Ancestors(known, b)
    ensures Elements(Path(known, a, m)) !! Ancestors(known, b)
    ensures Elements(Path(known, b, m)) !! Ancestors(known, a)
  {
    var pa, pb := Parent(known, a), Parent(known, b);
    AncestorsBelow(known, pa);
    AncestorsBelow(known, pb);
    PathSplits(known, pa, m);
    PathSplits(known, pb, m);
    assert Path(known, a, m) == [a] + Path(known, pa, m);
    assert Path(known, b, m) == [b] + Path(known, pb, m);
  }

  /** Putting one more header on top of the taller branch keeps the branches apart. */
  lemma {:induction false} StepSeparates(known: Headers, a: Hash, b: Hash, m: Hash)
    requires Tree(known) && a in known && b in known && Number(known, a) > Number(known, b)
    requires m in Ancestors(known, Parent(known, a)) && m in Ancestors(known, b)
    requires Elements(Path(known, Parent(known, a), m)) !! Ancestors(known, b)
    requires Elements(Path(known, b, m)) !! Ancestors(known, Parent(known, a))
    ensures m in Ancestors(known, a)
    ensures Elements(Path(known, a, m)) !! Ancestors(known, b)
    ensures Elements(Path(known, b, m)) !! Ancestors(known, a)
  {
    AncestorsBelow(known, b);
    AncestorsBelow(known, Parent(known, a));
    PathSplits(known, b, m);
    assert Path(known, a, m) == [a] + Path(known, Parent(known, a), m);
  }

  // ---------------------------------------------------------------- numbers on a branch

  lemma {:induction false} NumberMapIs(known: Headers, h: Hash)
    requires Tree(known) && h in known
    ensures forall n: nat :: n in NumberMap(known, h) <==> n <= Number(known, h)
    ensures forall n: nat :: n in NumberMap(known, h) ==>
              var x := NumberMap(known, h)[n]; x in Ancestors(known, h) && x in known && Number(known, x) == n
    decreases known[h].number
  {
    if Number(known, h) > 0 {
      NumberMapIs(known, Parent(known, h));
    }
  }

  /** An ancestor's number leads back to it. */
  lemma {:induction false} NumberMapAt(known: Headers, h: Hash, x: Hash)
    requires Tree(known) && h in known && x in Ancestors(known, h)
    ensures x in known && Number(known, x) in NumberMap(known, h) && NumberMap(known, h)[Number(known, x)] == x
  {
    AncestorsBelow(known, h);
    NumberMapIs(known, h);
    OnePerNumber(known, h, x, NumberMap(known, h)[Number(known, x)]);
  }

  /** Below a header, its whole branch has the same numbers. */
  lemma {:induction false} NumberMapPrefix(known: Headers, h: Hash, m: Hash)
    requires Tree(known) && h in known && m in Ancestors(known, h)
    ensures m in known
    ensures forall n: nat :: n <= Number(known, m) ==>
              && n in NumberMap(known, m) && n in NumberMap(known, h)
              && NumberMap(known, h)[n] == NumberMap(known, m)[n]
  {
    AncestorsTransitive(known, h, m);
    NumberMapIs(known, m);
    forall n: nat | n <= Number(known, m)
      ensures n in NumberMap(known, h) && NumberMap(known, h)[n] == NumberMap(known, m)[n]
    {
      NumberMapAt(known, h, NumberMap(known, m)[n]);
    }
  }

  /** The path from a header to an ancestor looks the same after other headers were added. */
  lemma {:induction false} PathFrame(known: Headers, known': Headers, h: Hash, stop: Hash)
    requires Tree(known) && Tree(known') && SameLinks(known, known') && h in known
    requires stop in Ancestors(known, h) && stop in Ancestors(known', h)
    ensures Path(known', h, stop) == Path(known, h, stop)
    decreases known[h].number
  {
    if h != stop {
      PathFrame(known, known', Parent(known, h), stop);
    }
  }

  /** A path ends one header further down. */
  lemma {:induction false} PathSnoc(known: Headers, h: Hash, x: Hash)
    requires Tree(known) && h in known && x in Ancestors(known, h) && x in known && Number(known, x) > 0
    ensures Parent(known, x) in Ancestors(known, h)
    ensures Path(known, h, Parent(known, x)) == Path(known, h, x) + [x]
    decreases known[h].number
  {
    AncestorsBelow(known, h);
    if h == x {
      AncestorsBelow(known, Parent(known, x));
      assert Path(known, Parent(known, x), Parent(known, x)) == [];
    } else {
      PathSnoc(known, Parent(known, h), x);
      AncestorsBelow(known, Parent(known, h));
    }
  }

  /** The meeting point stays the same after other headers were added. */
  lemma {:induction false} MeetFrame(known: Headers, known': Headers, a: Hash, b: Hash)
    requires Tree(known) && Tree(known') && SameLinks(known, known') && a in known && b in known
    ensures Meet(known', a, b) == Meet(known, a, b)
    decreases known[a].number + known[b].number
  {
    if a == b {
    } else if Number(known, a) > Number(known, b) {
      MeetFrame(known, known', Parent(known, a), b);
    } else if Number(known, b) > Number(known, a) {
      MeetFrame(known, known', a, Parent(known, b));
    } else {
      MeetFrame(known, known', Parent(known, a), Parent(known, b));
    }
  }

  /**
   * The branch of a new header against the branch of the old top: from their meeting point up, what is
   * removed and what is added, and that neither side's part lies on the other branch.
   */
  ghost predicate Switch(known: Headers, oldTop: Hash, known': Headers, newTop: Hash, m: Hash,
                         removed: seq<Hash>, path: seq<Hash>)
    requires Tree(known) && Tree(known') && oldTop in known && newTop in known'
  {
    && m in Ancestors(known, oldTop) && removed == Path(known, oldTop, m)
    && m in Ancestors(known', newTop) && path == Path(known', newTop, m)
    && Elements(removed) !! Ancestors(known', newTop)
    && Elements(path) !! Ancestors(known, oldTop)
  }

  /** A new header on `parent` switches branches at the meeting point of its parent and the old top. */
  lemma {:induction false} NewHeaderSwitches(known: Headers, oldTop: Hash, known': Headers, newTop: Hash, parent: Hash)
    requires Tree(known) && Tree(known') && SameLinks(known, known') && oldTop in known && parent in known
    requires newTop in known' && newTop !in known && Parent(known', newTop) == parent && Number(known', newTop) > 0
    ensures var m := Meet(known, parent, oldTop);
      && m in Ancestors(known, parent) && m in Ancestors(known, oldTop)
      && Switch(known, oldTop, known', newTop, m, Path(known, oldTop, m), [newTop] + Path(known, parent, m))
  {
    var m := Meet(known, parent, oldTop);
    MeetSeparates(known, parent, oldTop);
    AncestorsFrame(known, known', parent);
    PathFrame(known, known', parent, m);
    AncestorsBelow(known, parent);
    AncestorsBelow(known, oldTop);
    PathSplits(known, oldTop, m);
    assert Ancestors(known', newTop) == {newTop} + Ancestors(known, parent);
    assert Path(known', newTop, m) == [newTop] + Path(known, parent, m);
  }

  /** Removing one side and adding the other turns the old branch into the new one. */
  lemma {:induction false} SwitchAncestors(known: Headers, oldTop: Hash, known': Headers, newTop: Hash, m: Hash,
                                           removed: seq<Hash>, path: seq<Hash>)
    requires Tree(known) && Tree(known') && SameLinks(known, known') && oldTop in known && newTop in known'
    requires Switch(known, oldTop, known', newTop, m, removed, path)
    ensures Ancestors(known', newTop) == (Ancestors(known, oldTop) - Elements(removed)) + Elements(path)
  {
    PathSplits(known, oldTop, m);
    PathSplits(known', newTop, m);
    AncestorsFrame(known, known', m);
  }

  /** Above one of its headers, a branch has the numbers of the path down to it. */
  lemma {:induction false} NumberMapOnPath(known: Headers, h: Hash, m: Hash, k: nat)
    requires Tree(known) && h in known && m in Ancestors(known, h)
    requires k < |Path(known, h, m)| && k <= Number(known, h)
    ensures var x := Path(known, h, m)[k];
      Number(known, h) - k in NumberMap(known, h) && NumberMap(known, h)[Number(known, h) - k] == x
  {
    PathShape(known, h, m, k);
    NumberMapAt(known, h, Path(known, h, m)[k]);
  }

  /** Up to a header the two branches share, they have the same numbers. */
  lemma {:induction false} NumberMapShared(known: Headers, oldTop: Hash, known': Headers, newTop: Hash, m: Hash, n: nat)
    requires Tree(known) && Tree(known') && SameLinks(known, known') && oldTop in known && newTop in known'
    requires m in Ancestors(known, oldTop) && m in Ancestors(known', newTop)
    requires m in known && n <= Number(known, m)
    ensures n in NumberMap(known, oldTop) && n in NumberMap(known', newTop)
    ensures NumberMap(known, oldTop)[n] == NumberMap(known', newTop)[n]
  {
    NumberMapPrefix(known, oldTop, m);
    NumberMapPrefix(known', newTop, m);
    AncestorsFrame(known, known', m);
  }
}
