/** Which blocks of the top chain have been fetched, and which remain. */
module FetchSpec {
  import opened Bytes
  import opened HeaderTree

  /** Blocks are applied in order: a fetched block's parent is fetched. */
  ghost predicate FetchedClosed(known: Headers) {
    forall h {:trigger Parent(known, h)} :: h in known && known[h].fetchedFull && known[h].number > 0 ==>
      Parent(known, h) in known && known[Parent(known, h)].fetchedFull
  }

  /** calculate_downloaded_blocks: one more than the number of the highest fetched block, or none. */
  ghost function Downloaded(known: Headers, h: Hash): (n: nat)
    requires Tree(known) && h in known
    ensures n <= Number(known, h) + 1
    decreases known[h].number
  {
    if known[h].fetchedFull then Number(known, h) + 1
    else if Number(known, h) == 0 then 0
    else Downloaded(known, Parent(known, h))
  }

  ghost function FetchedAncestors(known: Headers, h: Hash): set<Hash>
    requires Tree(known) && h in known
  {
    set x | x in Ancestors(known, h) && x in known && known[x].fetchedFull
  }

  lemma {:induction false} AncestorsCount(known: Headers, h: Hash)
    requires Tree(known) && h in known
    ensures |Ancestors(known, h)| == Number(known, h) + 1
    decreases known[h].number
  {
    AncestorsBelow(known, h);
    if Number(known, h) > 0 {
      AncestorsCount(known, Parent(known, h));
      AncestorsBelow(known, Parent(known, h));
    }
  }

  /** Everything below a fetched block is fetched. */
  lemma {:induction false} FetchedBelow(known: Headers, h: Hash)
    requires Tree(known) && FetchedClosed(known) && h in known && known[h].fetchedFull
    ensures forall x :: x in Ancestors(known, h) ==> x in known && known[x].fetchedFull
    decreases known[h].number
  {
    if Number(known, h) > 0 {
      FetchedBelow(known, Parent(known, h));
    }
  }

  /** When blocks are applied in order, the walk down counts the fetched blocks of the branch. */
  lemma {:induction false} DownloadedCounts(known: Headers, h: Hash)
    requires Tree(known) && FetchedClosed(known) && h in known
    ensures Downloaded(known, h) == |FetchedAncestors(known, h)|
    decreases known[h].number
  {
    if known[h].fetchedFull {
      FetchedBelow(known, h);
      AncestorsCount(known, h);
      assert FetchedAncestors(known, h) == Ancestors(known, h);
    } else if Number(known, h) == 0 {
      assert FetchedAncestors(known, h) == {};
    } else {
      DownloadedCounts(known, Parent(known, h));
      assert FetchedAncestors(known, h) == FetchedAncestors(known, Parent(known, h));
    }
  }

  /** The blocks from the lowest one without a fetched parent up to h, lowest first. */
  ghost function Missing(known: Headers, h: Hash): (s: seq<Hash>)
    requires Tree(known) && h in known
    ensures s != [] && s[|s| - 1] == h
    ensures |s| <= Number(known, h) + 1
    decreases known[h].number
  {
    if Number(known, h) == 0 || known[Parent(known, h)].fetchedFull then [h]
    else Missing(known, Parent(known, h)) + [h]
  }

  /** The missing blocks are consecutive on the branch of h, on top of a fetched block or from genesis. */
  lemma {:induction false} MissingShape(known: Headers, h: Hash, i: nat)
    requires Tree(known) && h in known && i < |Missing(known, h)|
    ensures var s := Missing(known, h);
      && s[i] in Ancestors(known, h) && s[i] in known
      && Number(known, s[i]) == Number(known, h) + 1 - |s| + i
      && (i > 0 ==> Number(known, s[i]) > 0 && Parent(known, s[i]) == s[i - 1] && s[i - 1] in known)
      && (i == 0 && Number(known, s[i]) > 0 ==>
            Parent(known, s[i]) in known && known[Parent(known, s[i])].fetchedFull)
    decreases known[h].number
  {
    AncestorsBelow(known, h);
    if !(Number(known, h) == 0 || known[Parent(known, h)].fetchedFull) {
      var s := Missing(known, Parent(known, h));
      if i < |s| {
        MissingShape(known, Parent(known, h), i);
        assert Missing(known, h)[..|s|] == s;
      } else {
        MissingShape(known, Parent(known, h), |s| - 1);
      }
    }
  }

  /** When blocks are applied in order, the missing blocks are exactly the unfetched ones of the branch. */
  lemma {:induction false} MissingAreUnfetched(known: Headers, h: Hash)
    requires Tree(known) && FetchedClosed(known) && h in known && !known[h].fetchedFull
    ensures |Missing(known, h)| == Number(known, h) + 1 - Downloaded(known, h)
    ensures Elements(Missing(known, h)) == Ancestors(known, h) - FetchedAncestors(known, h)
    decreases known[h].number
  {
    var s := Missing(known, h);
    if Number(known, h) == 0 {
      assert s == [h];
    } else if known[Parent(known, h)].fetchedFull {
      FetchedBelow(known, Parent(known, h));
      assert s == [h];
    } else {
      MissingAreUnfetched(known, Parent(known, h));
      assert Elements(s) == Elements(Missing(known, Parent(known, h))) + {h};
    }
  }

  /** mark_as_downloaded on the headers. */
  function Fetch(known: Headers, blocks: seq<Hash>): (r: Headers)
    requires forall i :: 0 <= i < |blocks| ==> blocks[i] in known
    ensures r.Keys == known.Keys
  {
    if blocks == [] then known
    else
      var rest := Fetch(known, blocks[..|blocks| - 1]);
      var h := blocks[|blocks| - 1];
      rest[h := rest[h].(fetchedFull := true)]
  }

  /** Marking blocks changes nothing but whether they are fetched. */
  lemma {:induction false} FetchKeeps(known: Headers, blocks: seq<Hash>)
    requires Tree(known) && forall i :: 0 <= i < |blocks| ==> blocks[i] in known
    ensures var r := Fetch(known, blocks);
      && Tree(r) && SameLinks(known, r) && SameLinks(r, known)
      && forall h :: h in r ==> h in known && r[h] == known[h].(fetchedFull := known[h].fetchedFull || h in blocks)
  {
    FetchContents(known, blocks);
    SamePlaces(known, Fetch(known, blocks));
  }

  lemma {:induction false} FetchContents(known: Headers, blocks: seq<Hash>)
    requires forall i :: 0 <= i < |blocks| ==> blocks[i] in known
    ensures var r := Fetch(known, blocks);
      r.Keys == known.Keys && forall h :: h in r ==> r[h] == known[h].(fetchedFull := known[h].fetchedFull || h in blocks)
  {
    if blocks != [] {
      FetchContents(known, blocks[..|blocks| - 1]);
      assert blocks == blocks[..|blocks| - 1] + [blocks[|blocks| - 1]];
    }
  }

  /** Headers that keep their places stay a tree. */
  lemma {:induction false} SamePlaces(known: Headers, known': Headers)
    requires Tree(known) && known'.Keys == known.Keys
    requires forall h :: h in known ==> known'[h].header == known[h].header && known'[h].number == known[h].number
    ensures Tree(known')
  {
    forall x | x in known' && known'[x].number > 0 ensures IsChild(known', x) {
      assert IsChild(known, x);
    }
  }
}
