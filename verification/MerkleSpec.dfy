/** Merkle roots and the mutation flag: what they are, and what they bind. */
module MerkleSpec {
  import opened Bytes
  import opened Arithmetic
  import opened Seqs

  /** The double SHA-256 of two hashes side by side, as an arbitrary function. */
  type PairHash = (Hash, Hash) -> Hash

  /** One level up; an odd last node is paired with itself. */
  function Next(s: seq<Hash>, h: PairHash): (r: seq<Hash>)
    ensures |r| == (|s| + 1) / 2
  {
    if s == [] then []
    else if |s| == 1 then [h(s[0], s[0])]
    else [h(s[0], s[1])] + Next(s[2..], h)
  }

  function Root(s: seq<Hash>, h: PairHash): Hash
    decreases |s|
  {
    if s == [] then EMPTY_HASH else if |s| == 1 then s[0] else Root(Next(s, h), h)
  }

  /** The roots of up to three leaves. */
  lemma {:induction false} SmallRoots(a: Hash, b: Hash, c: Hash, h: PairHash)
    ensures Root([], h) == EMPTY_HASH && Root([a], h) == a
    ensures Root([a, b], h) == h(a, b)
    ensures Root([a, b, c], h) == h(h(a, b), h(c, c))
  {
    assert Next([a, b], h) == [h(a, b)] + Next([], h);
    assert [a, b, c][2..] == [c];
    assert Next([a, b, c], h) == [h(a, b), h(c, c)];
    assert Root([h(a, b), h(c, c)], h) == Root(Next([h(a, b), h(c, c)], h), h);
    assert Next([h(a, b), h(c, c)], h) == [h(h(a, b), h(c, c))] + Next([], h);
  }

  predicate AdjacentEqual(s: seq<Hash>) {
    exists i :: 0 <= i < |s| - 1 && s[i] == s[i + 1]
  }

  /** Two neighbours are equal at some level before padding. */
  predicate Mutated(s: seq<Hash>, h: PairHash)
    decreases |s|
  {
    |s| > 1 && (AdjacentEqual(s) || Mutated(Next(s, h), h))
  }

  /** Number of levels above the leaves. */
  function Levels(n: nat): nat {
    if n <= 1 then 0 else 1 + Levels((n + 1) / 2)
  }

  lemma {:induction false} NextAt(s: seq<Hash>, h: PairHash, k: nat)
    requires k < |Next(s, h)|
    ensures 2 * k < |s|
    ensures Next(s, h)[k] == h(s[2 * k], if 2 * k + 1 < |s| then s[2 * k + 1] else s[2 * k])
  {
    if k > 0 {
      NextAt(s[2..], h, k - 1);
    }
  }

  /** A list with the pairs of s is one level above it. */
  lemma {:induction false} NextIs(s: seq<Hash>, h: PairHash, r: seq<Hash>)
    requires |r| == (|s| + 1) / 2
    requires forall k :: 0 <= k < |r| ==> r[k] == h(s[2 * k], if 2 * k + 1 < |s| then s[2 * k + 1] else s[2 * k])
    ensures r == Next(s, h)
  {
    forall k | 0 <= k < |r| ensures r[k] == Next(s, h)[k] {
      NextAt(s, h, k);
    }
  }

  // ---------------------------------------------------------------- against a definition from the root down

  /** A perfect tree of a height whose missing right halves repeat the left ones. */
  function TreeRoot(s: seq<Hash>, height: nat, h: PairHash): Hash
    requires 0 < |s| <= Pow2(height)
    decreases height
  {
    if height == 0 then s[0]
    else
      var half := Pow2(height - 1);
      if |s| <= half then var left := TreeRoot(s, height - 1, h); h(left, left)
      else h(TreeRoot(s[..half], height - 1, h), TreeRoot(s[half..], height - 1, h))
  }

  lemma {:induction false} TreeHalves(s: seq<Hash>, height: nat, half: nat, h: PairHash)
    requires height > 0 && half == Pow2(height - 1) && half < |s| <= 2 * half
    ensures TreeRoot(s, height, h) == h(TreeRoot(s[..half], height - 1, h), TreeRoot(s[half..], height - 1, h))
  {
  }

  /** Going one level up in a list makes the tree one level lower. */
  lemma {:induction false} TreeOfNext(s: seq<Hash>, height: nat, h: PairHash)
    requires 0 < |s| <= Pow2(height + 1)
    ensures |Next(s, h)| <= Pow2(height)
    ensures TreeRoot(s, height + 1, h) == TreeRoot(Next(s, h), height, h)
    decreases height
  {
    var half := Pow2(height);
    assert Pow2(height + 1) == 2 * half;
    if height == 0 {
    } else if |s| <= half {
      TreeOfNext(s, height - 1, h);
      LowHalf(s, height, half, h);
    } else {
      var quarter := Pow2(height - 1);
      assert half == 2 * quarter;
      NextSplits(s, quarter, h);
      TreeOfNext(s[..half], height - 1, h);
      TreeOfNext(s[half..], height - 1, h);
      BothHalves(s, height, half, quarter, h);
    }
  }

  lemma {:induction false} LowHalf(s: seq<Hash>, height: nat, half: nat, h: PairHash)
    requires height > 0 && half == Pow2(height) && 0 < |s| <= half && |Next(s, h)| <= Pow2(height - 1)
    requires TreeRoot(s, height, h) == TreeRoot(Next(s, h), height - 1, h)
    ensures |Next(s, h)| <= half && |s| <= Pow2(height + 1)
    ensures TreeRoot(s, height + 1, h) == TreeRoot(Next(s, h), height, h)
  {
  }

  lemma {:induction false} BothHalves(s: seq<Hash>, height: nat, half: nat, quarter: nat, h: PairHash)
    requires height > 0 && half == Pow2(height) && quarter == Pow2(height - 1) && half == 2 * quarter
    requires half < |s| <= 2 * half
    requires Next(s, h)[..quarter] == Next(s[..half], h) && Next(s, h)[quarter..] == Next(s[half..], h)
    requires TreeRoot(s[..half], height, h) == TreeRoot(Next(s[..half], h), height - 1, h)
    requires TreeRoot(s[half..], height, h) == TreeRoot(Next(s[half..], h), height - 1, h)
    ensures TreeRoot(s, height + 1, h) == TreeRoot(Next(s, h), height, h)
  {
    TreeHalves(s, height + 1, half, h);
    TreeHalves(Next(s, h), height, quarter, h);
  }

  lemma {:induction false} NextSplits(s: seq<Hash>, n: nat, h: PairHash)
    requires 2 * n <= |s|
    ensures Next(s, h)[..n] == Next(s[..2 * n], h) && Next(s, h)[n..] == Next(s[2 * n..], h)
    ensures |Next(s, h)| == n + |Next(s[2 * n..], h)|
  {
    var r := Next(s, h);
    forall k | 0 <= k < n ensures r[k] == Next(s[..2 * n], h)[k] {
      NextAt(s, h, k);
      NextAt(s[..2 * n], h, k);
    }
    forall k | 0 <= k < |r| - n ensures r[n..][k] == Next(s[2 * n..], h)[k] {
      NextAt(s, h, n + k);
      NextAt(s[2 * n..], h, k);
    }
  }

  lemma {:induction false} LevelsSuffice(n: nat)
    ensures n <= Pow2(Levels(n))
  {
    if n > 1 {
      LevelsSuffice((n + 1) / 2);
    }
  }

  /** The level-by-level root is the root of the padded perfect tree. */
  lemma {:induction false} RootIsTreeRoot(s: seq<Hash>, h: PairHash)
    requires s != []
    ensures |s| <= Pow2(Levels(|s|))
    ensures Root(s, h) == TreeRoot(s, Levels(|s|), h)
    decreases |s|
  {
    LevelsSuffice(|s|);
    if |s| > 1 {
      RootIsTreeRoot(Next(s, h), h);
      TreeOfNext(s, Levels(|s|) - 1, h);
    }
  }

  // ---------------------------------------------------------------- binding

  type HashPair = (Hash, Hash)

  /** The pairs hashed to go one level up. */
  function LevelPairs(s: seq<Hash>): set<HashPair> {
    if s == [] then {}
    else if |s| == 1 then {(s[0], s[0])}
    else {(s[0], s[1])} + LevelPairs(s[2..])
  }

  /** Every pair hashed on the way to the root. */
  function Pairs(s: seq<Hash>, h: PairHash): set<HashPair>
    decreases |s|
  {
    if |s| <= 1 then {} else LevelPairs(s) + Pairs(Next(s, h), h)
  }

  /** No two of the pairs hash alike. */
  ghost predicate CollisionFree(h: PairHash, pairs: set<HashPair>) {
    forall p, q :: p in pairs && q in pairs && h(p.0, p.1) == h(q.0, q.1) ==> p == q
  }

  /** x is the hash of one of the pairs. */
  ghost predicate IsOutput(h: PairHash, pairs: set<HashPair>, x: Hash) {
    exists p :: p in pairs && h(p.0, p.1) == x
  }

  ghost predicate AreLeaves(h: PairHash, pairs: set<HashPair>, s: seq<Hash>) {
    forall i :: 0 <= i < |s| ==> !IsOutput(h, pairs, s[i])
  }

  /** x is built by exactly k levels of hashing the pairs over leaves. */
  ghost predicate HasRank(h: PairHash, pairs: set<HashPair>, x: Hash, k: nat)
    decreases k
  {
    if k == 0 then !IsOutput(h, pairs, x)
    else exists p ::
        p in pairs && h(p.0, p.1) == x && HasRank(h, pairs, p.0, k - 1) && HasRank(h, pairs, p.1, k - 1)
  }

  lemma {:induction false} RankIsUnique(h: PairHash, pairs: set<HashPair>, x: Hash, j: nat, k: nat)
    requires CollisionFree(h, pairs) && HasRank(h, pairs, x, j) && HasRank(h, pairs, x, k)
    ensures j == k
    decreases j
  {
    if j > 0 && k > 0 {
      var p :| p in pairs && h(p.0, p.1) == x && HasRank(h, pairs, p.0, j - 1) && HasRank(h, pairs, p.1, j - 1);
      var q :| q in pairs && h(q.0, q.1) == x && HasRank(h, pairs, q.0, k - 1) && HasRank(h, pairs, q.1, k - 1);
      RankIsUnique(h, pairs, p.0, j - 1, k - 1);
    }
  }

  ghost predicate AllRank(h: PairHash, pairs: set<HashPair>, s: seq<Hash>, k: nat) {
    forall i :: 0 <= i < |s| ==> HasRank(h, pairs, s[i], k)
  }

  lemma {:induction false} LevelPairAt(s: seq<Hash>, k: nat)
    requires 2 * k < |s|
    ensures (s[2 * k], if 2 * k + 1 < |s| then s[2 * k + 1] else s[2 * k]) in LevelPairs(s)
  {
    if k > 0 {
      LevelPairAt(s[2..], k - 1);
    }
  }

  lemma {:induction false} NextRaisesRank(h: PairHash, pairs: set<HashPair>, s: seq<Hash>, k: nat)
    requires AllRank(h, pairs, s, k) && LevelPairs(s) <= pairs
    ensures AllRank(h, pairs, Next(s, h), k + 1)
  {
    forall i | 0 <= i < |Next(s, h)| ensures HasRank(h, pairs, Next(s, h)[i], k + 1) {
      NextAt(s, h, i);
      LevelPairAt(s, i);
      var p := (s[2 * i], if 2 * i + 1 < |s| then s[2 * i + 1] else s[2 * i]);
      assert p in pairs && h(p.0, p.1) == Next(s, h)[i];
    }
  }

  lemma {:induction false} RootRank(h: PairHash, pairs: set<HashPair>, s: seq<Hash>, k: nat)
    requires s != [] && AllRank(h, pairs, s, k) && Pairs(s, h) <= pairs
    ensures HasRank(h, pairs, Root(s, h), k + Levels(|s|))
    decreases |s|
  {
    if |s| > 1 {
      PairsOneUp(s, h);
      NextRaisesRank(h, pairs, s, k);
      RootRank(h, pairs, Next(s, h), k + 1);
      assert Root(s, h) == Root(Next(s, h), h) && Levels(|s|) == 1 + Levels(|Next(s, h)|);
    }
  }

  lemma {:induction false} PairsOneUp(s: seq<Hash>, h: PairHash)
    requires |s| > 1
    ensures LevelPairs(s) <= Pairs(s, h) && Pairs(Next(s, h), h) <= Pairs(s, h)
  {
  }

  lemma {:induction false} LeavesRootRank(h: PairHash, pairs: set<HashPair>, s: seq<Hash>)
    requires s != [] && AreLeaves(h, pairs, s) && Pairs(s, h) <= pairs
    ensures HasRank(h, pairs, Root(s, h), Levels(|s|))
  {
    assert AllRank(h, pairs, s, 0);
    RootRank(h, pairs, s, 0);
  }

  /** Lists without equal neighbours that agree one level up are equal. */
  lemma {:induction false} NextBinds(h: PairHash, pairs: set<HashPair>, a: seq<Hash>, b: seq<Hash>)
    requires CollisionFree(h, pairs) && LevelPairs(a) <= pairs && LevelPairs(b) <= pairs
    requires Next(a, h) == Next(b, h) && !AdjacentEqual(a) && !AdjacentEqual(b)
    ensures a == b
  {
    forall k | 0 <= k < |Next(a, h)|
      ensures 2 * k < |a| && 2 * k < |b| && a[2 * k] == b[2 * k]
      ensures 2 * k + 1 < |a| <==> 2 * k + 1 < |b|
      ensures 2 * k + 1 < |a| ==> a[2 * k + 1] == b[2 * k + 1]
    {
      PairBinds(h, pairs, a, b, k);
    }
    assert |a| == |b| by {
      if a != [] {
        var k := |Next(a, h)| - 1;
        assert 2 * k + 1 < |a| <==> 2 * k + 1 < |b|;
      }
    }
    forall i | 0 <= i < |a| ensures a[i] == b[i] {
      assert 2 * (i / 2) < |a| && a[2 * (i / 2)] == b[2 * (i / 2)];
    }
  }

  lemma {:induction false} PairBinds(h: PairHash, pairs: set<HashPair>, a: seq<Hash>, b: seq<Hash>, k: nat)
    requires CollisionFree(h, pairs) && LevelPairs(a) <= pairs && LevelPairs(b) <= pairs
    requires Next(a, h) == Next(b, h) && !AdjacentEqual(a) && !AdjacentEqual(b) && k < |Next(a, h)|
    ensures 2 * k < |a| && 2 * k < |b| && a[2 * k] == b[2 * k]
    ensures 2 * k + 1 < |a| <==> 2 * k + 1 < |b|
    ensures 2 * k + 1 < |a| ==> a[2 * k + 1] == b[2 * k + 1]
  {
    NextAt(a, h, k);
    NextAt(b, h, k);
    LevelPairAt(a, k);
    LevelPairAt(b, k);
    var p := (a[2 * k], if 2 * k + 1 < |a| then a[2 * k + 1] else a[2 * k]);
    var q := (b[2 * k], if 2 * k + 1 < |b| then b[2 * k + 1] else b[2 * k]);
    assert p in pairs && q in pairs && h(p.0, p.1) == h(q.0, q.1);
  }

  lemma {:induction false} SameLevelsBind(h: PairHash, pairs: set<HashPair>, a: seq<Hash>, b: seq<Hash>)
    requires CollisionFree(h, pairs) && Pairs(a, h) <= pairs && Pairs(b, h) <= pairs
    requires a != [] && b != [] && Levels(|a|) == Levels(|b|)
    requires Root(a, h) == Root(b, h) && !Mutated(a, h) && !Mutated(b, h)
    ensures a == b
    decreases |a|
  {
    if |a| > 1 {
      SameLevelsBind(h, pairs, Next(a, h), Next(b, h));
      NextBinds(h, pairs, a, b);
    }
  }

  /**
   * The root binds the leaves: if no two of the pairs hashed for either list hash alike and no leaf is the
   * hash of such a pair, two lists that give the same root and are both unmutated are the same list.
   */
  lemma {:induction false} RootBinds(h: PairHash, a: seq<Hash>, b: seq<Hash>)
    requires a != [] && b != [] && Root(a, h) == Root(b, h) && !Mutated(a, h) && !Mutated(b, h)
    requires var pairs := Pairs(a, h) + Pairs(b, h);
      CollisionFree(h, pairs) && AreLeaves(h, pairs, a) && AreLeaves(h, pairs, b)
    ensures a == b
  {
    var pairs := Pairs(a, h) + Pairs(b, h);
    LeavesRootRank(h, pairs, a);
    LeavesRootRank(h, pairs, b);
    RankIsUnique(h, pairs, Root(a, h), Levels(|a|), Levels(|b|));
    SameLevelsBind(h, pairs, a, b);
  }

  /**
   * Whatever the pair hash: two different unmutated lists with the same root give away two pairs that were
   * hashed and hash alike, or a leaf that is the hash of such a pair.
   */
  lemma {:induction false} DifferentListsCollide(h: PairHash, a: seq<Hash>, b: seq<Hash>)
      returns (p: HashPair, q: HashPair, leaf: Hash)
    requires a != [] && b != [] && a != b && Root(a, h) == Root(b, h) && !Mutated(a, h) && !Mutated(b, h)
    ensures p in Pairs(a, h) + Pairs(b, h)
    ensures (q in Pairs(a, h) + Pairs(b, h) && p != q && h(p.0, p.1) == h(q.0, q.1))
         || ((leaf in a || leaf in b) && h(p.0, p.1) == leaf)
  {
    var pairs := Pairs(a, h) + Pairs(b, h);
    leaf := a[0];
    if !CollisionFree(h, pairs) {
      p, q :| p in pairs && q in pairs && h(p.0, p.1) == h(q.0, q.1) && p != q;
    } else if !AreLeaves(h, pairs, a) {
      var i :| 0 <= i < |a| && IsOutput(h, pairs, a[i]);
      p :| p in pairs && h(p.0, p.1) == a[i];
      leaf, q := a[i], p;
    } else if !AreLeaves(h, pairs, b) {
      var i :| 0 <= i < |b| && IsOutput(h, pairs, b[i]);
      p :| p in pairs && h(p.0, p.1) == b[i];
      leaf, q := b[i], p;
    } else {
      RootBinds(h, a, b);
      assert false;
    }
  }

  // ---------------------------------------------------------------- what is flagged

  /** The list k levels up. */
  function Up(s: seq<Hash>, h: PairHash, k: nat): seq<Hash>
    decreases k
  {
    if k == 0 then s else Up(Next(s, h), h, k - 1)
  }

  /** A list is flagged exactly when two neighbours are equal on some level, before that level is padded. */
  lemma {:induction false} FlagIff(s: seq<Hash>, h: PairHash)
    ensures Mutated(s, h) <==> exists k, i :: 0 <= i < |Up(s, h, k)| - 1 && Up(s, h, k)[i] == Up(s, h, k)[i + 1]
    decreases |s|
  {
    if Mutated(s, h) {
      var k, i := FlaggedAt(s, h);
    }
    if k, i :| 0 <= i < |Up(s, h, k)| - 1 && Up(s, h, k)[i] == Up(s, h, k)[i + 1] {
      FlaggedFrom(s, h, k, i);
    }
  }

  lemma {:induction false} FlaggedAt(s: seq<Hash>, h: PairHash) returns (k: nat, i: nat)
    requires Mutated(s, h)
    ensures i < |Up(s, h, k)| - 1 && Up(s, h, k)[i] == Up(s, h, k)[i + 1]
    decreases |s|
  {
    if AdjacentEqual(s) {
      k := 0;
      i :| 0 <= i < |s| - 1 && s[i] == s[i + 1];
    } else {
      k, i := FlaggedAt(Next(s, h), h);
      k := k + 1;
    }
  }

  lemma {:induction false} FlaggedFrom(s: seq<Hash>, h: PairHash, k: nat, i: nat)
    requires i < |Up(s, h, k)| - 1 && Up(s, h, k)[i] == Up(s, h, k)[i + 1]
    ensures Mutated(s, h)
    decreases k
  {
    if k > 0 {
      FlaggedFrom(Next(s, h), h, k - 1, i);
    }
  }

  predicate Distinct(s: seq<Hash>) {
    forall i, j :: 0 <= i < j < |s| ==> s[i] != s[j]
  }

  /** Different hashes stay different one level up. */
  lemma {:induction false} NextIsDistinct(s: seq<Hash>, h: PairHash, pairs: set<HashPair>)
    requires Distinct(s) && CollisionFree(h, pairs) && LevelPairs(s) <= pairs
    ensures Distinct(Next(s, h))
  {
    var r := Next(s, h);
    forall i, j | 0 <= i < j < |r| ensures r[i] != r[j] {
      NextAt(s, h, i);
      NextAt(s, h, j);
      LevelPairAt(s, i);
      LevelPairAt(s, j);
      var p := (s[2 * i], s[2 * i + 1]);
      var q := (s[2 * j], if 2 * j + 1 < |s| then s[2 * j + 1] else s[2 * j]);
      assert p in pairs && q in pairs && p.0 != q.0;
    }
  }

  /** However many leaves: where they are distinct and no two of the pairs hashed hash alike, nothing is flagged. */
  lemma {:induction false} DistinctIsUnflagged(s: seq<Hash>, h: PairHash)
    requires Distinct(s) && CollisionFree(h, Pairs(s, h))
    ensures !Mutated(s, h)
    decreases |s|
  {
    if |s| > 1 {
      PairsOneUp(s, h);
      NextIsDistinct(s, h, Pairs(s, h));
      DistinctIsUnflagged(Next(s, h), h);
    }
  }

  function Leaf(n: Byte): (r: Hash)
    ensures r[0] == n && r[1] == 0
  {
    [n, 0] + Zeros(30)
  }

  function AddBytes(x: int, y: int): Byte {
    (x + y) % 256
  }

  /** A toy hash that marks its outputs and adds up first bytes. */
  function Toy(x: Hash, y: Hash): (r: Hash)
    ensures r[0] == AddBytes(x[0], y[0]) && r[1] == 1
  {
    [AddBytes(x[0], y[0]), 1] + Zeros(30)
  }

  /** The binding lemma's conditions can be met, by a tree of two levels. */
  lemma {:induction false} BindingCanBeMet() returns (s: seq<Hash>)
    ensures |s| == 4 && !Mutated(s, Toy)
    ensures CollisionFree(Toy, Pairs(s, Toy)) && AreLeaves(Toy, Pairs(s, Toy), s)
  {
    s := [Leaf(1), Leaf(2), Leaf(3), Leaf(4)];
    var t := [Toy(Leaf(1), Leaf(2)), Toy(Leaf(3), Leaf(4))];
    FourPairs(s, t, Toy);
    assert t[0][0] == 3 && t[1][0] == 7;
  }

  lemma {:induction false} FourPairs(s: seq<Hash>, t: seq<Hash>, h: PairHash)
    requires |s| == 4 && t == [h(s[0], s[1]), h(s[2], s[3])]
    ensures Pairs(s, h) == {(s[0], s[1]), (s[2], s[3]), (t[0], t[1])}
    ensures !AdjacentEqual(s) && t[0] != t[1] ==> !Mutated(s, h)
  {
    assert s[2..] == [s[2], s[3]] && s[2..][2..] == [] && t[2..] == [];
    assert Next(s[2..], h) == [h(s[2], s[3])];
    assert Next(s, h) == t;
    assert Next(t, h) == [h(t[0], t[1])];
    assert LevelPairs(s[2..]) == {(s[2], s[3])} && LevelPairs(t) == {(t[0], t[1])};
    assert Pairs(t, h) == LevelPairs(t) + Pairs(Next(t, h), h) == {(t[0], t[1])};
    assert !Mutated(Next(t, h), h);
    if t[0] != t[1] {
      assert !AdjacentEqual(t);
      assert !Mutated(t, h);
    }
  }

  // ---------------------------------------------------------------- why the flag is needed

  /** s ends in a lone subtree of 2^k leaves when its length is an odd multiple of 2^k, and not just that. */
  predicate LoneTail(s: seq<Hash>, k: nat)
    decreases k
  {
    if k == 0 then |s| % 2 == 1 && |s| > 1
    else |s| % 2 == 0 && |s| / 2 >= 1 && LoneTail(s[..|s| / 2], k - 1)
  }

  function Repeated(s: seq<Hash>, n: nat): seq<Hash>
    requires n <= |s|
  {
    s + s[|s| - n..]
  }

  lemma {:induction false} LoneTailLength(s: seq<Hash>, t: seq<Hash>, k: nat)
    requires LoneTail(s, k) && |s| == |t|
    ensures LoneTail(t, k) && Pow2(k) < |s|
  {
    if k > 0 {
      LoneTailLength(s[..|s| / 2], t[..|t| / 2], k - 1);
    }
  }

  /** Repeating the lone subtree's leaves keeps the root, and is always flagged. */
  lemma {:induction false} RepetitionIsFlagged(s: seq<Hash>, k: nat, h: PairHash)
    requires LoneTail(s, k)
    ensures Pow2(k) <= |s|
    ensures Root(Repeated(s, Pow2(k)), h) == Root(s, h)
    ensures Mutated(Repeated(s, Pow2(k)), h)
    decreases k
  {
    LoneTailLength(s, s, k);
    var r := Repeated(s, Pow2(k));
    if k == 0 {
      assert r[|s| - 1] == r[|s|];
      NextOfRepeatedLast(s, h);
    } else {
      LoneTailLength(s[..|s| / 2], Next(s, h), k - 1);
      RepetitionIsFlagged(Next(s, h), k - 1, h);
      NextOfRepeated(s, Pow2(k - 1), h);
    }
  }

  lemma {:induction false} NextOfRepeatedLast(s: seq<Hash>, h: PairHash)
    requires |s| % 2 == 1
    ensures Next(Repeated(s, 1), h) == Next(s, h)
  {
    var r := Repeated(s, 1);
    forall k | 0 <= k < |Next(r, h)| ensures Next(r, h)[k] == Next(s, h)[k] {
      NextAt(r, h, k);
      NextAt(s, h, k);
    }
  }

  lemma {:induction false} NextOfRepeated(s: seq<Hash>, n: nat, h: PairHash)
    requires |s| % 2 == 0 && 2 * n <= |s|
    ensures Next(Repeated(s, 2 * n), h) == Repeated(Next(s, h), n)
  {
    var half, tail := |s| / 2, s[|s| - 2 * n..];
    NextOfConcat(s, tail, half, h);
    NextSplits(s, half - n, h);
    assert 2 * (half - n) == |s| - 2 * n;
  }

  lemma {:induction false} NextOfConcat(a: seq<Hash>, b: seq<Hash>, half: nat, h: PairHash)
    requires |a| == 2 * half
    ensures Next(a + b, h) == Next(a, h) + Next(b, h)
  {
    DropConcat(a, b, |a|);
    assert a[..|a|] == a && a[|a|..] + b == b;
    NextSplits(a + b, half, h);
    SplitAt(Next(a + b, h), half);
  }
}
