/** The Merkle tree kept as one flat byte buffer and collapsed in place. */
module Merkle {
  import opened Bytes
  import opened MerkleSpec

  predicate Whole(bytes: seq<Byte>) {
    |bytes| % 32 == 0
  }

  function HashAt(bytes: seq<Byte>, k: nat): (h: Hash)
    requires 32 * k + 32 <= |bytes|
  {
    bytes[32 * k..32 * k + 32]
  }

  /** The hashes that lie one after another in the buffer. */
  ghost function Hashes(bytes: seq<Byte>): (s: seq<Hash>)
    ensures |s| == |bytes| / 32
    ensures forall k :: 0 <= k < |s| ==> s[k] == HashAt(bytes, k)
  {
    seq(|bytes| / 32, k requires 0 <= k < |bytes| / 32 => HashAt(bytes, k))
  }

  lemma {:induction false} HashesExtend(bytes: seq<Byte>, h: Hash)
    requires Whole(bytes)
    ensures Whole(bytes + h) && Hashes(bytes + h) == Hashes(bytes) + [h]
  {
    var n := |bytes| / 32;
    assert forall k :: 0 <= k < n ==> HashAt(bytes + h, k) == HashAt(bytes, k);
    assert HashAt(bytes + h, n) == h;
  }

  lemma {:induction false} HashesFront(bytes: seq<Byte>, n: nat)
    requires 32 * n <= |bytes|
    ensures Whole(bytes[..32 * n]) && Hashes(bytes[..32 * n]) == Hashes(bytes)[..n]
  {
    assert forall k :: 0 <= k < n ==> HashAt(bytes[..32 * n], k) == HashAt(bytes, k);
  }

  class MerkleTree {
    var bytes: seq<Byte>

    constructor ()
      ensures bytes == []
    {
      bytes := [];
    }

    method AppendHash(hash: Hash)
      requires Whole(bytes)
      modifies this
      ensures Whole(bytes) && Hashes(bytes) == old(Hashes(bytes)) + [hash]
    {
      HashesExtend(bytes, hash);
      bytes := bytes + hash;
    }

    function Len(): nat
      reads this
    {
      |bytes| / 32
    }

    function GetHash(index: nat): (h: Hash)
      requires 32 * index + 32 <= |bytes|
      reads this
    {
      HashAt(bytes, index)
    }

    function GetBlock(index: nat): (block: (Hash, Hash))
      requires 64 * index + 64 <= |bytes|
      reads this
    {
      (HashAt(bytes, 2 * index), HashAt(bytes, 2 * index + 1))
    }

    /** Overwrites one hash in place. */
    method SetHash(index: nat, hash: Hash)
      requires 32 * index + 32 <= |bytes|
      modifies this
      ensures |bytes| == old(|bytes|)
      ensures Hashes(bytes) == old(Hashes(bytes))[index := hash]
    {
      SpliceHash(bytes, index, hash);
      bytes := bytes[..32 * index] + hash + bytes[32 * index + 32..];
    }

    /** collapse: the pair hashes are written over the front half, each after its pair was read. */
    method Collapse(h: PairHash)
      requires Whole(bytes)
      modifies this
      ensures |bytes| == old(|bytes|) && IsCollapsed(old(Hashes(bytes)), Hashes(bytes), h)
    {
      ghost var before := Hashes(bytes);
      var blocks := Len() / 2;
      for i := 0 to blocks
        invariant |bytes| == old(|bytes|) && CollapsedTo(before, Hashes(bytes), i, h)
      {
        CollapseStep(before, Hashes(bytes), i, h);
        var (left, right) := GetBlock(i);
        SetHash(i, h(left, right));
      }
    }

    /** The pass over neighbours at one level. */
    method HasEqualNeighbours() returns (r: bool)
      requires Whole(bytes) && Len() > 0
      ensures r == AdjacentEqual(Hashes(bytes))
    {
      r := false;
      ghost var s := Hashes(bytes);
      for i := 0 to Len() - 1
        invariant r ==> AdjacentEqual(s)
        invariant !r ==> forall k :: 0 <= k < i ==> s[k] != s[k + 1]
      {
        if GetHash(i) == GetHash(i + 1) {
          assert s[i] == s[i + 1];
          r := true;
        }
      }
    }

    /** Repeats the last hash of an odd list. */
    method Pad()
      requires Whole(bytes) && Len() > 1
      modifies this
      ensures Whole(bytes) && IsPadded(old(Hashes(bytes)), Hashes(bytes))
    {
      if Len() % 2 == 1 {
        HashesExtend(bytes, GetHash(Len() - 1));
        bytes := bytes + GetHash(Len() - 1);
      }
    }

    /** One level: pad an odd list, collapse it, and keep the front half. */
    method Climb(h: PairHash)
      requires Whole(bytes) && Len() > 1
      modifies this
      ensures Whole(bytes) && Hashes(bytes) == Next(old(Hashes(bytes)), h)
    {
      ghost var s := Hashes(bytes);
      Pad();
      ghost var padded := Hashes(bytes);
      Collapse(h);
      CollapsedIsNext(s, padded, Hashes(bytes), h);
      HashesFront(bytes, |padded| / 2);
      HalfOfPairs(|bytes|, |padded|);
      bytes := bytes[..|bytes| / 2];
    }

    /** into_root */
    method IntoRoot(h: PairHash) returns (root: Hash, mutated: bool)
      requires Whole(bytes)
      modifies this
      ensures root == Root(old(Hashes(bytes)), h)
      ensures mutated == Mutated(old(Hashes(bytes)), h)
    {
      ghost var s := Hashes(bytes);
      mutated := false;
      while Len() > 1
        invariant Whole(bytes)
        invariant Root(Hashes(bytes), h) == Root(s, h)
        invariant mutated || Mutated(Hashes(bytes), h) <==> Mutated(s, h)
        invariant bytes == [] ==> s == [] && !mutated
        decreases |bytes|
      {
        var equal := HasEqualNeighbours();
        mutated := mutated || equal;
        Climb(h);
      }
      if bytes == [] {
        return EMPTY_HASH, false;
      }
      root := GetHash(0);
    }
  }

  lemma {:induction false} SpliceHash(bytes: seq<Byte>, index: nat, hash: Hash)
    requires 32 * index + 32 <= |bytes|
    ensures var r := bytes[..32 * index] + hash + bytes[32 * index + 32..];
      |r| == |bytes| && Hashes(r) == Hashes(bytes)[index := hash]
  {
    var r := bytes[..32 * index] + hash + bytes[32 * index + 32..];
    forall k: nat | 32 * k + 32 <= |bytes| ensures HashAt(r, k) == if k == index then hash else HashAt(bytes, k) {
      SplicedAt(bytes, index, hash, k);
    }
  }

  lemma {:induction false} SplicedAt(bytes: seq<Byte>, index: nat, hash: Hash, k: nat)
    requires 32 * index + 32 <= |bytes| && 32 * k + 32 <= |bytes|
    ensures var r := bytes[..32 * index] + hash + bytes[32 * index + 32..];
      |r| == |bytes| && HashAt(r, k) == if k == index then hash else HashAt(bytes, k)
  {
  }

  lemma {:induction false} HalfOfPairs(length: nat, count: nat)
    requires length % 32 == 0 && count == length / 32 && count % 2 == 0
    ensures length / 2 == 32 * (count / 2)
  {
  }

  /** The first n places hold pair hashes, the others what they held before. */
  ghost predicate CollapsedTo(before: seq<Hash>, now: seq<Hash>, n: nat, h: PairHash) {
    && |now| == |before| && n <= |before| / 2
    && (forall k :: 0 <= k < n ==> now[k] == h(before[2 * k], before[2 * k + 1]))
    && (forall k :: n <= k < |now| ==> now[k] == before[k])
  }

  lemma {:induction false} CollapseStep(before: seq<Hash>, now: seq<Hash>, n: nat, h: PairHash)
    requires CollapsedTo(before, now, n, h) && n < |before| / 2
    ensures CollapsedTo(before, now[n := h(now[2 * n], now[2 * n + 1])], n + 1, h)
  {
  }

  /** The front half holds the pair hashes. */
  ghost predicate IsCollapsed(before: seq<Hash>, after: seq<Hash>, h: PairHash) {
    && |after| == |before|
    && forall k :: 0 <= k < |before| / 2 ==> after[k] == h(before[2 * k], before[2 * k + 1])
  }

  ghost predicate IsPadded(s: seq<Hash>, padded: seq<Hash>) {
    padded == if |s| % 2 == 1 then s + [s[|s| - 1]] else s
  }

  lemma {:induction false} CollapsedIsNext(s: seq<Hash>, padded: seq<Hash>, collapsed: seq<Hash>, h: PairHash)
    requires IsPadded(s, padded) && IsCollapsed(padded, collapsed, h)
    ensures |padded| % 2 == 0 && collapsed[..|padded| / 2] == Next(s, h)
  {
    var r := collapsed[..|padded| / 2];
    forall k | 0 <= k < |r| ensures r[k] == h(s[2 * k], if 2 * k + 1 < |s| then s[2 * k + 1] else s[2 * k]) {
      PaddedPair(s, padded, k);
    }
    NextIs(s, h, r);
  }

  /** The pair at k of the padded list. */
  lemma {:induction false} PaddedPair(s: seq<Hash>, padded: seq<Hash>, k: nat)
    requires IsPadded(s, padded) && 2 * k + 1 < |padded|
    ensures 2 * k < |s| && padded[2 * k] == s[2 * k]
    ensures padded[2 * k + 1] == if 2 * k + 1 < |s| then s[2 * k + 1] else s[2 * k]
  {
  }
}
