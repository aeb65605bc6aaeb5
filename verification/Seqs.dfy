/** Facts about sequences of any kind, kept apart because they are costly for sequences of hashes. */
module Seqs {
  function Front<T>(s: seq<T>): seq<T>
    requires s != []
  {
    s[..|s| - 1]
  }

  function Last<T>(s: seq<T>): T
    requires s != []
  {
    s[|s| - 1]
  }

  function Reverse<T>(s: seq<T>): (r: seq<T>)
    ensures |r| == |s| && forall i :: 0 <= i < |s| ==> r[i] == s[|s| - 1 - i]
  {
    if s == [] then [] else [s[|s| - 1]] + Reverse(s[..|s| - 1])
  }

  function Flatten<T>(s: seq<seq<T>>): seq<T> {
    if s == [] then [] else s[0] + Flatten(s[1..])
  }

  lemma {:induction false} ConcatAssociative<T>(a: seq<T>, b: seq<T>, c: seq<T>)
    ensures a + b + c == a + (b + c)
  {
  }

  lemma {:induction false} DropConcat<T>(a: seq<T>, b: seq<T>, n: nat)
    requires n <= |a|
    ensures (a + b)[..n] == a[..n] && (a + b)[n..] == a[n..] + b
  {
  }

  lemma {:induction false} InFirst<T>(a: seq<T>, b: seq<T>, i: nat)
    requires i < |a|
    ensures i < |a + b| && (a + b)[i] == a[i]
  {
  }

  lemma {:induction false} InSecond<T>(a: seq<T>, b: seq<T>, i: nat)
    requires i < |b|
    ensures |a| + i < |a + b| && (a + b)[|a| + i] == b[i]
  {
  }

  lemma {:induction false} InLongerPrefix<T>(s: seq<T>, x: T, i: nat, n: nat)
    requires i <= n <= |s| && x in s[..i]
    ensures x in s[..n]
  {
    var k :| 0 <= k < i && s[..i][k] == x;
    assert s[..n][k] == x;
  }

  lemma {:induction false} InPrefixOrAfter<T>(s: seq<T>, x: T, n: nat, i: nat)
    requires n + i <= |s| && x in s[..n + i]
    ensures x in s[..n] || x in s[n..][..i]
  {
    var k :| 0 <= k < n + i && s[..n + i][k] == x;
    if k < n {
      assert s[..n][k] == x;
    } else {
      assert s[n..][..i][k - n] == x;
    }
  }

  lemma {:induction false} MultisetWithout<T>(s: seq<T>, i: nat)
    requires i < |s|
    ensures multiset(s) == multiset(s[..i] + s[i + 1..]) + multiset{s[i]}
  {
    assert s == (s[..i] + [s[i]]) + s[i + 1..];
  }

  /** An element of a sequence has a place in any reordering of it. */
  lemma {:induction false} PlaceIn<T>(s: seq<T>, t: seq<T>, j: nat) returns (i: nat)
    requires multiset(s) == multiset(t) && j < |s|
    ensures i < |t| && t[i] == s[j]
  {
    assert s[j] in multiset(s);
    assert s[j] in t;
    i :| 0 <= i < |t| && t[i] == s[j];
  }

  lemma {:induction false} RemoveBoth<T>(s: seq<T>, t: seq<T>, i: nat)
    requires s != [] && multiset(s) == multiset(t) && i < |t| && t[i] == Last(s)
    ensures multiset(Front(s)) == multiset(t[..i] + t[i + 1..])
  {
    MultisetWithout(s, |s| - 1);
    MultisetWithout(t, i);
    assert s[..|s| - 1] + s[|s| - 1 + 1..] == Front(s);
    assert multiset(Front(s)) == multiset(s) - multiset{Last(s)};
    assert multiset(t[..i] + t[i + 1..]) == multiset(t) - multiset{t[i]};
  }

  lemma {:induction false} InsertFurther<T>(s: seq<T>, x: T, i: nat)
    requires 0 < i <= |s|
    ensures s[..i] + [x] + s[i..] == [s[0]] + (s[1..][..i - 1] + [x] + s[1..][i - 1..])
    ensures [s[0]] + s[1..] == s
  {
    assert s[1..][..i - 1] == s[1..i] && s[1..][i - 1..] == s[i..];
    assert s[..i] == [s[0]] + s[1..i];
  }

  /** An element of a concatenation is one of the parts' elements. */
  lemma {:induction false} AtConcat<T>(a: seq<T>, b: seq<T>)
    ensures forall i :: 0 <= i < |a| ==> (a + b)[i] == a[i]
    ensures forall i :: 0 <= i < |b| ==> (a + b)[|a| + i] == b[i]
  {
  }

  lemma {:induction false} SplitAt<T>(s: seq<T>, n: nat)
    requires n <= |s|
    ensures s == s[..n] + s[n..]
  {
  }
}
