/** Reading bytes as text, as Rust's standard library does: what is not UTF-8 is replaced. */
module Utf8 {
  import opened Bytes

  /** U+FFFD, the replacement character. */
  const REPLACEMENT: seq<Byte> := [0xEF, 0xBF, 0xBD]

  predicate Continues(s: seq<Byte>, i: nat) {
    i < |s| && 0x80 <= s[i] <= 0xBF
  }

  /** Whether the second byte may follow the first byte of a character of three or four bytes. */
  predicate SecondFits(s: seq<Byte>)
    requires s != []
  {
    Continues(s, 1) && match s[0]
    case 0xE0 => s[1] >= 0xA0
    case 0xED => s[1] <= 0x9F
    case 0xF0 => s[1] >= 0x90
    case 0xF4 => s[1] <= 0x8F
    case _ => true
  }

  /** How many bytes the character at the front should have. */
  function Width(first: Byte): nat {
    if first < 0x80 then 1
    else if 0xC2 <= first <= 0xDF then 2
    else if 0xE0 <= first <= 0xEF then 3
    else if 0xF0 <= first <= 0xF4 then 4
    else 0
  }

  /** How many bytes at the front belong together: a character, or the beginning of one. */
  function Span(s: seq<Byte>): (n: nat)
    requires s != []
    ensures 1 <= n <= |s| && (Width(s[0]) > 0 ==> n <= Width(s[0]))
  {
    var width := Width(s[0]);
    if width == 2 then if Continues(s, 1) then 2 else 1
    else if width < 3 || !SecondFits(s) then 1
    else if !Continues(s, 2) then 2
    else if width == 3 || !Continues(s, 3) then 3
    else 4
  }

  predicate HasChar(s: seq<Byte>) {
    s != [] && Span(s) == Width(s[0])
  }

  predicate IsText(s: seq<Byte>) {
    s == [] || (HasChar(s) && IsText(s[Span(s)..]))
  }

  /** String::from_utf8_lossy */
  function Lossy(s: seq<Byte>): seq<Byte> {
    if s == [] then []
    else (if HasChar(s) then s[..Span(s)] else REPLACEMENT) + Lossy(s[Span(s)..])
  }

  lemma {:induction false} ReplacementIsChar(s: seq<Byte>)
    requires |s| >= 3 && s[..3] == REPLACEMENT
    ensures HasChar(s)
  {
    assert s[0] == REPLACEMENT[0] && s[1] == REPLACEMENT[1] && s[2] == REPLACEMENT[2];
  }

  /** Exactly the bytes that are text already are left as they are. */
  lemma {:induction false} LossyKeepsIff(s: seq<Byte>)
    ensures Lossy(s) == s <==> IsText(s)
  {
    if s != [] {
      var n := Span(s);
      var front, rest := s[..n], s[n..];
      LossyKeepsIff(rest);
      assert s == front + rest;
      if HasChar(s) {
        SameFront(front, Lossy(rest), rest);
      } else if Lossy(s) == s {
        SameStart(s, REPLACEMENT, Lossy(rest));
        ReplacementIsChar(s);
      }
    }
  }

  lemma {:induction false} SameFront(front: seq<Byte>, a: seq<Byte>, b: seq<Byte>)
    ensures front + a == front + b <==> a == b
  {
    if front + a == front + b {
      assert a == (front + a)[|front|..] == (front + b)[|front|..] == b;
    }
  }

  lemma {:induction false} SameStart(s: seq<Byte>, front: seq<Byte>, rest: seq<Byte>)
    requires s == front + rest
    ensures |s| >= |front| && s[..|front|] == front
  {
  }

  /** A character only looks at its own bytes. */
  lemma {:induction false} CharStands(c: seq<Byte>, rest: seq<Byte>)
    requires HasChar(c) && Span(c) == |c|
    ensures HasChar(c + rest) && Span(c + rest) == |c|
    ensures (c + rest)[..|c|] == c && (c + rest)[|c|..] == rest
  {
  }

  /** What is stored is text. */
  lemma {:induction false} LossyIsText(s: seq<Byte>)
    ensures IsText(Lossy(s))
  {
    if s != [] {
      var n := Span(s);
      LossyIsText(s[n..]);
      CharStands(if HasChar(s) then s[..n] else REPLACEMENT, Lossy(s[n..]));
    }
  }

  // ---------------------------------------------------------------- the characters

  /** A Unicode scalar value: no surrogates. */
  predicate IsScalar(c: nat) {
    c < 0x11_0000 && !(0xD800 <= c < 0xE000)
  }

  /** The bytes of a character, in the shortest form. */
  function CharBytes(c: nat): (s: seq<Byte>)
    requires c < 0x11_0000
    ensures 1 <= |s| <= 4
  {
    if c < 0x80 then [c]
    else if c < 0x800 then [0xC0 + c / 0x40, 0x80 + c % 0x40]
    else if c < 0x1_0000 then [0xE0 + c / 0x1000, 0x80 + c / 0x40 % 0x40, 0x80 + c % 0x40]
    else [0xF0 + c / 0x4_0000, 0x80 + c / 0x1000 % 0x40, 0x80 + c / 0x40 % 0x40, 0x80 + c % 0x40]
  }

  /** Bytes begin with a character exactly when they begin with the bytes of a scalar value, and it spans just those. */
  lemma {:induction false} CharIff(s: seq<Byte>)
    ensures HasChar(s) <==> exists c: nat :: IsScalar(c) && CharBytes(c) <= s
    ensures forall c: nat :: IsScalar(c) && CharBytes(c) <= s ==> Span(s) == |CharBytes(c)|
    ensures HasChar(s) ==> Lossy(s) == s[..Span(s)] + Lossy(s[Span(s)..])
  {
    if HasChar(s) {
      var c := ScalarOf(s);
    }
    forall c: nat | IsScalar(c) && CharBytes(c) <= s ensures HasChar(s) && Span(s) == |CharBytes(c)| {
      ScalarIsChar(c, s);
    }
  }

  lemma {:induction false} ScalarIsChar(c: nat, s: seq<Byte>)
    requires IsScalar(c) && CharBytes(c) <= s
    ensures HasChar(s) && Span(s) == |CharBytes(c)|
  {
    var b := CharBytes(c);
    SameBytes(b, s);
    if 0x800 <= c < 0x1_0000 {
      ThreeFit(c, c / 0x1000, c / 0x40 % 0x40);
    } else if c >= 0x1_0000 {
      FourFit(c, c / 0x4_0000, c / 0x1000 % 0x40);
    }
  }

  lemma {:induction false} SameBytes(b: seq<Byte>, s: seq<Byte>)
    requires b <= s
    ensures forall i :: 0 <= i < |b| ==> s[i] == b[i]
  {
  }

  /** The second of three bytes is not too small, and does not make a surrogate. */
  lemma {:induction false} ThreeFit(c: nat, p: nat, q: nat)
    requires 0x800 <= c < 0x1_0000 && IsScalar(c) && p == c / 0x1000 && q == c / 0x40 % 0x40
    ensures p < 0x10 && q < 0x40 && (p == 0 ==> q >= 0x20) && (p == 0xD ==> q < 0x20)
  {
    assert c / 0x40 == p * 0x40 + q;
  }

  /** The second of four bytes is not too small, and stays within the last plane. */
  lemma {:induction false} FourFit(c: nat, p: nat, q: nat)
    requires 0x1_0000 <= c < 0x11_0000 && p == c / 0x4_0000 && q == c / 0x1000 % 0x40
    ensures p < 5 && q < 0x40 && (p == 0 ==> q >= 0x10) && (p == 4 ==> q < 0x10)
  {
    assert c / 0x1000 == p * 0x40 + q;
  }

  lemma {:induction false} ScalarOf(s: seq<Byte>) returns (c: nat)
    requires HasChar(s)
    ensures IsScalar(c) && CharBytes(c) <= s
  {
    var n := Span(s);
    if n == 1 {
      c := s[0];
    } else if n == 2 {
      c := Digits(0, 0, s[0] % 0x20, s[1] % 0x40);
    } else if n == 3 {
      c := ScalarOfThree(s, s[..3]);
    } else {
      c := ScalarOfFour(s, s[..4]);
    }
  }

  lemma {:induction false} ScalarOfThree(s: seq<Byte>, b: seq<Byte>) returns (c: nat)
    requires HasChar(s) && Span(s) == 3 && b == s[..3]
    ensures IsScalar(c) && CharBytes(c) == b
  {
    c := Digits(0, b[0] % 0x10, b[1] % 0x40, b[2] % 0x40);
    assert b == [b[0], b[1], b[2]];
    ThreeAre(c, b[0], b[1], b[2]);
  }

  lemma {:induction false} ScalarOfFour(s: seq<Byte>, b: seq<Byte>) returns (c: nat)
    requires HasChar(s) && Span(s) == 4 && b == s[..4]
    ensures IsScalar(c) && CharBytes(c) == b
  {
    c := Digits(b[0] % 0x8, b[1] % 0x40, b[2] % 0x40, b[3] % 0x40);
    assert b == [b[0], b[1], b[2], b[3]];
    FourAre(c, b[0], b[1], b[2], b[3]);
  }

  /** A number of four digits to the base 64. */
  lemma {:induction false} Digits(p: nat, q: nat, r: nat, t: nat) returns (c: nat)
    requires p < 8 && q < 0x40 && r < 0x40 && t < 0x40
    ensures c == p * 0x4_0000 + q * 0x1000 + r * 0x40 + t
    ensures c / 0x4_0000 == p && c / 0x1000 % 0x40 == q && c / 0x40 % 0x40 == r && c % 0x40 == t
    ensures c / 0x1000 == p * 0x40 + q && c / 0x40 == p * 0x1000 + q * 0x40 + r
  {
    c := p * 0x4_0000 + q * 0x1000 + r * 0x40 + t;
    assert c / 0x40 == p * 0x1000 + q * 0x40 + r;
    assert c / 0x1000 == p * 0x40 + q;
  }

  lemma {:induction false} ThreeAre(c: nat, b0: Byte, b1: Byte, b2: Byte)
    requires HasChar([b0, b1, b2]) && Span([b0, b1, b2]) == 3
    requires c / 0x1000 == b0 % 0x10 && c / 0x40 % 0x40 == b1 % 0x40 && c % 0x40 == b2 % 0x40
    requires c / 0x40 == b0 % 0x10 * 0x40 + b1 % 0x40
    ensures IsScalar(c) && CharBytes(c) == [b0, b1, b2]
  {
    var s := [b0, b1, b2];
    assert s[0] == b0 && s[1] == b1 && s[2] == b2;
  }

  lemma {:induction false} FourAre(c: nat, b0: Byte, b1: Byte, b2: Byte, b3: Byte)
    requires HasChar([b0, b1, b2, b3]) && Span([b0, b1, b2, b3]) == 4
    requires c / 0x4_0000 == b0 % 0x8 && c / 0x1000 % 0x40 == b1 % 0x40 && c / 0x40 % 0x40 == b2 % 0x40 && c % 0x40 == b3 % 0x40
    requires c / 0x1000 == b0 % 0x8 * 0x40 + b1 % 0x40
    ensures IsScalar(c) && CharBytes(c) == [b0, b1, b2, b3]
  {
    var s := [b0, b1, b2, b3];
    assert s[0] == b0 && s[1] == b1 && s[2] == b2 && s[3] == b3;
  }

  /** What is replaced at once is a byte, or the longest part of a character, which the next byte does not go on with. */
  lemma {:induction false} BrokenIsLongest(s: seq<Byte>)
    requires s != [] && !HasChar(s)
    ensures Lossy(s) == [0xEF, 0xBF, 0xBD] + Lossy(s[Span(s)..])
    ensures Span(s) > 1 ==> exists c: nat :: IsScalar(c) && s[..Span(s)] <= CharBytes(c)
    ensures Span(s) < |s| ==> forall c: nat :: IsScalar(c) ==> !(s[..Span(s) + 1] <= CharBytes(c))
  {
    var n := Span(s);
    if n > 1 {
      var filled := s[..n] + if Width(s[0]) - n == 1 then [0x80] else [0x80, 0x80];
      FilledIsChar(s, filled, n);
      var c := ScalarOf(filled);
      PrefixesOfOne(s[..n], CharBytes(c), filled);
    }
    if n < |s| {
      forall c: nat | IsScalar(c) ensures !(s[..n + 1] <= CharBytes(c)) {
        ScalarIsChar(c, CharBytes(c));
        GoesNoFurther(s, CharBytes(c), n);
      }
    }
  }

  lemma {:induction false} FilledIsChar(s: seq<Byte>, filled: seq<Byte>, n: nat)
    requires s != [] && !HasChar(s) && n == Span(s) > 1
    requires filled == s[..n] + if Width(s[0]) - n == 1 then [0x80] else [0x80, 0x80]
    ensures HasChar(filled) && Span(filled) == |filled|
  {
    assert filled[0] == s[0] && filled[1] == s[1];
    if n == 3 {
      assert filled[2] == s[2];
    }
  }

  lemma {:induction false} PrefixesOfOne(a: seq<Byte>, b: seq<Byte>, whole: seq<Byte>)
    requires a <= whole && b <= whole && |a| <= |b|
    ensures a <= b
  {
  }

  lemma {:induction false} GoesNoFurther(s: seq<Byte>, whole: seq<Byte>, n: nat)
    requires s != [] && !HasChar(s) && n == Span(s) < |s|
    requires HasChar(whole) && Span(whole) == |whole|
    ensures !(s[..n + 1] <= whole)
  {
    if s[..n + 1] <= whole {
      assert forall i :: 0 <= i <= n ==> s[i] == whole[i];
      assert false;
    }
  }
}
