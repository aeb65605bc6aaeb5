/** Compact difficulty targets: 256-bit numbers rounded to a 23-bit mantissa and a byte exponent. */
module Compact {
  import opened Bytes

  /** Number of bytes of value: its bit length divided by 8, rounded up. */
  function ByteLength(value: nat): nat {
    if value == 0 then 0 else 1 + ByteLength(value / 256)
  }

  /** A 256-bit number. */
  type U256 = n: nat | ByteLength(n) <= 32

  /** value >> 8k */
  function Shr(value: nat, k: nat): nat {
    if k == 0 then value else Shr(value / 256, k - 1)
  }

  /** value << 8k, nothing lost */
  function Shl(value: nat, k: nat): (r: nat)
    ensures value <= r
  {
    if k == 0 then value else 256 * Shl(value, k - 1)
  }

  /** The low k bytes of value. */
  function Low(value: nat, k: nat): nat {
    if k == 0 then 0 else value % 256 + 256 * Low(value / 256, k - 1)
  }

  /** u256_from_compact: bits shifted out of the 256 are lost, and bit 23 is ignored. */
  function FromCompact(compact: U32): (target: U256) {
    var size := compact / 0x100_0000;
    var word := compact % 0x80_0000;
    if size <= 3 then
      WordLength(word);
      ShrLength(word, 3 - size);
      Shr(word, 3 - size)
    else
      LowLength(Shl(word, size - 3), 32);
      Low(Shl(word, size - 3), 32)
  }

  /** The three mantissa bytes before any are moved to keep bit 23 clear. */
  function Mantissa(value: nat): nat {
    var size := ByteLength(value);
    if size <= 3 then Shl(value, 3 - size) else Shr(value, size - 3)
  }

  /** A mantissa and a size byte side by side. */
  function Pack(word: nat, size: nat): (compact: U32)
    requires word < 0x100_0000 && size < 256
    ensures compact / 0x100_0000 == size
    ensures compact % 0x100_0000 == word
    ensures word < 0x80_0000 ==> compact % 0x80_0000 == word
  {
    word + size * 0x100_0000
  }

  predicate SignBit(word: nat): (r: bool)
    requires word < 0x100_0000
    ensures r <==> word >= 0x80_0000
  {
    word / 0x80_0000 % 2 == 1
  }

  /** compact_from_u256 */
  function ToCompact(value: U256): (compact: U32) {
    var size := ByteLength(value);
    var mantissa := Mantissa(value);
    MantissaBounds(value);
    if SignBit(mantissa) then Pack(mantissa / 256, size + 1) else Pack(mantissa, size)
  }

  // ---------------------------------------------------------------- shifts

  lemma {:induction false} WordLength(word: nat)
    requires word < 0x100_0000
    ensures ByteLength(word) <= 3
    ensures word >= 0x1_0000 ==> ByteLength(word) == 3
    ensures 0x100 <= word < 0x1_0000 ==> ByteLength(word) == 2
    ensures 0 < word < 0x100 ==> ByteLength(word) == 1
  {
    assert ByteLength(word / 256 / 256 / 256) == 0;
    assert ByteLength(word / 256 / 256) <= 1;
    assert ByteLength(word / 256) <= 2;
  }

  lemma {:induction false} ShrLength(value: nat, k: nat)
    ensures ByteLength(Shr(value, k)) == if k <= ByteLength(value) then ByteLength(value) - k else 0
  {
    if k > 0 {
      ShrLength(value / 256, k - 1);
    }
  }

  lemma {:induction false} LowLength(value: nat, k: nat)
    ensures ByteLength(Low(value, k)) <= k
  {
    if k > 0 {
      LowLength(value / 256, k - 1);
      assert Low(value, k) / 256 == Low(value / 256, k - 1);
    }
  }

  lemma {:induction false} LowOfShort(value: nat, k: nat)
    requires ByteLength(value) <= k
    ensures Low(value, k) == value
  {
    if value > 0 {
      LowOfShort(value / 256, k - 1);
    } else if k > 0 {
      LowOfShort(0, k - 1);
    }
  }

  lemma {:induction false} ShlLength(value: nat, k: nat)
    requires value > 0
    ensures Shl(value, k) > 0 && ByteLength(Shl(value, k)) == ByteLength(value) + k
  {
    if k > 0 {
      ShlLength(value, k - 1);
    }
  }

  lemma {:induction false} ShlShl(value: nat, a: nat, b: nat)
    ensures Shl(Shl(value, a), b) == Shl(value, a + b)
  {
    if b > 0 {
      ShlShl(value, a, b - 1);
    }
  }

  lemma {:induction false} ShlMonotone(x: nat, y: nat, k: nat)
    ensures x <= y ==> Shl(x, k) <= Shl(y, k)
    ensures x < y ==> Shl(x, k) < Shl(y, k)
  {
    if k > 0 {
      ShlMonotone(x, y, k - 1);
    }
  }

  lemma {:induction false} ShrMonotone(x: nat, y: nat, k: nat)
    requires x <= y
    ensures Shr(x, k) <= Shr(y, k)
  {
    if k > 0 {
      ShrMonotone(x / 256, y / 256, k - 1);
    }
  }

  lemma {:induction false} ShrOfShl(value: nat, a: nat, b: nat)
    requires b <= a
    ensures Shr(Shl(value, a), b) == Shl(value, a - b)
  {
    if b > 0 {
      ShrOfShl(value, a - 1, b - 1);
    }
  }

  /** Shifting right then left clears the low bytes. */
  lemma {:induction false} ShlOfShr(value: nat, k: nat)
    ensures Shl(Shr(value, k), k) <= value
  {
    if k > 0 {
      ShlOfShr(value / 256, k - 1);
    }
  }

  lemma {:induction false} ShrLast(value: nat, k: nat)
    ensures Shr(value, k + 1) == Shr(value, k) / 256
  {
    if k > 0 {
      ShrLast(value / 256, k - 1);
    }
  }

  /** Keeping the low 32 bytes of a shifted number keeps only the bytes that have room. */
  lemma {:induction false} LowOfShl(value: nat, a: nat, b: nat)
    ensures Low(Shl(value, a), b) == if a <= b then Shl(Low(value, b - a), a) else 0
  {
    if a > 0 {
      if b > 0 {
        assert Shl(value, a) % 256 == 0 && Shl(value, a) / 256 == Shl(value, a - 1);
        LowOfShl(value, a - 1, b - 1);
      }
    }
  }

  lemma {:induction false} LowAtMost(value: nat, k: nat)
    ensures Low(value, k) <= value
  {
    if k > 0 {
      LowAtMost(value / 256, k - 1);
    }
  }

  // ---------------------------------------------------------------- shape of an encoded value

  /** The mantissa fills its three bytes: its top byte is not zero. */
  lemma {:induction false} MantissaBounds(value: nat)
    ensures Mantissa(value) < 0x100_0000
    ensures value > 0 ==> Mantissa(value) >= 0x1_0000
  {
    var size, m := ByteLength(value), Mantissa(value);
    if value > 0 {
      if size <= 3 {
        ShlLength(value, 3 - size);
      } else {
        ShrLength(value, size - 3);
      }
      ThreeBytes(m);
    } else {
      assert Shl(0, 3) == 256 * Shl(0, 2) == 256 * (256 * Shl(0, 1));
    }
  }

  lemma {:induction false} ThreeBytes(m: nat)
    requires ByteLength(m) == 3
    ensures 0x1_0000 <= m < 0x100_0000
  {
    assert ByteLength(m / 256) == 2;
    assert ByteLength(m / 256 / 256) == 1;
    assert ByteLength(m / 256 / 256 / 256) == 0;
  }

  /** The least number of low bytes to drop so that 23 bits remain. */
  function Exponent(value: nat): nat {
    if value < 0x80_0000 then 0 else 1 + Exponent(value / 256)
  }

  lemma {:induction false} ExponentBounds(value: nat)
    ensures Shr(value, Exponent(value)) < 0x80_0000
    ensures Exponent(value) > 0 ==> Shr(value, Exponent(value)) >= 0x8000
  {
    if value >= 0x80_0000 {
      ExponentBounds(value / 256);
    }
  }

  lemma {:induction false} ExponentFromBelow(value: nat, k: nat)
    requires k > 0 ==> Shr(value, k - 1) >= 0x80_0000
    requires Shr(value, k) < 0x80_0000
    ensures Exponent(value) == k
  {
    if k > 0 {
      ShrAtMost(value, k - 1);
      if k > 1 {
        ExponentFromBelow(value / 256, k - 1);
      }
    }
  }

  lemma {:induction false} ShrAtMost(value: nat, k: nat)
    ensures Shr(value, k) <= value
  {
    if k > 0 {
      ShrAtMost(value / 256, k - 1);
    }
  }

  /** Encoding and decoding drops exactly the low `Exponent` bytes. */
  lemma {:induction false} RoundTripDropsLowBytes(value: U256)
    ensures FromCompact(ToCompact(value)) == Shl(Shr(value, Exponent(value)), Exponent(value))
  {
    var size, m := ByteLength(value), Mantissa(value);
    MantissaBounds(value);
    if size <= 3 {
      RoundTripShort(value);
    } else {
      RoundTripLong(value);
    }
  }

  /** A long value is encoded as what is left of it and the number of bytes dropped. */
  lemma {:induction false} EncodeLong(value: U256)
    requires ByteLength(value) > 3
    ensures var e := Exponent(value);
      && e <= 30
      && e + 3 >= ByteLength(value)
      && 0x8000 <= Shr(value, e) < 0x80_0000
      && ByteLength(Shr(value, e)) + e == ByteLength(value)
      && ToCompact(value) == Pack(Shr(value, e), e + 3)
  {
    var size, m := ByteLength(value), Mantissa(value);
    MantissaBounds(value);
    ShrLast(value, size - 3);
    ShrLast(value, size - 4);
    var k := if m >= 0x80_0000 then size - 2 else size - 3;
    ExponentFromBelow(value, k);
    ShrLength(value, k);
  }

  lemma {:induction false} RoundTripLong(value: U256)
    requires ByteLength(value) > 3
    ensures FromCompact(ToCompact(value)) == Shl(Shr(value, Exponent(value)), Exponent(value))
  {
    var e := Exponent(value);
    EncodeLong(value);
    if e > 0 {
      ShlLength(Shr(value, e), e);
      LowOfShort(Shl(Shr(value, e), e), 32);
    }
  }

  lemma {:induction false} RoundTripShort(value: U256)
    requires ByteLength(value) <= 3
    ensures FromCompact(ToCompact(value)) == Shl(Shr(value, Exponent(value)), Exponent(value))
  {
    var size, m := ByteLength(value), Mantissa(value);
    MantissaBounds(value);
    if m < 0x80_0000 {
      ShrOfShl(value, 3 - size, 3 - size);
    } else if size == 3 {
      assert Exponent(value) == 1 && Shr(value, 1) == Shr(value / 256, 0) == value / 256;
      assert Shl(value / 256, 1) == 256 * Shl(value / 256, 0);
      ShrLength(value, 1);
      ShlLength(value / 256, 1);
      LowOfShort(Shl(value / 256, 1), 32);
    } else {
      assert m / 256 == Shl(value, 2 - size);
      ShrOfShl(value, 2 - size, 2 - size);
      TwoBytes(value);
    }
  }

  lemma {:induction false} TwoBytes(value: nat)
    requires ByteLength(value) <= 2
    ensures value < 0x1_0000
  {
    assert ByteLength(value / 256) <= 1;
    assert ByteLength(value / 256 / 256) == 0;
  }

  /** Every decoded target is a 23-bit number with low zero bytes. */
  lemma {:induction false} DecodedShape(compact: U32) returns (n: nat, k: nat)
    ensures n < 0x80_0000 && FromCompact(compact) == Shl(n, k)
  {
    var size, word := compact / 0x100_0000, compact % 0x80_0000;
    if size <= 3 {
      n, k := Shr(word, 3 - size), 0;
      ShrAtMost(word, 3 - size);
    } else {
      LowOfShl(word, size - 3, 32);
      if size - 3 <= 32 {
        n, k := Low(word, 35 - size), size - 3;
        LowAtMost(word, 35 - size);
      } else {
        n, k := 0, 0;
      }
    }
  }

  // ---------------------------------------------------------------- main results

  /** Encoding rounds down to the greatest target that any compact form can express. */
  lemma {:induction false} RoundsDownToRepresentable(value: U256, compact: U32)
    ensures FromCompact(ToCompact(value)) <= value
    ensures FromCompact(compact) <= value ==> FromCompact(compact) <= FromCompact(ToCompact(value))
  {
    var e := Exponent(value);
    var q := Shr(value, e);
    RoundTripDropsLowBytes(value);
    ShlOfShr(value, e);
    if FromCompact(compact) <= value {
      var n, k := DecodedShape(compact);
      if k >= e {
        KeptAbove(n, k, value, e);
      } else {
        ExponentBounds(value);
        ShlShl(q, e - k, k);
        ShlMonotone(n, Shl(q, e - k), k);
      }
    }
  }

  /** What has no bytes below an exponent is not above what is kept of a larger value. */
  lemma {:induction false} KeptAbove(n: nat, k: nat, value: nat, e: nat)
    requires k >= e && Shl(n, k) <= value
    ensures Shl(n, k) <= Shl(Shr(value, e), e)
  {
    ShlShl(n, k - e, e);
    ShrMonotone(Shl(n, k), value, e);
    ShrOfShl(n, k, e);
    ShlMonotone(Shl(n, k - e), Shr(value, e), e);
  }

  /** Rounding is monotone. */
  lemma {:induction false} RoundingIsMonotone(a: U256, b: U256)
    requires a <= b
    ensures FromCompact(ToCompact(a)) <= FromCompact(ToCompact(b))
  {
    RoundsDownToRepresentable(a, 0);
    RoundsDownToRepresentable(b, ToCompact(a));
  }

  /** A decoded target survives encoding and decoding unchanged, so rounding is idempotent. */
  lemma {:induction false} DecodedIsFixed(compact: U32)
    ensures FromCompact(ToCompact(FromCompact(compact))) == FromCompact(compact)
  {
    RoundsDownToRepresentable(FromCompact(compact), compact);
  }

  /** Normalised compact forms: no sign bit, no superfluous size, no bits that decoding would drop. */
  predicate Normal(compact: U32) {
    var size, word := compact / 0x100_0000, compact % 0x100_0000;
    compact == 0 ||
    (&& 1 <= size <= 33
     && 0x8000 <= word < 0x80_0000
     && (size == 1 ==> word % 0x1_0000 == 0)
     && (size == 2 ==> word % 0x100 == 0)
     && (size == 33 ==> word <= 0xFFFF))
  }

  lemma {:induction false} EncodedIsNormal(value: U256)
    ensures Normal(ToCompact(value))
  {
    var size, m := ByteLength(value), Mantissa(value);
    MantissaBounds(value);
    if size > 3 {
      EncodeLong(value);
      if Exponent(value) == 30 {
        TwoBytes(Shr(value, 30));
      }
    } else if size == 2 {
      assert m == 256 * Shl(value, 0);
    } else if size == 1 {
      assert m == 256 * Shl(value, 1) == 256 * (256 * Shl(value, 0));
    } else if size == 0 {
      assert m == 256 * Shl(value, 2) == 256 * (256 * Shl(value, 1)) == 256 * (256 * (256 * Shl(value, 0)));
    }
  }

  lemma {:induction false} NormalReencodes(compact: U32)
    requires Normal(compact)
    ensures ToCompact(FromCompact(compact)) == compact
  {
    var size, word := compact / 0x100_0000, compact % 0x100_0000;
    if compact != 0 {
      assert compact % 0x80_0000 == word;
      WordLength(word);
      if size < 3 {
        SmallReencodes(compact);
      } else {
        var v := Shl(word, size - 3);
        ShlLength(word, size - 3);
        LowOfShort(v, 32);
        assert FromCompact(compact) == v;
        if ByteLength(word) == 3 {
          ShrOfShl(word, size - 3, size - 3);
          assert Mantissa(v) == word;
        } else if size == 3 {
          assert Mantissa(v) == 256 * Shl(word, 0);
        } else {
          ShrOfShl(word, size - 3, size - 4);
          assert Shl(word, 1) == 256 * Shl(word, 0);
          assert Mantissa(v) == 256 * word;
        }
      }
    } else {
      assert Shr(0, 3) == Shr(0, 2) == Shr(0, 1) == Shr(0, 0);
      assert Shl(0, 3) == 256 * Shl(0, 2) == 256 * (256 * Shl(0, 1));
    }
  }

  lemma {:induction false} SmallReencodes(compact: U32)
    requires Normal(compact) && compact != 0 && compact / 0x100_0000 < 3
    ensures ToCompact(FromCompact(compact)) == compact
  {
    var size, word := compact / 0x100_0000, compact % 0x100_0000;
    if size == 2 {
      TwoByteReencodes(compact, word / 256);
    } else {
      OneByteReencodes(compact, word / 256 / 256);
    }
  }

  lemma {:induction false} TwoByteReencodes(compact: U32, v: nat)
    requires 0x80 <= v < 0x8000 && compact == 2 * 0x100_0000 + 256 * v
    ensures ToCompact(FromCompact(compact)) == compact
  {
    assert Shr(256 * v, 1) == Shr(v, 0) == v;
    assert FromCompact(compact) == v;
    WordLength(v);
    assert Shl(v, 1) == 256 * Shl(v, 0);
    assert Shl(v, 2) == 256 * Shl(v, 1);
  }

  lemma {:induction false} OneByteReencodes(compact: U32, v: nat)
    requires 0 < v < 0x80 && compact == 0x100_0000 + 0x1_0000 * v
    ensures ToCompact(FromCompact(compact)) == compact
  {
    assert Shr(0x1_0000 * v, 2) == Shr(256 * v, 1) == Shr(v, 0) == v;
    assert FromCompact(compact) == v;
    WordLength(v);
    assert Shl(v, 2) == 256 * Shl(v, 1) == 256 * (256 * Shl(v, 0));
  }

  /** Decoding then encoding gives back a compact form exactly when it is normalised. */
  lemma {:induction false} ReencodeIffNormal(compact: U32)
    ensures ToCompact(FromCompact(compact)) == compact <==> Normal(compact)
  {
    EncodedIsNormal(FromCompact(compact));
    if Normal(compact) {
      NormalReencodes(compact);
    }
  }

  // ---------------------------------------------------------------- the value in numbers

  lemma {:induction false} ShlIsTimes(value: nat, k: nat)
    ensures Shl(value, k) == value * Pow256(k)
  {
    if k > 0 {
      ShlIsTimes(value, k - 1);
      TimesAgain(value, Pow256(k - 1));
    }
  }

  lemma {:induction false} TimesAgain(value: nat, p: nat)
    ensures 256 * (value * p) == value * (256 * p)
  {
  }

  /** The low bytes and the rest make up the value. */
  lemma {:induction false} LowAndRest(value: nat, k: nat)
    ensures Low(value, k) < Pow256(k)
    ensures value == Low(value, k) + Shr(value, k) * Pow256(k)
  {
    if k > 0 {
      LowAndRest(value / 256, k - 1);
      TimesAgain(Shr(value, k), Pow256(k - 1));
    }
  }

  /**
   * The target in numbers: the low 23 bits of the word, times 256 to the power of the size byte less three, with what does
   * not fit in 32 bytes lost and fractions dropped.
   */
  lemma {:induction false} CompactIsFloat(compact: U32) returns (lost: nat)
    ensures var size, word := compact / 0x100_0000, compact % 0x80_0000;
      && (size == 0 ==> FromCompact(compact) == 0)
      && (size == 1 ==> FromCompact(compact) == word / 0x1_0000)
      && (size == 2 ==> FromCompact(compact) == word / 0x100)
      && (size == 3 ==> FromCompact(compact) == word)
      && (size > 3 ==> FromCompact(compact) < Pow256(32) && word * Pow256(size - 3) == FromCompact(compact) + lost * Pow256(32))
  {
    var size, word := compact / 0x100_0000, compact % 0x80_0000;
    if size > 3 {
      ShlIsTimes(word, size - 3);
      LowAndRest(Shl(word, size - 3), 32);
      lost := Shr(Shl(word, size - 3), 32);
    } else {
      lost := 0;
      SmallShifts(word);
    }
  }

  lemma {:induction false} SmallShifts(word: nat)
    requires word < 0x80_0000
    ensures Shr(word, 0) == word && Shr(word, 1) == word / 0x100 && Shr(word, 2) == word / 0x1_0000 && Shr(word, 3) == 0
  {
    assert Shr(word / 256, 1) == Shr(word / 256 / 256, 0);
    assert Shr(word / 256, 2) == Shr(word / 256 / 256, 1) == Shr(word / 256 / 256 / 256, 0);
  }
}
