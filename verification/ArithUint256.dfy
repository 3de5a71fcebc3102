/**
 Reading and writing the compact form of a 256-bit number (src/arith_uint256.cpp).
 */
module ArithUint256 {
  import opened Arith
  import opened Limbs
  import opened LimbShifts
  import opened BaseUint
  import opened Compact

  const SIGN: nat := 0x80_0000

  // The flags are raised for a negative number and for one that does not fit in 256 bits.
  method SetCompact(u: BaseUint, nCompact: nat) returns (fNegative: bool, fOverflow: bool)
    requires u.Valid() && u.pn.Length == 8 && nCompact < BASE
    modifies u.pn
    ensures u.Valid() && u.Num() == Meant(Split(nCompact)) % Pow2(256)
    ensures fNegative <==> Negative(Split(nCompact))
    ensures fOverflow <==> Meant(Split(nCompact)) >= Pow2(256)
  {
    ghost var p := Split(nCompact);
    WordBound(p);
    OverflowsIff(p);
    var nSize := nCompact / 0x100_0000;
    var nWord := nCompact % SIGN;
    if nSize <= 3 {
      nWord := BytesDown(nWord, 3 - nSize);
      u.SetUint64(nWord);
      WordFits(nWord);
    } else {
      u.SetUint64(nWord);
      u.ShiftLeft(8 * (nSize - 3));
    }
    fNegative := nWord != 0 && (nCompact / SIGN) % 2 == 1;
    fOverflow := nWord != 0 && (nSize > 34 || (nWord > 0xff && nSize > 33) || (nWord > 0xffff && nSize > 32));
  }

  lemma WordFits(w: nat)
    requires w < SIGN
    ensures w % Pow2(256) == w
  {
    Pow2Table();
    Pow2Grows(24, 256);
    hide Pow2;
    ModIs(w, 0, Pow2(256));
  }

  // Whole bytes from bits.
  lemma BytesOfBits(x: nat, bits: nat)
    requires if bits == 0 then x == 0 else Pow2(bits - 1) <= x < Pow2(bits)
    ensures (bits + 7) / 8 == ByteLen(x)
  {
    if bits > 0 {
      var n := (bits + 7) / 8;
      hide Pow2, ByteLen;
      Pow2Grows(8 * (n - 1), bits - 1);
      Pow2Grows(bits, 8 * n);
      ByteLenIs(x, n);
    }
  }

  lemma MantissaBound(x: nat)
    requires x < Pow2(256)
    ensures Mantissa(x, ByteLen(x)) < 0x100_0000 && ByteLen(x) <= 32
  {
    var n := ByteLen(x);
    Pow2Table();
    if n > 32 {
      Pow2Grows(256, 8 * (n - 1));
    }
    MantissaAtLeast(x, n, 24);
  }

  lemma SmallNumber(x: nat)
    ensures ByteLen(x) <= 3 ==> x < 0x100_0000
  {
    Pow2Table();
    if ByteLen(x) <= 3 {
      Pow2Grows(8 * ByteLen(x), 24);
    }
  }

  lemma Low64(x: nat)
    ensures x < 0x100_0000 ==> x % (BASE * BASE) == x
  {
  }

  method GetMantissa(u: BaseUint, nSize: nat) returns (m: nat)
    requires u.Valid() && u.pn.Length == 8 && nSize == ByteLen(u.Num())
    ensures m == Mantissa(u.Num(), nSize) < 0x100_0000
  {
    ValueBound(u.pn[..]);
    MantissaBound(u.Num());
    SmallNumber(u.Num());
    hide Pow2, ByteLen, Value, Weight;
    if nSize <= 3 {
      var low := u.GetLow64();
      Low64(u.Num());
      m := BytesUp(low, 3 - nSize);
    } else {
      var bn := new BaseUint.Copy(u);
      bn.ShiftRight(8 * (nSize - 3));
      m := bn.GetLow64();
      Low64(bn.Num());
    }
  }

  method GetCompact(u: BaseUint, fNegative: bool) returns (nCompact: nat)
    requires u.Valid() && u.pn.Length == 8
    ensures nCompact == Encoded(u.Num(), fNegative) < BASE
  {
    var bits := u.Bits();
    var nSize := (bits + 7) / 8;
    ghost var x := u.Num();
    BytesOfBits(x, bits);
    ValueBound(u.pn[..]);
    MantissaBound(x);
    nCompact := GetMantissa(u, nSize);
    SizedIs(x);
    hide ByteLen, Mantissa, SignedLen;
    Sign24(nCompact);
    if TestBit(nCompact, 23) {
      nCompact := nCompact / 256;
      nSize := nSize + 1;
    }
    assert nCompact < SIGN && nSize < 256;
    assert (nSize, nCompact) == Sized(x);
    nCompact := Pack(nSize, nCompact, fNegative);
  }

  lemma Sign24(m: nat)
    requires m < 0x100_0000
    ensures TestBit(m, 23) <==> m >= SIGN
  {
    Pow2Table();
    assert Pow2(23) == SIGN;
    TopBit(m, 23);
  }

  // Size, sign and mantissa are or-ed together.
  method Pack(nSize: nat, m: nat, fNegative: bool) returns (c: nat)
    requires nSize < 256 && m < SIGN
    ensures c == nSize * 0x100_0000 + m + (if fNegative && m != 0 then SIGN else 0) < BASE
  {
    Pow2Table();
    assert Pow2(23) == SIGN;
    c := Or(m, nSize * 0x100_0000);
    OrCommutes(m, nSize * 0x100_0000);
    ModIs(0, nSize, 0x100_0000);
    OrIsSum(nSize * 0x100_0000, m, 24);
    SplitParts(nSize, m, false);
    if fNegative && c % SIGN != 0 {
      OrClearBit(c, 23);
      c := Or(c, SIGN);
    }
  }
}
