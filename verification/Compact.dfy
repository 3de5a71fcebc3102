/**
 The compact form of 256-bit targets (src/arith_uint256.cpp): an exponent of base 256 in the
 top byte, a sign bit, and a mantissa of 23 bits.
 */
module Compact {
  import opened Arith

  // Shifts by k bytes.
  function BytesUp(x: nat, k: nat): nat { x * Pow2(8 * k) }

  function BytesDown(x: nat, k: nat): nat {
    DivMod(x, Pow2(8 * k));
    x / Pow2(8 * k)
  }

  // ------------------------------------------------------------ SetCompact, on numbers

  datatype Parts = Parts(size: nat, word: nat, sign: bool)

  // nCompact >> 24, & 0x007fffff, & 0x00800000
  function Split(c: nat): Parts {
    Parts(c / 0x100_0000, c % 0x80_0000, (c / 0x80_0000) % 2 == 1)
  }

  // The word that is used: with an exponent below three its low bytes are shifted out.
  function Word(p: Parts): nat {
    if p.size <= 3 then BytesDown(p.word, 3 - p.size) else p.word
  }

  // The number a compact form stands for, without any limit.
  function Meant(p: Parts): nat {
    if p.size <= 3 then Word(p) else BytesUp(p.word, p.size - 3)
  }

  predicate Overflows(p: Parts) {
    Word(p) != 0 && (p.size > 34 || (Word(p) > 0xff && p.size > 33) || (Word(p) > 0xffff && p.size > 32))
  }

  predicate Negative(p: Parts) { Word(p) != 0 && p.sign }

  lemma ShiftedBound(w: nat, a: nat, b: nat, n: nat)
    requires w > 0 && Pow2(a) <= w < Pow2(b)
    ensures Pow2(a + n) <= w * Pow2(n) < Pow2(b + n)
  {
    Pow2Add(a, n);
    Pow2Add(b, n);
    hide Pow2;
    MulMonotone(Pow2(a), w, Pow2(n), Pow2(n));
    MulMonotone(w + 1, Pow2(b), Pow2(n), Pow2(n));
    Distribute(w, 1, Pow2(n));
  }

  lemma OverflowsBelow(w: nat, size: nat)
    requires 0 < w < 0x80_0000 && size > 3
    ensures size <= 32 ==> w * Pow2(8 * (size - 3)) < Pow2(256)
    ensures size > 34 ==> w * Pow2(8 * (size - 3)) >= Pow2(256)
  {
    Pow2Table();
    assert Pow2(23) == 0x80_0000;
    hide Pow2;
    var n := 8 * (size - 3);
    ShiftedBound(w, 0, 23, n);
    if size <= 32 {
      Pow2Grows(23 + n, 256);
    } else if size > 34 {
      Pow2Grows(256, n);
    }
  }

  lemma OverflowsAt33(w: nat)
    requires 0 < w < 0x80_0000
    ensures w > 0xffff <==> w * Pow2(8 * (33 - 3)) >= Pow2(256)
  {
    Pow2Table();
    assert Pow2(23) == 0x80_0000;
    hide Pow2;
    if w > 0xffff {
      ShiftedBound(w, 16, 23, 240);
    } else {
      ShiftedBound(w, 0, 16, 240);
    }
  }

  lemma OverflowsAt34(w: nat)
    requires 0 < w < 0x80_0000
    ensures w > 0xff <==> w * Pow2(8 * (34 - 3)) >= Pow2(256)
  {
    Pow2Table();
    assert Pow2(23) == 0x80_0000;
    hide Pow2;
    if w > 0xff {
      ShiftedBound(w, 8, 23, 248);
    } else {
      ShiftedBound(w, 0, 8, 248);
    }
  }

  lemma WordBound(p: Parts)
    requires p.word < 0x80_0000
    ensures Word(p) < 0x80_0000
  {
    if p.size <= 3 {
      DivMod(p.word, Pow2(8 * (3 - p.size)));
      MulMonotone(1, Pow2(8 * (3 - p.size)), Word(p), Word(p));
    }
  }

  // The flag is raised exactly when the number meant does not fit in 256 bits.
  lemma OverflowsIff(p: Parts)
    requires p.word < 0x80_0000
    ensures Overflows(p) <==> Meant(p) >= Pow2(256)
  {
    Pow2Table();
    WordBound(p);
    hide Pow2;
    if Word(p) == 0 || p.size <= 3 {
      Pow2Grows(24, 256);
    } else {
      OverflowsBelow(p.word, p.size);
      OverflowsAt33(p.word);
      OverflowsAt34(p.word);
    }
  }

  // ------------------------------------------------------------ GetCompact, on numbers

  // The number of bytes of x.
  function ByteLen(x: nat): (n: nat)
    ensures x < Pow2(8 * n)
    ensures n > 0 ==> Pow2(8 * (n - 1)) <= x
    ensures x == 0 <==> n == 0
  {
    if x == 0 then 0
    else
      ByteLenStep(x / 256, ByteLen(x / 256), x);
      1 + ByteLen(x / 256)
  }

  lemma ByteLenStep(q: nat, n: nat, x: nat)
    requires q == x / 256 < Pow2(8 * n) && (n > 0 ==> Pow2(8 * (n - 1)) <= q) && (q == 0 <==> n == 0) && x > 0
    ensures Pow2(8 * n) <= x < Pow2(8 * (n + 1))
  {
    Pow2Table();
    Pow2Add(8, 8 * n);
    if n > 0 {
      Pow2Add(8, 8 * (n - 1));
    }
  }

  // Bounds decide the number of bytes.
  lemma ByteLenIs(x: nat, n: nat)
    requires n > 0 && Pow2(8 * (n - 1)) <= x < Pow2(8 * n)
    ensures ByteLen(x) == n
  {
    var m := ByteLen(x);
    hide Pow2, ByteLen;
    if m < n {
      Pow2Grows(8 * m, 8 * (n - 1));
    } else if m > n {
      Pow2Grows(8 * n, 8 * (m - 1));
    }
  }

  // The mantissa for a number of bytes.
  function Mantissa(x: nat, size: nat): nat {
    if size <= 3 then BytesUp(x, 3 - size) else BytesDown(x, size - 3)
  }

  // With the mantissa's top bit set a byte is dropped.
  function Sized(x: nat): (nat, nat) {
    var n := ByteLen(x);
    var m := Mantissa(x, n);
    if m >= 0x80_0000 then (n + 1, m / 256) else (n, m)
  }

  function Encoded(x: nat, negative: bool): nat {
    var (size, m) := Sized(x);
    size * 0x100_0000 + m + (if negative && m != 0 then 0x80_0000 else 0)
  }

  // ------------------------------------------------------------------- what it keeps

  // The size with room for the sign bit.
  function SignedLen(x: nat): nat { ByteLen(2 * x) }

  lemma Pow2Bytes(n: nat)
    ensures n > 0 ==> Pow2(8 * n) == 2 * Pow2(8 * n - 1)
  {
  }

  lemma UpAtLeast(x: nat, n: nat, a: nat)
    requires n <= 3 && 8 * (3 - n) <= a
    ensures BytesUp(x, 3 - n) >= Pow2(a) <==> x >= Pow2(a - 8 * (3 - n))
  {
    var k := 8 * (3 - n);
    Pow2Add(a - k, k);
    hide Pow2;
    var p, q := Pow2(k), Pow2(a - k);
    if x >= q {
      MulMonotone(q, x, p, p);
    } else {
      MulMonotone(x + 1, q, p, p);
      Distribute(x, 1, p);
    }
  }

  lemma DownAtLeast(x: nat, k: nat, a: nat)
    ensures BytesDown(x, k) >= Pow2(a) <==> x >= Pow2(a + 8 * k)
  {
    Pow2Add(a, 8 * k);
    hide Pow2;
    DivAtLeast(x, Pow2(8 * k), Pow2(a));
  }

  // The mantissa of n bytes reaches 2^a exactly when the number reaches 2^(a + 8n - 24).
  lemma MantissaAtLeast(x: nat, n: nat, a: nat)
    requires 24 <= a + 8 * n
    ensures Mantissa(x, n) >= Pow2(a) <==> x >= Pow2(a + 8 * n - 24)
  {
    if n <= 3 {
      UpAtLeast(x, n, a);
    } else {
      DownAtLeast(x, n - 3, a);
    }
  }

  lemma DropByte(x: nat, n: nat)
    ensures Mantissa(x, n) / 256 == Mantissa(x, n + 1)
  {
    Pow2Table();
    if n < 3 {
      Pow2Add(8 * (2 - n), 8);
      hide Pow2;
      var p := Pow2(8 * (2 - n));
      MulAssociates(x, p, 256);
      ModIs(0, x * p, 256);
    } else {
      var k := 8 * (n - 3);
      Pow2Add(k, 8);
      hide Pow2;
      DivTwice(x, Pow2(k), 256);
      assert n == 3 ==> Mantissa(x, n) == x by {
        if n == 3 {
          Pow2Table();
          assert x * 1 == x;
        }
      }
    }
  }

  lemma SizedZero()
    ensures Sized(0) == (0, 0) && SignedLen(0) == 0 && Mantissa(0, 0) == 0
  {
  }

  // The size is that of the number with a sign bit in front, and the mantissa fits in 23 bits.
  lemma SizedIs(x: nat)
    ensures Sized(x) == (SignedLen(x), Mantissa(x, SignedLen(x)))
    ensures Mantissa(x, SignedLen(x)) < 0x80_0000
  {
    Pow2Table();
    assert Pow2(23) == 0x80_0000;
    if x == 0 {
      SizedZero();
    } else {
      var n := ByteLen(x);
      Pow2Bytes(n);
      Pow2Add(8 * n, 8);
      MantissaAtLeast(x, n, 23);
      DropByte(x, n);
      hide Pow2, ByteLen, Mantissa;
      if x >= Pow2(8 * n - 1) {
        ByteLenIs(2 * x, n + 1);
        MantissaAtLeast(x, n + 1, 23);
        Pow2Grows(8 * n, 8 * (n + 1) - 1);
      } else {
        Pow2Bytes(n);
        SameLen(x, n);
      }
    }
  }

  lemma SameLen(x: nat, n: nat)
    requires n > 0 && Pow2(8 * (n - 1)) <= x < Pow2(8 * n - 1)
    ensures ByteLen(2 * x) == n
  {
    Pow2Bytes(n);
    hide Pow2;
    ByteLenIs(2 * x, n);
  }

  // Reading back what was encoded.
  lemma SplitEncoded(x: nat, negative: bool)
    ensures
      var p := Split(Encoded(x, negative));
      var m := Mantissa(x, SignedLen(x));
      && p.size == SignedLen(x) && p.word == m && (p.sign <==> negative && m != 0)
  {
    SizedIs(x);
    hide Mantissa, SignedLen;
    SplitParts(SignedLen(x), Mantissa(x, SignedLen(x)), negative && Mantissa(x, SignedLen(x)) != 0);
  }

  lemma SplitParts(size: nat, m: nat, sign: bool)
    requires m < 0x80_0000
    ensures Split(size * 0x100_0000 + m + (if sign then 0x80_0000 else 0)) == Parts(size, m, sign)
  {
    var s := if sign then 1 else 0;
    var c := size * 0x100_0000 + m + s * 0x80_0000;
    ModIs(m + s * 0x80_0000, size, 0x100_0000);
    ModIs(m, 2 * size + s, 0x80_0000);
    assert c == m + (2 * size + s) * 0x80_0000;
  }

  // Forms and numbers as the unit tests list them.
  lemma KnownForms()
    ensures Split(0x05009234) == Parts(5, 0x9234, false) && Split(0x04923456) == Parts(4, 0x123456, true)
    ensures Meant(Split(0x01123456)) == 0x12 && Meant(Split(0x02123456)) == 0x1234 && Meant(Split(0x03123456)) == 0x123456
    ensures Meant(Split(0x04123456)) == 0x12345600 && Meant(Split(0x05009234)) == 0x92340000
    ensures Encoded(0, false) == 0 && Encoded(0x12, false) == 0x01120000 && Encoded(0x80, false) == 0x02008000
    ensures Encoded(0x12345600, false) == 0x04123456 && Encoded(0x12345600, true) == 0x04923456
  {
    KnownMeanings();
    KnownSizes();
  }

  lemma KnownMeanings()
    ensures Meant(Parts(1, 0x123456, false)) == 0x12 && Meant(Parts(2, 0x123456, false)) == 0x1234
    ensures Meant(Parts(3, 0x123456, false)) == 0x123456 && Meant(Parts(4, 0x123456, false)) == 0x12345600
    ensures Meant(Parts(5, 0x9234, false)) == 0x92340000
  {
    Pow2Table();
  }

  lemma KnownSizes()
    ensures Sized(0) == (0, 0) && Sized(0x12) == (1, 0x120000) && Sized(0x80) == (2, 0x8000)
    ensures Sized(0x12345600) == (4, 0x123456)
  {
    Pow2Table();
    ByteLenIs(0x12, 1);
    ByteLenIs(0x80, 1);
    ByteLenIs(0x12345600, 4);
    hide ByteLen;
    SizedZero();
  }

  // The number that is left of x: all but its 23 highest bits, in whole bytes, are cleared.
  function Rounded(x: nat): nat {
    var n := SignedLen(x);
    if n <= 3 then x else BytesUp(BytesDown(x, n - 3), n - 3)
  }

  lemma UpDown(x: nat, k: nat)
    ensures BytesDown(BytesUp(x, k), k) == x
  {
    hide Pow2;
    ModIs(0, x, Pow2(8 * k));
  }

  // Decoding what was encoded gives the rounded number, with the sign and no overflow.
  lemma RoundTrip(x: nat, negative: bool)
    ensures Meant(Split(Encoded(x, negative))) == Rounded(x)
    ensures x < Pow2(256) ==> !Overflows(Split(Encoded(x, negative)))
    ensures Negative(Split(Encoded(x, negative))) <==> negative && x != 0
  {
    var p, n := Split(Encoded(x, negative)), SignedLen(x);
    SplitEncoded(x, negative);
    SizedIs(x);
    if n <= 3 {
      UpDown(x, 3 - n);
    }
    hide Split, Encoded;
    assert Meant(p) == Rounded(x);
    RoundedBelow(x);
    OverflowsIff(p);
    MantissaZero(x);
    if n > 3 {
      assert Word(p) == p.word;
    } else {
      assert Word(p) == x;
    }
  }

  lemma MantissaZero(x: nat)
    ensures Mantissa(x, SignedLen(x)) == 0 <==> x == 0
  {
    Pow2Table();
    if x == 0 {
      SizedZero();
    } else {
      var n := SignedLen(x);
      SignedBounds(x);
      MantissaAtLeast(x, n, if n == 1 then 16 else 15);
    }
  }

  // 2^(8n - 9) <= x < 2^(8n - 1)
  lemma SignedBounds(x: nat)
    requires x > 0
    ensures
      var n := SignedLen(x);
      n > 0 && x < Pow2(8 * n - 1) && (n > 1 ==> Pow2(8 * n - 9) <= x)
  {
    var n := SignedLen(x);
    Pow2Bytes(n);
    if n > 1 {
      Pow2Bytes(n - 1);
    }
  }

  lemma RoundedBelow(x: nat)
    ensures Rounded(x) <= x
  {
    var n := SignedLen(x);
    if n > 3 {
      DivMod(x, Pow2(8 * (n - 3)));
    }
  }

  lemma RoundedAbove(x: nat)
    requires SignedLen(x) > 3
    ensures Pow2(8 * SignedLen(x) - 9) <= Rounded(x)
  {
    var n := SignedLen(x);
    SignedBounds(x);
    DownAtLeast(x, n - 3, 15);
    Pow2Add(15, 8 * (n - 3));
    hide Pow2, SignedLen;
    MulMonotone(Pow2(15), BytesDown(x, n - 3), Pow2(8 * (n - 3)), Pow2(8 * (n - 3)));
  }

  lemma SignedLenGrows(x: nat, y: nat)
    requires x <= y
    ensures SignedLen(x) <= SignedLen(y)
  {
    if x > 0 {
      var m, n := SignedLen(x), SignedLen(y);
      SignedBounds(x);
      SignedBounds(y);
      hide Pow2, SignedLen;
      if m > n {
        Pow2Grows(8 * n - 1, 8 * m - 9);
      }
    }
  }

  // Rounding is monotone.
  lemma RoundedMonotone(x: nat, y: nat)
    requires x <= y
    ensures Rounded(x) <= Rounded(y)
  {
    var m, n := SignedLen(x), SignedLen(y);
    SignedLenGrows(x, y);
    RoundedBelow(x);
    if n > 3 {
      if m == n {
        SameRounding(x, y, n - 3);
      } else if x > 0 {
        RoundedAbove(y);
        SignedBounds(x);
        hide Pow2, SignedLen, Rounded;
        Pow2Grows(8 * m - 1, 8 * n - 9);
      }
    }
  }

  lemma SameRounding(x: nat, y: nat, k: nat)
    requires x <= y
    ensures BytesUp(BytesDown(x, k), k) <= BytesUp(BytesDown(y, k), k)
  {
    hide Pow2;
    RoundDown(x, y, Pow2(8 * k));
  }

  // A rounded number rounds to itself and encodes to the same compact form.
  lemma RoundedStays(x: nat)
    ensures Rounded(Rounded(x)) == Rounded(x) && Encoded(Rounded(x), false) == Encoded(x, false)
  {
    var n := SignedLen(x);
    if n > 3 {
      var r := Rounded(x);
      RoundedBelow(x);
      RoundedAbove(x);
      SignedBounds(x);
      SignedLenIs(r, n);
      UpDown(BytesDown(x, n - 3), n - 3);
      SizedIs(x);
      SizedIs(r);
    }
  }

  lemma SignedLenIs(r: nat, n: nat)
    requires n > 1 && Pow2(8 * n - 9) <= r < Pow2(8 * n - 1)
    ensures SignedLen(r) == n
  {
    Pow2Bytes(n);
    Pow2Bytes(n - 1);
    hide Pow2;
    ByteLenIs(2 * r, n);
  }
}
