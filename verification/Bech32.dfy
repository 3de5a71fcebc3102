/**
 The Bech32 code of src/bech32.cpp (BIP 173): strings are sequences of bytes, data are
 sequences of 5-bit values, and the checksum is the remainder of a polynomial over GF(32).
 */
module Bech32 {
  import opened Bits

  type Data = seq<bv8>

  // ------------------------------------------------------------------ polynomial

  function Term(c0: bv32, bit: bv32, g: bv32): bv32 {
    if c0 & bit != 0 then g else 0
  }

  // The generator multiplied by the coefficient that leaves the top.
  function Gen(c0: bv32): bv32 {
    Plus(Plus(Plus(Plus(Term(c0, 1, 0x3b6a57b2), Term(c0, 2, 0x26508e6d)), Term(c0, 4, 0x1ea119fa)),
              Term(c0, 8, 0x3d4233dd)), Term(c0, 16, 0x2a1462b3))
  }

  function Shifted(c: bv32): bv32 { (c & 0x1ffffff) << 5 }

  function Widened(v: bv8): bv32 { v as bv32 }

  function Step(c: bv32, v: bv8): bv32 {
    Plus(Plus(Shifted(c), Widened(v)), Gen(c >> 25))
  }

  function Fold(c: bv32, v: Data): bv32
    decreases |v|
  {
    if v == [] then c else Fold(Step(c, v[0]), v[1..])
  }

  function PolyMod(v: Data): bv32 { Fold(1, v) }

  method ComputePolyMod(v: Data) returns (c: bv32)
    ensures c == PolyMod(v)
  {
    c := 1;
    hide Step;
    for i := 0 to |v|
      invariant Fold(c, v[i..]) == PolyMod(v)
    {
      assert v[i..][1..] == v[i + 1..];
      c := NextRemainder(c, v[i]);
    }
  }

  // The body of the loop.
  method NextRemainder(c: bv32, v: bv8) returns (r: bv32)
    ensures r == Step(c, v)
  {
    hide Plus, Term;
    var c0 := c >> 25;
    r := Plus(Shifted(c), Widened(v));
    r := AddIf(c0, 1, r, 0x3b6a57b2);
    r := AddIf(c0, 2, r, 0x26508e6d);
    r := AddIf(c0, 4, r, 0x1ea119fa);
    r := AddIf(c0, 8, r, 0x3d4233dd);
    r := AddIf(c0, 16, r, 0x2a1462b3);
    SumInOrder(Plus(Shifted(c), Widened(v)), Term(c0, 1, 0x3b6a57b2), Term(c0, 2, 0x26508e6d),
               Term(c0, 4, 0x1ea119fa), Term(c0, 8, 0x3d4233dd), Term(c0, 16, 0x2a1462b3));
  }

  method AddIf(c0: bv32, bit: bv32, c: bv32, g: bv32) returns (r: bv32)
    ensures r == Plus(c, Term(c0, bit, g))
  {
    r := c;
    PlusZero(c);
    if c0 & bit != 0 {
      r := r ^ g;
    }
  }

  lemma SumInOrder(a: bv32, b: bv32, c: bv32, d: bv32, e: bv32, f: bv32)
    ensures Plus(Plus(Plus(Plus(Plus(a, b), c), d), e), f) == Plus(a, Plus(Plus(Plus(Plus(b, c), d), e), f))
  {
    hide Plus;
    PlusAssociates(a, b, c);
    PlusAssociates(a, Plus(b, c), d);
    PlusAssociates(a, Plus(Plus(b, c), d), e);
    PlusAssociates(a, Plus(Plus(Plus(b, c), d), e), f);
  }

  // ------------------------------------------------------------------- linearity

  lemma PlusAssociates(a: bv32, b: bv32, c: bv32)
    ensures Plus(Plus(a, b), c) == Plus(a, Plus(b, c))
  {
  }

  lemma PlusCommutes(a: bv32, b: bv32)
    ensures Plus(a, b) == Plus(b, a)
  {
  }

  lemma PlusFour(a: bv32, b: bv32, c: bv32, d: bv32)
    ensures Plus(Plus(a, b), Plus(c, d)) == Plus(Plus(a, c), Plus(b, d))
  {
    hide Plus;
    PlusAssociates(a, b, Plus(c, d));
    PlusAssociates(b, c, d);
    PlusCommutes(b, c);
    PlusAssociates(c, b, d);
    PlusAssociates(a, c, Plus(b, d));
  }

  lemma PlusZero(g: bv32)
    ensures Plus(g, 0) == Plus(0, g) == g && Plus(g, g) == 0
  {
  }

  lemma BitOfPlus(a: bv32, b: bv32, n: bv32)
    requires n in {1, 2, 4, 8, 16}
    ensures (Plus(a, b) & n != 0) == ((a & n != 0) != (b & n != 0))
  {
    if n == 1 {
    } else if n == 2 {
    } else if n == 4 {
    } else if n == 8 {
    } else {
      assert n == 16;
    }
  }

  lemma TermLinear(a: bv32, b: bv32, n: bv32, g: bv32)
    requires n in {1, 2, 4, 8, 16}
    ensures Term(Plus(a, b), n, g) == Plus(Term(a, n, g), Term(b, n, g))
  {
    hide Plus;
    BitOfPlus(a, b, n);
    PlusZero(g);
    PlusZero(0);
  }

  lemma GenLinear(a: bv32, b: bv32)
    ensures Gen(Plus(a, b)) == Plus(Gen(a), Gen(b))
  {
    TermLinear(a, b, 1, 0x3b6a57b2);
    TermLinear(a, b, 2, 0x26508e6d);
    TermLinear(a, b, 4, 0x1ea119fa);
    TermLinear(a, b, 8, 0x3d4233dd);
    TermLinear(a, b, 16, 0x2a1462b3);
    hide Plus, Term;
    var a1, b1 := Term(a, 1, 0x3b6a57b2), Term(b, 1, 0x3b6a57b2);
    var a2, b2 := Term(a, 2, 0x26508e6d), Term(b, 2, 0x26508e6d);
    var a4, b4 := Term(a, 4, 0x1ea119fa), Term(b, 4, 0x1ea119fa);
    var a8, b8 := Term(a, 8, 0x3d4233dd), Term(b, 8, 0x3d4233dd);
    PlusFour(a1, b1, a2, b2);
    PlusFour(Plus(a1, a2), Plus(b1, b2), a4, b4);
    PlusFour(Plus(Plus(a1, a2), a4), Plus(Plus(b1, b2), b4), a8, b8);
    PlusFour(Plus(Plus(Plus(a1, a2), a4), a8), Plus(Plus(Plus(b1, b2), b4), b8),
             Term(a, 16, 0x2a1462b3), Term(b, 16, 0x2a1462b3));
  }

  lemma PartsLinear(c: bv32, d: bv32, v: bv8, w: bv8)
    ensures Shifted(Plus(c, d)) == Plus(Shifted(c), Shifted(d))
    ensures Widened(v ^ w) == Plus(Widened(v), Widened(w))
    ensures Plus(c, d) >> 25 == Plus(c >> 25, d >> 25)
  {
  }

  lemma StepLinear(c: bv32, d: bv32, v: bv8, w: bv8)
    ensures Step(Plus(c, d), v ^ w) == Plus(Step(c, v), Step(d, w))
  {
    GenLinear(c >> 25, d >> 25);
    PartsLinear(c, d, v, w);
    hide Gen, Plus, Shifted, Widened;
    PlusFour(Shifted(c), Shifted(d), Widened(v), Widened(w));
    PlusFour(Plus(Shifted(c), Widened(v)), Plus(Shifted(d), Widened(w)), Gen(c >> 25), Gen(d >> 25));
  }

  function Xor(v: Data, w: Data): (r: Data)
    requires |v| == |w|
    ensures |r| == |v| && forall i | 0 <= i < |v| :: r[i] == v[i] ^ w[i]
  {
    seq(|v|, i requires 0 <= i < |v| => v[i] ^ w[i])
  }

  lemma {:induction false} FoldLinear(c: bv32, d: bv32, v: Data, w: Data)
    requires |v| == |w|
    ensures Fold(Plus(c, d), Xor(v, w)) == Plus(Fold(c, v), Fold(d, w))
    decreases |v|
  {
    hide Step, Plus;
    if v != [] {
      StepLinear(c, d, v[0], w[0]);
      FoldLinear(Step(c, v[0]), Step(d, w[0]), v[1..], w[1..]);
      assert Xor(v, w)[1..] == Xor(v[1..], w[1..]);
    }
  }

  lemma {:induction false} FoldAppend(c: bv32, v: Data, w: Data)
    ensures Fold(c, v + w) == Fold(Fold(c, v), w)
    decreases |v|
  {
    if v == [] {
      assert v + w == w;
    } else {
      hide Step;
      assert (v + w)[1..] == v[1..] + w;
      FoldAppend(Step(c, v[0]), v[1..], w);
    }
  }

  predicate Symbols(v: Data) {
    forall i | 0 <= i < |v| :: v[i] < 32
  }

  // ------------------------------------------------------- the step loses nothing

  lemma GenInjective(c0: bv32)
    requires c0 < 32 && Gen(c0) & 31 == 0
    ensures c0 == 0
  {
  }

  lemma GenBound(c0: bv32)
    ensures Gen(c0) < 0x4000_0000
  {
  }

  lemma StepBound(c: bv32, v: bv8)
    requires v < 32
    ensures Step(c, v) < 0x4000_0000
  {
    GenBound(c >> 25);
    hide Gen;
  }

  lemma {:induction false} FoldBound(c: bv32, v: Data)
    requires Symbols(v) && v != []
    ensures Fold(c, v) < 0x4000_0000
    decreases |v|
  {
    hide Step;
    StepBound(c, v[0]);
    if |v| == 1 {
      assert v[1..] == [];
    } else {
      FoldBound(Step(c, v[0]), v[1..]);
    }
  }

  // A remainder that is not zero stays so while zeroes are appended.
  lemma StepInjective(c: bv32)
    requires c < 0x4000_0000 && Step(c, 0) == 0
    ensures c == 0
  {
    var g := Gen(c >> 25);
    assert g & 31 == 0;
    GenInjective(c >> 25);
  }

  // While the top coefficient is zero a step only appends.
  lemma StepShifts(c: bv32, v: bv8)
    requires c < 0x200_0000
    ensures Step(c, v) == (c << 5) ^ (v as bv32)
  {
    assert c >> 25 == 0;
  }

  // ------------------------------------------------------------- bursts of errors

  function Zeros(n: nat): (z: Data)
    ensures |z| == n && forall i | 0 <= i < n :: z[i] == 0
  {
    seq(n, i => 0)
  }

  lemma {:induction false} FoldZeros(c: bv32, n: nat)
    requires c < 0x4000_0000
    ensures Fold(c, Zeros(n)) < 0x4000_0000
    ensures Fold(c, Zeros(n)) == 0 <==> c == 0
    decreases n
  {
    if n > 0 {
      StepBound(c, 0);
      if Step(c, 0) == 0 {
        StepInjective(c);
      }
      assert Step(0, 0) == 0;
      hide Step;
      FoldZeros(Step(c, 0), n - 1);
      assert Zeros(n)[1..] == Zeros(n - 1);
    }
  }

  // What a remainder may be before n more symbols fill the 30 bits.
  function Limit(n: nat): bv32
    requires n <= 6
  {
    match n
    case 0 => 0x4000_0000 case 1 => 0x200_0000 case 2 => 0x10_0000 case 3 => 0x8000
    case 4 => 0x400 case 5 => 0x20 case 6 => 1
  }

  lemma ShiftIn(c: bv32, v: bv8, n: nat)
    requires 1 <= n <= 6 && c < Limit(n) && v < 32
    ensures Step(c, v) < Limit(n - 1)
    ensures Step(c, v) == 0 <==> c == 0 && v == 0
  {
    StepShifts(c, v);
    hide Step;
  }

  // Up to six symbols appended to nothing leave a remainder that shows them all.
  lemma {:induction false} WindowShows(c: bv32, s: Data)
    requires |s| <= 6 && Symbols(s) && c < Limit(|s|)
    ensures Fold(c, s) < 0x4000_0000
    ensures Fold(c, s) == 0 ==> c == 0 && forall i | 0 <= i < |s| :: s[i] == 0
    decreases |s|
  {
    hide Step;
    if s != [] {
      ShiftIn(c, s[0], |s|);
      hide Limit;
      assert Limit(|s[1..]|) == Limit(|s| - 1);
      WindowShows(Step(c, s[0]), s[1..]);
      assert forall i | 1 <= i < |s| :: s[i] == s[1..][i - 1];
    }
  }

  predicate Agree(x: Data, y: Data, p: nat)
    requires |x| == |y|
  {
    forall i | 0 <= i < |x| && (i < p || p + 6 <= i) :: x[i] == y[i]
  }

  // The difference of two messages that agree outside of a window.
  lemma WindowFold(d: Data, p: nat)
    requires Symbols(d) && forall i | 0 <= i < |d| && (i < p || p + 6 <= i) :: d[i] == 0
    requires exists i | 0 <= i < |d| :: d[i] != 0
    ensures Fold(0, d) != 0
  {
    hide Fold;
    var k :| 0 <= k < |d| && d[k] != 0;
    var q := if p + 6 < |d| then p + 6 else |d|;
    var w := d[p..q];
    assert w[k - p] == d[k];
    PaddedFold(p, w, |d| - q);
    assert d == Zeros(p) + w + Zeros(|d| - q);
  }

  lemma PaddedFold(p: nat, w: Data, n: nat)
    requires |w| <= 6 && Symbols(w) && exists i | 0 <= i < |w| :: w[i] != 0
    ensures Fold(0, Zeros(p) + w + Zeros(n)) != 0
  {
    hide Fold;
    WindowShows(0, w);
    FoldZeros(0, p);
    FoldZeros(Fold(0, w), n);
    FoldAppend(0, Zeros(p), w);
    FoldAppend(0, Zeros(p) + w, Zeros(n));
  }

  lemma FoldDifference(c: bv32, x: Data, y: Data)
    requires |x| == |y|
    ensures Fold(0, Xor(x, y)) == Plus(Fold(c, x), Fold(c, y))
  {
    FoldLinear(c, c, x, y);
    PlusZero(c);
  }

  // ---------------------------------------------------------------- the checksum

  function High(c: bv8): (v: bv8)
    ensures v < 32
  {
    c >> 5
  }

  function Low(c: bv8): (v: bv8)
    ensures v < 32
  {
    c & 0x1f
  }

  // Every character gives its high bits, then, after a zero, its low bits.
  function ExpandHRP(hrp: Data): (r: Data)
    ensures |r| == 2 * |hrp| + 1 && Symbols(r)
  {
    seq(|hrp|, i requires 0 <= i < |hrp| => High(hrp[i])) + [0] + seq(|hrp|, i requires 0 <= i < |hrp| => Low(hrp[i]))
  }

  // The two parts of a character, as numbers: its quotient and its remainder by 32.
  lemma PartsOf(c: bv8)
    ensures High(c) < 8 && 32 * (High(c) as int) + (Low(c) as int) == c as int
  {
    assert High(c) == c / 32 && Low(c) == c % 32;
    QuotientByte(c);
  }

  lemma QuotientByte(c: bv8)
    ensures (c / 32) < 8 && 32 * ((c / 32) as int) + ((c % 32) as int) == c as int
  {
  }

  lemma ExpandHRPIs(hrp: Data)
    ensures ExpandHRP(hrp)[|hrp|] == 0
    ensures forall i | 0 <= i < |hrp| ::
      (ExpandHRP(hrp)[i] < 8 &&
      32 * (ExpandHRP(hrp)[i] as int) + (ExpandHRP(hrp)[|hrp| + 1 + i] as int) == hrp[i] as int)
  {
    hide High, Low;
    forall i | 0 <= i < |hrp|
      ensures ExpandHRP(hrp)[i] == High(hrp[i]) && ExpandHRP(hrp)[|hrp| + 1 + i] == Low(hrp[i])
      ensures High(hrp[i]) < 8 && 32 * (High(hrp[i]) as int) + (Low(hrp[i]) as int) == hrp[i] as int
    {
      PartsOf(hrp[i]);
    }
  }

  method ComputeExpandHRP(hrp: Data) returns (ret: Data)
    ensures ret == ExpandHRP(hrp)
  {
    var n := |hrp|;
    ret := Zeros(2 * n + 1);
    for i := 0 to n
      invariant |ret| == 2 * n + 1
      invariant forall j | 0 <= j < i :: ret[j] == High(hrp[j]) && ret[j + n + 1] == Low(hrp[j])
    {
      ret := ret[i := High(hrp[i])];
      ret := ret[i + n + 1 := Low(hrp[i])];
    }
    ret := ret[n := 0];
  }

  predicate VerifyChecksum(hrp: Data, values: Data) {
    PolyMod(ExpandHRP(hrp) + values) == 1
  }

  // m shifted right by 5 * (5 - i).
  function ShiftedTo(m: bv32, i: nat): bv32
    requires i < 6
  {
    match i
    case 0 => m >> 25 case 1 => m >> 20 case 2 => m >> 15 case 3 => m >> 10 case 4 => m >> 5 case 5 => m
  }

  function SymbolAt(m: bv32, i: nat): (v: bv8)
    requires i < 6
    ensures v < 32
  {
    (ShiftedTo(m, i) & 31) as bv8
  }

  function Unpacked(m: bv32): Data {
    [SymbolAt(m, 0), SymbolAt(m, 1), SymbolAt(m, 2), SymbolAt(m, 3), SymbolAt(m, 4), SymbolAt(m, 5)]
  }

  function CreateChecksum(hrp: Data, values: Data): (r: Data)
    ensures |r| == 6 && Symbols(r)
  {
    Unpacked(Plus(PolyMod(ExpandHRP(hrp) + values + Zeros(6)), 1))
  }

  method ComputeChecksum(hrp: Data, values: Data) returns (ret: Data)
    ensures ret == CreateChecksum(hrp, values)
  {
    var enc := ComputeExpandHRP(hrp);
    enc := enc + values;
    enc := enc + Zeros(6);
    var r := ComputePolyMod(enc);
    var m := Plus(r, 1);
    hide SymbolAt, Plus, PolyMod, ExpandHRP;
    ret := Zeros(6);
    for i := 0 to 6
      invariant |ret| == 6 && forall j | 0 <= j < i :: ret[j] == SymbolAt(m, j)
    {
      ret := ret[i := SymbolAt(m, i)];
    }
  }

  // ------------------------------------------------------------------ character set

  // CHARSET; values above 31 have no character.
  function CharOf(v: bv8): bv8 {
    match v
    case 0 => 0x71 case 1 => 0x70 case 2 => 0x7a case 3 => 0x72 case 4 => 0x79 case 5 => 0x39
    case 6 => 0x78 case 7 => 0x38 case 8 => 0x67 case 9 => 0x66 case 10 => 0x32 case 11 => 0x74
    case 12 => 0x76 case 13 => 0x64 case 14 => 0x77 case 15 => 0x30 case 16 => 0x73 case 17 => 0x33
    case 18 => 0x6a case 19 => 0x6e case 20 => 0x35 case 21 => 0x34 case 22 => 0x6b case 23 => 0x68
    case 24 => 0x63 case 25 => 0x65 case 26 => 0x36 case 27 => 0x6d case 28 => 0x75 case 29 => 0x61
    case 30 => 0x37 case 31 => 0x6c
    case _ => 0
  }

  // CHARSET_REV, with 255 for the characters that carry no value.
  function RevOf(c: bv8): bv8 {
    if 0x41 <= c <= 0x5A then RevOfUpper(c) else RevOfOther(c)
  }

  function RevOfUpper(c: bv8): bv8 {
    match c
    case 0x41 => 29 case 0x43 => 24 case 0x44 => 13 case 0x45 => 25 case 0x46 => 9 case 0x47 => 8
    case 0x48 => 23 case 0x4a => 18 case 0x4b => 22 case 0x4c => 31 case 0x4d => 27 case 0x4e => 19
    case 0x50 => 1 case 0x51 => 0 case 0x52 => 3 case 0x53 => 16 case 0x54 => 11 case 0x55 => 28
    case 0x56 => 12 case 0x57 => 14 case 0x58 => 6 case 0x59 => 4 case 0x5a => 2
    case _ => 255
  }

  function RevOfOther(c: bv8): bv8 {
    match c
    case 0x30 => 15 case 0x32 => 10 case 0x33 => 17 case 0x34 => 21 case 0x35 => 20 case 0x36 => 26
    case 0x37 => 30 case 0x38 => 7 case 0x39 => 5 case 0x61 => 29 case 0x63 => 24 case 0x64 => 13
    case 0x65 => 25 case 0x66 => 9 case 0x67 => 8 case 0x68 => 23 case 0x6a => 18 case 0x6b => 22
    case 0x6c => 31 case 0x6d => 27 case 0x6e => 19 case 0x70 => 1 case 0x71 => 0 case 0x72 => 3
    case 0x73 => 16 case 0x74 => 11 case 0x75 => 28 case 0x76 => 12 case 0x77 => 14 case 0x78 => 6
    case 0x79 => 4 case 0x7a => 2
    case _ => 255
  }

  function LowerCase(c: bv8): bv8 {
    if 0x41 <= c <= 0x5A then (c - 0x41) + 0x61 else c
  }

  lemma CharsetIsLower(v: bv8)
    requires v < 32
    ensures CharOf(v) != 0x31 && 33 <= CharOf(v) <= 126 && !(0x41 <= CharOf(v) <= 0x5A)
  {
  }

  lemma CharsetInverseLow(v: bv8)
    requires v < 16
    ensures RevOfOther(CharOf(v)) == v
  {
  }

  lemma CharsetInverseHigh(v: bv8)
    requires 16 <= v < 32
    ensures RevOfOther(CharOf(v)) == v
  {
  }

  lemma CharsetInverse(v: bv8)
    requires v < 32
    ensures RevOf(CharOf(v)) == v
  {
    CharsetIsLower(v);
    hide CharOf, RevOfOther, RevOfUpper;
    if v < 16 {
      CharsetInverseLow(v);
    } else {
      CharsetInverseHigh(v);
    }
  }

  lemma UpperReverse(c: bv8)
    ensures RevOfUpper(c) != 255 ==> RevOfUpper(c) < 32 && CharOf(RevOfUpper(c)) == c + 0x20
  {
  }

  lemma OtherReverse(c: bv8)
    ensures RevOfOther(c) != 255 ==> RevOfOther(c) < 32 && CharOf(RevOfOther(c)) == c
  {
  }

  lemma CharsetReverse(c: bv8)
    ensures RevOf(c) != 255 ==> RevOf(c) < 32 && CharOf(RevOf(c)) == LowerCase(c)
  {
    hide CharOf, RevOfOther, RevOfUpper;
    UpperReverse(c);
    OtherReverse(c);
  }

  lemma RevIgnoresCase(c: bv8)
    ensures RevOf(LowerCase(c)) == RevOf(c)
  {
    if 0x41 <= c <= 0x5A {
      assert RevOfOther(c + 0x20) == RevOfUpper(c);
    }
  }
}
