/**
 Encoding and decoding of Bech32 strings (src/bech32.cpp), on top of the checksum.
 */
module Bech32Codec {
  import opened Bits
  import opened Bech32
  import Bch = Bech32Bch

  // -------------------------------------------------- the created checksum verifies

  // The first k symbols of a packed remainder.
  function Top(m: bv32, k: nat): bv32
    requires k <= 6
  {
    match k
    case 0 => m >> 30 case 1 => m >> 25 case 2 => m >> 20 case 3 => m >> 15 case 4 => m >> 10 case 5 => m >> 5
    case 6 => m
  }

  lemma PackBits(x: bv32)
    requires x < 0x4000_0000
    ensures Step(x >> 5, (x & 31) as bv8) == x
  {
    StepShifts(x >> 5, (x & 31) as bv8);
    hide Step;
  }

  lemma TopShifts(m: bv32, k: nat)
    requires k < 6
    ensures Top(m, k) == Top(m, k + 1) >> 5 && SymbolAt(m, k) == (Top(m, k + 1) & 31) as bv8
  {
    match k
    case 0 => case 1 => case 2 => case 3 => case 4 => case 5 =>
  }

  lemma TopBound(m: bv32, k: nat)
    requires k <= 6 && m < 0x4000_0000
    ensures Top(m, k) < 0x4000_0000 && Top(m, 0) == 0 && Top(m, 6) == m
  {
  }

  // A remainder is rebuilt from its symbols.
  lemma {:induction false} FoldTop(m: bv32, k: nat)
    requires m < 0x4000_0000 && k <= 6
    ensures Fold(Top(m, k), Unpacked(m)[k..]) == m
    decreases 6 - k
  {
    hide Step, SymbolAt, Top;
    var s := Unpacked(m);
    TopBound(m, k);
    if k == 6 {
      assert s[6..] == [];
    } else {
      TopShifts(m, k);
      TopBound(m, k + 1);
      PackBits(Top(m, k + 1));
      assert s[k..][0] == SymbolAt(m, k) && s[k..][1..] == s[k + 1..];
      FoldTop(m, k + 1);
    }
  }

  lemma UnpackedFolds(m: bv32)
    requires m < 0x4000_0000
    ensures Fold(0, Unpacked(m)) == m
  {
    hide Fold, Top;
    FoldTop(m, 0);
    TopBound(m, 0);
    assert Unpacked(m)[0..] == Unpacked(m);
  }

  lemma PlusOne(a: bv32)
    requires a < 0x4000_0000
    ensures Plus(a, 1) < 0x4000_0000 && Plus(a, Plus(a, 1)) == 1 && Plus(a, 0) == a && Plus(a, a) == 0
  {
  }

  // Adding a remainder's symbols to six zeroes adds the remainder.
  lemma FixedUp(p: bv32, m: bv32)
    requires m < 0x4000_0000
    ensures Fold(p, Unpacked(m)) == Plus(Fold(p, Zeros(6)), m)
  {
    hide Fold, Plus, SymbolAt;
    FoldLinear(p, 0, Zeros(6), Unpacked(m));
    UnpackedFolds(m);
    PlusZero(p);
    assert Xor(Zeros(6), Unpacked(m)) == Unpacked(m) by {
      forall i | 0 <= i < 6
        ensures Xor(Zeros(6), Unpacked(m))[i] == Unpacked(m)[i]
      {
        XorZero(Unpacked(m)[i]);
      }
    }
  }

  lemma XorZero(v: bv8)
    ensures 0 ^ v == v
  {
  }

  lemma ChecksumVerifies(hrp: Data, values: Data)
    requires Symbols(values)
    ensures VerifyChecksum(hrp, values + CreateChecksum(hrp, values))
  {
    hide Fold, Plus, ExpandHRP, Unpacked;
    var e := ExpandHRP(hrp) + values;
    var z := Fold(1, e + Zeros(6));
    var p := Fold(1, e);
    FoldAppend(1, e, Zeros(6));
    FoldBound(p, Zeros(6));
    PlusOne(z);
    FixedUp(p, Plus(z, 1));
    FoldAppend(1, e, Unpacked(Plus(z, 1)));
    assert ExpandHRP(hrp) + (values + CreateChecksum(hrp, values)) == e + Unpacked(Plus(z, 1));
  }

  // ------------------------------------------------------------- errors are detected

  lemma XorOfSymbols(x: Data, y: Data)
    requires |x| == |y| && Symbols(x) && Symbols(y)
    ensures Symbols(Xor(x, y))
  {
    forall i | 0 <= i < |x|
      ensures Xor(x, y)[i] < 32
    {
      XorSmall(x[i], y[i]);
    }
  }

  lemma XorSmall(a: bv8, b: bv8)
    ensures a < 32 && b < 32 ==> a ^ b < 32
    ensures a ^ b == 0 <==> a == b
  {
  }

  // A change that leaves a remainder of its own cannot keep the checksum right.
  lemma ChangeIsDetected(hrp: Data, x: Data, y: Data)
    requires |x| == |y| && Fold(0, Xor(x, y)) != 0 && VerifyChecksum(hrp, x)
    ensures !VerifyChecksum(hrp, y)
  {
    hide Fold, Plus, ExpandHRP;
    var c := Fold(1, ExpandHRP(hrp));
    FoldAppend(1, ExpandHRP(hrp), x);
    FoldAppend(1, ExpandHRP(hrp), y);
    FoldDifference(c, x, y);
    PlusOne(1);
  }

  lemma XorShows(x: Data, y: Data)
    requires |x| == |y|
    ensures forall i | 0 <= i < |x| :: Xor(x, y)[i] == 0 <==> x[i] == y[i]
  {
    forall i | 0 <= i < |x|
      ensures Xor(x, y)[i] == 0 <==> x[i] == y[i]
    {
      XorSmall(x[i], y[i]);
    }
  }

  // Changing up to six consecutive symbols of a message that verifies gives one that does not,
  // however long it is.
  lemma BurstIsDetected(hrp: Data, x: Data, y: Data, p: nat)
    requires |x| == |y| && Symbols(x) && Symbols(y) && Agree(x, y, p) && x != y
    requires VerifyChecksum(hrp, x)
    ensures !VerifyChecksum(hrp, y)
  {
    hide Fold, ExpandHRP, VerifyChecksum;
    var d := Xor(x, y);
    var k :| 0 <= k < |x| && x[k] != y[k];
    XorShows(x, y);
    assert d[k] != 0;
    XorOfSymbols(x, y);
    WindowFold(d, p);
    ChangeIsDetected(hrp, x, y);
  }

  // So does changing up to three symbols anywhere within a window of 1023.
  lemma ThreeErrorsAreDetected(hrp: Data, x: Data, y: Data, p: nat, q: nat, r: nat)
    requires |x| == |y| && Symbols(x) && Symbols(y) && x != y && p < q < r < |x| && r - p < 1023
    requires forall i | 0 <= i < |x| && i != p && i != q && i != r :: x[i] == y[i]
    requires VerifyChecksum(hrp, x)
    ensures !VerifyChecksum(hrp, y)
  {
    hide Fold, ExpandHRP, VerifyChecksum;
    var d := Xor(x, y);
    var k :| 0 <= k < |x| && x[k] != y[k];
    XorShows(x, y);
    XorOfSymbols(x, y);
    if Fold(0, d) == 0 {
      Bch.ThreeFold(d, p, q, r);
    }
    ChangeIsDetected(hrp, x, y);
  }

  // ---------------------------------------------------------------- encoding

  const SEPARATOR: bv8 := 0x31

  function Chars(v: Data): (r: Data)
    ensures |r| == |v| && forall i | 0 <= i < |v| :: r[i] == CharOf(v[i])
  {
    seq(|v|, i requires 0 <= i < |v| => CharOf(v[i]))
  }

  function Revs(s: Data): (r: Data)
    ensures |r| == |s| && forall i | 0 <= i < |s| :: r[i] == RevOf(s[i])
  {
    seq(|s|, i requires 0 <= i < |s| => RevOf(s[i]))
  }

  function Lowered(s: Data): (r: Data)
    ensures |r| == |s| && forall i | 0 <= i < |s| :: r[i] == LowerCase(s[i])
  {
    seq(|s|, i requires 0 <= i < |s| => LowerCase(s[i]))
  }

  // A value of 32 or more has no character: the result is then empty.
  function Encode(hrp: Data, values: Data): Data {
    var combined := values + CreateChecksum(hrp, values);
    if Symbols(combined) then hrp + [SEPARATOR] + Chars(combined) else []
  }

  method ComputeEncode(hrp: Data, values: Data) returns (ret: Data)
    ensures ret == Encode(hrp, values)
  {
    var checksum := ComputeChecksum(hrp, values);
    var combined := values + checksum;
    ret := hrp + [SEPARATOR];
    hide CharOf, CreateChecksum;
    for i := 0 to |combined|
      invariant forall j | 0 <= j < i :: combined[j] < 32
      invariant ret == hrp + [SEPARATOR] + Chars(combined[..i])
    {
      var c := combined[i];
      if c >= 32 {
        return [];
      }
      ret := ret + [CharOf(c)];
      assert Chars(combined[..i + 1]) == Chars(combined[..i]) + [CharOf(c)];
    }
    assert combined[..|combined|] == combined;
  }

  // ------------------------------------------------------- a fixed point of BIP 173

  lemma FoldNext(c: bv32, v: Data)
    requires v != []
    ensures Fold(c, v) == Fold(Step(c, v[0]), v[1..])
  {
  }

  lemma StepsOfA()
    ensures Step(1, 3) == 0x23 && Step(0x23, 0) == 0x460 && Step(0x460, 1) == 0x8c01
    ensures Step(0x8c01, 0) == 0x118020 && Step(0x118020, 0) == 0x2300400
  {
  }

  lemma LaterStepsOfA()
    ensures Step(0x2300400, 0) == 0x3d6ad7b2 && Step(0x3d6ad7b2, 0) == 0x2fd30b9
    ensures Step(0x2fd30b9, 0) == 0x24cc4092 && Step(0x24cc4092, 0) == 0x15ccfe9e
  {
  }

  lemma RemainderOfA()
    ensures PolyMod([3, 0, 1, 0, 0, 0, 0, 0, 0]) == 0x15ccfe9e
  {
    StepsOfA();
    LaterStepsOfA();
    hide Step, Fold;
    FoldNext(1, [3, 0, 1, 0, 0, 0, 0, 0, 0]);
    FoldNext(0x23, [0, 1, 0, 0, 0, 0, 0, 0]);
    FoldNext(0x460, [1, 0, 0, 0, 0, 0, 0]);
    FoldNext(0x8c01, [0, 0, 0, 0, 0, 0]);
    FoldNext(0x118020, [0, 0, 0, 0, 0]);
    FoldNext(0x2300400, [0, 0, 0, 0]);
    FoldNext(0x3d6ad7b2, [0, 0, 0]);
    FoldNext(0x2fd30b9, [0, 0]);
    FoldNext(0x24cc4092, [0]);
    FoldNothing(0x15ccfe9e);
  }

  lemma FoldNothing(c: bv32)
    ensures Fold(c, []) == c
  {
  }

  lemma SymbolsOfA()
    ensures Unpacked(Plus(0x15ccfe9e, 1)) == [10, 28, 25, 31, 20, 31]
  {
  }

  lemma ExpandedA()
    ensures ExpandHRP([0x61]) == [3, 0, 1]
  {
  }

  lemma ChecksumOfA()
    ensures CreateChecksum([0x61], []) == [10, 28, 25, 31, 20, 31]
  {
    ExpandedA();
    RemainderOfA();
    SymbolsOfA();
    hide PolyMod, Unpacked, ExpandHRP, Plus;
    assert [3, 0, 1] + [] + Zeros(6) == [3, 0, 1, 0, 0, 0, 0, 0, 0];
  }

  lemma CharsOfA()
    ensures CharOf(10) == 0x32 && CharOf(28) == 0x75 && CharOf(25) == 0x65 && CharOf(31) == 0x6c && CharOf(20) == 0x35
  {
  }

  // The bytes of a string of characters.
  predicate Spells(d: Data, s: string) {
    |d| == |s| && forall i | 0 <= i < |s| :: d[i] as int == s[i] as int
  }

  // The prefix "a" and no data.
  lemma EncodeA()
    ensures Spells([0x61], "a") && Spells(Encode([0x61], []), "a12uel5l")
  {
    ChecksumOfA();
    CharsOfA();
    hide CreateChecksum, CharOf;
    assert Encode([0x61], []) == [0x61, 0x31, 0x32, 0x75, 0x65, 0x6c, 0x35, 0x6c];
  }

  // The character of every symbol, in order.
  lemma Charset()
    ensures forall v: bv8 | v < 32 :: CharOf(v) as int == "qpzry9x8gf2tvdw0s3jn54khce6mua7l"[v as int] as int
  {
  }

  // ---------------------------------------------------------------- decoding

  predicate IsPrintable(c: bv8) { 33 <= c <= 126 }
  predicate IsLower(c: bv8) { 0x61 <= c <= 0x7A }
  predicate IsUpper(c: bv8) { 0x41 <= c <= 0x5A }

  predicate Printable(s: Data) { forall i | 0 <= i < |s| :: IsPrintable(s[i]) }
  predicate HasLower(s: Data) { exists i | 0 <= i < |s| :: IsLower(s[i]) }
  predicate HasUpper(s: Data) { exists i | 0 <= i < |s| :: IsUpper(s[i]) }
  predicate Mixed(s: Data) { HasLower(s) && HasUpper(s) }

  // The last separator, or -1.
  function LastSeparator(s: Data): (pos: int)
    ensures -1 <= pos < |s|
    ensures pos >= 0 ==> s[pos] == SEPARATOR
    ensures forall i | pos < i < |s| :: s[i] != SEPARATOR
  {
    if s == [] then -1
    else if s[|s| - 1] == SEPARATOR then |s| - 1
    else LastSeparator(s[..|s| - 1])
  }

  predicate Readable(values: Data) { forall i | 0 <= i < |values| :: values[i] != 255 }

  // A pair of empty sequences stands for failure.
  function Decode(str: Data): (Data, Data) {
    var pos := LastSeparator(str);
    if !Printable(str) || Mixed(str) || |str| > 1023 || pos <= 0 || pos + 7 > |str| then ([], [])
    else
      var values := Revs(str[pos + 1..]);
      var hrp := Lowered(str[..pos]);
      if Readable(values) && VerifyChecksum(hrp, values) then (hrp, values[..|values| - 6]) else ([], [])
  }

  method CheckCase(str: Data) returns (ok: bool)
    ensures ok <==> Printable(str) && !Mixed(str)
  {
    var lower, upper := false, false;
    for i := 0 to |str|
      invariant forall j | 0 <= j < i :: IsPrintable(str[j])
      invariant lower <==> exists j | 0 <= j < i :: IsLower(str[j])
      invariant upper <==> exists j | 0 <= j < i :: IsUpper(str[j])
    {
      var c := str[i];
      if c < 33 || c > 126 {
        assert !IsPrintable(str[i]);
        return false;
      }
      if 0x61 <= c <= 0x7A {
        assert IsLower(str[i]);
        lower := true;
      }
      if 0x41 <= c <= 0x5A {
        assert IsUpper(str[i]);
        upper := true;
      }
    }
    return !(lower && upper);
  }

  method ComputeDecode(str: Data) returns (hrp: Data, data: Data)
    ensures (hrp, data) == Decode(str)
  {
    hide RevOf, LowerCase, PolyMod, ExpandHRP;
    var ok := CheckCase(str);
    if !ok {
      return [], [];
    }
    hide Mixed, Printable;
    var pos := LastSeparator(str);
    if |str| > 1023 || pos == -1 || pos == 0 || pos + 7 > |str| {
      return [], [];
    }
    var values := [];
    ghost var tail := str[pos + 1..];
    for i := 0 to |str| - 1 - pos
      invariant values == Revs(tail[..i]) && Readable(values)
    {
      var rev := RevOf(str[i + pos + 1]);
      assert Revs(tail[..i + 1]) == Revs(tail[..i]) + [rev];
      if rev == 255 {
        assert Revs(tail)[i] == 255;
        return [], [];
      }
      values := values + [rev];
    }
    assert tail[..|tail|] == tail;
    var name := [];
    for i := 0 to pos
      invariant name == Lowered(str[..i])
    {
      assert Lowered(str[..i + 1]) == Lowered(str[..i]) + [LowerCase(str[i])];
      name := name + [LowerCase(str[i])];
    }
    var expanded := ComputeExpandHRP(name);
    var r := ComputePolyMod(expanded + values);
    if r != 1 {
      return [], [];
    }
    return name, values[..|values| - 6];
  }

  // ---------------------------------------------------------------- round trips

  lemma LastSeparatorIs(s: Data, pos: nat)
    requires pos < |s| && s[pos] == SEPARATOR && forall i | pos < i < |s| :: s[i] != SEPARATOR
    ensures LastSeparator(s) == pos
  {
  }

  lemma RevsOfChars(v: Data)
    requires Symbols(v)
    ensures Revs(Chars(v)) == v && Readable(v)
    ensures forall i | 0 <= i < |v| :: Chars(v)[i] != SEPARATOR && IsPrintable(Chars(v)[i]) && !IsUpper(Chars(v)[i])
  {
    hide RevOf, CharOf;
    forall i | 0 <= i < |v|
      ensures Revs(Chars(v))[i] == v[i] && v[i] != 255
      ensures Chars(v)[i] != SEPARATOR && IsPrintable(Chars(v)[i]) && !IsUpper(Chars(v)[i])
    {
      CharsetIsLower(v[i]);
      CharsetInverse(v[i]);
    }
  }

  lemma LoweredSame(s: Data)
    requires !HasUpper(s)
    ensures Lowered(s) == s
  {
    forall i | 0 <= i < |s|
      ensures Lowered(s)[i] == s[i]
    {
      assert !IsUpper(s[i]);
    }
  }

  // The shape of an encoded string.
  lemma EncodedShape(hrp: Data, combined: Data, str: Data)
    requires Symbols(combined) && str == hrp + [SEPARATOR] + Chars(combined)
    requires Printable(hrp) && !HasUpper(hrp)
    ensures Printable(str) && !HasUpper(str) && LastSeparator(str) == |hrp|
    ensures str[..|hrp|] == hrp && str[|hrp| + 1..] == Chars(combined)
  {
    RevsOfChars(combined);
    hide CharOf, RevOf;
    forall i | 0 <= i < |str|
      ensures IsPrintable(str[i]) && !IsUpper(str[i])
    {
      if i < |hrp| {
        assert IsPrintable(hrp[i]) && !IsUpper(hrp[i]);
      } else if i > |hrp| {
        assert str[i] == Chars(combined)[i - |hrp| - 1];
      }
    }
    forall i | |hrp| < i < |str|
      ensures str[i] != SEPARATOR
    {
      assert str[i] == Chars(combined)[i - |hrp| - 1];
    }
    LastSeparatorIs(str, |hrp|);
  }

  // Decoding an encoded message gives it back.
  lemma RoundTrip(hrp: Data, v: Data)
    requires hrp != [] && Printable(hrp) && !HasUpper(hrp) && Symbols(v)
    requires |hrp| + |v| + 7 <= 1023
    ensures Decode(Encode(hrp, v)) == (hrp, v)
  {
    hide CharOf, RevOf, LowerCase, PolyMod, ExpandHRP, CreateChecksum;
    var combined := v + CreateChecksum(hrp, v);
    var str := Encode(hrp, v);
    EncodedShape(hrp, combined, str);
    RevsOfChars(combined);
    LoweredSame(hrp);
    ChecksumVerifies(hrp, v);
    hide VerifyChecksum, Printable, HasUpper, HasLower, Symbols;
    assert combined[..|combined| - 6] == v;
  }

  lemma CharsOfRevs(s: Data)
    requires Readable(Revs(s))
    ensures Chars(Revs(s)) == Lowered(s) && Symbols(Revs(s))
  {
    hide RevOf, CharOf, LowerCase;
    forall i | 0 <= i < |s|
      ensures Chars(Revs(s))[i] == Lowered(s)[i] && Revs(s)[i] < 32
    {
      assert Revs(s)[i] != 255;
      CharsetReverse(s[i]);
    }
  }

  // The last six symbols of a message that verifies are its checksum.
  lemma ChecksumIsUnique(hrp: Data, v: Data, sum: Data)
    requires Symbols(v) && Symbols(sum) && |sum| == 6 && VerifyChecksum(hrp, v + sum)
    ensures sum == CreateChecksum(hrp, v)
  {
    hide VerifyChecksum, CreateChecksum;
    var x, y := v + sum, v + CreateChecksum(hrp, v);
    ChecksumVerifies(hrp, v);
    if x != y {
      BurstIsDetected(hrp, x, y, |v|);
    }
    assert x[|v|..] == sum && y[|v|..] == CreateChecksum(hrp, v);
  }

  // Encoding what was decoded gives the string back in lower case.
  lemma DecodedEncodes(str: Data)
    requires Decode(str).0 != []
    ensures Encode(Decode(str).0, Decode(str).1) == Lowered(str)
  {
    hide CharOf, RevOf, LowerCase, PolyMod, ExpandHRP, CreateChecksum, VerifyChecksum, Printable, Mixed;
    var pos := LastSeparator(str);
    var tail := str[pos + 1..];
    var values := Revs(tail);
    var hrp, v, sum := Lowered(str[..pos]), values[..|values| - 6], values[|values| - 6..];
    CharsOfRevs(tail);
    SplitSymbols(values, |values| - 6);
    ChecksumIsUnique(hrp, v, sum);
    LoweredSplits(str, pos);
  }

  lemma SplitSymbols(s: Data, n: nat)
    requires n <= |s| && Symbols(s)
    ensures s == s[..n] + s[n..] && Symbols(s[..n]) && Symbols(s[n..])
  {
  }

  lemma LoweredSplits(str: Data, pos: nat)
    requires pos < |str| && str[pos] == SEPARATOR
    ensures Lowered(str) == Lowered(str[..pos]) + [SEPARATOR] + Lowered(str[pos + 1..])
  {
    assert LowerCase(SEPARATOR) == SEPARATOR;
    hide LowerCase;
    assert str == str[..pos] + [SEPARATOR] + str[pos + 1..];
  }

  lemma LowerFacts(c: bv8)
    ensures LowerCase(LowerCase(c)) == LowerCase(c) && !IsUpper(LowerCase(c))
    ensures IsPrintable(LowerCase(c)) <==> IsPrintable(c)
    ensures LowerCase(c) == SEPARATOR <==> c == SEPARATOR
  {
  }

  // Decoding looks at a string that is not of mixed case in lower case.
  lemma DecodeIgnoresCase(str: Data)
    requires !Mixed(str)
    ensures Decode(Lowered(str)) == Decode(str)
  {
    hide CharOf, RevOf, LowerCase, PolyMod, ExpandHRP;
    var low := Lowered(str);
    forall i | 0 <= i < |str|
      ensures (IsPrintable(low[i]) <==> IsPrintable(str[i])) && !IsUpper(low[i])
      ensures low[i] == SEPARATOR <==> str[i] == SEPARATOR
      ensures RevOf(low[i]) == RevOf(str[i]) && LowerCase(low[i]) == low[i]
    {
      LowerFacts(str[i]);
      RevIgnoresCase(str[i]);
    }
    PrintableSame(low, str);
    var pos := LastSeparator(str);
    if pos >= 0 {
      LastSeparatorIs(low, pos);
      assert Revs(low[pos + 1..]) == Revs(str[pos + 1..]);
      assert Lowered(low[..pos]) == Lowered(str[..pos]);
    } else {
      assert LastSeparator(low) < 0;
    }
  }

  lemma PrintableSame(a: Data, b: Data)
    requires |a| == |b| && forall i | 0 <= i < |a| :: IsPrintable(a[i]) <==> IsPrintable(b[i])
    ensures Printable(a) <==> Printable(b)
  {
  }

  // Exactly which strings decode to a given message.
  lemma DecodesIff(str: Data, hrp: Data, v: Data)
    requires hrp != []
    ensures
      Decode(str) == (hrp, v)
        <==>
          && Printable(str) && !Mixed(str) && |str| <= 1023
          && Symbols(v) && !HasUpper(hrp) && Encode(hrp, v) == Lowered(str)
  {
    if Decode(str) == (hrp, v) {
      DecodedEncodes(str);
      DecodedParts(str);
    } else if Printable(str) && !Mixed(str) && |str| <= 1023 && Symbols(v) && !HasUpper(hrp) && Encode(hrp, v) == Lowered(str) {
      EncodedParts(str, hrp, v);
      RoundTrip(hrp, v);
      DecodeIgnoresCase(str);
    }
  }

  lemma DecodedParts(str: Data)
    requires Decode(str).0 != []
    ensures Symbols(Decode(str).1) && !HasUpper(Decode(str).0)
  {
    hide RevOf, LowerCase, PolyMod, ExpandHRP;
    var pos := LastSeparator(str);
    CharsOfRevs(str[pos + 1..]);
    forall i | 0 <= i < pos
      ensures !IsUpper(Lowered(str[..pos])[i])
    {
      LowerFacts(str[i]);
    }
  }

  lemma EncodedParts(str: Data, hrp: Data, v: Data)
    requires Printable(str) && |str| <= 1023 && Symbols(v) && Encode(hrp, v) == Lowered(str)
    ensures Printable(hrp) && |hrp| + |v| + 7 <= 1023
  {
    hide CharOf, LowerCase, PolyMod, ExpandHRP, CreateChecksum;
    var e := Encode(hrp, v);
    assert |e| == |str|;
    forall i | 0 <= i < |hrp|
      ensures IsPrintable(hrp[i])
    {
      assert hrp[i] == e[i] == LowerCase(str[i]) && IsPrintable(str[i]);
      LowerFacts(str[i]);
    }
  }
}
