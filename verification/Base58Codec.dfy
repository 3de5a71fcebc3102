/**
 The loops of src/base58.cpp: a digit buffer is multiplied and added to in place, and the
 buffers the source allocates are always long enough.
 */
module Base58Codec {
  import opened Arith
  import opened Options
  import opened Radix
  import opened Base58

  // ------------------------------------------------------------- buffer estimates

  lemma PowTable58()
    ensures Pow(58, 1) == 58 && Pow(58, 2) == 3364 && Pow(58, 3) == 195112 && Pow(58, 4) == 11316496
    ensures Pow(58, 5) == 656356768 && Pow(58, 6) == 38068692544 && Pow(58, 7) == 2207984167552
    ensures Pow(58, 8) == 128063081718016
  {
  }

  lemma PowTable256()
    ensures Pow(256, 1) == 0x100 && Pow(256, 2) == 0x1_0000 && Pow(256, 3) == 0x100_0000
    ensures Pow(256, 4) == 0x1_0000_0000 && Pow(256, 5) == 0x100_0000_0000
    ensures Pow(256, 6) == 0x1_0000_0000_0000 && Pow(256, 7) == 0x100_0000_0000_0000
    ensures Pow(256, 8) == 0x1_0000_0000_0000_0000
  {
  }

  // The base-58 digits that r < 8 bytes need.
  function DigitsFor(r: nat): nat
    requires r < 8
  {
    match r
    case 0 => 0 case 1 => 2 case 2 => 3 case 3 => 5 case 4 => 6 case 5 => 7 case 6 => 9 case 7 => 10
  }

  lemma FewBytes(r: nat)
    requires r < 8
    ensures Pow(256, r) <= Pow(58, DigitsFor(r)) && DigitsFor(r) <= 138 * r / 100 + 1
  {
    PowTable58();
    PowTable256();
    PowAdd(58, 8, 1);
    PowAdd(58, 8, 2);
  }

  lemma EightBytes()
    ensures Pow(256, 8) <= Pow(58, 11)
  {
    PowTable58();
    PowTable256();
    PowAdd(58, 8, 3);
  }

  // a^m <= b^n carries over to multiples.
  lemma PowScaled(a: nat, m: nat, b: nat, n: nat, q: nat)
    requires Pow(a, m) <= Pow(b, n)
    ensures Pow(a, m * q) <= Pow(b, n * q)
  {
    PowOfSmaller(Pow(a, m), Pow(b, n), q);
    PowMul(a, m, q);
    PowMul(b, n, q);
  }

  lemma PowSplit(a: nat, m: nat, s: nat, b: nat, n: nat, t: nat, q: nat)
    requires Pow(a, m) <= Pow(b, n) && Pow(a, s) <= Pow(b, t)
    ensures Pow(a, m * q + s) <= Pow(b, n * q + t)
  {
    PowScaled(a, m, b, n, q);
    PowAdd(a, m * q, s);
    PowAdd(b, n * q, t);
    MulMonotone(Pow(a, m * q), Pow(b, n * q), Pow(a, s), Pow(b, t));
  }

  lemma EncodeEstimate(q: nat, r: nat)
    requires r < 8
    ensures 11 * q + DigitsFor(r) <= (8 * q + r) * 138 / 100 + 1
  {
  }

  // 138 digits for 100 bytes, and one more, are enough.
  lemma EncodeFits(n: nat)
    ensures Pow(256, n) <= Pow(58, n * 138 / 100 + 1)
  {
    hide Pow, DigitsFor;
    var q, r := n / 8, n % 8;
    assert n == 8 * q + r;
    EightBytes();
    FewBytes(r);
    PowSplit(256, 8, r, 58, 11, DigitsFor(r), q);
    EncodeEstimate(q, r);
    PowGrows(58, 11 * q + DigitsFor(r), n * 138 / 100 + 1);
  }

  // The bytes that t < 15 base-58 digits need.
  function BytesFor(t: nat): nat
    requires t < 15
  {
    match t
    case 0 => 0 case 1 => 1 case 2 => 2 case 3 => 3 case 4 => 3 case 5 => 4 case 6 => 5 case 7 => 6
    case 8 => 6 case 9 => 7 case 10 => 8 case 11 => 9 case 12 => 9 case 13 => 10 case 14 => 11
  }

  lemma FewDigits(t: nat)
    requires t < 15
    ensures Pow(58, t) <= Pow(256, BytesFor(t))
  {
    PowTable58();
    PowTable256();
    if t > 8 {
      PowAdd(58, 8, t - 8);
      if t > 9 {
        PowAdd(256, 8, BytesFor(t) - 8);
      }
    }
  }

  lemma FifteenDigits()
    ensures Pow(58, 15) <= Pow(256, 11)
  {
    PowTable58();
    PowTable256();
    PowAdd(58, 8, 7);
    PowAdd(256, 8, 3);
  }

  lemma SeventyOneDigits()
    ensures Pow(58, 71) <= Pow(256, 52)
  {
    PowTable58();
    PowTable256();
    PowAdd(58, 8, 8);
    PowAdd(58, 16, 16);
    PowAdd(58, 32, 32);
    PowAdd(58, 64, 7);
    PowAdd(256, 8, 8);
    PowAdd(256, 16, 16);
    PowAdd(256, 32, 16);
    PowAdd(256, 48, 4);
  }

  lemma SomeDigitsEstimate(a: nat, t: nat)
    requires a <= 4 && t < 15
    ensures 11 * a + BytesFor(t) <= (15 * a + t) * 733 / 1000 + 1
  {
  }

  // Fewer than 71 digits.
  lemma SomeDigits(s: nat)
    requires s < 71
    ensures Pow(58, s) <= Pow(256, s * 733 / 1000 + 1)
  {
    hide Pow, BytesFor;
    var a, t := s / 15, s % 15;
    assert s == 15 * a + t;
    FifteenDigits();
    FewDigits(t);
    PowSplit(58, 15, t, 256, 11, BytesFor(t), a);
    SomeDigitsEstimate(a, t);
    PowGrows(256, 11 * a + BytesFor(t), s * 733 / 1000 + 1);
  }

  lemma DecodeEstimate(q: nat, s: nat)
    ensures 52 * q + (s * 733 / 1000 + 1) <= (71 * q + s) * 733 / 1000 + 1
  {
  }

  // 733 bytes for 1000 digits, and one more, are enough.
  lemma DecodeFits(n: nat)
    ensures Pow(58, n) <= Pow(256, n * 733 / 1000 + 1)
  {
    hide Pow;
    var q, s := n / 71, n % 71;
    assert n == 71 * q + s;
    SeventyOneDigits();
    SomeDigits(s);
    PowSplit(58, 71, s, 256, 52, s * 733 / 1000 + 1, q);
    DecodeEstimate(q, s);
    PowGrows(256, 52 * q + (s * 733 / 1000 + 1), n * 733 / 1000 + 1);
  }

  // ------------------------------------------------------------- the digit buffer

  lemma ValCons(b: nat, x: nat, d: seq<nat>)
    ensures Val(b, [x] + d) == x * Pow(b, |d|) + Val(b, d)
  {
    ValAppend(b, [x], d);
    assert [x][..0] == [];
    assert Val(b, [x]) == x;
  }

  function Accumulated(carry: nat, mult: nat, x: nat): nat { carry + mult * x }

  // One digit is replaced and its excess carried on.
  lemma CarryStep(b: nat, mult: nat, p: nat, x: nat, carry: nat, low: nat, lowOld: nat, digit: nat, y: nat, next: nat)
    requires low + carry * p == lowOld * mult + digit
    requires carry + mult * x == next * b + y
    ensures (y * p + low) + next * (p * b) == (x * p + lowOld) * mult + digit
  {
    assert (carry + mult * x) * p == carry * p + (x * p) * mult;
    assert (next * b + y) * p == next * (p * b) + y * p;
    Distribute(x * p, lowOld, mult);
  }

  // The low end of the buffer, i digits long.
  ghost function Low(buf: seq<nat>, i: nat): seq<nat>
    requires i <= |buf|
  {
    buf[|buf| - i..]
  }

  // What the digits replaced so far and the carry make up.
  ghost predicate Carried(base: nat, mult: nat, was: seq<nat>, now: seq<nat>, i: nat, carry: nat, digit: nat) {
    && |now| == |was| && i <= |was| && now[..|was| - i] == was[..|was| - i]
    && Val(base, Low(now, i)) + carry * Pow(base, i) == Val(base, Low(was, i)) * mult + digit
  }

  lemma CarriedNext(base: nat, mult: nat, was: seq<nat>, now: seq<nat>, i: nat, carry: nat, digit: nat)
    requires base >= 2 && i < |was| && Carried(base, mult, was, now, i, carry, digit)
    ensures
      var k := |was| - 1 - i;
      var c := Accumulated(carry, mult, now[k]);
      Carried(base, mult, was, now[k := c % base], i + 1, c / base, digit)
  {
    var k := |was| - 1 - i;
    var x := was[k];
    assert now[..|was| - i][k] == was[..|was| - i][k];
    var c := carry + mult * x;
    var next := now[k := c % base];
    assert Low(next, i + 1) == [c % base] + Low(now, i);
    assert Low(was, i + 1) == [x] + Low(was, i);
    ValCons(base, c % base, Low(now, i));
    ValCons(base, x, Low(was, i));
    DivMod(c, base);
    assert next[..k] == was[..k] by {
      assert now[..k] == now[..|was| - i][..k];
      assert was[..k] == was[..|was| - i][..k];
    }
    CarryStep(base, mult, Pow(base, i), x, carry, Val(base, Low(now, i)), Val(base, Low(was, i)), digit, c % base, c / base);
  }

  lemma LowIsAll(base: nat, was: seq<nat>, now: seq<nat>, i: nat)
    requires |now| == |was| && i <= |was| && now[..|was| - i] == was[..|was| - i]
    requires forall j | 0 <= j < |was| - i :: was[j] == 0
    ensures Val(base, Low(now, i)) == Val(base, now) && Val(base, Low(was, i)) == Val(base, was)
  {
    hide Val;
    ValSkip(base, was, |was| - i);
    forall j | 0 <= j < |was| - i
      ensures now[j] == 0
    {
      assert now[..|was| - i][j] == was[..|was| - i][j];
    }
    ValSkip(base, now, |was| - i);
  }

  // The loop stops with nothing carried: either by its own condition or because the result fits.
  lemma CarriedEnd(base: nat, mult: nat, was: seq<nat>, now: seq<nat>, i: nat, carry: nat, digit: nat)
    requires base >= 2 && Carried(base, mult, was, now, i, carry, digit)
    requires forall j | 0 <= j < |was| - i :: was[j] == 0
    requires carry == 0 || i == |was|
    requires Val(base, was) * mult + digit < Pow(base, |was|)
    ensures carry == 0 && Val(base, now) == Val(base, was) * mult + digit
  {
    hide Val, Pow, Low;
    LowIsAll(base, was, now, i);
    if carry > 0 {
      MulMonotone(1, carry, Pow(base, i), Pow(base, i));
    }
  }

  // buffer := buffer * mult + digit, in place.
  method MulAdd(buf: array<nat>, base: nat, mult: nat, digit: nat, length: nat) returns (newLength: nat)
    requires base >= 2 && length <= buf.Length && DigitsOk(base, buf[..])
    requires forall j | 0 <= j < buf.Length - length :: buf[j] == 0
    requires Val(base, buf[..]) * mult + digit < Pow(base, buf.Length)
    modifies buf
    ensures DigitsOk(base, buf[..]) && Val(base, buf[..]) == Val(base, old(buf[..])) * mult + digit
    ensures newLength <= buf.Length && forall j | 0 <= j < buf.Length - newLength :: buf[j] == 0
  {
    ghost var was := buf[..];
    var carry: nat, i: nat := digit, 0;
    assert Carried(base, mult, was, buf[..], 0, carry, digit) by {
      assert Low(was, 0) == [];
    }
    hide Carried, Val, Pow, Accumulated;
    while (carry != 0 || i < length) && i < buf.Length
      invariant i <= buf.Length
      invariant Carried(base, mult, was, buf[..], i, carry, digit)
      invariant DigitsOk(base, buf[..])
      invariant forall j | 0 <= j < buf.Length - i :: buf[j] == was[j]
      decreases buf.Length - i
    {
      ghost var now := buf[..];
      var k := buf.Length - 1 - i;
      CarriedNext(base, mult, was, now, i, carry, digit);
      carry := Accumulated(carry, mult, buf[k]);
      DivMod(carry, base);
      var y: nat := carry % base;
      buf[k] := y;
      assert buf[..] == now[k := y];
      carry := carry / base;
      i := i + 1;
    }
    CarriedEnd(base, mult, was, buf[..], i, carry, digit);
    assert carry == 0;
    newLength := i;
  }

  // The numeral that a buffer holds, without its leading zeroes.
  method SkipZeros(buf: array<nat>, base: nat, length: nat) returns (it: nat)
    requires base >= 2 && length <= buf.Length && DigitsOk(base, buf[..])
    requires forall j | 0 <= j < buf.Length - length :: buf[j] == 0
    ensures it <= buf.Length && buf[it..] == Numeral(base, Val(base, buf[..]))
  {
    it := buf.Length - length;
    while it < buf.Length && buf[it] == 0
      invariant it <= buf.Length && forall j | 0 <= j < it :: buf[j] == 0
    {
      it := it + 1;
    }
    ValSkip(base, buf[..], it);
    assert buf[..][it..] == buf[it..];
    NumeralOfVal(base, buf[it..]);
  }

  // ------------------------------------------------------------- encode and decode

  lemma StepFits(base: nat, mult: nat, d: seq<nat>, k: nat, size: nat)
    requires mult > 0 && DigitsOk(mult, d) && k < |d| && Pow(mult, |d|) <= Pow(base, size)
    ensures Val(mult, d[..k + 1]) == Val(mult, d[..k]) * mult + d[k] < Pow(base, size)
  {
    assert d[..k + 1] == d[..k] + [d[k]];
    ValSnoc(mult, d[..k], d[k]);
    ValBound(mult, d[..k + 1]);
    PowGrows(mult, k + 1, |d|);
  }

  // A numeral in base `mult` is converted to base `base` digit by digit.
  method Convert(d: seq<nat>, mult: nat, base: nat, size: nat) returns (r: seq<nat>)
    requires mult > 0 && base >= 2 && DigitsOk(mult, d) && Pow(mult, |d|) <= Pow(base, size)
    ensures r == Numeral(base, Val(mult, d))
  {
    var buf := new nat[size](_ => 0);
    var length: nat := 0;
    ValZeros(base, buf[..]);
    hide Pow, Val;
    for k := 0 to |d|
      invariant length <= buf.Length && DigitsOk(base, buf[..])
      invariant forall j | 0 <= j < buf.Length - length :: buf[j] == 0
      invariant Val(base, buf[..]) == Val(mult, d[..k])
    {
      StepFits(base, mult, d, k, size);
      length := MulAdd(buf, base, mult, d[k], length);
    }
    assert d[..|d|] == d;
    var it := SkipZeros(buf, base, length);
    r := buf[it..];
  }

  lemma TextOfZeros(z: nat, d: seq<nat>)
    requires DigitsOk(58, d)
    ensures DigitsOk(58, Zeros(z) + d) && Text(Zeros(z) + d) == seq(z, i => '1') + Text(d)
  {
  }

  method CountZeros(x: seq<nat>) returns (zeroes: nat)
    ensures zeroes == LeadingZeros(x)
  {
    zeroes := 0;
    while zeroes < |x| && x[zeroes] == 0
      invariant zeroes <= |x| && forall j | 0 <= j < zeroes :: x[j] == 0
    {
      zeroes := zeroes + 1;
    }
    LeadingIs(x, zeroes);
  }

  // A '1' for every leading zero, then a character for every digit.
  method Translate(zeroes: nat, b58: seq<nat>) returns (str: string)
    requires DigitsOk(58, b58)
    ensures DigitsOk(58, Zeros(zeroes) + b58) && str == Text(Zeros(zeroes) + b58)
  {
    TextOfZeros(zeroes, b58);
    hide CharOf;
    str := seq(zeroes, i => '1');
    for i := 0 to |b58|
      invariant str == seq(zeroes, i => '1') + Text(b58[..i])
    {
      assert Text(b58[..i + 1]) == Text(b58[..i]) + [CharOf(b58[i])];
      str := str + [CharOf(b58[i])];
    }
    assert b58[..|b58|] == b58;
  }

  method EncodeBase58(x: seq<nat>) returns (str: string)
    requires Bytes(x)
    ensures str == Encode(x)
  {
    var zeroes := CountZeros(x);
    var size := (|x| - zeroes) * 138 / 100 + 1;
    EncodeFits(|x| - zeroes);
    var b58 := Convert(x[zeroes..], 256, 58, size);
    str := Translate(zeroes, b58);
  }

  lemma SpacesIs(s: string, k: nat)
    requires k <= |s| && (k < |s| ==> !IsSpace(s[k])) && forall i | 0 <= i < k :: IsSpace(s[i])
    ensures Spaces(s) == k
  {
  }

  method SkipSpaces(s: string, from: nat) returns (p: nat)
    requires from <= |s|
    ensures from <= p <= |s| && p - from == Spaces(s[from..])
  {
    p := from;
    while p < |s| && IsSpace(s[p])
      invariant from <= p <= |s| && forall j | from <= j < p :: IsSpace(s[j])
    {
      p := p + 1;
    }
    SpacesIs(s[from..], p - from);
  }

  lemma BufferFits(n: nat, m: nat)
    requires n <= m
    ensures Pow(58, n) <= Pow(256, m * 733 / 1000 + 1)
  {
    DecodeFits(n);
    PowGrows(256, n * 733 / 1000 + 1, m * 733 / 1000 + 1);
  }

  // The next character always fits a buffer sized by all of the text, whatever comes after it.
  lemma CharacterFits(t: string, i: nat)
    requires i < |t| && AllBase58(t[..i]) && IndexOf(t[i]) >= 0
    ensures AllBase58(t[..i + 1])
    ensures
      var v := Val(58, Indices(t[..i])) * 58 + IndexOf(t[i]);
      Val(58, Indices(t[..i + 1])) == v < Pow(256, |t| * 733 / 1000 + 1)
  {
    hide IndexOf, Val, Pow;
    IndicesNext(t, i);
    hide Indices;
    var d := Indices(t[..i + 1]);
    assert d[..i + 1] == d;
    var size := |t| * 733 / 1000 + 1;
    BufferFits(i + 1, |t|);
    StepFits(256, 58, d, i, size);
  }

  lemma IndicesNext(t: string, i: nat)
    requires i < |t| && AllBase58(t[..i]) && IndexOf(t[i]) >= 0
    ensures AllBase58(t[..i + 1])
    ensures Indices(t[..i + 1])[..i] == Indices(t[..i]) && Indices(t[..i + 1])[i] == IndexOf(t[i])
  {
    hide IndexOf;
  }

  // The digits up to a space or the end enter the buffer one by one, unless a character outside
  // of the alphabet turns up.
  method ProcessWord(t: string) returns (ok: bool, n: nat, b256: seq<nat>)
    ensures ok <==> AllBase58(t[..WordLength(t)])
    ensures ok ==> n == WordLength(t) && b256 == Numeral(256, Val(58, Indices(t[..n])))
  {
    hide IndexOf, IsSpace, Pow, Val, Numeral, WordLength;
    var size := |t| * 733 / 1000 + 1;
    var buf := new nat[size](_ => 0);
    var length: nat := 0;
    ValZeros(256, buf[..]);
    NoDigits(t[..0]);
    n := 0;
    while n < |t| && !IsSpace(t[n])
      invariant 0 <= n <= WordLength(t) && AllBase58(t[..n])
      invariant length <= buf.Length && DigitsOk(256, buf[..])
      invariant forall j | 0 <= j < buf.Length - length :: buf[j] == 0
      invariant Val(256, buf[..]) == Val(58, Indices(t[..n]))
    {
      var digit := IndexOf(t[n]);
      if digit < 0 {
        assert t[..WordLength(t)][n] == t[n];
        return false, n, [];
      }
      CharacterFits(t, n);
      length := MulAdd(buf, 256, 58, digit, length);
      n := n + 1;
    }
    var it := SkipZeros(buf, 256, length);
    return true, n, buf[it..];
  }

  lemma NoDigits(t: string)
    requires t == []
    ensures AllBase58(t) && Val(58, Indices(t)) == 0
  {
  }

  method SkipOnes(s: string, from: nat) returns (p: nat)
    requires from <= |s|
    ensures from <= p <= |s| && (p < |s| ==> s[p] != '1') && forall j | from <= j < p :: s[j] == '1'
  {
    p := from;
    while p < |s| && s[p] == '1'
      invariant from <= p <= |s| && forall j | from <= j < p :: s[j] == '1'
    {
      p := p + 1;
    }
  }

  lemma OneIsZero(c: char)
    ensures IndexOf(c) == 0 <==> c == '1'
    ensures c == '1' ==> !IsSpace(c)
  {
  }

  lemma WordLengthIs(s: string, k: nat)
    requires k <= |s| && (k < |s| ==> IsSpace(s[k])) && forall i | 0 <= i < k :: !IsSpace(s[i])
    ensures WordLength(s) == k
  {
  }

  lemma OnesInWord(t: string, z: nat)
    requires z <= |t| && forall i | 0 <= i < z :: t[i] == '1'
    ensures WordLength(t) == z + WordLength(t[z..])
  {
    hide IsSpace, WordLength;
    var u := t[z..];
    var n := z + WordLength(u);
    forall i | 0 <= i < n
      ensures !IsSpace(t[i])
    {
      OneIsZero(t[i]);
      assert i >= z ==> t[i] == u[i - z];
    }
    WordLengthIs(t, n);
  }

  lemma OnesInDigits(w: string, v: string, z: nat)
    requires z <= |w| && v == w[z..] && (z < |w| ==> w[z] != '1') && forall i | 0 <= i < z :: w[i] == '1'
    ensures AllBase58(w) <==> AllBase58(v)
    ensures AllBase58(w) ==> LeadingZeros(Indices(w)) == z && Indices(w)[z..] == Indices(v)
  {
    hide IndexOf, LeadingZeros;
    forall i | 0 <= i < |w|
      ensures i < z ==> IndexOf(w[i]) == 0
      ensures i >= z ==> w[i] == v[i - z]
    {
      OneIsZero(w[i]);
    }
    if AllBase58(v) {
      assert AllBase58(w);
      if z < |w| {
        OneIsZero(w[z]);
      }
      LeadingIs(Indices(w), z);
    }
  }

  // The leading '1's of a text are the leading zeroes of its first word.
  lemma OnesAreZeros(t: string, z: nat)
    requires z <= |t| && (z < |t| ==> t[z] != '1') && forall i | 0 <= i < z :: t[i] == '1'
    ensures WordLength(t) == z + WordLength(t[z..])
    ensures
      var w, v := t[..WordLength(t)], t[z..][..WordLength(t[z..])];
      && (AllBase58(w) <==> AllBase58(v))
      && (AllBase58(w) ==> LeadingZeros(Indices(w)) == z && Indices(w)[z..] == Indices(v))
  {
    hide IndexOf, LeadingZeros, WordLength, AllBase58;
    OnesInWord(t, z);
    var w, v := t[..WordLength(t)], t[z..][..WordLength(t[z..])];
    assert w[z..] == v;
    OnesInDigits(w, v, z);
  }

  method DecodeBase58(s: string) returns (r: Option<seq<nat>>)
    requires '\0' !in s
    ensures r == Decode(s)
  {
    hide IndexOf, IsSpace, Numeral, Val, WordLength, LeadingZeros, Spaces, AllBase58;
    var p := SkipSpaces(s, 0);
    assert s[0..] == s;
    var q := SkipOnes(s, p);
    OnesAreZeros(s[p..], q - p);
    assert s[p..][q - p..] == s[q..];
    var ok, n, b256 := ProcessWord(s[q..]);
    if !ok {
      return None;
    }
    var end := SkipSpaces(s, q + n);
    assert s[q + n..] == Rest(s);
    if end < |s| {
      assert Rest(s)[end - (q + n)] == s[end];
      return None;
    }
    return Some(Zeros(q - p) + b256);
  }

  // ------------------------------------------------------------------ with checksum

  // The first four bytes of the hash.
  type Hash4 = seq<nat> -> seq<nat>

  ghost predicate Sums(hash: Hash4) {
    forall x: seq<nat> :: |hash(x)| == 4 && Bytes(hash(x))
  }

  function EncodeCheck(hash: Hash4, x: seq<nat>): string {
    Encode(x + hash(x))
  }

  function DecodeCheck(hash: Hash4, s: string): Option<seq<nat>> {
    match Decode(s)
    case None => None
    case Some(v) =>
      if |v| < 4 then None
      else
        var x := v[..|v| - 4];
        if hash(x) == v[|v| - 4..] then Some(x) else None
  }

  lemma CheckRoundTrip(hash: Hash4, x: seq<nat>)
    requires Sums(hash) && Bytes(x)
    ensures DecodeCheck(hash, EncodeCheck(hash, x)) == Some(x)
  {
    hide Encode, Decode;
    var v := x + hash(x);
    EncodeDecode(v);
    assert v[..|v| - 4] == x && v[|v| - 4..] == hash(x);
  }

  // A string is accepted for x exactly when it is, but for spaces, the encoding of x.
  lemma CheckDecodesIff(hash: Hash4, s: string, x: seq<nat>)
    requires Sums(hash)
    ensures DecodeCheck(hash, s) == Some(x) <==> Bytes(x) && Word(s) == EncodeCheck(hash, x) && AllSpaces(Rest(s))
  {
    hide Encode, Decode;
    var v := x + hash(x);
    DecodesIff(s, v);
    assert v[..|v| - 4] == x && v[|v| - 4..] == hash(x);
    if DecodeCheck(hash, s) == Some(x) {
      var w := Decode(s).value;
      assert w == w[..|w| - 4] + w[|w| - 4..];
      assert forall i | 0 <= i < |x| :: x[i] == v[i];
    }
  }
}
