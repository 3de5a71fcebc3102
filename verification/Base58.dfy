/**
 Base58 (src/base58.cpp). The reference: leading zero bytes become leading '1's, and the rest
 is the base-58 numeral of the big-endian number the bytes spell. The methods do this with a
 digit buffer in place, as the source does.
 */
module Base58 {
  import opened Options
  import opened Radix

  // ----------------------------------------------------------------- the alphabet

  // pszBase58 by its runs: 1-9, A-H, J-N, P-Z, a-k, m-z.
  function CharOf(d: nat): (c: char)
    requires d < 58
  {
    if d < 9 then ('1' as int + d) as char
    else if d < 17 then ('A' as int + (d - 9)) as char
    else if d < 22 then ('J' as int + (d - 17)) as char
    else if d < 33 then ('P' as int + (d - 22)) as char
    else if d < 44 then ('a' as int + (d - 33)) as char
    else ('m' as int + (d - 44)) as char
  }

  // strchr in the alphabet, or -1.
  function IndexOf(c: char): (i: int)
    ensures -1 <= i < 58
    ensures i >= 0 ==> CharOf(i) == c
    ensures i < 0 ==> forall d | 0 <= d < 58 :: CharOf(d) != c
  {
    var x := c as int;
    if '1' <= c <= '9' then x - '1' as int
    else if 'A' <= c <= 'H' then x - 'A' as int + 9
    else if 'J' <= c <= 'N' then x - 'J' as int + 17
    else if 'P' <= c <= 'Z' then x - 'P' as int + 22
    else if 'a' <= c <= 'k' then x - 'a' as int + 33
    else if 'm' <= c <= 'z' then x - 'm' as int + 44
    else -1
  }

  lemma IndexOfChar(d: nat)
    requires d < 58
    ensures IndexOf(CharOf(d)) == d && !IsSpace(CharOf(d)) && CharOf(d) != '\0' && (CharOf(d) == '1' <==> d == 0)
  {
  }

  // The digits in order: no zero, capital I, capital O or small l.
  lemma Alphabet(d: nat)
    requires d < 58
    ensures d < 9 ==> CharOf(d) == "123456789"[d]
    ensures 9 <= d < 17 ==> CharOf(d) == "ABCDEFGH"[d - 9]
    ensures 17 <= d < 22 ==> CharOf(d) == "JKLMN"[d - 17]
    ensures 22 <= d < 33 ==> CharOf(d) == "PQRSTUVWXYZ"[d - 22]
    ensures 33 <= d < 44 ==> CharOf(d) == "abcdefghijk"[d - 33]
    ensures 44 <= d ==> CharOf(d) == "mnopqrstuvwxyz"[d - 44]
  {
  }

  predicate IsSpace(c: char) {
    c == ' ' || c == '\t' || c == '\n' || c == '\U{0B}' || c == '\U{0C}' || c == '\r'
  }

  // ----------------------------------------------------------------- the reference

  predicate Bytes(x: seq<nat>) { DigitsOk(256, x) }

  // How many of the first items are zero.
  function LeadingZeros(x: seq<nat>): (k: nat)
    ensures k <= |x| && (k < |x| ==> x[k] != 0)
    ensures forall i | 0 <= i < k :: x[i] == 0
  {
    if x == [] || x[0] != 0 then 0
    else
      var k := LeadingZeros(x[1..]);
      assert forall i | 0 < i < k + 1 :: x[i] == x[1..][i - 1];
      k + 1
  }

  function Zeros(n: nat): (z: seq<nat>)
    ensures |z| == n && forall i | 0 <= i < n :: z[i] == 0
  {
    seq(n, i => 0)
  }

  function Text(d: seq<nat>): (s: string)
    requires DigitsOk(58, d)
    ensures |s| == |d| && forall i | 0 <= i < |d| :: s[i] == CharOf(d[i])
  {
    seq(|d|, i requires 0 <= i < |d| => CharOf(d[i]))
  }

  // The digits of a converted number: as many zeroes as before, then its numeral.
  function Converted(from: nat, to: nat, x: seq<nat>): (d: seq<nat>)
    requires to >= 2
    ensures DigitsOk(to, d)
  {
    var z := LeadingZeros(x);
    Zeros(z) + Numeral(to, Val(from, x[z..]))
  }

  function Encode(x: seq<nat>): string {
    Text(Converted(256, 58, x))
  }

  predicate AllBase58(s: string) { forall i | 0 <= i < |s| :: IndexOf(s[i]) >= 0 }
  predicate AllSpaces(s: string) { forall i | 0 <= i < |s| :: IsSpace(s[i]) }

  function Indices(s: string): (d: seq<nat>)
    requires AllBase58(s)
    ensures |d| == |s| && forall i | 0 <= i < |s| :: d[i] == IndexOf(s[i])
    ensures DigitsOk(58, d)
  {
    seq(|s|, i requires 0 <= i < |s| => IndexOf(s[i]) as nat)
  }

  // The number of leading spaces.
  function Spaces(s: string): (k: nat)
    ensures k <= |s| && (k < |s| ==> !IsSpace(s[k]))
    ensures forall i | 0 <= i < k :: IsSpace(s[i])
  {
    if s == [] || !IsSpace(s[0]) then 0
    else
      var k := Spaces(s[1..]);
      assert forall i | 0 < i < k + 1 :: s[i] == s[1..][i - 1];
      k + 1
  }

  // The length of the first word.
  function WordLength(s: string): (k: nat)
    ensures k <= |s| && (k < |s| ==> IsSpace(s[k]))
    ensures forall i | 0 <= i < k :: !IsSpace(s[i])
  {
    if s == [] || IsSpace(s[0]) then 0
    else
      var k := WordLength(s[1..]);
      assert forall i | 0 < i < k + 1 :: s[i] == s[1..][i - 1];
      k + 1
  }

  // The word between the spaces, and what follows it.
  function Word(s: string): string { var t := s[Spaces(s)..]; t[..WordLength(t)] }
  function Rest(s: string): string { var t := s[Spaces(s)..]; t[WordLength(t)..] }

  // One word of alphabet characters, with spaces around it.
  function Decode(s: string): (r: Option<seq<nat>>) {
    var w := Word(s);
    if AllBase58(w) && AllSpaces(Rest(s)) then Some(Converted(58, 256, Indices(w))) else None
  }

  // ----------------------------------------------------------------- round trips

  // Conversion to another base and back is the identity.
  lemma ConvertedBack(b: nat, c: nat, x: seq<nat>)
    requires b >= 2 && c >= 2 && DigitsOk(b, x)
    ensures Converted(c, b, Converted(b, c, x)) == x
  {
    var z := LeadingZeros(x);
    var n := Numeral(c, Val(b, x[z..]));
    var d := Zeros(z) + n;
    assert LeadingZeros(d) == z by {
      LeadingIs(d, z);
    }
    assert d[z..] == n;
    NumeralOfVal(b, x[z..]);
    assert x == Zeros(z) + x[z..];
  }

  lemma LeadingIs(x: seq<nat>, k: nat)
    requires k <= |x| && (k < |x| ==> x[k] != 0) && forall i | 0 <= i < k :: x[i] == 0
    ensures LeadingZeros(x) == k
  {
  }

  lemma IndicesOfText(d: seq<nat>)
    requires DigitsOk(58, d)
    ensures AllBase58(Text(d)) && Indices(Text(d)) == d && WordLength(Text(d)) == |d| && Spaces(Text(d)) == 0
  {
    hide CharOf, IndexOf, IsSpace;
    var s := Text(d);
    forall i | 0 <= i < |d|
      ensures IndexOf(s[i]) == d[i] && !IsSpace(s[i])
    {
      IndexOfChar(d[i]);
    }
  }

  lemma TextOfIndices(s: string)
    requires AllBase58(s)
    ensures Text(Indices(s)) == s
  {
    hide CharOf;
  }

  // An encoding spells the number of the bytes in base 58, with as many zeroes in front.
  lemma EncodeSpells(x: seq<nat>)
    requires Bytes(x)
    ensures AllBase58(Encode(x)) && Val(58, Indices(Encode(x))) == Val(256, x)
    ensures LeadingZeros(Indices(Encode(x))) == LeadingZeros(x)
  {
    var d := Converted(256, 58, x);
    ConvertedSpells(256, 58, x);
    IndicesOfText(d);
    hide Converted, Val, LeadingZeros, IndexOf;
  }

  lemma ConvertedSpells(b: nat, c: nat, x: seq<nat>)
    requires c >= 2
    ensures Val(c, Converted(b, c, x)) == Val(b, x) && LeadingZeros(Converted(b, c, x)) == LeadingZeros(x)
  {
    var z := LeadingZeros(x);
    var n := Numeral(c, Val(b, x[z..]));
    assert Val(c, n) == Val(b, x[z..]);
    ZerosInFront(c, z, n);
    ZerosInFront(b, z, x[z..]);
    assert x == Zeros(z) + x[z..];
    LeadingIs(Zeros(z) + n, z);
    hide Val, LeadingZeros;
  }

  lemma Digits97()
    ensures Val(256, [0x61]) == 0x61 && Numeral(58, 0x61) == [1, 39]
  {
    assert [0x61][..0] == [];
  }

  lemma Converted97(z: nat)
    ensures Converted(256, 58, Zeros(z) + [0x61]) == Zeros(z) + [1, 39]
  {
    var x := Zeros(z) + [0x61];
    Digits97();
    hide Val, Numeral;
    LeadingIs(x, z);
    assert x[z..] == [0x61];
  }

  // The byte 0x61, and the same after two zero bytes.
  lemma KnownEncodings()
    ensures Encode([0x61]) == "2g" && Encode([0, 0, 0x61]) == "112g"
  {
    hide Converted, CharOf;
    Converted97(0);
    Converted97(2);
    assert Zeros(0) + [0x61] == [0x61] && Zeros(2) + [0x61] == [0, 0, 0x61];
    assert Zeros(0) + [1, 39] == [1, 39] && Zeros(2) + [1, 39] == [0, 0, 1, 39];
    TextOf97();
  }

  lemma TextOf97()
    ensures Text([1, 39]) == "2g" && Text([0, 0, 1, 39]) == "112g"
  {
  }

  lemma {:induction false} ZerosInFront(b: nat, z: nat, x: seq<nat>)
    ensures Val(b, Zeros(z) + x) == Val(b, x)
  {
    if z == 0 {
      assert Zeros(0) + x == x;
    } else {
      ZeroInFront(b, Zeros(z - 1) + x);
      assert Zeros(z) + x == [0] + (Zeros(z - 1) + x);
      ZerosInFront(b, z - 1, x);
    }
  }

  lemma {:induction false} ZeroInFront(b: nat, x: seq<nat>)
    ensures Val(b, [0] + x) == Val(b, x)
  {
    if x == [] {
      assert [0] + x == [0];
      assert [0][..0] == [];
    } else {
      var t := [0] + x;
      assert t[..|t| - 1] == [0] + x[..|x| - 1];
      ZeroInFront(b, x[..|x| - 1]);
    }
  }

  // Encoding then decoding is the identity on all byte strings.
  lemma EncodeDecode(x: seq<nat>)
    requires Bytes(x)
    ensures Decode(Encode(x)) == Some(x)
  {
    var d := Converted(256, 58, x);
    IndicesOfText(d);
    ConvertedBack(256, 58, x);
    hide Converted;
    var s := Encode(x);
    assert s[0..] == s && s[..|s|] == s;
  }

  // What decodes is, but for the spaces around it, an encoding, and the other way round.
  lemma DecodesIff(s: string, x: seq<nat>)
    ensures Decode(s) == Some(x) <==> Bytes(x) && Word(s) == Encode(x) && AllSpaces(Rest(s))
  {
    if Decode(s) == Some(x) {
      ConvertedBack(58, 256, Indices(Word(s)));
      TextOfIndices(Word(s));
    } else if Bytes(x) && Word(s) == Encode(x) && AllSpaces(Rest(s)) {
      IndicesOfText(Converted(256, 58, x));
      ConvertedBack(256, 58, x);
    }
  }

  // Decoding then encoding is the identity on the words of the alphabet.
  lemma DecodeEncode(s: string)
    requires AllBase58(s)
    ensures Decode(s).Some? && Encode(Decode(s).value) == s
  {
    TextOfIndices(s);
    IndicesOfText(Indices(s));
    assert s[0..] == s && s[..|s|] == s;
    ConvertedBack(58, 256, Indices(s));
  }
}
