/**
 Bits of words: the six 5-bit groups of a 30-bit word, as src/bech32.cpp packs coefficients, and
 sets of service flags.
 */
module Bits {
  // Addition of packed coefficients, and of single ones.
  function Plus(a: bv32, b: bv32): bv32 { a ^ b }
  function Add(a: bv5, b: bv5): bv5 { a ^ b }

  function Group0(c: bv32): bv5 { (c & 31) as bv5 }
  function Group1(c: bv32): bv5 { ((c >> 5) & 31) as bv5 }
  function Group2(c: bv32): bv5 { ((c >> 10) & 31) as bv5 }
  function Group3(c: bv32): bv5 { ((c >> 15) & 31) as bv5 }
  function Group4(c: bv32): bv5 { ((c >> 20) & 31) as bv5 }
  function Group5(c: bv32): bv5 { ((c >> 25) & 31) as bv5 }

  lemma Group0OfPlus(a: bv32, b: bv32)
    ensures Group0(Plus(a, b)) == Add(Group0(a), Group0(b))
  {
  }

  lemma Group1OfPlus(a: bv32, b: bv32)
    ensures Group1(Plus(a, b)) == Add(Group1(a), Group1(b))
  {
  }

  lemma Group2OfPlus(a: bv32, b: bv32)
    ensures Group2(Plus(a, b)) == Add(Group2(a), Group2(b))
  {
  }

  lemma Group3OfPlus(a: bv32, b: bv32)
    ensures Group3(Plus(a, b)) == Add(Group3(a), Group3(b))
  {
  }

  lemma Group4OfPlus(a: bv32, b: bv32)
    ensures Group4(Plus(a, b)) == Add(Group4(a), Group4(b))
  {
  }

  lemma Group5OfPlus(a: bv32, b: bv32)
    ensures Group5(Plus(a, b)) == Add(Group5(a), Group5(b))
  {
  }

  // The j-th group from below.
  function Coef(c: bv32, j: nat): bv5
    requires j < 6
  {
    match j
    case 0 => Group0(c) case 1 => Group1(c) case 2 => Group2(c)
    case 3 => Group3(c) case 4 => Group4(c) case 5 => Group5(c)
  }

  lemma CoefOfPlus(a: bv32, b: bv32, j: nat)
    requires j < 6
    ensures Coef(Plus(a, b), j) == Add(Coef(a, j), Coef(b, j))
  {
    hide Plus, Add, Group0, Group1, Group2, Group3, Group4, Group5;
    match j
    case 0 => Group0OfPlus(a, b);
    case 1 => Group1OfPlus(a, b);
    case 2 => Group2OfPlus(a, b);
    case 3 => Group3OfPlus(a, b);
    case 4 => Group4OfPlus(a, b);
    case 5 => Group5OfPlus(a, b);
  }

  // All the flags of a and of b, and no others.
  predicate IsUnion(r: bv64, a: bv64, b: bv64) {
    r & a == a && r & b == b && r & !a & !b == 0
  }

  lemma OrContains(a: bv64, b: bv64)
    ensures (a | b) & a == a
  {
  }

  lemma OrContainsOther(a: bv64, b: bv64)
    ensures (a | b) & b == b
  {
  }

  lemma OrNoMore(a: bv64, b: bv64)
    ensures (a | b) & !a & !b == 0
  {
  }

  lemma OrIsUnion(a: bv64, b: bv64)
    ensures IsUnion(a | b, a, b)
  {
    OrContains(a, b);
    OrContainsOther(a, b);
    OrNoMore(a, b);
  }
}
