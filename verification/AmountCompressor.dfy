/**
 Amount compression (src/compressor.cpp): trailing zeroes are counted and dropped. The
 reference works on all natural numbers; the methods wrap at 64 bits as the source does.
 */
module AmountCompressor {
  import opened Arith

  const WORD: nat := 0x1_0000_0000_0000_0000

  // The largest amount of money on the main network, 100000000 coins of 10^8 units.
  const MAX_MONEY: nat := 100000000 * 100000000

  function Pow10(e: nat): (p: nat)
    ensures p > 0
  {
    if e == 0 then 1 else 10 * Pow10(e - 1)
  }

  // How often ten divides n, up to a limit.
  function Zeroes(n: nat, limit: nat): (e: nat)
    requires n > 0
    ensures e <= limit
    decreases limit
  {
    if limit == 0 || n % 10 != 0 then 0 else 1 + Zeroes(n / 10, limit - 1)
  }

  // The part of n without those zeroes.
  function Stripped(n: nat, limit: nat): (m: nat)
    requires n > 0
    ensures m > 0 && m * Pow10(Zeroes(n, limit)) == n
    ensures Zeroes(n, limit) < limit ==> m % 10 != 0
    decreases limit
  {
    if limit == 0 || n % 10 != 0 then n
    else
      var m := Stripped(n / 10, limit - 1);
      MulAssociates(m, 10, Pow10(Zeroes(n / 10, limit - 1)));
      m
  }

  function Packed(m: nat, e: nat): nat
    requires m > 0 && e <= 9 && (e < 9 ==> m % 10 != 0)
  {
    if e < 9 then 1 + (m / 10 * 9 + m % 10 - 1) * 10 + e else 1 + (m - 1) * 10 + 9
  }

  function Compress(n: nat): nat {
    if n == 0 then 0 else Packed(Stripped(n, 9), Zeroes(n, 9))
  }

  function Unpacked(x: nat): (m: nat)
    ensures m > 0 && (x % 10 < 9 ==> m % 10 != 0)
  {
    var y := x / 10;
    if x % 10 < 9 then y / 9 * 10 + y % 9 + 1 else y + 1
  }

  function Decompress(x: nat): nat {
    if x == 0 then 0 else Unpacked(x - 1) * Pow10((x - 1) % 10)
  }

  // ---------------------------------------------------------------- round trips

  // q and d are what is left of m after its last digit, and that digit.
  lemma UnpackDigits(q: nat, d: nat, e: nat)
    requires 1 <= d <= 9 && e < 9
    ensures
      var x := (q * 9 + d - 1) * 10 + e;
      x % 10 == e && x / 10 == q * 9 + (d - 1) && (x / 10) / 9 == q && (x / 10) % 9 == d - 1
  {
    ModIs(e, q * 9 + d - 1, 10);
    ModIs(d - 1, q, 9);
  }

  lemma UnpackPacked(m: nat, e: nat)
    requires m > 0 && e <= 9 && (e < 9 ==> m % 10 != 0)
    ensures Packed(m, e) > 0 && Unpacked(Packed(m, e) - 1) == m && (Packed(m, e) - 1) % 10 == e
  {
    if e < 9 {
      UnpackDigits(m / 10, m % 10, e);
    } else {
      ModIs(9, m - 1, 10);
    }
  }

  lemma PackUnpacked(x: nat)
    requires x > 0
    ensures Packed(Unpacked(x - 1), (x - 1) % 10) == x
  {
  }

  lemma DecompressCompress(n: nat)
    ensures Decompress(Compress(n)) == n
  {
    if n > 0 {
      UnpackPacked(Stripped(n, 9), Zeroes(n, 9));
    }
  }

  // A number without trailing zeroes, or with nine of them, gives back its parts.
  lemma {:induction false} StrippedOf(m: nat, e: nat, limit: nat)
    requires m > 0 && e <= limit && (e < limit ==> m % 10 != 0)
    ensures m * Pow10(e) > 0 && Zeroes(m * Pow10(e), limit) == e && Stripped(m * Pow10(e), limit) == m
    decreases limit
  {
    if e > 0 {
      StrippedOf(m, e - 1, limit - 1);
      TenTimes(m * Pow10(e - 1), limit);
      assert m * Pow10(e) == 10 * (m * Pow10(e - 1));
    }
  }

  lemma TenTimes(t: nat, limit: nat)
    requires t > 0 && limit > 0
    ensures Zeroes(10 * t, limit) == 1 + Zeroes(t, limit - 1) && Stripped(10 * t, limit) == Stripped(t, limit - 1)
  {
  }

  lemma CompressDecompress(x: nat)
    ensures Compress(Decompress(x)) == x
  {
    if x > 0 {
      StrippedOf(Unpacked(x - 1), (x - 1) % 10, 9);
      PackUnpacked(x);
    }
  }

  // Among amounts with equally many zeroes at the end, up to nine, the larger one has the larger form;
  // the last digit of the form less one is that number.
  lemma CompressIncreases(n: nat, k: nat)
    requires 0 < n < k && Zeroes(n, 9) == Zeroes(k, 9)
    ensures Compress(n) < Compress(k)
    ensures Compress(n) > 0 && (Compress(n) - 1) % 10 == Zeroes(n, 9)
  {
    var e, a, b := Zeroes(n, 9), Stripped(n, 9), Stripped(k, 9);
    if a >= b {
      MulMonotone(b, a, Pow10(e), Pow10(e));
      assert false;
    }
    hide Zeroes, Stripped;
    PackedIncreases(a, b, e);
    UnpackPacked(a, e);
  }

  lemma PackedIncreases(a: nat, b: nat, e: nat)
    requires 0 < a < b && e <= 9 && (e < 9 ==> a % 10 != 0 && b % 10 != 0)
    ensures Packed(a, e) < Packed(b, e)
  {
  }

  // One unit, a cent, a coin, fifty coins and twenty-one million coins.
  lemma KnownForms()
    ensures Compress(0) == 0 && Compress(1) == 1 && Compress(1000000) == 7 && Compress(100000000) == 9
    ensures Compress(5000000000) == 0x32 && Compress(2100000000000000) == 0x1406f40
  {
    Pow10Table();
    StrippedOf(1, 0, 9);
    StrippedOf(1, 6, 9);
    StrippedOf(1, 8, 9);
    StrippedOf(5, 9, 9);
    StrippedOf(2100000, 9, 9);
    hide Zeroes, Stripped, Pow10;
  }

  // ---------------------------------------------------------------- 64 bits

  // The compressed form of a 64-bit amount exceeds 64 bits exactly for large amounts that do
  // not end in a zero.
  lemma CompressWrapsIff(n: nat)
    requires n < WORD
    ensures Compress(n) >= WORD <==> n % 10 != 0 && n > 2049638230412172402
  {
    if n > 0 {
      var e, m := Zeroes(n, 9), Stripped(n, 9);
      if n % 10 == 0 {
        assert e >= 1;
        assert m * 10 <= n by {
          Pow10Grows(e);
          MulMonotone(m, m, 10, Pow10(e));
        }
      } else {
        assert e == 0 && m == n;
      }
      PackedBound(m, e);
    }
  }

  lemma Pow10Grows(e: nat)
    requires e >= 1
    ensures Pow10(e) >= 10
  {
  }

  lemma PackedBound(m: nat, e: nat)
    requires m > 0 && e <= 9 && (e < 9 ==> m % 10 != 0)
    ensures m * 10 < WORD ==> Packed(m, e) < WORD
    ensures e == 0 ==> (Packed(m, e) >= WORD <==> m > 2049638230412172402)
  {
  }

  // No amount of money wraps.
  lemma MoneyFits(n: nat)
    requires n <= MAX_MONEY
    ensures Compress(n) < WORD && Decompress(Compress(n)) == n
  {
    CompressWrapsIff(n);
    DecompressCompress(n);
  }

  // The largest quotient by ten that decompresses to 64 bits, for each exponent.
  function LastQuotient(e: nat): nat
    requires e <= 9
  {
    match e
    case 0 => 16602069666338596453
    case 1 => 1660206966633859644
    case 2 => 166020696663385964
    case 3 => 16602069666338595
    case 4 => 1660206966633859
    case 5 => 166020696663385
    case 6 => 16602069666338
    case 7 => 1660206966632
    case 8 => 166020696663
    case 9 => 18446744072
  }

  lemma Pow10Table()
    ensures Pow10(0) == 1 && Pow10(1) == 10 && Pow10(2) == 100 && Pow10(3) == 1000 && Pow10(4) == 10000
    ensures Pow10(5) == 100000 && Pow10(6) == 1000000 && Pow10(7) == 10000000 && Pow10(8) == 100000000
    ensures Pow10(9) == 1000000000
  {
  }

  // A number decompresses to 64 bits exactly if its quotient by ten is small enough for its last digit.
  lemma DecompressWrapsIff(x: nat)
    ensures Decompress(x) >= WORD <==> x > 0 && (x - 1) / 10 > LastQuotient((x - 1) % 10)
  {
    if x > 0 {
      var e, y := (x - 1) % 10, (x - 1) / 10;
      Pow10Table();
      if e < 9 {
        SmallExponent(y, e, y / 9 * 10 + y % 9 + 1);
      }
    }
  }

  lemma SmallExponent(y: nat, e: nat, m: nat)
    requires e < 9 && m == y / 9 * 10 + y % 9 + 1
    ensures m * Pow10(e) >= WORD <==> y > LastQuotient(e)
  {
    Pow10Table();
  }

  method StripZeroes(amount: nat) returns (n: nat, e: nat)
    requires amount > 0
    ensures e == Zeroes(amount, 9) && n == Stripped(amount, 9)
  {
    n, e := amount, 0;
    while n % 10 == 0 && e < 9
      invariant n > 0 && e <= 9
      invariant e + Zeroes(n, 9 - e) == Zeroes(amount, 9) && Stripped(n, 9 - e) == Stripped(amount, 9)
    {
      n := n / 10;
      e := e + 1;
    }
  }

  // With 64-bit arithmetic.
  method CompressAmount(amount: nat) returns (r: nat)
    requires amount < WORD
    ensures r == Compress(amount) % WORD
    ensures !(amount % 10 != 0 && amount > 2049638230412172402) ==> r == Compress(amount)
  {
    CompressWrapsIff(amount);
    if amount == 0 {
      return 0;
    }
    var n, e := StripZeroes(amount);
    hide Zeroes, Stripped, Packed;
    r := PackAmount(n, e);
    Unwrapped(Compress(amount));
  }

  lemma Unwrapped(x: nat)
    ensures x < WORD ==> x % WORD == x
  {
  }

  method PackAmount(n: nat, e: nat) returns (r: nat)
    requires n > 0 && e <= 9 && (e < 9 ==> n % 10 != 0)
    ensures r == Packed(n, e) % WORD
  {
    if e < 9 {
      var d := n % 10;
      assert 1 <= d <= 9;
      r := (1 + (n / 10 * 9 + d - 1) * 10 + e) % WORD;
    } else {
      r := (1 + (n - 1) * 10 + 9) % WORD;
    }
  }

  method DecompressAmount(compressed: nat) returns (r: nat)
    requires compressed < WORD
    ensures r == Decompress(compressed) % WORD
    ensures compressed == 0 || (compressed - 1) / 10 <= LastQuotient((compressed - 1) % 10) ==> r == Decompress(compressed)
  {
    DecompressWrapsIff(compressed);
    hide LastQuotient;
    if compressed == 0 {
      return 0;
    }
    var x := compressed - 1;
    var e := x % 10;
    x := x / 10;
    if e < 9 {
      var d := x % 9 + 1;
      x := x / 9;
      r := x * 10 + d;
    } else {
      r := x + 1;
    }
    assert r == Unpacked(compressed - 1);
    r := TimesPow10(r, e);
  }

  method TimesPow10(m: nat, zeroes: nat) returns (n: nat)
    requires m < WORD
    ensures n == (m * Pow10(zeroes)) % WORD
  {
    n := m;
    var e := zeroes;
    while e > 0
      invariant 0 <= e && n < WORD
      invariant (n * Pow10(e)) % WORD == (m * Pow10(zeroes)) % WORD
    {
      WrapTimes(n * 10, Pow10(e - 1));
      MulAssociates(n, 10, Pow10(e - 1));
      n := (n * 10) % WORD;
      e := e - 1;
    }
  }

  lemma WrapTimes(a: nat, p: nat)
    ensures ((a % WORD) * p) % WORD == (a * p) % WORD
  {
    var q, s := a / WORD, a % WORD;
    DivMod(s * p, WORD);
    var u, v := (s * p) / WORD, (s * p) % WORD;
    assert a * p == v + (q * p + u) * WORD by {
      Distribute(q * WORD, s, p);
      assert q * WORD * p == q * p * WORD;
      Distribute(q * p, u, WORD);
    }
    ModIs(v, q * p + u, WORD);
  }
}
