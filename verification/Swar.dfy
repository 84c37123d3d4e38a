/**
  Counting ones inside a 32-bit word (the 28-byte step of redisPopcount in
  src/bitops.c), on the numbers that the words stand for.
*/
module Swar {

  /** x & y */
  function And(x: nat, y: nat): nat
    decreases x
  {
    if x == 0 || y == 0 then 0 else (if x % 2 == 1 && y % 2 == 1 then 1 else 0) + 2 * And(x / 2, y / 2)
  }

  lemma AndBit(b: nat, x: nat, c: nat, y: nat)
    requires b < 2 && c < 2
    ensures And(b + 2 * x, c + 2 * y) == (if b == 1 && c == 1 then 1 else 0) + 2 * And(x, y)
  {}

  /** Two bits under a mask of 11, 01 or 00. */
  lemma AndPair(p: nat, x: nat, y: nat)
    requires p < 4
    ensures And(p + 4 * x, 3 + 4 * y) == p + 4 * And(x, y)
    ensures And(p + 4 * x, 1 + 4 * y) == p % 2 + 4 * And(x, y)
    ensures And(p + 4 * x, 4 * y) == 4 * And(x, y)
  {
    hide And;
    AndBit(p / 2, x, 1, y);
    AndBit(p / 2, x, 0, y);
    AndBit(p % 2, p / 2 + 2 * x, 1, 1 + 2 * y);
    AndBit(p % 2, p / 2 + 2 * x, 1, 2 * y);
    AndBit(p % 2, p / 2 + 2 * x, 0, 2 * y);
  }

  /** The ones of a number. */
  function Ones(x: nat): nat {
    if x == 0 then 0 else x % 2 + Ones(x / 2)
  }

  lemma OnesBit(b: nat, x: nat)
    requires b < 2
    ensures Ones(b + 2 * x) == b + Ones(x)
  {}

  // Sums of the digits of a number in base 4, 16 and 256.

  function Sum4(x: nat): nat {
    if x == 0 then 0 else x % 4 + Sum4(x / 4)
  }

  function Sum16(x: nat): nat {
    if x == 0 then 0 else x % 16 + Sum16(x / 16)
  }

  function Sum256(x: nat): nat {
    if x == 0 then 0 else x % 256 + Sum256(x / 256)
  }

  /** All digits are at most m. */
  predicate Max4(x: nat, m: nat) {
    x == 0 || (x % 4 <= m && Max4(x / 4, m))
  }

  predicate Max16(x: nat, m: nat) {
    x == 0 || (x % 16 <= m && Max16(x / 16, m))
  }

  predicate Max256(x: nat, m: nat) {
    x == 0 || (x % 256 <= m && Max256(x / 256, m))
  }

  // 0x55..., 0x33... and 0x0f0f... of n digits.

  function Fives(n: nat): nat {
    if n == 0 then 0 else 1 + 4 * Fives(n - 1)
  }

  function Threes(n: nat): nat {
    if n == 0 then 0 else 3 + 16 * Threes(n - 1)
  }

  function Fifteens(n: nat): nat {
    if n == 0 then 0 else 15 + 256 * Fifteens(n - 1)
  }

  lemma Digit4(d: nat, x: nat, m: nat)
    requires d < 4
    ensures Sum4(d + 4 * x) == d + Sum4(x)
    ensures Max4(d + 4 * x, m) <==> d <= m && Max4(x, m)
  {}

  lemma Digit16(d: nat, x: nat, m: nat)
    requires d < 16
    ensures Sum16(d + 16 * x) == d + Sum16(x)
    ensures Max16(d + 16 * x, m) <==> d <= m && Max16(x, m)
  {}

  lemma Digit256(d: nat, x: nat, m: nat)
    requires d < 256
    ensures Sum256(d + 256 * x) == d + Sum256(x)
    ensures Max256(d + 256 * x, m) <==> d <= m && Max256(x, m)
  {}

  // ---------------------------------------------------------------- the three steps

  /** x - ((x >> 1) & mask) has the counts of the pairs of bits of x as its digits. */
  ghost predicate CountsPairs(x: nat, mask: nat) {
    && And(x / 2, mask) <= x
    && Sum4(x - And(x / 2, mask)) == Ones(x) && Max4(x - And(x / 2, mask), 2)
  }

  lemma PairsStep(d: nat, rest: nat, mask: nat)
    requires d < 4 && CountsPairs(rest, mask)
    ensures CountsPairs(d + 4 * rest, 1 + 4 * mask)
  {
    hide And, Sum4, Max4, Ones;
    PairsDigit(d, rest, mask);
    Digit4(d - d / 2, rest - And(rest / 2, mask), 2);
    OnesBit(d / 2, rest);
    OnesBit(d % 2, d / 2 + 2 * rest);
  }

  lemma {:induction false} Pairs(x: nat, n: nat)
    requires x < Pow4(n)
    ensures CountsPairs(x, Fives(n))
    decreases n
  {
    if n > 0 {
      hide CountsPairs;
      Pairs(x / 4, n - 1);
      PairsStep(x % 4, x / 4, Fives(n - 1));
    }
  }

  lemma PairsDigit(d: nat, rest: nat, f: nat)
    requires d < 4
    ensures And((d + 4 * rest) / 2, 1 + 4 * f) == d / 2 + 4 * And(rest / 2, f)
  {
    hide And;
    AndPair(d / 2 + 2 * (rest % 2), rest / 2, f);
    assert (d + 4 * rest) / 2 == d / 2 + 2 * (rest % 2) + 4 * (rest / 2);
  }

  function Pow4(n: nat): nat {
    if n == 0 then 1 else 4 * Pow4(n - 1)
  }

  function Pow16(n: nat): nat {
    if n == 0 then 1 else 16 * Pow16(n - 1)
  }

  function Pow256(n: nat): nat {
    if n == 0 then 1 else 256 * Pow256(n - 1)
  }

  /** (y & mask) + ((y >> 2) & mask) has the sums of the pairs of digits of y as its digits. */
  ghost predicate SumsNibbles(y: nat, mask: nat) {
    var z := And(y, mask) + And(y / 4, mask);
    Sum16(z) == Sum4(y) && Max16(z, 4)
  }

  lemma NibblesStep(p: nat, q: nat, rest: nat, mask: nat)
    requires p <= 2 && q <= 2 && SumsNibbles(rest, mask)
    ensures SumsNibbles(p + 4 * (q + 4 * rest), 3 + 16 * mask)
  {
    hide And, Sum4, Sum16, Max16;
    Digit4(q, rest, 2);
    Digit4(p, q + 4 * rest, 2);
    NibblesDigit(p, q, rest, mask);
    Digit16(p + q, And(rest, mask) + And(rest / 4, mask), 4);
  }

  lemma {:induction false} Nibbles(y: nat, n: nat)
    requires y < Pow16(n) && Max4(y, 2)
    ensures SumsNibbles(y, Threes(n))
    decreases n
  {
    if n == 0 {
      return;
    }
    assert Threes(n) == 3 + 16 * Threes(n - 1) && Pow16(n) == 16 * Pow16(n - 1);
    hide SumsNibbles, Max4, Sum4, Threes, Pow16;
    var p, q, rest := Two4(y);
    Digit4(q, rest, 2);
    Digit4(p, q + 4 * rest, 2);
    Nibbles(rest, n - 1);
    NibblesStep(p, q, rest, Threes(n - 1));
  }

  lemma Two4(y: nat) returns (p: nat, q: nat, rest: nat)
    ensures p < 4 && q < 4 && y == p + 4 * (q + 4 * rest)
  {
    p, q, rest := y % 4, y / 4 % 4, y / 16;
  }

  lemma NibblesDigit(p: nat, q: nat, rest: nat, t: nat)
    requires p < 4 && q < 4
    ensures var y := p + 4 * (q + 4 * rest);
            And(y, 3 + 16 * t) == p + 16 * And(rest, t) && And(y / 4, 3 + 16 * t) == q + 16 * And(rest / 4, t)
  {
    hide And;
    AndPair(p, q + 4 * rest, 4 * t);
    AndPair(q, rest, t);
    AndPair(q, rest, 4 * t);
    AndPair(rest % 4, rest / 4, t);
  }

  /** (z + (z >> 4)) & mask has the sums of the pairs of nibbles of z as its digits. */
  ghost predicate SumsBytes(z: nat, mask: nat) {
    var w := And(z + z / 16, mask);
    Sum256(w) == Sum16(z) && Max256(w, 8)
  }

  lemma BytesStep(g: nat, h: nat, rest: nat, mask: nat)
    requires g <= 4 && h <= 4 && Max16(rest, 4) && SumsBytes(rest, mask)
    ensures SumsBytes(g + 16 * (h + 16 * rest), 15 + 256 * mask)
  {
    hide And, Sum16, Max16, Sum256, Max256;
    Digit16(h, rest, 4);
    Digit16(g, h + 16 * rest, 4);
    BytesDigit(g, h, rest, mask);
    Digit256(g + h, And(rest + rest / 16, mask), 8);
  }

  lemma {:induction false} Bytes(z: nat, n: nat)
    requires z < Pow256(n) && Max16(z, 4)
    ensures SumsBytes(z, Fifteens(n))
    decreases n
  {
    if n == 0 {
      return;
    }
    assert Fifteens(n) == 15 + 256 * Fifteens(n - 1) && Pow256(n) == 256 * Pow256(n - 1);
    hide SumsBytes, Max16, Sum16, Fifteens, Pow256;
    var g, h, rest := Two16(z);
    Digit16(h, rest, 4);
    Digit16(g, h + 16 * rest, 4);
    Bytes(rest, n - 1);
    BytesStep(g, h, rest, Fifteens(n - 1));
  }

  lemma Two16(z: nat) returns (g: nat, h: nat, rest: nat)
    ensures g < 16 && h < 16 && z == g + 16 * (h + 16 * rest)
  {
    g, h, rest := z % 16, z / 16 % 16, z / 256;
  }

  lemma BytesDigit(g: nat, h: nat, rest: nat, f: nat)
    requires g <= 4 && h <= 4 && Max16(rest, 4)
    ensures var z := g + 16 * (h + 16 * rest);
            And(z + z / 16, 15 + 256 * f) == g + h + 256 * And(rest + rest / 16, f)
  {
    var r := rest % 16;
    var x := rest + rest / 16;
    var z := g + 16 * (h + 16 * rest);
    assert r <= 4;
    assert z / 16 == h + 16 * rest && rest == r + 16 * (rest / 16);
    assert z + z / 16 == (g + h) + 16 * ((h + r) + 16 * x);
    hide And;
    AndByte(g + h, h + r, x, f);
  }

  /** A byte under the mask 0x0f. */
  lemma AndByte(g: nat, h: nat, x: nat, f: nat)
    requires g < 16 && h < 16
    ensures And(g + 16 * (h + 16 * x), 15 + 256 * f) == g + 256 * And(x, f)
  {
    hide And;
    AndPair(h / 4, x, f);
    AndPair(h % 4, h / 4 + 4 * x, 4 * f);
    AndPair(g / 4, h + 16 * x, 16 * f);
    AndPair(g % 4, g / 4 + 4 * (h + 16 * x), 3 + 64 * f);
  }

  // ------------------------------------------------------------------ whole words

  const TWO32 := 0x1_0000_0000

  // The three lines for one word, in 32-bit arithmetic.

  function Line1(aux: nat): nat {
    (aux - And(aux / 2, 0x55555555)) % TWO32
  }

  function Line2(y: nat): nat {
    (And(y, 0x33333333) + And(y / 4, 0x33333333)) % TWO32
  }

  function Line3(z: nat): nat {
    And((z + z / 16) % TWO32, 0x0F0F0F0F)
  }

  function CountLanes(aux: nat): nat {
    Line3(Line2(Line1(aux)))
  }

  lemma {:induction false} AndAtMost(x: nat, y: nat)
    ensures And(x, y) <= x && And(x, y) <= y
    decreases x
  {
    if x != 0 && y != 0 {
      AndAtMost(x / 2, y / 2);
    }
  }

  /** The masks of the source. */
  lemma Masks()
    ensures Fives(16) == 0x55555555 && Threes(8) == 0x33333333 && Fifteens(4) == 0x0F0F0F0F
    ensures Pow4(16) == TWO32 && Pow16(8) == TWO32 && Pow256(4) == TWO32
  {
    assert Fives(4) == 0x55 && Pow4(4) == 0x100;
    assert Fives(8) == 0x5555 && Pow4(8) == 0x1_0000;
    assert Fives(12) == 0x555555 && Pow4(12) == 0x100_0000;
  }

  lemma Line1Counts(aux: nat)
    requires aux < TWO32
    ensures Sum4(Line1(aux)) == Ones(aux) && Max4(Line1(aux), 2) && Line1(aux) < TWO32
  {
    Masks();
    hide And, Sum4, Max4, Ones, Fives, Pow4;
    Pairs(aux, 16);
  }

  lemma Line2Sums(y: nat)
    requires y < TWO32 && Max4(y, 2)
    ensures Sum16(Line2(y)) == Sum4(y) && Max16(Line2(y), 4) && Line2(y) <= 0x66666666
  {
    Masks();
    hide And, Sum4, Max4, Sum16, Max16, Threes, Pow16;
    Nibbles(y, 8);
    AndAtMost(y, 0x33333333);
    AndAtMost(y / 4, 0x33333333);
  }

  lemma Line3Sums(z: nat)
    requires z <= 0x66666666 && Max16(z, 4)
    ensures Sum256(Line3(z)) == Sum16(z) && Max256(Line3(z), 8) && Line3(z) <= 0x0F0F0F0F
  {
    Masks();
    hide And, Sum16, Max16, Sum256, Max256, Fifteens, Pow256;
    Bytes(z, 4);
    AndAtMost(z + z / 16, 0x0F0F0F0F);
  }

  /** Each byte of the result is the number of ones of that byte, so together they are all the ones. */
  lemma LanesCount(aux: nat)
    requires aux < TWO32
    ensures Sum256(CountLanes(aux)) == Ones(aux) && Max256(CountLanes(aux), 8) && CountLanes(aux) <= 0x0F0F0F0F
  {
    hide Line1, Line2, Line3, Sum4, Sum16, Sum256, Max4, Max16, Max256, Ones;
    Line1Counts(aux);
    Line2Sums(Line1(aux));
    Line3Sums(Line2(Line1(aux)));
  }

  // -------------------------------------------------------------- seven words at once

  /** Digits that cannot carry are added one by one. */
  lemma {:induction false} AddDigits(x: nat, y: nat, m: nat, k: nat)
    requires Max256(x, m) && Max256(y, k) && m + k < 256
    ensures Sum256(x + y) == Sum256(x) + Sum256(y) && Max256(x + y, m + k)
    decreases x
  {
    hide Sum256, Max256;
    if x == 0 {
      NoDigits();
      MaxWeaker(y, k, m + k);
    } else {
      Digit256(x % 256, x / 256, m);
      Digit256(y % 256, y / 256, k);
      AddDigits(x / 256, y / 256, m, k);
      AddStep(x % 256, x / 256, y % 256, y / 256, m, k);
    }
  }

  lemma NoDigits()
    ensures Sum256(0) == 0 && Max256(0, 0)
  {}

  lemma AddStep(a: nat, p: nat, b: nat, q: nat, m: nat, k: nat)
    requires a <= m && b <= k && m + k < 256
    requires Sum256(p + q) == Sum256(p) + Sum256(q) && Max256(p + q, m + k)
    ensures Sum256((a + 256 * p) + (b + 256 * q)) == Sum256(a + 256 * p) + Sum256(b + 256 * q)
    ensures Max256((a + 256 * p) + (b + 256 * q), m + k)
  {
    hide Sum256, Max256;
    Digit256(a, p, m);
    Digit256(b, q, k);
    assert (a + 256 * p) + (b + 256 * q) == (a + b) + 256 * (p + q);
    Digit256(a + b, p + q, m + k);
  }

  lemma {:induction false} MaxWeaker(x: nat, m: nat, k: nat)
    requires Max256(x, m) && m <= k
    ensures Max256(x, k)
    decreases x
  {
    if x != 0 {
      MaxWeaker(x / 256, m, k);
    }
  }

  /** ((s * 0x01010101) mod 2^32) >> 24 adds the four digits of s up. */
  lemma TopByte(s: nat)
    requires s < TWO32 && Max256(s, 56)
    ensures s * 0x01010101 % TWO32 / 0x1000000 == Sum256(s)
  {
    var a, b, c, d := s % 256, s / 256 % 256, s / 0x10000 % 256, s / 0x1000000;
    hide Sum256, Max256;
    FourBytes(s);
    FourDigits(a, b, c, d);
    FourProduct(a, b, c, d);
  }

  lemma FourBytes(s: nat)
    ensures s == s % 256 + 256 * (s / 256 % 256 + 256 * (s / 0x10000 % 256 + 256 * (s / 0x1000000)))
  {
    var x := s / 256;
    var y := x / 256;
    assert s / 0x10000 == y && s / 0x1000000 == y / 256;
  }

  lemma FourDigits(a: nat, b: nat, c: nat, d: nat)
    requires a < 256 && b < 256 && c < 256 && d < 256
    ensures var s := a + 256 * (b + 256 * (c + 256 * d));
            Sum256(s) == a + b + c + d && (Max256(s, 56) ==> a <= 56 && b <= 56 && c <= 56 && d <= 56)
  {
    hide Sum256, Max256;
    Digit256(a, b + 256 * (c + 256 * d), 56);
    Digit256(b, c + 256 * d, 56);
    Digit256(c, d, 56);
    LastDigit(d, 56);
  }

  lemma LastDigit(d: nat, m: nat)
    requires d < 256
    ensures Sum256(d) == d && (Max256(d, m) ==> d <= m)
  {}

  lemma FourProduct(a: nat, b: nat, c: nat, d: nat)
    requires a <= 56 && b <= 56 && c <= 56 && d <= 56
    ensures (a + 256 * (b + 256 * (c + 256 * d))) * 0x01010101 % TWO32 / 0x1000000 == a + b + c + d
  {
    var top := a + b + c + d;
    var rest := a + 256 * (a + b) + 0x10000 * (a + b + c);
    var high := (b + c + d) + 256 * (c + d) + 0x10000 * d;
    assert (a + 256 * (b + 256 * (c + 256 * d))) * 0x01010101 == rest + 0x1000000 * top + TWO32 * high;
    CutTop(rest, top, high);
  }

  lemma CutTop(rest: nat, top: nat, high: nat)
    requires rest < 0x1000000 && top < 256
    ensures (rest + 0x1000000 * top + TWO32 * high) % TWO32 / 0x1000000 == top
  {
    assert (rest + 0x1000000 * top + TWO32 * high) % TWO32 == rest + 0x1000000 * top;
  }
}
