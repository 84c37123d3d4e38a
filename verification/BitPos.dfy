/**
  Searching for a bit (src/bitops.c): redisBitpos skips whole words, and BITPOS
  masks the edges of a range of bits.
*/
module BitPos {
  import opened Wrappers
  import opened Bits
  import Bitfield
  import opened BitCount

  /** r is the first bit of lo..hi (hi not included) that equals bit, or -1 if there is none. */
  ghost predicate First(s: seq<Byte>, lo: nat, hi: nat, bit: bool, r: int)
    requires hi <= 8 * |s|
  {
    || (r == -1 && forall i :: lo <= i < hi ==> Bit(s, i) != bit)
    || (lo <= r < hi && Bit(s, r) == bit && forall i :: lo <= i < r ==> Bit(s, i) != bit)
  }

  /** No bit of the bytes a..b equals bit. */
  ghost predicate Skipped(s: seq<Byte>, a: nat, b: nat, bit: bool)
    requires b <= |s|
  {
    forall i :: 8 * a <= i < 8 * b ==> Bit(s, i) != bit
  }

  /** What all the bits of a byte to be skipped look like. */
  function SkipVal(bit: bool): Byte {
    if bit then 0 else 0xff
  }

  lemma SkipByte(b: Byte, bit: bool)
    ensures b == SkipVal(bit) <==> forall k :: 0 <= k < 8 ==> On(b, k) != bit
  {
    if forall k :: 0 <= k < 8 ==> On(b, k) != bit {
      assert On(b, 0) != bit && On(b, 1) != bit && On(b, 2) != bit && On(b, 3) != bit;
      assert On(b, 4) != bit && On(b, 5) != bit && On(b, 6) != bit && On(b, 7) != bit;
    }
  }

  lemma SkipOne(s: seq<Byte>, a: nat, b: nat, bit: bool)
    requires a <= b < |s| && Skipped(s, a, b, bit) && s[b] == SkipVal(bit)
    ensures Skipped(s, a, b + 1, bit)
  {
    hide On;
    SkipByte(s[b], bit);
  }

  /** A byte that is not skipped has the bit. */
  lemma Present(s: seq<Byte>, b: nat, bit: bool)
    requires b < |s| && s[b] != SkipVal(bit)
    ensures exists i :: 8 * b <= i < 8 * b + 8 && Bit(s, i) == bit
  {
    hide On;
    SkipByte(s[b], bit);
    var k :| 0 <= k < 8 && On(s[b], k) == bit;
    var i := 8 * b + (7 - k);
    assert i / 8 == b && i % 8 == 7 - k;
    assert Bit(s, i) == bit;
  }

  /** Bytes skipped at the start, one by one, until the address is a multiple of 8. */
  method SkipBytes(s: seq<Byte>, addr: nat, bit: bool) returns (p: nat, found: bool)
    ensures p <= |s| && Skipped(s, 0, p, bit) && (found ==> p < |s| && s[p] != SkipVal(bit))
  {
    p, found := 0, false;
    while (addr + p) % 8 != 0 && p < |s|
      invariant 0 <= p <= |s| && Skipped(s, 0, p, bit)
      decreases |s| - p
    {
      if s[p] != SkipVal(bit) {
        return p, true;
      }
      SkipOne(s, 0, p, bit);
      p := p + 1;
    }
  }

  /** The comparison of a whole word. */
  predicate SkipWord(s: seq<Byte>, p: nat, bit: bool)
    requires p + 8 <= |s|
  {
    forall k :: p <= k < p + 8 ==> s[k] == SkipVal(bit)
  }

  lemma {:induction false} SkipMany(s: seq<Byte>, a: nat, b: nat, n: nat, bit: bool)
    requires a <= b && b + n <= |s| && Skipped(s, a, b, bit) && forall k :: b <= k < b + n ==> s[k] == SkipVal(bit)
    ensures Skipped(s, a, b + n, bit)
    decreases n
  {
    hide On, Skipped, SkipVal;
    if n > 0 {
      SkipMany(s, a, b, n - 1, bit);
      SkipOne(s, a, b + n - 1, bit);
    }
  }

  /** Words skipped after that. */
  method SkipWords(s: seq<Byte>, start: nat, bit: bool) returns (p: nat)
    requires start <= |s| && Skipped(s, 0, start, bit)
    ensures start <= p <= |s| && Skipped(s, 0, p, bit) && (|s| - p >= 8 ==> !SkipWord(s, p, bit))
  {
    hide Skipped;
    p := start;
    while |s| - p >= 8
      invariant start <= p <= |s| && Skipped(s, 0, p, bit)
    {
      if !SkipWord(s, p, bit) {
        return;
      }
      SkipMany(s, 0, p, 8, bit);
      p := p + 8;
    }
  }

  // ------------------------------------------------------------------ the last word

  lemma NumberGrows(s: seq<Byte>, o: nat, n: nat)
    ensures Bitfield.Number(Bitfield.Window(s, o, n + 1)) == 2 * Bitfield.Number(Bitfield.Window(s, o, n)) + One(Padded(s, o + n))
  {
    hide Padded;
    assert Bitfield.Window(s, o, n + 1)[..n] == Bitfield.Window(s, o, n);
  }

  lemma PaddedByte(s: seq<Byte>, p: nat, k: nat)
    requires k < 8
    ensures Padded(s, 8 * p + k) == (p < |s| && On(s[p], 7 - k))
  {
    hide On;
    assert (8 * p + k) / 8 == p && (8 * p + k) % 8 == k;
  }

  /** word << 8 | byte */
  lemma WordGrows(s: seq<Byte>, p: nat, j: nat)
    ensures Bitfield.Number(Bitfield.Window(s, 8 * p, 8 * j + 8))
         == 256 * Bitfield.Number(Bitfield.Window(s, 8 * p, 8 * j)) + if p + j < |s| then Value(s[p + j]) else 0
  {
    hide On, Padded, Bitfield.Number, Bitfield.Window;
    var o, n := 8 * p, 8 * j;
    NumberGrows(s, o, n);
    NumberGrows(s, o, n + 1);
    NumberGrows(s, o, n + 2);
    NumberGrows(s, o, n + 3);
    NumberGrows(s, o, n + 4);
    NumberGrows(s, o, n + 5);
    NumberGrows(s, o, n + 6);
    NumberGrows(s, o, n + 7);
    EightBits(s, p + j);
    assert o + n == 8 * (p + j);
  }

  lemma EightBits(s: seq<Byte>, p: nat)
    ensures Padded(s, 8 * p) == (p < |s| && On(s[p], 7)) && Padded(s, 8 * p + 1) == (p < |s| && On(s[p], 6))
    ensures Padded(s, 8 * p + 2) == (p < |s| && On(s[p], 5)) && Padded(s, 8 * p + 3) == (p < |s| && On(s[p], 4))
    ensures Padded(s, 8 * p + 4) == (p < |s| && On(s[p], 3)) && Padded(s, 8 * p + 5) == (p < |s| && On(s[p], 2))
    ensures Padded(s, 8 * p + 6) == (p < |s| && On(s[p], 1)) && Padded(s, 8 * p + 7) == (p < |s| && On(s[p], 0))
  {
    hide On, Padded;
    PaddedByte(s, p, 0);
    PaddedByte(s, p, 1);
    PaddedByte(s, p, 2);
    PaddedByte(s, p, 3);
    PaddedByte(s, p, 4);
    PaddedByte(s, p, 5);
    PaddedByte(s, p, 6);
    PaddedByte(s, p, 7);
  }

  /** Up to eight bytes, the first one most significant, padded with zeros. */
  method LoadWord(s: seq<Byte>, p: nat) returns (word: nat)
    ensures word == Bitfield.Number(Bitfield.Window(s, 8 * p, 64))
  {
    hide Bitfield.Number, Bitfield.Window, Value;
    word := 0;
    NumberNone(s, 8 * p);
    for j := 0 to 8
      invariant word == Bitfield.Number(Bitfield.Window(s, 8 * p, 8 * j))
    {
      WordGrows(s, p, j);
      word := 256 * word;
      if p + j < |s| {
        word := word + Value(s[p + j]);
      }
    }
  }

  lemma NumberNone(s: seq<Byte>, o: nat)
    ensures Bitfield.Number(Bitfield.Window(s, o, 0)) == 0
  {}

  /** one & word, with the one bit moving down from the top. */
  lemma WordBit(s: seq<Byte>, o: nat, word: nat, t: nat)
    requires word == Bitfield.Number(Bitfield.Window(s, o, 64)) && t < 64
    ensures Bitfield.HasBit(word, 63 - t) == Padded(s, o + t)
  {
    hide Padded, Bitfield.HasBit, Bitfield.Number, Bitfield.Spell;
    var w := Bitfield.Window(s, o, 64);
    Bitfield.SpellNumber(w);
    Bitfield.SpellAt(word, 64, t);
  }

  lemma {:induction false} NumberZero(bits: seq<bool>)
    ensures Bitfield.Number(bits) == 0 <==> forall i :: 0 <= i < |bits| ==> !bits[i]
  {
    if bits != [] {
      var n := |bits| - 1;
      NumberZero(bits[..n]);
      assert forall i :: 0 <= i < n ==> bits[..n][i] == bits[i];
    }
  }

  /** The scan of the last word from the top, which cannot run off its end. */
  method ScanWord(s: seq<Byte>, p: nat, bit: bool, word: nat) returns (pos: nat)
    requires word == Bitfield.Number(Bitfield.Window(s, 8 * p, 64))
    requires exists i :: 8 * p <= i < 8 * p + 64 && Padded(s, i) == bit
    ensures 8 * p <= pos < 8 * p + 64 && Padded(s, pos) == bit
    ensures forall i :: 8 * p <= i < pos ==> Padded(s, i) != bit
  {
    hide Padded, Bitfield.HasBit, Bitfield.Number, Bitfield.Window;
    pos := 8 * p;
    var one := 63;
    while one >= 0
      invariant -1 <= one <= 63 && pos == 8 * p + (63 - one)
      invariant forall i :: 8 * p <= i < pos ==> Padded(s, i) != bit
    {
      WordBit(s, 8 * p, word, 63 - one);
      if Bitfield.HasBit(word, one) == bit {
        return;
      }
      pos := pos + 1;
      one := one - 1;
    }
    assert false;
  }

  /** redisBitpos of a string at address addr. */
  method Bitpos(s: seq<Byte>, addr: nat, bit: bool) returns (pos: int)
    ensures if bit then First(s, 0, 8 * |s|, bit, pos)
            else (pos == 8 * |s| && First(s, 0, 8 * |s|, bit, -1)) || (pos != -1 && First(s, 0, 8 * |s|, bit, pos))
  {
    hide Padded, Bitfield.Number, Bitfield.Window, Skipped, SkipWord;
    var p, found := SkipBytes(s, addr, bit);
    if !found {
      p := SkipWords(s, p, bit);
    }
    var word := LoadWord(s, p);
    LastWord(s, p, bit, word);
    if bit && word == 0 {
      return -1;
    }
    pos := ScanWord(s, p, bit, word);
    Found(s, p, bit, pos);
  }

  /** What the last word says: nothing left, or somewhere in its 64 bits. */
  lemma LastWord(s: seq<Byte>, p: nat, bit: bool, word: nat)
    requires p <= |s| && Skipped(s, 0, p, bit) && word == Bitfield.Number(Bitfield.Window(s, 8 * p, 64))
    requires (p < |s| && s[p] != SkipVal(bit)) || (|s| - p >= 8 ==> !SkipWord(s, p, bit))
    ensures bit && word == 0 ==> First(s, 0, 8 * |s|, bit, -1)
    ensures !(bit && word == 0) ==> exists i :: 8 * p <= i < 8 * p + 64 && Padded(s, i) == bit
  {
    var w := Bitfield.Window(s, 8 * p, 64);
    NumberZero(w);
    if bit && word == 0 {
      NothingLeft(s, p);
    } else if bit {
      var t :| 0 <= t < 64 && w[t];
      assert Padded(s, 8 * p + t);
    } else if |s| - p < 8 {
      assert !Padded(s, 8 * |s|);
    } else {
      ZeroInWord(s, p);
    }
  }

  lemma NothingLeft(s: seq<Byte>, p: nat)
    requires p <= |s| && Skipped(s, 0, p, true) && forall t :: 0 <= t < 64 ==> !Bitfield.Window(s, 8 * p, 64)[t]
    requires (p < |s| && s[p] != SkipVal(true)) || (|s| - p >= 8 ==> !SkipWord(s, p, true))
    ensures First(s, 0, 8 * |s|, true, -1)
  {
    hide On;
    var w := Bitfield.Window(s, 8 * p, 64);
    forall i | 8 * p <= i < 8 * p + 64 && i < 8 * |s|
      ensures !Bit(s, i)
    {
      assert !w[i - 8 * p];
    }
    if p < |s| && s[p] != SkipVal(true) {
      Present(s, p, true);
    } else if |s| - p >= 8 {
      var k :| p <= k < p + 8 && s[k] != SkipVal(true);
      Present(s, k, true);
    }
  }

  lemma ZeroInWord(s: seq<Byte>, p: nat)
    requires |s| - p >= 8
    requires s[p] != SkipVal(false) || !SkipWord(s, p, false)
    ensures exists i :: 8 * p <= i < 8 * p + 64 && !Padded(s, i)
  {
    hide On;
    var k := p;
    if s[p] == SkipVal(false) {
      k :| p <= k < p + 8 && s[k] != SkipVal(false);
    }
    Present(s, k, false);
    var i :| 8 * k <= i < 8 * k + 8 && Bit(s, i) == false;
    assert !Padded(s, i);
  }

  lemma Found(s: seq<Byte>, p: nat, bit: bool, pos: nat)
    requires p <= |s| && Skipped(s, 0, p, bit) && 8 * p <= pos && Padded(s, pos) == bit
    requires forall i :: 8 * p <= i < pos ==> Padded(s, i) != bit
    ensures pos < 8 * |s| ==> First(s, 0, 8 * |s|, bit, pos)
    ensures pos >= 8 * |s| ==> !bit && pos == 8 * |s| && First(s, 0, 8 * |s|, bit, -1)
  {
    hide On;
    assert forall i :: 8 * p <= i < pos && i < 8 * |s| ==> Padded(s, i) == Bit(s, i);
    assert !Padded(s, 8 * |s|);
  }

  // --------------------------------------------------------------------- the command

  /** The bits under the mask made unlike the one looked for. */
  function Blank(b: Byte, mask: Byte, bit: bool): Byte {
    if bit then b & !mask else b | mask
  }

  lemma BlankFirst(b: Byte, k: nat, bit: bool, j: nat)
    requires k < 8 && j < 8
    ensures On(Blank(b, FirstMask(k), bit), j) == bit <==> On(b, j) == bit && j < 8 - k
    ensures FirstMask(k) == 0 <==> k == 0
  {}

  lemma BlankLast(b: Byte, e: nat, bit: bool, j: nat)
    requires e < 8 && j < 8
    ensures On(Blank(b, LastMask(e), bit), j) == bit <==> On(b, j) == bit && j >= 7 - e
    ensures LastMask(e) == 0 <==> e == 7
  {}

  /** The value of redisBitpos that means not found. */
  predicate Missing(pos: int, bytes: nat) {
    pos == -1 || pos == 8 * bytes
  }

  /** What redisBitpos returns, bit or no bit. */
  ghost predicate Searched(t: seq<Byte>, bit: bool, pos: int) {
    if Missing(pos, |t|) then First(t, 0, 8 * |t|, bit, -1) && (pos == -1 <==> bit)
    else First(t, 0, 8 * |t|, bit, pos)
  }

  method Search(t: seq<Byte>, addr: nat, bit: bool) returns (pos: int)
    ensures Searched(t, bit, pos)
  {
    hide Bit;
    pos := Bitpos(t, addr, bit);
  }

  /** Where something found in a part of the string is in the whole. */
  function Shifted(pos: int, bytes: nat, start: nat): int {
    if Missing(pos, bytes) then -1 else pos + 8 * start
  }

  /** A byte with some bits blanked out searches the range of the others. */
  lemma SearchedByte(s: seq<Byte>, a: nat, tmp: Byte, lo: nat, hi: nat, bit: bool, pos: int)
    requires a < |s| && 8 * a <= lo && hi <= 8 * a + 8 && Searched([tmp], bit, pos)
    requires forall j :: 0 <= j < 8 ==> (On(tmp, j) == bit <==> On(s[a], j) == bit && lo <= 8 * a + (7 - j) < hi)
    ensures First(s, lo, hi, bit, Shifted(pos, 1, a))
  {
    hide On;
    forall i | 0 <= i < 8
      ensures Bit([tmp], i) == bit <==> Bit(s, 8 * a + i) == bit && lo <= 8 * a + i < hi
    {
      assert (8 * a + i) / 8 == a && (8 * a + i) % 8 == i;
      assert On(tmp, 7 - i) == bit <==> On(s[a], 7 - i) == bit && lo <= 8 * a + (7 - (7 - i)) < hi;
    }
    hide Bit;
    ByteToString(s, a, tmp, lo, hi, bit, pos);
  }

  lemma ByteToString(s: seq<Byte>, a: nat, tmp: Byte, lo: nat, hi: nat, bit: bool, pos: int)
    requires a < |s| && 8 * a <= lo && hi <= 8 * a + 8 && Searched([tmp], bit, pos)
    requires forall i {:trigger Bit([tmp], i)} :: 0 <= i < 8 ==>
               (Bit([tmp], i) == bit <==> Bit(s, 8 * a + i) == bit && lo <= 8 * a + i < hi)
    ensures First(s, lo, hi, bit, Shifted(pos, 1, a))
  {
    hide Bit;
    var r := Shifted(pos, 1, a);
    forall i | lo <= i < hi && (r == -1 || i < r)
      ensures Bit(s, i) != bit
    {
      assert Bit([tmp], i - 8 * a) != bit;
    }
    if r != -1 {
      assert Bit([tmp], pos) == bit;
    }
  }

  /** Some bytes of the string, as they are. */
  lemma SearchedBytes(s: seq<Byte>, a: nat, b: nat, bit: bool, pos: int)
    requires a <= b <= |s| && Searched(s[a..b], bit, pos)
    ensures First(s, 8 * a, 8 * b, bit, Shifted(pos, b - a, a))
  {
    hide On;
    forall i | 0 <= i < 8 * (b - a)
      ensures Bit(s[a..b], i) == Bit(s, 8 * a + i)
    {
      assert (8 * a + i) / 8 == a + i / 8 && (8 * a + i) % 8 == i % 8;
    }
    hide Bit;
    BytesToString(s, a, b, bit, pos);
  }

  lemma BytesToString(s: seq<Byte>, a: nat, b: nat, bit: bool, pos: int)
    requires a <= b <= |s| && Searched(s[a..b], bit, pos)
    requires forall i {:trigger Bit(s[a..b], i)} :: 0 <= i < 8 * (b - a) ==> Bit(s[a..b], i) == Bit(s, 8 * a + i)
    ensures First(s, 8 * a, 8 * b, bit, Shifted(pos, b - a, a))
  {
    hide Bit;
    var r := Shifted(pos, b - a, a);
    forall i | 8 * a <= i < 8 * b && (r == -1 || i < r)
      ensures Bit(s, i) != bit
    {
      assert Bit(s[a..b], i - 8 * a) != bit;
    }
    if r != -1 {
      assert Bit(s[a..b], pos) == bit;
    }
  }

  /** Found in the first part, or not there and then in the second. */
  lemma FirstJoins(s: seq<Byte>, lo: nat, mid: nat, hi: nat, bit: bool, q: int, r: int)
    requires lo <= mid <= hi <= 8 * |s| && First(s, lo, mid, bit, q)
    requires if q != -1 then r == q else First(s, mid, hi, bit, r)
    ensures First(s, lo, hi, bit, r)
  {
    hide Bit;
  }

  /** The result label of bitposCommand. */
  function Report(pos: int, bytes: nat, start: nat, bit: bool, endGiven: bool): int {
    if endGiven && !bit && pos == 8 * bytes then -1 else if pos != -1 then pos + 8 * start else pos
  }

  /** The first byte, with what lies before the range and maybe behind it blanked out. */
  method SearchFirst(s: seq<Byte>, scratch: nat, first: nat, last: nat, bit: bool) returns (pos: int)
    requires first <= last < 8 * |s|
    ensures var a := first / 8;
            && First(s, first, if last / 8 == a then last + 1 else 8 * a + 8, bit, Shifted(pos, 1, a))
            && -1 <= pos <= 8 && (bit ==> pos != 8) && (pos == -1 ==> bit)
  {
    hide On, Bit, FirstMask, LastMask, Blank;
    var a, k, e := first / 8, first % 8, last % 8;
    var tmp := Blank(s[a], FirstMask(k), bit);
    ghost var hi := 8 * a + 8;
    forall j | 0 <= j < 8
      ensures On(tmp, j) == bit <==> On(s[a], j) == bit && first <= 8 * a + (7 - j) < hi
    {
      BlankFirst(s[a], k, bit, j);
    }
    if LastMask(e) != 0 && last / 8 == a {
      ghost var once := tmp;
      tmp := Blank(tmp, LastMask(e), bit);
      hi := last + 1;
      forall j | 0 <= j < 8
        ensures On(tmp, j) == bit <==> On(s[a], j) == bit && first <= 8 * a + (7 - j) < hi
      {
        BlankLast(once, e, bit, j);
      }
    }
    BlankLast(0, e, bit, 0);
    pos := Search([tmp], scratch, bit);
    SearchedByte(s, a, tmp, first, hi, bit, pos);
  }

  /** The last byte, with what lies behind the range blanked out. */
  method SearchLast(s: seq<Byte>, scratch: nat, last: nat, bit: bool) returns (pos: int)
    requires last < 8 * |s|
    ensures var a := last / 8;
            && First(s, 8 * a, last + 1, bit, Shifted(pos, 1, a))
            && -1 <= pos <= 8 && (bit ==> pos != 8) && (pos == -1 ==> bit)
  {
    hide On, Bit, LastMask, Blank;
    var a, e := last / 8, last % 8;
    var tmp := Blank(s[a], LastMask(e), bit);
    forall j | 0 <= j < 8
      ensures On(tmp, j) == bit <==> On(s[a], j) == bit && 8 * a <= 8 * a + (7 - j) < last + 1
    {
      BlankLast(s[a], e, bit, j);
    }
    pos := Search([tmp], scratch, bit);
    SearchedByte(s, a, tmp, 8 * a, last + 1, bit, pos);
  }

  /** The bytes in between. */
  method SearchBytes(s: seq<Byte>, addr: nat, start: nat, bytes: nat, bit: bool) returns (pos: int)
    requires start + bytes <= |s|
    ensures First(s, 8 * start, 8 * (start + bytes), bit, Shifted(pos, bytes, start))
    ensures -1 <= pos <= 8 * bytes && (bit ==> pos != 8 * bytes) && (pos == -1 ==> bit)
  {
    hide Bit;
    pos := Search(s[start..start + bytes], addr + start, bit);
    SearchedBytes(s, start, start + bytes, bit, pos);
  }

  /** The part of bitposCommand that searches a range of bits, or of whole bytes, with an explicit end. */
  method SearchRange(s: seq<Byte>, addr: nat, scratch: nat, first: nat, last: nat, bit: bool) returns (r: int)
    requires first <= last < 8 * |s|
    ensures First(s, first, last + 1, bit, r)
  {
    hide First, FirstMask, LastMask;
    BlankFirst(0, first % 8, bit, 0);
    BlankLast(0, last % 8, bit, 0);
    var start, end := first / 8, last / 8;
    var bytes := end - start + 1;
    var pos: int;
    if FirstMask(first % 8) != 0 {
      pos := SearchFirst(s, scratch, first, last, bit);
      if bytes == 1 || (pos != -1 && pos != 8) {
        FirstOnly(s, first, last, bit, Shifted(pos, 1, start));
        return Report(pos, bytes, start, bit, true);
      }
      start := start + 1;
      bytes := bytes - 1;
    } else {
      Nothing(s, first, bit);
    }
    r := SearchRest(s, addr, scratch, first, start, bytes, last, bit);
  }

  lemma Nothing(s: seq<Byte>, at: nat, bit: bool)
    requires at <= 8 * |s|
    ensures First(s, at, at, bit, -1)
  {}

  lemma FirstOnly(s: seq<Byte>, first: nat, last: nat, bit: bool, r: int)
    requires first <= last < 8 * |s|
    requires First(s, first, if last / 8 == first / 8 then last + 1 else 8 * (first / 8) + 8, bit, r)
    requires last / 8 == first / 8 || r != -1
    ensures First(s, first, last + 1, bit, r)
  {
    hide Bit;
  }

  /** From a byte boundary on, nothing having been found before it. */
  method SearchRest(s: seq<Byte>, addr: nat, scratch: nat, first: nat, start: nat, bytes: nat, last: nat, bit: bool)
    returns (r: int)
    requires first <= 8 * start <= last < 8 * |s| && bytes == last / 8 - start + 1 && First(s, first, 8 * start, bit, -1)
    ensures First(s, first, last + 1, bit, r)
  {
    hide First, LastMask;
    BlankLast(0, last % 8, bit, 0);
    var curbytes := bytes - if LastMask(last % 8) != 0 then 1 else 0;
    var at, left := start, bytes;
    if curbytes > 0 {
      var pos := SearchBytes(s, addr, start, curbytes, bit);
      var q := Shifted(pos, curbytes, start);
      FirstJoins(s, first, 8 * start, 8 * (start + curbytes), bit, -1, q);
      if bytes == curbytes || (pos != -1 && pos != 8 * curbytes) {
        r := Report(pos, bytes, start, bit, true);
        if bytes != curbytes {
          Nowhere(s, first, 8 * (start + curbytes), last + 1, bit, q);
        }
        return;
      }
      at := at + curbytes;
      left := left - curbytes;
    }
    var pos := SearchLast(s, scratch, last, bit);
    FirstJoins(s, first, 8 * at, last + 1, bit, -1, Shifted(pos, 1, at));
    r := Report(pos, left, at, bit, true);
  }

  lemma Nowhere(s: seq<Byte>, lo: nat, mid: nat, hi: nat, bit: bool, q: int)
    requires lo <= mid <= hi <= 8 * |s| && First(s, lo, mid, bit, q) && q != -1
    ensures First(s, lo, hi, bit, q)
  {
    hide Bit;
  }

  /** Bit i is one that the arguments select and has the value. */
  ghost predicate Hit(s: seq<Byte>, i: int, bit: bool, start: int, end: int, isbit: bool) {
    && 0 <= i < 8 * |s| && Bit(s, i) == bit
    && if isbit then Selected(i, start, end, 8 * |s|) else Selected(i / 8, start, end, |s|)
  }

  lemma FirstHit(s: seq<Byte>, bit: bool, start: int, end: int, isbit: bool, r: int)
    requires match Clip(start, end, if isbit then 8 * |s| else |s|)
             case None => r == -1
             case Some((a, b)) => First(s, if isbit then a else 8 * a, if isbit then b + 1 else 8 * b + 8, bit, r)
    ensures r == -1 || Hit(s, r, bit, start, end, isbit)
    ensures forall i :: (r == -1 || i < r) ==> !Hit(s, i, bit, start, end, isbit)
  {
    hide Bit, Clip, Selected;
    forall i: nat
      ensures Selected(i, start, end, 8 * |s|) <==> Within(Clip(start, end, 8 * |s|), i)
      ensures Selected(i, start, end, |s|) <==> Within(Clip(start, end, |s|), i)
    {
      ClipSelects(start, end, 8 * |s|, i);
      ClipSelects(start, end, |s|, i);
    }
  }

  /** bitposCommand with an explicit end: the first matching bit of the range, or -1. */
  method BitposRange(s: seq<Byte>, addr: nat, scratch: nat, bit: bool, start: int, end: int, isbit: bool) returns (r: int)
    ensures match Clip(start, end, if isbit then 8 * |s| else |s|)
            case None => r == -1
            case Some((a, b)) => First(s, if isbit then a else 8 * a, if isbit then b + 1 else 8 * b + 8, bit, r)
    ensures r == -1 || Hit(s, r, bit, start, end, isbit)
    ensures forall i :: (r == -1 || i < r) ==> !Hit(s, i, bit, start, end, isbit)
  {
    hide First, Hit;
    var range := Clip(start, end, if isbit then 8 * |s| else |s|);
    match range {
      case None => r := -1;
      case Some((a, b)) =>
        if isbit {
          r := SearchRange(s, addr, scratch, a, b, bit);
        } else {
          var pos := SearchBytes(s, addr, a, b - a + 1, bit);
          r := Report(pos, b - a + 1, a, bit, true);
        }
    }
    FirstHit(s, bit, start, end, isbit, r);
  }

  /** bitposCommand without an end: the string goes on with zeros, so looking for a zero cannot fail unless it starts behind the end. */
  method BitposFrom(s: seq<Byte>, addr: nat, bit: bool, start: int) returns (r: int)
    ensures match Clip(start, |s| - 1, |s|)
            case None => r == -1
            case Some((a, _)) =>
              if First(s, 8 * a, 8 * |s|, bit, -1) then r == if bit then -1 else 8 * |s|
              else First(s, 8 * a, 8 * |s|, bit, r)
    ensures (exists i :: Hit(s, i, bit, start, |s|, false)) ==>
              Hit(s, r, bit, start, |s|, false) && forall i :: i < r ==> !Hit(s, i, bit, start, |s|, false)
    ensures (!exists i :: Hit(s, i, bit, start, |s|, false)) ==>
              r == if bit || !exists i :: Selected(i, start, |s|, |s|) then -1 else 8 * |s|
  {
    var range := Clip(start, |s| - 1, |s|);
    match range {
      case None => r := -1;
      case Some((a, b)) =>
        var pos := SearchBytes(s, addr, a, b - a + 1, bit);
        r := Report(pos, b - a + 1, a, bit, false);
    }
    HitFrom(s, bit, start, r);
  }

  lemma HitFrom(s: seq<Byte>, bit: bool, start: int, r: int)
    requires match Clip(start, |s| - 1, |s|)
             case None => r == -1
             case Some((a, _)) =>
               if First(s, 8 * a, 8 * |s|, bit, -1) then r == if bit then -1 else 8 * |s|
               else First(s, 8 * a, 8 * |s|, bit, r)
    ensures (exists i :: Hit(s, i, bit, start, |s|, false)) ==>
              Hit(s, r, bit, start, |s|, false) && forall i :: i < r ==> !Hit(s, i, bit, start, |s|, false)
    ensures (!exists i :: Hit(s, i, bit, start, |s|, false)) ==>
              r == if bit || !exists i :: Selected(i, start, |s|, |s|) then -1 else 8 * |s|
  {
    var range := Clip(start, |s| - 1, |s|);
    if range.Some? {
      assert Selected(range.value.0, start, |s|, |s|);
    }
    forall i: int | 0 <= i < 8 * |s|
      ensures Hit(s, i, bit, start, |s|, false) <==> range.Some? && 8 * range.value.0 <= i && Bit(s, i) == bit
    {}
  }
}
