/**
  CRC64 (src/crc64.c, src/crcspeed.c): the bit-at-a-time shift register, the
  slice-by-8 tables, and the little- and big-endian table-driven loops.

  A machine word is the sequence of its 64 bits, least significant first.
  Everything is proved against one reference, the register of `_crc64`. The bridge
  is `Clock(f, n, -)` for f = `Reflected(poly)`, which clocks n zero bits through the
  *reflected* register. It is linear over GF(2), row k of the table is
  `Clock(f, 8 * (k + 1), -)` on single bytes, and feeding message bits is `Clock` of an
  exclusive or.
*/
module Crc64 {
  import Bits
  import Gf2

  // ------------------------------------------------------------------- words

  type Word = w: seq<bool> | |w| == 64 witness seq(64, _ => false)
  type Byte = b: seq<bool> | |b| == 8 witness seq(8, _ => false)

  function Zeros(n: nat): (z: seq<bool>)
    ensures |z| == n && forall i :: 0 <= i < n ==> !z[i]
  {
    seq(n, _ => false)
  }

  const ZERO: Word := Zeros(64)

  /** a ^ b */
  function Xor(a: Word, b: Word): (r: Word)
    ensures forall i :: 0 <= i < 64 ==> r[i] == (a[i] != b[i])
  {
    seq(64, i requires 0 <= i < 64 => a[i] != b[i])
  }

  /** a >> n */
  function Shr(a: Word, n: nat): Word
    requires n <= 64
  {
    a[n..] + Zeros(n)
  }

  /** a << n */
  function Shl(a: Word, n: nat): Word
    requires n <= 64
  {
    Zeros(n) + a[..64 - n]
  }

  /** a & 0xff */
  function Low(a: Word): Byte {
    a[..8]
  }

  /** The bits of bs at the bottom of a word, as by integer promotion. */
  function Pad(bs: seq<bool>): Word
    requires |bs| <= 64
  {
    bs + Zeros(64 - |bs|)
  }

  /** The number whose bits, least significant first, are bs. */
  function Number(bs: seq<bool>): nat {
    if bs == [] then 0 else (if bs[0] then 1 else 0) + 2 * Number(bs[1..])
  }

  /** The k low bits of n. */
  function BitsOf(n: nat, k: nat): (bs: seq<bool>)
    ensures |bs| == k
    decreases k
  {
    if k == 0 then [] else [n % 2 == 1] + BitsOf(n / 2, k - 1)
  }

  lemma {:induction false} NumberInverse(bs: seq<bool>)
    ensures BitsOf(Number(bs), |bs|) == bs
    ensures Number(bs) < Bits.Pow2(|bs|)
  {
    if bs != [] {
      NumberInverse(bs[1..]);
      assert bs == [bs[0]] + bs[1..];
    }
  }

  lemma {:induction false} BitsOfInverse(n: nat, k: nat)
    requires n < Bits.Pow2(k)
    ensures Number(BitsOf(n, k)) == n
    decreases k
  {
    if k > 0 {
      BitsOfInverse(n / 2, k - 1);
      assert BitsOf(n, k)[1..] == BitsOf(n / 2, k - 1);
    }
  }

  /** A byte as a table index. */
  function Index(b: Byte): (n: nat)
    ensures n < 256
    ensures BitsOf(n, 8) == b
  {
    NumberInverse(b);
    assert Bits.Pow2(8) == 256;
    Number(b)
  }

  lemma XorUnit(a: Word)
    ensures Xor(a, ZERO) == a && Xor(ZERO, a) == a && Xor(a, a) == ZERO
  {}

  lemma XorCommutes(a: Word, b: Word)
    ensures Xor(a, b) == Xor(b, a)
  {}

  /** rev8: the bytes of a word in the opposite order. */
  function Rev8(w: Word): (r: Word)
    ensures forall i :: 0 <= i < 64 ==> r[i] == w[56 - i / 8 * 8 + i % 8]
  {
    seq(64, i requires 0 <= i < 64 => w[56 - i / 8 * 8 + i % 8])
  }

  // ---------------------------------------------------- bit-at-a-time register

  /** All bits in the opposite order. */
  function Reflect(w: Word): (r: Word)
    ensures forall i :: 0 <= i < 64 ==> r[i] == w[63 - i]
  {
    seq(64, i requires 0 <= i < 64 => w[63 - i])
  }

  lemma ReflectInvolutive(w: Word)
    ensures Reflect(Reflect(w)) == w
  {}

  /** One turn of the inner loop of _crc64: clock one message bit. */
  function RegisterBit(poly: Word, crc: Word, one: bool): Word {
    Xor(Shl(crc, 1), if crc[63] != one then poly else ZERO)
  }

  /** The register after a sequence of message bits. */
  function Register(poly: Word, crc: Word, bits: seq<bool>): Word
    decreases bits
  {
    if bits == [] then crc else Register(poly, RegisterBit(poly, crc, bits[0]), bits[1..])
  }

  /** The message bits of a buffer: each byte least significant bit first. */
  function Message(s: seq<Byte>): (bits: seq<bool>)
    ensures |bits| == 8 * |s|
  {
    if s == [] then [] else s[0] + Message(s[1..])
  }

  /** What _crc64 computes: the message clocked through the register, then reflected. */
  function Reference(poly: Word, crc: Word, s: seq<Byte>): Word {
    Reflect(Register(poly, crc, Message(s)))
  }

  lemma {:induction false} RegisterSplits(poly: Word, crc: Word, a: seq<bool>, b: seq<bool>)
    ensures Register(poly, crc, a + b) == Register(poly, Register(poly, crc, a), b)
    decreases a
  {
    hide RegisterBit;
    if a == [] {
      assert a + b == b;
    } else {
      RegisterSplits(poly, RegisterBit(poly, crc, a[0]), a[1..], b);
      assert (a + b)[1..] == a[1..] + b;
    }
  }

  lemma {:induction false} MessageSplits(s: seq<Byte>, t: seq<Byte>)
    ensures Message(s + t) == Message(s) + Message(t)
  {
    if s == [] {
      assert s + t == t;
    } else {
      MessageSplits(s[1..], t);
      assert (s + t)[1..] == s[1..] + t;
    }
  }

  /** crc_reflect: the low dataLen bits of the word in the opposite order. */
  method CrcReflect(word: Word, dataLen: nat) returns (ret: Word)
    requires 1 <= dataLen <= 64
    ensures forall i :: 0 <= i < 64 ==> ret[i] == (i < dataLen && word[dataLen - 1 - i])
    ensures dataLen == 64 ==> ret == Reflect(word)
  {
    var data := word;
    ret := Pad([data[0]]);
    var i := 1;
    while i < dataLen
      invariant 1 <= i <= dataLen
      invariant data == Shr(word, i - 1)
      invariant forall j :: 0 <= j < 64 ==> ret[j] == (j < i && word[i - 1 - j])
    {
      data := Shr(data, 1);
      ret := Xor(Shl(ret, 1), Pad([data[0]]));
      i := i + 1;
    }
  }

  /** The inner loop of _crc64: the bits of one byte, least significant first. */
  method ClockByte(poly: Word, before: Word, c: Byte) returns (crc: Word)
    ensures crc == Register(poly, before, c)
  {
    crc := before;
    for i := 0 to 8
      invariant Register(poly, crc, c[i..]) == Register(poly, before, c)
    {
      assert c[i..][1..] == c[i + 1..];
      var bit := crc[63];
      if c[i] {
        bit := !bit;
      }
      crc := Shl(crc, 1);
      if bit {
        crc := Xor(crc, poly);
      } else {
        XorUnit(crc);
      }
    }
  }

  /** _crc64. The source fixes poly; nothing below depends on which word it is. */
  method CrcBitwise(poly: Word, initial: Word, data: seq<Byte>) returns (r: Word)
    ensures r == Reference(poly, initial, data)
  {
    var crc := initial;
    for offset := 0 to |data|
      invariant crc == Register(poly, initial, Message(data[..offset]))
    {
      crc := ClockByte(poly, crc, data[offset]);
      MessageGrows(data, offset);
      RegisterSplits(poly, initial, Message(data[..offset]), data[offset]);
    }
    assert data[..|data|] == data;
    r := CrcReflect(crc, 64);
  }

  lemma MessageGrows(s: seq<Byte>, i: nat)
    requires i < |s|
    ensures Message(s[..i + 1]) == Message(s[..i]) + s[i]
  {
    assert s[..i + 1] == s[..i] + [s[i]];
    MessageSplits(s[..i], [s[i]]);
    assert Message([s[i]]) == s[i];
  }

  // ---------------------------------------------------- the reflected register

  /** f applied n times. */
  function Clock(f: Word -> Word, n: nat, r: Word): Word {
    if n == 0 then r else Clock(f, n - 1, f(r))
  }

  ghost predicate Linear(f: Word -> Word) {
    forall a: Word, b: Word {:trigger f(Xor(a, b))} :: f(Xor(a, b)) == Xor(f(a), f(b))
  }

  /**
    A linear shift register: linear, and while its low bit is clear it only moves
    down. The slice-by-8 argument needs nothing else of it.
  */
  ghost predicate ShiftRegister(f: Word -> Word) {
    && Linear(f)
    && forall r: Word {:trigger f(r)} :: !r[0] ==> f(r) == Shr(r, 1)
  }

  /** Clock one zero bit through the reflected register. */
  function ZeroBit(poly: Word, r: Word): Word {
    Xor(Shr(r, 1), if r[0] then Reflect(poly) else ZERO)
  }

  /** The reflected register of `_crc64`, as a map. */
  function Reflected(poly: Word): Word -> Word {
    (r: Word) => ZeroBit(poly, r)
  }

  lemma ReflectedShiftRegister(poly: Word)
    ensures ShiftRegister(Reflected(poly))
  {
    var f := Reflected(poly);
    forall a: Word, b: Word
      ensures f(Xor(a, b)) == Xor(f(a), f(b))
    {
    }
    forall r: Word | !r[0]
      ensures f(r) == Shr(r, 1)
    {
      XorUnit(Shr(r, 1));
    }
  }

  /** Reflection turns a clocked message bit into an exclusive or with bit zero. */
  lemma ReflectRegisterBit(poly: Word, crc: Word, one: bool)
    ensures Reflect(RegisterBit(poly, crc, one)) == ZeroBit(poly, Xor(Reflect(crc), Pad([one])))
  {
    hide Shr, Shl, Pad, Xor, Reflect;
    ReflectShift(crc, one);
    ReflectXor(Shl(crc, 1), if crc[63] != one then poly else ZERO);
  }

  lemma ReflectXor(a: Word, b: Word)
    ensures Reflect(Xor(a, b)) == Xor(Reflect(a), Reflect(b))
  {}

  lemma ReflectShift(crc: Word, one: bool)
    ensures var r := Xor(Reflect(crc), Pad([one]));
            Shr(r, 1) == Reflect(Shl(crc, 1)) && r[0] == (crc[63] != one)
  {}

  lemma {:induction false} ClockAdd(f: Word -> Word, m: nat, n: nat, r: Word)
    ensures Clock(f, m + n, r) == Clock(f, n, Clock(f, m, r))
    decreases m
  {
    if m > 0 {
      ClockAdd(f, m - 1, n, f(r));
    }
  }

  lemma {:induction false} ClockLinear(f: Word -> Word, n: nat, a: Word, b: Word)
    requires Linear(f)
    ensures Clock(f, n, Xor(a, b)) == Xor(Clock(f, n, a), Clock(f, n, b))
    decreases n
  {
    if n > 0 {
      ClockLinear(f, n - 1, f(a), f(b));
    }
  }

  /** As long as the low bits are clear the register only moves down. */
  lemma {:induction false} ClockShift(f: Word -> Word, k: nat, n: nat, r: Word)
    requires ShiftRegister(f)
    requires k <= n && k <= 64 && forall i :: 0 <= i < k ==> !r[i]
    ensures Clock(f, n, r) == Clock(f, n - k, Shr(r, k))
    decreases k
  {
    if k == 0 {
      assert Shr(r, 0) == r;
    } else {
      ClockShift(f, k - 1, n - 1, Shr(r, 1));
      assert Shr(Shr(r, 1), k - 1) == Shr(r, k);
    }
  }

  /** The first of several pending message bits can be clocked on its own. */
  lemma FeedFirst(f: Word -> Word, r: Word, bits: seq<bool>)
    requires ShiftRegister(f)
    requires 1 <= |bits| <= 64
    ensures f(Xor(r, Pad(bits))) == Xor(f(Xor(r, Pad([bits[0]]))), Pad(bits[1..]))
  {
    var rest := Pad([false] + bits[1..]);
    assert Xor(r, Pad(bits)) == Xor(Xor(r, Pad([bits[0]])), rest);
    assert Shr(rest, 1) == Pad(bits[1..]);
  }

  /** Feeding at most 64 message bits is one exclusive or, then as many zero bits. */
  lemma {:induction false} FeedBits(poly: Word, crc: Word, bits: seq<bool>)
    requires |bits| <= 64
    ensures Reflect(Register(poly, crc, bits)) == Clock(Reflected(poly), |bits|, Xor(Reflect(crc), Pad(bits)))
    decreases bits
  {
    if bits == [] {
      XorUnit(Reflect(crc));
      assert Pad(bits) == ZERO;
    } else {
      ReflectRegisterBit(poly, crc, bits[0]);
      FeedBits(poly, RegisterBit(poly, crc, bits[0]), bits[1..]);
      ReflectedShiftRegister(poly);
      FeedFirst(Reflected(poly), Reflect(crc), bits);
    }
  }

  // -------------------------------------------------------------------- tables

  /** Row k, column n: the byte n followed by k + 1 bytes' worth of zero bits. */
  function Entry(f: Word -> Word, k: nat, n: nat): Word {
    Clock(f, 8 * (k + 1), Pad(BitsOf(n, 8)))
  }

  ghost predicate LittleTable(f: Word -> Word, table: array2<Word>)
    reads table
  {
    && table.Length0 == 8 && table.Length1 == 256
    && forall k, n :: 0 <= k < 8 && 0 <= n < 256 ==> table[k, n] == Entry(f, k, n)
  }

  ghost predicate BigTable(f: Word -> Word, table: array2<Word>)
    reads table
  {
    && table.Length0 == 8 && table.Length1 == 256
    && forall k, n :: 0 <= k < 8 && 0 <= n < 256 ==> table[k, n] == Rev8(Entry(f, k, n))
  }

  /** One byte's worth of zero bits: the low byte through row 0, the rest moved down. */
  lemma ClockByteSplit(f: Word -> Word, m: nat, x: Word)
    requires ShiftRegister(f) && m >= 1
    ensures Clock(f, 8 * m, x) == Xor(Clock(f, 8 * m, Pad(Low(x))), Clock(f, 8 * (m - 1), Shr(x, 8)))
  {
    var high: Word := Zeros(8) + x[8..];
    assert x == Xor(Pad(Low(x)), high);
    ClockLinear(f, 8 * m, Pad(Low(x)), high);
    ClockShift(f, 8, 8 * m, high);
    assert Shr(high, 8) == Shr(x, 8);
  }

  /** Row 0 in terms of `_crc64` on a single byte. */
  lemma FirstRow(poly: Word, b: Byte)
    ensures Reference(poly, ZERO, [b]) == Entry(Reflected(poly), 0, Index(b))
  {
    FeedBits(poly, ZERO, b);
    assert Reflect(ZERO) == ZERO;
    XorUnit(Pad(b));
    assert Message([b]) == b;
  }

  lemma NextRow(f: Word -> Word, k: nat, n: nat, crc: Word)
    requires ShiftRegister(f) && crc == Entry(f, k, n)
    ensures Xor(Entry(f, 0, Index(Low(crc))), Shr(crc, 8)) == Entry(f, k + 1, n)
  {
    ClockAdd(f, 8 * (k + 1), 8, Pad(BitsOf(n, 8)));
    ClockByteSplit(f, 1, crc);
  }

  ghost predicate IsByteCrc(poly: Word, n: nat, w: Word) {
    w == Reference(poly, ZERO, [BitsOf(n, 8)])
  }

  /** w is the entry below `above` in the same column. */
  ghost predicate IsBelow(row0: seq<Word>, above: Word, w: Word)
    requires |row0| == 256
  {
    w == Xor(row0[Index(Low(above))], Shr(above, 8))
  }

  method ByteCrc(poly: Word, n: nat) returns (c: Word)
    ensures IsByteCrc(poly, n, c)
  {
    c := CrcBitwise(poly, ZERO, [BitsOf(n, 8)]);
  }

  method Below(table: array2<Word>, above: Word, ghost row0: seq<Word>) returns (crc: Word)
    requires table.Length0 == 8 && table.Length1 == 256 && |row0| == 256
    requires forall j :: 0 <= j < 256 ==> table[0, j] == row0[j]
    ensures IsBelow(row0, above, crc)
  {
    crc := Xor(table[0, Index(Low(above))], Shr(above, 8));
  }

  /** The first loop of crcspeed64little_init: the CRC of every single byte. */
  method FillFirstRow(poly: Word, table: array2<Word>)
    requires table.Length0 == 8 && table.Length1 == 256
    modifies table
    ensures forall n :: 0 <= n < 256 ==> IsByteCrc(poly, n, table[0, n])
  {
    hide IsByteCrc;
    for n := 0 to 256
      invariant forall j :: 0 <= j < n ==> IsByteCrc(poly, j, table[0, j])
    {
      var c := ByteCrc(poly, n);
      table[0, n] := c;
    }
  }

  /** The inner loop of the second part of crcspeed64little_init. */
  method FillColumn(table: array2<Word>, n: nat, ghost row0: seq<Word>)
    requires table.Length0 == 8 && table.Length1 == 256 && |row0| == 256 && n < 256
    requires forall j :: 0 <= j < 256 ==> table[0, j] == row0[j]
    modifies table
    ensures forall j :: 0 <= j < 256 ==> table[0, j] == row0[j]
    ensures forall i, j :: 0 <= i < 8 && 0 <= j < 256 && j != n ==> table[i, j] == old(table[i, j])
    ensures forall i :: 1 <= i < 8 ==> IsBelow(row0, table[i - 1, n], table[i, n])
  {
    hide IsBelow;
    var crc := table[0, n];
    for k := 1 to 8
      invariant crc == table[k - 1, n]
      invariant forall j :: 0 <= j < 256 ==> table[0, j] == row0[j]
      invariant forall i, j :: 0 <= i < 8 && 0 <= j < 256 && j != n ==> table[i, j] == old(table[i, j])
      invariant forall i :: 1 <= i < k ==> IsBelow(row0, table[i - 1, n], table[i, n])
    {
      crc := Below(table, crc, row0);
      table[k, n] := crc;
    }
  }

  method FillColumns(table: array2<Word>, ghost row0: seq<Word>)
    requires table.Length0 == 8 && table.Length1 == 256 && |row0| == 256
    requires forall j :: 0 <= j < 256 ==> table[0, j] == row0[j]
    modifies table
    ensures forall j :: 0 <= j < 256 ==> table[0, j] == row0[j]
    ensures forall i, j :: 1 <= i < 8 && 0 <= j < 256 ==> IsBelow(row0, table[i - 1, j], table[i, j])
  {
    for n := 0 to 256
      invariant forall j :: 0 <= j < 256 ==> table[0, j] == row0[j]
      invariant forall i, j :: 1 <= i < 8 && 0 <= j < n ==> IsBelow(row0, table[i - 1, j], table[i, j])
    {
      FillColumn(table, n, row0);
    }
  }

  /** crcspeed64little_init with `_crc64`: row k means k + 1 bytes of zero bits. */
  method LittleInit(poly: Word, table: array2<Word>)
    requires table.Length0 == 8 && table.Length1 == 256
    modifies table
    ensures LittleTable(Reflected(poly), table)
  {
    FillFirstRow(poly, table);
    ghost var row0 := seq(256, j requires 0 <= j < 256 reads table => table[0, j]);
    FillColumns(table, row0);
    forall k, n | 0 <= k < 8 && 0 <= n < 256
      ensures table[k, n] == Entry(Reflected(poly), k, n)
    {
      ColumnMeaning(poly, row0, table, k, n);
    }
  }

  lemma IndexOfBits(n: nat)
    requires n < 256
    ensures Index(BitsOf(n, 8)) == n
  {
    assert Bits.Pow2(8) == 256;
    BitsOfInverse(n, 8);
  }

  lemma {:induction false} ColumnMeaning(poly: Word, row0: seq<Word>, table: array2<Word>, k: nat, n: nat)
    requires table.Length0 == 8 && table.Length1 == 256 && |row0| == 256 && k < 8 && n < 256
    requires forall j :: 0 <= j < 256 ==> IsByteCrc(poly, j, row0[j])
    requires forall j :: 0 <= j < 256 ==> table[0, j] == row0[j]
    requires forall i, j :: 1 <= i < 8 && 0 <= j < 256 ==> IsBelow(row0, table[i - 1, j], table[i, j])
    ensures table[k, n] == Entry(Reflected(poly), k, n)
    decreases k
  {
    hide Entry, Index, BitsOf, Reference, Xor, Shr, Low, Reflected;
    if k == 0 {
      IndexOfBits(n);
      FirstRow(poly, BitsOf(n, 8));
    } else {
      var above := table[k - 1, n];
      ColumnMeaning(poly, row0, table, k - 1, n);
      FirstRow(poly, Low(above));
      ReflectedShiftRegister(poly);
      NextRow(Reflected(poly), k - 1, n, above);
    }
  }

  /** The loops of crcspeed64big_init. */
  method ReverseEntries(table: array2<Word>)
    requires table.Length0 == 8 && table.Length1 == 256
    modifies table
    ensures forall i, j :: 0 <= i < 8 && 0 <= j < 256 ==> table[i, j] == Rev8(old(table[i, j]))
  {
    for k := 0 to 8
      invariant forall i, j :: 0 <= i < k && 0 <= j < 256 ==> table[i, j] == Rev8(old(table[i, j]))
      invariant forall i, j :: k <= i < 8 && 0 <= j < 256 ==> table[i, j] == old(table[i, j])
    {
      for n := 0 to 256
        invariant forall i, j :: 0 <= i < 8 && 0 <= j < 256 ==>
            table[i, j] == if i < k || (i == k && j < n) then Rev8(old(table[i, j])) else old(table[i, j])
      {
        table[k, n] := Rev8(table[k, n]);
      }
    }
  }

  /** crcspeed64big_init: the little-endian table with every entry byte-reversed. */
  method BigInit(poly: Word, table: array2<Word>)
    requires table.Length0 == 8 && table.Length1 == 256
    modifies table
    ensures BigTable(Reflected(poly), table)
  {
    LittleInit(poly, table);
    ReverseEntries(table);
  }

  // ------------------------------------------------------------- whole buffers

  /** The reflected register after a buffer, one byte at a time. */
  function Run(f: Word -> Word, crc: Word, s: seq<Byte>): Word
    decreases s
  {
    if s == [] then crc else Run(f, Clock(f, 8, Xor(crc, Pad(s[0]))), s[1..])
  }

  lemma {:induction false} RunSplits(f: Word -> Word, crc: Word, s: seq<Byte>, t: seq<Byte>)
    ensures Run(f, crc, s + t) == Run(f, Run(f, crc, s), t)
    decreases s
  {
    if s == [] {
      assert s + t == t;
    } else {
      RunSplits(f, Clock(f, 8, Xor(crc, Pad(s[0]))), s[1..], t);
      assert (s + t)[1..] == s[1..] + t;
    }
  }

  /** The first of several pending message bytes can be clocked on its own. */
  lemma FeedFirstByte(f: Word -> Word, crc: Word, bits: seq<bool>)
    requires ShiftRegister(f) && 8 <= |bits| <= 64
    ensures Clock(f, 8, Xor(crc, Pad(bits))) == Xor(Clock(f, 8, Xor(crc, Pad(bits[..8]))), Pad(bits[8..]))
  {
    var first := Xor(crc, Pad(bits[..8]));
    var rest := Pad(Zeros(8) + bits[8..]);
    assert Xor(crc, Pad(bits)) == Xor(first, rest);
    ClockLinear(f, 8, first, rest);
    ClockShift(f, 8, 8, rest);
    assert Shr(rest, 8) == Pad(bits[8..]);
  }

  /** Reading up to a word's worth of bytes at once. */
  lemma {:induction false} RunWord(f: Word -> Word, crc: Word, s: seq<Byte>)
    requires ShiftRegister(f) && |s| <= 8
    ensures Run(f, crc, s) == Clock(f, 8 * |s|, Xor(crc, Pad(Message(s))))
    decreases s
  {
    if s == [] {
      XorUnit(crc);
      assert Pad(Message(s)) == ZERO;
    } else {
      assert Message(s)[..8] == s[0] && Message(s)[8..] == Message(s[1..]);
      FeedFirstByte(f, crc, Message(s));
      ClockAdd(f, 8, 8 * |s| - 8, Xor(crc, Pad(Message(s))));
      RunWord(f, Clock(f, 8, Xor(crc, Pad(s[0]))), s[1..]);
    }
  }

  /** The byte loop is the reference, seen through reflection. */
  lemma {:induction false} RunIsReference(poly: Word, crc: Word, s: seq<Byte>)
    ensures Reference(poly, crc, s) == Run(Reflected(poly), Reflect(crc), s)
    decreases s
  {
    if s != [] {
      var next := Register(poly, crc, s[0]);
      RegisterSplits(poly, crc, s[0], Message(s[1..]));
      FeedBits(poly, crc, s[0]);
      RunIsReference(poly, next, s[1..]);
    }
  }

  /** acc already holds what the low bytes of x contribute; the top m bytes are left. */
  ghost predicate Sliced(f: Word -> Word, x: Word, m: nat, acc: Word)
    requires m <= 8
  {
    Xor(acc, Clock(f, 8 * m, Shr(x, 64 - 8 * m))) == Clock(f, 64, x)
  }

  /** What row k contributes to the word x. */
  function Slice(f: Word -> Word, x: Word, k: nat): Word
    requires k < 8
  {
    Entry(f, k, Index(Low(Shr(x, 56 - 8 * k))))
  }

  lemma SliceFirst(f: Word -> Word, x: Word)
    requires ShiftRegister(f)
    ensures Sliced(f, x, 7, Slice(f, x, 7))
  {
    assert Shr(x, 0) == x;
    ClockByteSplit(f, 8, x);
  }

  lemma SliceNext(f: Word -> Word, x: Word, k: nat, acc: Word)
    requires ShiftRegister(f) && k < 8 && Sliced(f, x, k + 1, acc)
    ensures Sliced(f, x, k, Xor(acc, Slice(f, x, k)))
  {
    var y := Shr(x, 56 - 8 * k);
    ClockByteSplit(f, k + 1, y);
    assert Shr(y, 8) == Shr(x, 64 - 8 * k);
  }

  lemma SliceLast(f: Word -> Word, x: Word, acc: Word)
    requires Sliced(f, x, 0, acc)
    ensures acc == Clock(f, 64, x)
  {
    assert Shr(x, 64) == ZERO;
    XorUnit(acc);
  }

  /** t[7] ^ t[6] ^ ... ^ t[k], associated to the left as in C. */
  function XorRows(t: seq<Word>, k: nat): Word
    requires k < |t|
    decreases |t| - k
  {
    if k == |t| - 1 then t[k] else Xor(XorRows(t, k + 1), t[k])
  }

  /** t holds the entry that each row contributes to x. */
  ghost predicate Picked(f: Word -> Word, x: Word, t: seq<Word>) {
    |t| == 8 && forall k :: 0 <= k < 8 ==> t[k] == Slice(f, x, k)
  }

  lemma {:induction false} SliceRows(f: Word -> Word, x: Word, t: seq<Word>, k: nat)
    requires ShiftRegister(f) && Picked(f, x, t) && k < 8
    ensures Sliced(f, x, k, XorRows(t, k))
    decreases 8 - k
  {
    if k == 7 {
      SliceFirst(f, x);
    } else {
      SliceRows(f, x, t, k + 1);
      SliceNext(f, x, k, XorRows(t, k + 1));
    }
  }

  /** The word step of crcspeed64little clocks all 64 bits of the word. */
  lemma SliceBy8(f: Word -> Word, x: Word, t: seq<Word>)
    requires ShiftRegister(f) && Picked(f, x, t)
    ensures XorRows(t, 0) == Clock(f, 64, x)
  {
    SliceRows(f, x, t, 0);
    SliceLast(f, x, XorRows(t, 0));
  }

  lemma XorRowsUnfold(t: seq<Word>)
    requires |t| == 8
    ensures XorRows(t, 0) == Xor(Xor(Xor(Xor(Xor(Xor(Xor(t[7], t[6]), t[5]), t[4]), t[3]), t[2]), t[1]), t[0])
  {
    assert XorRows(t, 6) == Xor(t[7], t[6]);
    assert XorRows(t, 4) == Xor(Xor(XorRows(t, 6), t[5]), t[4]);
    assert XorRows(t, 2) == Xor(Xor(XorRows(t, 4), t[3]), t[2]);
  }

  /** The byte step of both loops of crcspeed64little. */
  lemma ByteStep(f: Word -> Word, crc: Word, b: Byte)
    requires ShiftRegister(f)
    ensures Xor(Entry(f, 0, Index(Low(Xor(crc, Pad(b))))), Shr(crc, 8)) == Clock(f, 8, Xor(crc, Pad(b)))
  {
    var x := Xor(crc, Pad(b));
    ClockByteSplit(f, 1, x);
    assert Shr(x, 8) == Shr(crc, 8);
  }

  lemma RunGrows(f: Word -> Word, crc: Word, s: seq<Byte>, i: nat)
    requires i < |s|
    ensures Run(f, crc, s[..i + 1]) == Clock(f, 8, Xor(Run(f, crc, s[..i]), Pad(s[i])))
  {
    assert s[..i + 1] == s[..i] + [s[i]];
    RunSplits(f, crc, s[..i], [s[i]]);
  }

  lemma RunGrowsWord(f: Word -> Word, crc: Word, s: seq<Byte>, i: nat)
    requires ShiftRegister(f) && i + 8 <= |s|
    ensures Run(f, crc, s[..i + 8]) == Clock(f, 64, Xor(Run(f, crc, s[..i]), Message(s[i..i + 8])))
  {
    assert s[..i + 8] == s[..i] + s[i..i + 8];
    RunSplits(f, crc, s[..i], s[i..i + 8]);
    RunWord(f, Run(f, crc, s[..i]), s[i..i + 8]);
    assert Pad(Message(s[i..i + 8])) == Message(s[i..i + 8]);
  }

  /** crcspeed64little on a buffer at address addr. */
  method CrcspeedLittle(table: array2<Word>, initial: Word, addr: nat, buf: seq<Byte>, ghost f: Word -> Word)
    returns (crc: Word)
    requires ShiftRegister(f) && LittleTable(f, table)
    ensures crc == Run(f, initial, buf)
  {
    crc := initial;
    var next := 0;
    while next < |buf| && (addr + next) % 8 != 0
      invariant 0 <= next <= |buf|
      invariant crc == Run(f, initial, buf[..next])
    {
      RunGrows(f, initial, buf, next);
      crc := LittleByte(table, crc, buf[next], f);
      next := next + 1;
    }
    while |buf| - next >= 8
      invariant 0 <= next <= |buf|
      invariant crc == Run(f, initial, buf[..next])
    {
      RunGrowsWord(f, initial, buf, next);
      crc := LittleWord(table, Xor(crc, Message(buf[next..next + 8])), f);
      next := next + 8;
    }
    while next < |buf|
      invariant 0 <= next <= |buf|
      invariant crc == Run(f, initial, buf[..next])
    {
      RunGrows(f, initial, buf, next);
      crc := LittleByte(table, crc, buf[next], f);
      next := next + 1;
    }
    assert buf[..next] == buf;
  }

  method LittleByte(table: array2<Word>, crc: Word, b: Byte, ghost f: Word -> Word) returns (r: Word)
    requires ShiftRegister(f) && LittleTable(f, table)
    ensures r == Clock(f, 8, Xor(crc, Pad(b)))
  {
    ByteStep(f, crc, b);
    r := Xor(table[0, Index(Low(Xor(crc, Pad(b))))], Shr(crc, 8));
  }

  /** The table look-ups of one word step of crcspeed64little. */
  method LittleWord(table: array2<Word>, crc: Word, ghost f: Word -> Word) returns (r: Word)
    requires ShiftRegister(f) && LittleTable(f, table)
    ensures r == Clock(f, 64, crc)
  {
    var t := LookUp(table, crc, f);
    r := XorDown(t);
    SliceBy8(f, crc, t);
  }

  method LookUp(table: array2<Word>, crc: Word, ghost f: Word -> Word) returns (t: seq<Word>)
    requires LittleTable(f, table)
    ensures Picked(f, crc, t)
  {
    hide LittleTable, Slice;
    t := [];
    for k := 0 to 8
      invariant |t| == k && forall j :: 0 <= j < k ==> t[j] == Slice(f, crc, j)
    {
      var w := LittlePick(table, crc, k, f);
      t := t + [w];
    }
  }

  method LittlePick(table: array2<Word>, crc: Word, k: nat, ghost f: Word -> Word) returns (w: Word)
    requires LittleTable(f, table) && k < 8
    ensures w == Slice(f, crc, k)
  {
    hide Low, Shr, Index, Entry;
    w := table[k, Index(Low(Shr(crc, 56 - 8 * k)))];
  }

  method XorDown(t: seq<Word>) returns (r: Word)
    requires |t| == 8
    ensures r == XorRows(t, 0)
  {
    r := Xor(Xor(Xor(Xor(Xor(Xor(Xor(t[7], t[6]), t[5]), t[4]), t[3]), t[2]), t[1]), t[0]);
    XorRowsUnfold(t);
  }

  // ---------------------------------------------------------------- big endian

  lemma Rev8Involutive(x: Word)
    ensures Rev8(Rev8(x)) == x
  {}

  lemma Rev8Xor(x: Word, y: Word)
    ensures Rev8(Xor(x, y)) == Xor(Rev8(x), Rev8(y))
  {}

  lemma Rev8Shift(x: Word)
    ensures Rev8(Shr(x, 8)) == Shl(Rev8(x), 8)
  {
    forall i | 0 <= i < 64
      ensures Rev8(Shr(x, 8))[i] == Shl(Rev8(x), 8)[i]
    {
      if i < 8 {
        assert Rev8(Shr(x, 8))[i] == Shr(x, 8)[56 + i];
      } else {
        assert (i - 8) / 8 == i / 8 - 1 && (i - 8) % 8 == i % 8;
        assert Shl(Rev8(x), 8)[i] == Rev8(x)[i - 8];
      }
    }
  }

  lemma Rev8Byte(x: Word, k: nat)
    requires k < 8
    ensures Low(Shr(Rev8(x), 8 * k)) == Low(Shr(x, 56 - 8 * k))
  {
    forall i | 0 <= i < 8
      ensures Low(Shr(Rev8(x), 8 * k))[i] == Low(Shr(x, 56 - 8 * k))[i]
    {
      assert (8 * k + i) / 8 == k && (8 * k + i) % 8 == i;
    }
  }

  /** The byte step of both loops of crcspeed64big, on the byte-reversed register. */
  lemma BigByteStep(f: Word -> Word, crc: Word, b: Byte)
    requires ShiftRegister(f)
    ensures Xor(Rev8(Entry(f, 0, Index(Low(Xor(Shr(Rev8(crc), 56), Pad(b)))))), Shl(Rev8(crc), 8))
         == Rev8(Clock(f, 8, Xor(crc, Pad(b))))
  {
    Rev8Byte(crc, 7);
    assert Shr(crc, 0) == crc;
    assert Low(Xor(Shr(Rev8(crc), 56), Pad(b))) == Low(Xor(crc, Pad(b)));
    ByteStep(f, crc, b);
    Rev8Xor(Entry(f, 0, Index(Low(Xor(crc, Pad(b))))), Shr(crc, 8));
    Rev8Shift(crc);
  }

  /** t[0] ^ t[1] ^ ... ^ t[k], associated to the left as in C. */
  function XorRowsUp(t: seq<Word>, k: nat): Word
    requires k < |t|
  {
    if k == 0 then t[0] else Xor(XorRowsUp(t, k - 1), t[k])
  }

  lemma {:induction false} UpMeetsDown(t: seq<Word>, k: nat)
    requires k + 1 < |t|
    ensures Xor(XorRows(t, k + 1), XorRowsUp(t, k)) == XorRows(t, 0)
  {
    if k > 0 {
      UpMeetsDown(t, k - 1);
      XorCommutes(t[k], XorRowsUp(t, k - 1));
    }
  }

  lemma {:induction false} Rev8Rows(t: seq<Word>, u: seq<Word>, k: nat)
    requires |t| == |u| && k < |t| && forall j :: 0 <= j < |t| ==> u[j] == Rev8(t[j])
    ensures XorRowsUp(u, k) == Rev8(XorRowsUp(t, k))
  {
    if k > 0 {
      Rev8Rows(t, u, k - 1);
      Rev8Xor(XorRowsUp(t, k - 1), t[k]);
    }
  }

  /** The word step of crcspeed64big clocks all 64 bits of the byte-reversed word. */
  lemma BigSliceBy8(f: Word -> Word, x: Word, t: seq<Word>, u: seq<Word>)
    requires ShiftRegister(f) && Picked(f, x, t)
    requires |u| == 8 && forall k :: 0 <= k < 8 ==> u[k] == Rev8(t[k])
    ensures XorRowsUp(u, 7) == Rev8(Clock(f, 64, x))
  {
    Rev8Rows(t, u, 7);
    UpMeetsDown(t, 6);
    XorCommutes(t[7], XorRowsUp(t, 6));
    SliceBy8(f, x, t);
  }

  lemma RunNothing(f: Word -> Word, crc: Word, s: seq<Byte>)
    ensures Run(f, crc, s[..0]) == crc
  {}

  /** crcspeed64big on a buffer at address addr of a big-endian machine. */
  method CrcspeedBig(table: array2<Word>, initial: Word, addr: nat, buf: seq<Byte>, ghost f: Word -> Word)
    returns (crc: Word)
    requires ShiftRegister(f) && BigTable(f, table)
    ensures crc == Run(f, initial, buf)
  {
    hide Run, Rev8, Message, Xor, BigTable, ShiftRegister, Clock, Pad;
    RunNothing(f, initial, buf);
    crc := Rev8(initial);
    var next := 0;
    while next < |buf| && (addr + next) % 8 != 0
      invariant 0 <= next <= |buf|
      invariant crc == Rev8(Run(f, initial, buf[..next]))
    {
      RunGrows(f, initial, buf, next);
      crc := BigByte(table, crc, buf[next], f, Run(f, initial, buf[..next]));
      next := next + 1;
    }
    while |buf| - next >= 8
      invariant 0 <= next <= |buf|
      invariant crc == Rev8(Run(f, initial, buf[..next]))
    {
      RunGrowsWord(f, initial, buf, next);
      var word := BigLoad(buf[next..next + 8]);
      ghost var x := Xor(Run(f, initial, buf[..next]), Message(buf[next..next + 8]));
      Rev8Xor(Run(f, initial, buf[..next]), Message(buf[next..next + 8]));
      crc := BigWord(table, Xor(crc, word), f, x);
      next := next + 8;
    }
    while next < |buf|
      invariant 0 <= next <= |buf|
      invariant crc == Rev8(Run(f, initial, buf[..next]))
    {
      RunGrows(f, initial, buf, next);
      crc := BigByte(table, crc, buf[next], f, Run(f, initial, buf[..next]));
      next := next + 1;
    }
    assert buf[..next] == buf;
    Rev8Involutive(Run(f, initial, buf));
    crc := Rev8(crc);
  }

  /** A 64-bit load: the first byte is the most significant one. */
  function BigLoad(s: seq<Byte>): (w: Word)
    requires |s| == 8
    ensures w == Rev8(Message(s))
  {
    MessageAt(s);
    seq(64, i requires 0 <= i < 64 => s[7 - i / 8][i % 8])
  }

  lemma {:induction false} MessageAt(s: seq<Byte>)
    ensures forall i :: 0 <= i < 8 * |s| ==> Message(s)[i] == s[i / 8][i % 8]
  {
    if s != [] {
      MessageAt(s[1..]);
      forall i | 8 <= i < 8 * |s|
        ensures Message(s)[i] == s[i / 8][i % 8]
      {
        assert (i - 8) / 8 == i / 8 - 1 && (i - 8) % 8 == i % 8;
      }
    }
  }

  method BigByte(table: array2<Word>, crc: Word, b: Byte, ghost f: Word -> Word, ghost c: Word) returns (r: Word)
    requires ShiftRegister(f) && BigTable(f, table) && crc == Rev8(c)
    ensures r == Rev8(Clock(f, 8, Xor(c, Pad(b))))
  {
    BigByteStep(f, c, b);
    r := Xor(table[0, Index(Low(Xor(Shr(crc, 56), Pad(b))))], Shl(crc, 8));
  }

  /** The table look-ups of one word step of crcspeed64big. */
  method BigWord(table: array2<Word>, crc: Word, ghost f: Word -> Word, ghost x: Word) returns (r: Word)
    requires ShiftRegister(f) && BigTable(f, table) && crc == Rev8(x)
    ensures r == Rev8(Clock(f, 64, x))
  {
    ghost var t := seq(8, k requires 0 <= k < 8 => Slice(f, x, k));
    var u := BigLookUp(table, crc, f, x, t);
    r := XorUp(u);
    BigSliceBy8(f, x, t, u);
  }

  method BigLookUp(table: array2<Word>, crc: Word, ghost f: Word -> Word, ghost x: Word, ghost t: seq<Word>)
    returns (u: seq<Word>)
    requires BigTable(f, table) && crc == Rev8(x) && |t| == 8 && Picked(f, x, t)
    ensures |u| == 8 && forall k :: 0 <= k < 8 ==> u[k] == Rev8(t[k])
  {
    hide Picked, BigTable, Rev8;
    u := [];
    for k := 0 to 8
      invariant |u| == k && forall j :: 0 <= j < k ==> u[j] == Rev8(t[j])
    {
      var w := BigPick(table, crc, k, f, x, t);
      u := u + [w];
    }
  }

  method BigPick(table: array2<Word>, crc: Word, k: nat, ghost f: Word -> Word, ghost x: Word, ghost t: seq<Word>)
    returns (w: Word)
    requires BigTable(f, table) && crc == Rev8(x) && |t| == 8 && Picked(f, x, t) && k < 8
    ensures w == Rev8(t[k])
  {
    hide Rev8, Low, Shr, Index, Entry;
    Rev8Byte(x, k);
    w := table[k, Index(Low(Shr(crc, 8 * k)))];
  }

  method XorUp(t: seq<Word>) returns (r: Word)
    requires |t| == 8
    ensures r == XorRowsUp(t, 7)
  {
    r := Xor(Xor(Xor(Xor(Xor(Xor(Xor(t[0], t[1]), t[2]), t[3]), t[4]), t[5]), t[6]), t[7]);
    assert XorRowsUp(t, 1) == Xor(t[0], t[1]);
    assert XorRowsUp(t, 3) == Xor(Xor(XorRowsUp(t, 1), t[2]), t[3]);
    assert XorRowsUp(t, 5) == Xor(Xor(XorRowsUp(t, 3), t[4]), t[5]);
  }

  // -------------------------------------------------------------------- crc64

  /** What crc64_init leaves in the table, on either kind of machine. */
  ghost predicate Initialised(poly: Word, little: bool, table: array2<Word>)
    reads table
  {
    if little then LittleTable(Reflected(poly), table) else BigTable(Reflected(poly), table)
  }

  /** The polynomial of crc64.c. */
  const POLY: Word := BitsOf(0xad93d23594c935a9, 64)

  /** crcspeed64native_init. */
  method NativeInit(poly: Word, little: bool, table: array2<Word>)
    requires table.Length0 == 8 && table.Length1 == 256
    modifies table
    ensures Initialised(poly, little, table)
  {
    if little {
      LittleInit(poly, table);
    } else {
      BigInit(poly, table);
    }
  }

  /** crcspeed64native: `_crc64` from the reflected starting value, whatever the machine and the alignment. */
  method Native(poly: Word, little: bool, table: array2<Word>, crc: Word, addr: nat, s: seq<Byte>) returns (r: Word)
    requires Initialised(poly, little, table)
    ensures r == Reference(poly, Reflect(crc), s)
  {
    ReflectedShiftRegister(poly);
    RunIsReference(poly, Reflect(crc), s);
    ReflectInvolutive(crc);
    if little {
      r := CrcspeedLittle(table, crc, addr, s, Reflected(poly));
    } else {
      r := CrcspeedBig(table, crc, addr, s, Reflected(poly));
    }
  }

  /** crc64_init. */
  method Init(little: bool, table: array2<Word>)
    requires table.Length0 == 8 && table.Length1 == 256
    modifies table
    ensures Initialised(POLY, little, table)
  {
    NativeInit(POLY, little, table);
  }

  /** crc64. */
  method Compute(little: bool, table: array2<Word>, crc: Word, addr: nat, s: seq<Byte>) returns (r: Word)
    requires Initialised(POLY, little, table)
    ensures r == Reference(POLY, Reflect(crc), s)
    ensures Gf2.IsRemainder(Dividend(crc, Message(s)), Reflect(POLY), r)
  {
    hide *;
    r := Native(POLY, little, table, crc, addr, s);
    CrcIsRemainder(POLY, crc, s);
  }

  /** A buffer in two pieces, the second started from the first one's result. */
  lemma Chaining(poly: Word, crc: Word, s: seq<Byte>, t: seq<Byte>)
    ensures Reference(poly, Reflect(Reference(poly, Reflect(crc), s)), t) == Reference(poly, Reflect(crc), s + t)
  {
    ReflectInvolutive(Register(poly, Reflect(crc), Message(s)));
    MessageSplits(s, t);
    RegisterSplits(poly, Reflect(crc), Message(s), Message(t));
  }

  // ----------------------------------------------------- the remainder of a polynomial

  /** The register, leading coefficient first, after one bit. */
  lemma ReflectStep(poly: Word, crc: Word, one: bool)
    ensures Reflect(RegisterBit(poly, crc, one)) == Gf2.Shifted(Reflect(crc), Reflect(poly), one)
  {
    var v, p := Reflect(crc), Reflect(poly);
    var added := if crc[63] != one then poly else ZERO;
    assert Reflect(added) == if v[0] != one then p else Gf2.Zero(64);
    ReflectShiftUp(crc);
    ReflectXor(Shl(crc, 1), added);
    hide Shl, Reflect;
    XorIsAdd(v[1..] + [false], Reflect(added));
  }

  lemma ReflectShiftUp(crc: Word)
    ensures Reflect(Shl(crc, 1)) == Reflect(crc)[1..] + [false]
  {}

  lemma XorIsAdd(a: Word, b: Word)
    ensures Xor(a, b) == Gf2.Add(a, b)
  {}

  /** The message, times x^64, and the starting value ahead of it. */
  function Dividend(crc: Word, bits: seq<bool>): (d: seq<bool>)
    ensures |d| == |bits| + 64
  {
    Gf2.Add(bits + Gf2.Zero(64), crc + Gf2.Zero(|bits|))
  }

  lemma DividendSnoc(crc: Word, bits: seq<bool>, b: bool)
    ensures Dividend(crc, bits + [b]) == Gf2.Add(Dividend(crc, bits) + [false], Gf2.Zero(|bits|) + [b] + Gf2.Zero(64))
  {
    var n := |bits|;
    var x, y := Dividend(crc, bits + [b]), Gf2.Add(Dividend(crc, bits) + [false], Gf2.Zero(n) + [b] + Gf2.Zero(64));
    forall i | 0 <= i < n + 65
      ensures x[i] == y[i]
    {
      assert (crc + Gf2.Zero(n + 1))[i] == (crc + Gf2.Zero(n) + [false])[i];
      assert (bits + [b] + Gf2.Zero(64))[i] == if i < n then bits[i] else if i == n then b else false;
    }
  }

  /** The register is the remainder of what has gone through it. */
  lemma {:induction false} RegisterDivides(poly: Word, crc: Word, bits: seq<bool>) returns (q: seq<bool>)
    ensures |q| == |bits| && Gf2.Divides(Dividend(Reflect(crc), bits), Reflect(poly), q, Reflect(Register(poly, crc, bits)))
    decreases |bits|
  {
    if bits == [] {
      q := [];
      assert Dividend(Reflect(crc), bits) == Gf2.Add(Gf2.Times([], Reflect(poly)), Gf2.Zero(0) + Reflect(crc));
    } else {
      var n := |bits| - 1;
      var before, b := bits[..n], bits[n];
      assert bits == before + [b];
      var r := RegisterDivides(poly, crc, before);
      var reg := Register(poly, crc, before);
      RegisterSplits(poly, crc, before, [b]);
      RegisterOne(poly, reg, b);
      ReflectStep(poly, reg, b);
      DividendSnoc(Reflect(crc), before, b);
      hide *;
      Gf2.DivideStep(Dividend(Reflect(crc), before), Reflect(poly), r, Reflect(reg), b);
      q := r + [Reflect(reg)[0] != b];
    }
  }

  lemma RegisterOne(poly: Word, crc: Word, b: bool)
    ensures Register(poly, crc, [b]) == RegisterBit(poly, crc, b)
  {
    assert [b][1..] == [];
  }

  /**
    The CRC of a buffer, started from crc: the remainder of the message followed by 64 zeros,
    with crc added in front, by x^64 + poly, over the field of two elements. The first bit of
    a byte, and of the CRC, is the leading coefficient.
  */
  lemma CrcIsRemainder(poly: Word, crc: Word, s: seq<Byte>)
    ensures var d := Dividend(crc, Message(s));
            var r := Reference(poly, Reflect(crc), s);
            Gf2.IsRemainder(d, Reflect(poly), r) && forall v :: Gf2.IsRemainder(d, Reflect(poly), v) ==> v == r
  {
    var q := RegisterDivides(poly, Reflect(crc), Message(s));
    ReflectInvolutive(crc);
    hide *;
    var d, r := Dividend(crc, Message(s)), Reference(poly, Reflect(crc), s);
    assert Gf2.Divides(d, Reflect(poly), q, r) by {
      ReferenceIs(poly, Reflect(crc), s);
    }
    HasRemainder(d, Reflect(poly), q, r);
    forall v | Gf2.IsRemainder(d, Reflect(poly), v)
      ensures v == r
    {
      Gf2.RemainderUnique(d, Reflect(poly), v, r);
    }
  }

  lemma ReferenceIs(poly: Word, crc: Word, s: seq<Byte>)
    ensures Reference(poly, crc, s) == Reflect(Register(poly, crc, Message(s)))
  {}

  lemma HasRemainder(d: seq<bool>, p: seq<bool>, q: seq<bool>, r: seq<bool>)
    requires Gf2.Divides(d, p, q, r)
    ensures Gf2.IsRemainder(d, p, r)
  {}
}
