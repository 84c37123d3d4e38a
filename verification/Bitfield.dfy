/**
  Bitfields (src/bitops.c): integers of any width at any bit offset of a string,
  and the three ways of dealing with overflow.
*/
module Bitfield {
  import opened Wrappers
  import opened Bits

  // ------------------------------------------------------------ bits and numbers

  /** The number that bits spell, most significant bit first. */
  function Number(bits: seq<bool>): nat {
    if bits == [] then 0 else 2 * Number(bits[..|bits| - 1]) + One(bits[|bits| - 1])
  }

  /** The n low bits of v, most significant first. */
  function Spell(v: nat, n: nat): (bits: seq<bool>)
    ensures |bits| == n
    decreases n
  {
    if n == 0 then [] else Spell(v / 2, n - 1) + [v % 2 == 1]
  }

  /** v & (1 << k) */
  predicate HasBit(v: nat, k: nat) {
    v / Pow2(k) % 2 == 1
  }

  lemma {:induction false} SpellNumber(bits: seq<bool>)
    ensures Spell(Number(bits), |bits|) == bits && Number(bits) < Pow2(|bits|)
  {
    if bits != [] {
      SpellNumber(bits[..|bits| - 1]);
    }
  }

  lemma HalfMod(v: nat, m: nat)
    requires m > 0
    ensures v % (2 * m) == 2 * (v / 2 % m) + v % 2
    ensures v / (2 * m) == v / 2 / m
  {
    var q := v / 2 / m;
    var r := v / 2 % m;
    assert v / 2 == q * m + r;
    var rest := 2 * r + v % 2;
    assert v == q * (2 * m) + rest;
    assert 0 <= rest < 2 * m;
    QuotientUnique(v, 2 * m, q, rest);
  }

  lemma QuotientUnique(v: nat, m: nat, q: nat, r: nat)
    requires m > 0 && v == q * m + r && r < m
    ensures v / m == q && v % m == r
  {
    var d := v / m - q;
    assert v == v / m * m + v % m;
    assert d * m == r - v % m;
    Multiple(d, m);
  }

  lemma Multiple(d: int, m: int)
    requires -m < d * m < m
    ensures d == 0
  {
    assert d >= 1 ==> d * m >= m;
    assert d <= -1 ==> d * m <= -m;
  }

  /** Spelling keeps the number modulo 2^n. */
  lemma {:induction false} NumberSpell(v: nat, n: nat)
    ensures Number(Spell(v, n)) == v % Pow2(n)
    decreases n
  {
    if n > 0 {
      NumberSpell(v / 2, n - 1);
      assert Spell(v, n)[..n - 1] == Spell(v / 2, n - 1);
      HalfMod(v, Pow2(n - 1));
    }
  }

  lemma {:induction false} SpellAt(v: nat, n: nat, j: nat)
    requires j < n
    ensures Spell(v, n)[j] == HasBit(v, n - 1 - j)
    decreases n
  {
    if j < n - 1 {
      SpellAt(v / 2, n - 1, j);
      HalfMod(v, Pow2(n - 2 - j));
    }
  }

  // --------------------------------------------------------- reading and writing

  /** The bits from offset on, of a string padded with zeros. */
  function Window(s: seq<Byte>, offset: nat, bits: nat): (w: seq<bool>)
    ensures |w| == bits && forall j :: 0 <= j < bits ==> w[j] == Padded(s, offset + j)
  {
    seq(bits, j requires 0 <= j < bits => Padded(s, offset + j))
  }

  /** byteval & ~(1 << k) | (v << k) */
  function Store(b: Byte, k: nat, v: bool): Byte
    requires k < 8
  {
    (b & !Mask(k)) | (if v then Mask(k) else 0)
  }

  /** Writing one bit. */
  lemma StoreBit(s: seq<Byte>, i: nat, v: bool, k: nat)
    requires i < 8 * |s| && k < 8 * |s|
    ensures Bit(s[i / 8 := Store(s[i / 8], 7 - i % 8, v)], k) == if k == i then v else Bit(s, k)
  {
    if k / 8 == i / 8 {
    }
  }

  /** After j of the bits: those are written, and no other bit has changed. */
  ghost predicate Written(was: seq<Byte>, now: seq<Byte>, offset: nat, bits: seq<bool>) {
    && |now| == |was| && offset + |bits| <= 8 * |was|
    && forall k :: 0 <= k < 8 * |was| ==> Bit(now, k) == if offset <= k < offset + |bits| then bits[k - offset] else Bit(was, k)
  }

  lemma WrittenNext(was: seq<Byte>, now: seq<Byte>, offset: nat, bits: seq<bool>, j: nat)
    requires j < |bits| && offset + |bits| <= 8 * |was| && Written(was, now, offset, bits[..j])
    ensures var i := offset + j; i / 8 < |now| && Written(was, now[i / 8 := Store(now[i / 8], 7 - i % 8, bits[j])], offset, bits[..j + 1])
  {
    hide Store, Bit;
    var i := offset + j;
    var next := now[i / 8 := Store(now[i / 8], 7 - i % 8, bits[j])];
    forall k | 0 <= k < 8 * |was|
      ensures Bit(next, k) == if offset <= k < offset + (j + 1) then bits[..j + 1][k - offset] else Bit(was, k)
    {
      StoreBit(now, i, bits[j], k);
    }
  }

  /** setUnsignedBitfield: the low bits of value, and nothing else. */
  method SetUnsigned(p: array<Byte>, offset: nat, bits: nat, value: nat)
    requires offset + bits <= 8 * p.Length
    modifies p
    ensures Written(old(p[..]), p[..], offset, Spell(value, bits))
  {
    ghost var was, spelt := p[..], Spell(value, bits);
    for j := 0 to bits
      invariant Written(was, p[..], offset, spelt[..j])
    {
      hide Written, Store;
      SpellAt(value, bits, j);
      var bitval := HasBit(value, bits - 1 - j);
      var byte := (offset + j) / 8;
      var bit := 7 - (offset + j) % 8;
      WrittenNext(was, p[..], offset, spelt, j);
      ghost var before := p[..];
      p[byte] := Store(p[byte], bit, bitval);
      assert p[..] == before[byte := Store(before[byte], bit, bitval)];
    }
    assert spelt[..bits] == spelt;
  }

  /** getUnsignedBitfield */
  method GetUnsigned(p: seq<Byte>, offset: nat, bits: nat) returns (value: nat)
    requires offset + bits <= 8 * |p|
    ensures value == Number(Window(p, offset, bits)) && value < Pow2(bits)
  {
    ghost var w := Window(p, offset, bits);
    value := 0;
    for j := 0 to bits
      invariant value == Number(w[..j])
    {
      var bitval := On(p[(offset + j) / 8], 7 - (offset + j) % 8);
      value := 2 * value + One(bitval);
      assert w[..j + 1][..j] == w[..j];
    }
    assert w[..bits] == w;
    SpellNumber(w);
  }

  /** Reading back what was written. */
  lemma SetThenGet(was: seq<Byte>, now: seq<Byte>, offset: nat, bits: nat, value: nat)
    requires Written(was, now, offset, Spell(value, bits))
    ensures Number(Window(now, offset, bits)) == value % Pow2(bits)
  {
    NumberSpell(value, bits);
    assert Window(now, offset, bits) == Spell(value, bits);
  }

  /** Other fields keep their values. */
  lemma SetElsewhere(was: seq<Byte>, now: seq<Byte>, offset: nat, spelt: seq<bool>, other: nat, bits: nat)
    requires Written(was, now, offset, spelt) && (other + bits <= offset || offset + |spelt| <= other)
    ensures Window(now, other, bits) == Window(was, other, bits)
  {}

  // -------------------------------------------------------------- signed values

  const TWO64 := 0x1_0000_0000_0000_0000
  const I64_MAX := 0x7fff_ffff_ffff_ffff

  /** int64_t */
  predicate IsI64(x: int) {
    -I64_MAX - 1 <= x <= I64_MAX
  }

  /** (uint64_t) x */
  function ToU64(x: int): nat {
    x % TWO64
  }

  /** (int64_t) x */
  function ToI64(x: int): int {
    var u := x % TWO64;
    if u > I64_MAX then u - TWO64 else u
  }

  /** The bits of a signed number of the given width, read as a number. */
  function Signed(u: int, bits: nat): int
    requires bits > 0
  {
    if u >= Pow2(bits - 1) then u - Pow2(bits) else u
  }

  /** getSignedBitfield: the top bit is copied upwards. */
  function SignExtend(u: nat, bits: nat): int
    requires 0 < bits <= 64
  {
    if bits < 64 && HasBit(u, bits - 1) then ToI64(u + (TWO64 - Pow2(bits))) else ToI64(u)
  }

  lemma Pow2Values()
    ensures Pow2(63) == I64_MAX + 1 && Pow2(64) == TWO64
  {
    assert Pow2(4) == 16;
    assert Pow2(64) == 2 * Pow2(63);
    hide Pow2;
    Pow2Add(4, 4);
    assert Pow2(8) == 0x100;
    Pow2Add(8, 8);
    assert Pow2(16) == 0x1_0000;
    Pow2Add(16, 16);
    assert Pow2(32) == 0x1_0000_0000;
    Pow2Add(32, 32);
  }

  /** Where 2^bits lies for the widths of the type parser. */
  lemma Pow2Bounds(bits: nat)
    requires 0 < bits <= 64
    ensures Pow2(bits) == 2 * Pow2(bits - 1)
    ensures if bits == 64 then Pow2(bits) == TWO64 else Pow2(bits) <= I64_MAX + 1
  {
    Pow2Values();
    if bits < 64 {
      Pow2Grows(bits, 63);
    }
  }

  lemma {:induction false} Pow2Grows(a: nat, b: nat)
    requires a <= b
    ensures Pow2(a) <= Pow2(b)
  {
    if a < b {
      Pow2Grows(a, b - 1);
    }
  }

  lemma SignExtendSigned(u: nat, bits: nat)
    requires 0 < bits <= 64 && u < Pow2(bits)
    ensures SignExtend(u, bits) == Signed(u, bits)
  {
    hide Pow2, HasBit, ToI64;
    Pow2Bounds(bits);
    HasTopBit(u, bits);
    ToI64Small(u);
    if bits < 64 {
      ToI64Small(u + (TWO64 - Pow2(bits)));
    }
  }

  lemma ToI64Small(x: int)
    requires 0 <= x < TWO64
    ensures ToI64(x) == if x > I64_MAX then x - TWO64 else x
  {}

  /** A value that fits is not changed by the conversion. */
  lemma ToI64Same(x: int)
    requires IsI64(x)
    ensures ToI64(x) == x
  {}

  lemma HasTopBit(u: nat, bits: nat)
    requires 0 < bits && u < Pow2(bits)
    ensures HasBit(u, bits - 1) == (u >= Pow2(bits - 1))
  {
    var m := Pow2(bits - 1);
    assert Pow2(bits) == 2 * m;
    Halved(u, m, u / m);
  }

  lemma Halved(u: nat, m: nat, q: nat)
    requires 0 < m && u < 2 * m && q * m <= u < q * m + m
    ensures q == if u >= m then 1 else 0
  {
    AtLeastTwice(q, m);
  }

  lemma AtLeastTwice(q: nat, m: nat)
    ensures q >= 2 ==> q * m >= 2 * m
  {
    if q >= 2 {
      assert q * m == 2 * m + (q - 2) * m;
    }
  }

  /** getSignedBitfield */
  method GetSigned(p: seq<Byte>, offset: nat, bits: nat) returns (value: int)
    requires offset + bits <= 8 * |p| && 0 < bits <= 64
    ensures value == Signed(Number(Window(p, offset, bits)), bits)
  {
    var u := GetUnsigned(p, offset, bits);
    SignExtendSigned(u, bits);
    value := SignExtend(u, bits);
  }

  // ----------------------------------------------------------- modular arithmetic

  /** x and y are the same number modulo m. */
  ghost predicate Congruent(x: int, y: int, m: int) {
    exists k :: x - y == k * m
  }

  lemma CongruentMod(x: int, m: int)
    requires m > 0
    ensures Congruent(x % m, x, m)
  {
    assert x % m - x == -(x / m) * m;
  }

  lemma CongruentTrans(x: int, y: int, z: int, m: int)
    requires Congruent(x, y, m) && Congruent(y, z, m)
    ensures Congruent(x, z, m)
  {
    var j :| x - y == j * m;
    var k :| y - z == k * m;
    assert x - z == (j + k) * m;
  }

  lemma CongruentFactor(x: int, y: int, m: int, f: int)
    requires Congruent(x, y, m * f)
    ensures Congruent(x, y, m)
  {
    var k :| x - y == k * (m * f);
    assert x - y == (k * f) * m;
  }

  /** There is one number in each range of m. */
  lemma CongruentUnique(x: int, y: int, m: int, low: int)
    requires Congruent(x, y, m) && low <= x < low + m && low <= y < low + m
    ensures x == y
  {
    var k :| x - y == k * m;
    Multiple(k, m);
  }

  /** Reducing modulo 2^64 first does not matter. */
  lemma ModMod(x: int, bits: nat)
    requires bits <= 64
    ensures Congruent(x % TWO64 % Pow2(bits), x, Pow2(bits))
  {
    Pow2Values();
    Pow2Add(bits, 64 - bits);
    hide Pow2;
    CongruentMod(x, TWO64);
    CongruentFactor(x % TWO64, x, Pow2(bits), Pow2(64 - bits));
    CongruentMod(x % TWO64, Pow2(bits));
    CongruentTrans(x % TWO64 % Pow2(bits), x % TWO64, x, Pow2(bits));
  }

  // ------------------------------------------------------------------- overflow

  datatype Mode = Wrap | Sat | Fail

  /** What the overflow checks return, and *limit (zero where they leave it alone). */
  datatype Check = Check(status: int, limit: int)

  function Clamp(x: int, low: int, high: int): int {
    if x < low then low else if x > high then high else x
  }

  /** The handle_wrap part of checkUnsignedBitfieldOverflow. */
  function WrapUnsigned(value: nat, incr: int, bits: nat): int {
    (value + incr) % TWO64 % Pow2(bits)
  }

  /** checkUnsignedBitfieldOverflow */
  function CheckUnsigned(value: nat, incr: int, bits: nat, mode: Mode): Check {
    var max := Pow2(bits) - 1;
    var maxincr := ToI64(max - value);
    var minincr := ToI64(-(value as int));
    if value > max || (incr > 0 && incr > maxincr) then
      match mode
      case Wrap => Check(1, WrapUnsigned(value, incr, bits))
      case Sat => Check(1, max)
      case Fail => Check(1, 0)
    else if incr < 0 && incr < minincr then
      match mode
      case Wrap => Check(1, WrapUnsigned(value, incr, bits))
      case Sat => Check(-1, 0)
      case Fail => Check(-1, 0)
    else Check(0, 0)
  }

  /** The handle_wrap part of checkSignedBitfieldOverflow. */
  function WrapSigned(value: int, incr: int, bits: nat): int
    requires bits > 0
  {
    var c := (value + incr) % TWO64;
    if bits >= 64 then ToI64(c)
    else if HasBit(c, bits - 1) then ToI64(c % Pow2(bits) + (TWO64 - Pow2(bits)))
    else ToI64(c % Pow2(bits))
  }

  /** checkSignedBitfieldOverflow */
  function CheckSigned(value: int, incr: int, bits: nat, mode: Mode): Check
    requires bits > 0
  {
    var max := Pow2(bits - 1) - 1;
    var min := -max - 1;
    var maxincr := ToI64(max - value);
    var minincr := ToI64(min - value);
    if value > max || (bits != 64 && incr > maxincr) || (value >= 0 && incr > 0 && incr > maxincr) then
      match mode
      case Wrap => Check(1, WrapSigned(value, incr, bits))
      case Sat => Check(1, max)
      case Fail => Check(1, 0)
    else if value < min || (bits != 64 && incr < minincr) || (value < 0 && incr < 0 && incr < minincr) then
      match mode
      case Wrap => Check(1, WrapSigned(value, incr, bits))
      case Sat => Check(-1, min)
      case Fail => Check(-1, 0)
    else Check(0, 0)
  }

  /** The smallest and largest numbers of a type. */
  function Least(signed: bool, bits: nat): int
    requires bits > 0
  {
    if signed then -(Pow2(bits - 1) as int) else 0
  }

  function Greatest(signed: bool, bits: nat): int
    requires bits > 0
  {
    if signed then Pow2(bits - 1) - 1 else Pow2(bits) - 1
  }

  predicate InRange(x: int, signed: bool, bits: nat)
    requires bits > 0
  {
    Least(signed, bits) <= x <= Greatest(signed, bits)
  }

  /** What getBitfieldTypeFromArgument accepts. */
  predicate TypeOk(signed: bool, bits: nat) {
    0 < bits <= if signed then 64 else 63
  }

  /** What a check must say about the true result x. */
  ghost predicate Right(c: Check, x: int, signed: bool, bits: nat, mode: Mode)
    requires bits > 0
  {
    && (c.status == 0 <==> InRange(x, signed, bits))
    && (c.status != 0 && mode == Wrap ==> InRange(c.limit, signed, bits) && Congruent(c.limit, x, Pow2(bits)))
    && (c.status != 0 && mode == Sat ==> c.limit == Clamp(x, Least(signed, bits), Greatest(signed, bits)))
  }

  /** INCRBY of an unsigned value: for every width, value and 64-bit increment. */
  lemma UnsignedIncrement(value: nat, incr: int, bits: nat, mode: Mode)
    requires TypeOk(false, bits) && InRange(value, false, bits) && IsI64(incr)
    ensures Right(CheckUnsigned(value, incr, bits, mode), value + incr, false, bits, mode)
  {
    hide Pow2, ToI64, WrapUnsigned;
    Pow2Bounds(bits);
    ToI64Same(Pow2(bits) - 1 - value);
    ToI64Same(-(value as int));
    WrapUnsignedRight(value, incr, bits);
  }

  lemma WrapUnsignedRight(value: nat, incr: int, bits: nat)
    requires TypeOk(false, bits)
    ensures InRange(WrapUnsigned(value, incr, bits), false, bits)
    ensures Congruent(WrapUnsigned(value, incr, bits), value + incr, Pow2(bits))
  {
    ModMod(value + incr, bits);
  }

  /** The sign extension of the low bits of c is the signed number they spell. */
  lemma WrapSignedRight(value: int, incr: int, bits: nat)
    requires TypeOk(true, bits)
    ensures InRange(WrapSigned(value, incr, bits), true, bits)
    ensures Congruent(WrapSigned(value, incr, bits), value + incr, Pow2(bits))
  {
    hide Pow2, HasBit, ToI64, Congruent;
    Pow2Bounds(bits);
    var x := value + incr;
    var c := x % TWO64;
    ModMod(x, bits);
    var u := c % Pow2(bits);
    if bits >= 64 {
      WrapWide(x, c);
    } else {
      LowBitsTop(c, bits);
      ToI64Small(u);
      ToI64Small(u + (TWO64 - Pow2(bits)));
      CongruentShift(u, x, Pow2(bits));
    }
  }

  lemma CongruentShift(u: int, x: int, m: int)
    requires Congruent(u, x, m)
    ensures Congruent(u - m, x, m)
  {
    var k :| u - x == k * m;
    assert (u - m) - x == (k - 1) * m;
  }

  lemma WrapWide(x: int, c: int)
    requires c == x % TWO64 && Pow2(64) == TWO64
    ensures ToI64(c) == c || ToI64(c) == c - TWO64
    ensures -I64_MAX - 1 <= ToI64(c) <= I64_MAX && Congruent(ToI64(c), x, TWO64)
  {
    CongruentMod(x, TWO64);
    CongruentShift(c, x, TWO64);
  }

  /** The top bit of the low bits is the bit itself. */
  lemma LowBitsTop(c: nat, bits: nat)
    requires bits > 0
    ensures HasBit(c, bits - 1) == (c % Pow2(bits) >= Pow2(bits - 1))
  {
    LowHalf(c, Pow2(bits - 1));
  }

  lemma LowHalf(c: nat, half: nat)
    requires half > 0
    ensures (c / half % 2 == 1) == (c % (2 * half) >= half)
  {
    var q, r := c / half, c % half;
    LowTop(c, half, q, r);
  }

  lemma LowTop(c: nat, half: nat, q: nat, r: nat)
    requires half > 0 && c == q * half + r && r < half
    ensures (q % 2 == 1) == (c % (2 * half) >= half)
  {
    var k := q / 2;
    if q % 2 == 0 {
      Regroup(k, half, 0);
      QuotientUnique(c, 2 * half, k, r);
    } else {
      Regroup(k, half, 1);
      QuotientUnique(c, 2 * half, k, half + r);
    }
  }

  lemma Regroup(k: nat, half: nat, t: nat)
    ensures (2 * k + t) * half == k * (2 * half) + t * half
  {}

  /** INCRBY of a signed value: for every width, value and 64-bit increment. */
  lemma SignedIncrement(value: int, incr: int, bits: nat, mode: Mode)
    requires TypeOk(true, bits) && InRange(value, true, bits) && IsI64(incr)
    ensures Right(CheckSigned(value, incr, bits, mode), value + incr, true, bits, mode)
  {
    hide Pow2, ToI64, WrapSigned;
    Pow2Bounds(bits);
    WrapSignedRight(value, incr, bits);
    if bits < 64 || value >= 0 {
      ToI64Same(Pow2(bits - 1) - 1 - value);
    }
    if bits < 64 || value < 0 {
      ToI64Same(-(Pow2(bits - 1) as int) - value);
    }
  }

  /** SET of an unsigned value: a negative argument is taken for a huge one, so saturation is off by a whole range. */
  lemma UnsignedSet(value: int, bits: nat, mode: Mode)
    requires TypeOk(false, bits) && IsI64(value)
    ensures var c := CheckUnsigned(ToU64(value), 0, bits, mode);
            && (c.status == 0 <==> InRange(value, false, bits))
            && (c.status == 0 ==> ToU64(value) == value)
            && (c.status != 0 && mode == Wrap ==> InRange(c.limit, false, bits) && Congruent(c.limit, value, Pow2(bits)))
            && (c.status != 0 && mode == Sat ==> c.limit == Greatest(false, bits)
                                                 && (c.limit == Clamp(value, 0, Greatest(false, bits)) <==> value >= 0))
  {
    hide Pow2, ToI64, WrapUnsigned, Congruent;
    Pow2Bounds(bits);
    var u := ToU64(value);
    WrapUnsignedRight(u, 0, bits);
    Pow2Values();
    Pow2Add(bits, 64 - bits);
    CongruentMod(value, TWO64);
    CongruentFactor(u, value, Pow2(bits), Pow2(64 - bits));
    CongruentTrans(WrapUnsigned(u, 0, bits), u, value, Pow2(bits));
  }

  /**
    SET of a signed value: right, except that a value below max - (2^63 - 1) makes the
    headroom wrap around, and saturation then stores the largest number instead of the smallest.
  */
  lemma SignedSet(value: int, bits: nat, mode: Mode)
    requires TypeOk(true, bits) && IsI64(value)
    ensures var c := CheckSigned(value, 0, bits, mode);
            && (c.status == 0 <==> InRange(value, true, bits))
            && (c.status != 0 && mode == Wrap ==> InRange(c.limit, true, bits) && Congruent(c.limit, value, Pow2(bits)))
            && (c.status != 0 && mode == Sat ==>
                  (c.limit == Clamp(value, Least(true, bits), Greatest(true, bits)) <==> value >= Greatest(true, bits) - I64_MAX))
  {
    hide Pow2, ToI64, WrapSigned, Congruent;
    Pow2Bounds(bits);
    WrapSignedRight(value, 0, bits);
    var max := Pow2(bits - 1) - 1;
    ToI64Near(max - value);
    ToI64Near(-max - 1 - value);
  }

  /** One addition can only leave the range once. */
  lemma ToI64Near(x: int)
    requires -TWO64 < x < TWO64
    ensures ToI64(x) == if x > I64_MAX then x - TWO64 else if x < -I64_MAX - 1 then x + TWO64 else x
  {}

  /** BITFIELD k OVERFLOW SAT SET i8 0 -9223372036854775808 stores 127. */
  lemma SetSaturatesToTheWrongEnd()
    ensures CheckSigned(-I64_MAX - 1, 0, 8, Sat) == Check(1, 127)
    ensures Clamp(-I64_MAX - 1, Least(true, 8), Greatest(true, 8)) == -128
  {
    assert Pow2(7) == 128;
    ToI64Near(127 + I64_MAX + 1);
  }

  /** BITFIELD k OVERFLOW SAT SET u8 0 -1 stores 255: the value is taken as a number without a sign. */
  lemma NegativeSaturatesAtTheTop()
    ensures CheckUnsigned(ToU64(-1), 0, 8, Sat) == Check(1, 255)
    ensures Clamp(-1, Least(false, 8), Greatest(false, 8)) == 0
  {
    assert Pow2(8) == 256;
  }

  // ------------------------------------------------------------------ operations

  /** The value of a field of a zero-padded string. */
  function Field(s: seq<Byte>, offset: nat, bits: nat, signed: bool): int
    requires bits > 0
  {
    var u := Number(Window(s, offset, bits));
    if signed then Signed(u, bits) else u
  }

  lemma FieldInRange(s: seq<Byte>, offset: nat, bits: nat, signed: bool)
    requires bits > 0
    ensures InRange(Field(s, offset, bits, signed), signed, bits)
  {
    SpellNumber(Window(s, offset, bits));
  }

  /** A number that fits is the field that its low bits spell. */
  lemma StoredValue(v: int, bits: nat, signed: bool)
    requires TypeOk(signed, bits) && InRange(v, signed, bits)
    ensures var u := ToU64(v) % Pow2(bits); v == if signed then Signed(u, bits) else u
  {
    ModMod(v, bits);
    hide Congruent;
    var u := ToU64(v) % Pow2(bits);
    CongruentShift(u, v, Pow2(bits));
    assert Pow2(bits) == 2 * Pow2(bits - 1);
    CongruentUnique(if signed then Signed(u, bits) else u, v, Pow2(bits), Least(signed, bits));
  }

  /** Only the bits of the field may have changed. */
  ghost predicate OnlyField(was: seq<Byte>, now: seq<Byte>, offset: nat, bits: nat) {
    |now| == |was| && forall k :: 0 <= k < 8 * |was| && !(offset <= k < offset + bits) ==> Bit(now, k) == Bit(was, k)
  }

  /** setSignedBitfield and setUnsignedBitfield of a value that fits. */
  method SetField(p: array<Byte>, offset: nat, bits: nat, signed: bool, value: int)
    requires TypeOk(signed, bits) && InRange(value, signed, bits) && offset + bits <= 8 * p.Length
    modifies p
    ensures Field(p[..], offset, bits, signed) == value && OnlyField(old(p[..]), p[..], offset, bits)
  {
    SetUnsigned(p, offset, bits, ToU64(value));
    SetThenGet(old(p[..]), p[..], offset, bits, ToU64(value));
    StoredValue(value, bits, signed);
  }

  method GetField(p: seq<Byte>, offset: nat, bits: nat, signed: bool) returns (value: int)
    requires TypeOk(signed, bits) && offset + bits <= 8 * |p|
    ensures value == Field(p, offset, bits, signed)
  {
    if signed {
      value := GetSigned(p, offset, bits);
    } else {
      value := GetUnsigned(p, offset, bits);
    }
  }

  /** What an operation whose true result is x stores, unless it fails. */
  ghost predicate Stores(v: int, x: int, signed: bool, bits: nat, mode: Mode)
    requires bits > 0
  {
    if InRange(x, signed, bits) then v == x
    else if mode == Wrap then InRange(v, signed, bits) && Congruent(v, x, Pow2(bits))
    else v == Clamp(x, Least(signed, bits), Greatest(signed, bits))
  }

  /** BITFIELD INCRBY: exact, wrapped or clamped; FAIL writes nothing, exactly when the sum does not fit. */
  method IncrBy(p: array<Byte>, offset: nat, bits: nat, signed: bool, incr: int, mode: Mode) returns (reply: Option<int>)
    requires TypeOk(signed, bits) && IsI64(incr) && offset + bits <= 8 * p.Length
    modifies p
    ensures var x := Field(old(p[..]), offset, bits, signed) + incr;
            if !InRange(x, signed, bits) && mode == Fail then reply == None && p[..] == old(p[..])
            else && reply == Some(Field(p[..], offset, bits, signed))
                 && Stores(Field(p[..], offset, bits, signed), x, signed, bits, mode)
                 && OnlyField(old(p[..]), p[..], offset, bits)
  {
    var oldval := GetField(p[..], offset, bits, signed);
    FieldInRange(p[..], offset, bits, signed);
    hide Pow2, Field, Congruent, Clamp;
    var check := if signed then CheckSigned(oldval, incr, bits, mode) else CheckUnsigned(oldval, incr, bits, mode);
    if signed {
      SignedIncrement(oldval, incr, bits, mode);
    } else {
      UnsignedIncrement(oldval, incr, bits, mode);
    }
    var newval := if check.status != 0 then check.limit else oldval + incr;
    if check.status != 0 && mode == Fail {
      return None;
    }
    SetField(p, offset, bits, signed, newval);
    reply := Some(newval);
  }

  /** The arguments of SET that saturation handles. */
  predicate Saturates(value: int, signed: bool, bits: nat)
    requires bits > 0
  {
    if signed then value >= Greatest(true, bits) - I64_MAX else value >= 0
  }

  /** BITFIELD SET: the reply is the previous value; SAT clamps exactly the arguments that Saturates allows. */
  method Set(p: array<Byte>, offset: nat, bits: nat, signed: bool, value: int, mode: Mode) returns (reply: Option<int>)
    requires TypeOk(signed, bits) && IsI64(value) && offset + bits <= 8 * p.Length
    modifies p
    ensures var now := Field(p[..], offset, bits, signed);
            if !InRange(value, signed, bits) && mode == Fail then reply == None && p[..] == old(p[..])
            else && reply == Some(old(Field(p[..], offset, bits, signed)))
                 && OnlyField(old(p[..]), p[..], offset, bits)
                 && (InRange(value, signed, bits) || mode == Wrap ==> Stores(now, value, signed, bits, mode))
                 && (!InRange(value, signed, bits) && mode == Sat ==>
                       (now == Clamp(value, Least(signed, bits), Greatest(signed, bits)) <==> Saturates(value, signed, bits)))
  {
    var oldval := GetField(p[..], offset, bits, signed);
    hide Pow2, Field, Congruent, Clamp;
    var check := if signed then CheckSigned(value, 0, bits, mode) else CheckUnsigned(ToU64(value), 0, bits, mode);
    if signed {
      SignedSet(value, bits, mode);
    } else {
      UnsignedSet(value, bits, mode);
    }
    var newval := if check.status != 0 then check.limit else value;
    if check.status != 0 && mode == Fail {
      return None;
    }
    SetField(p, offset, bits, signed, newval);
    reply := Some(oldval);
  }

  /** BITFIELD GET: nine bytes, zero where the string has ended, hold the whole field. */
  method Get(src: seq<Byte>, offset: nat, bits: nat, signed: bool) returns (value: int)
    requires TypeOk(signed, bits)
    ensures value == Field(src, offset, bits, signed)
  {
    var buf := new Byte[9](_ => 0);
    var byte := offset / 8;
    var i := 0;
    while i < 9 && i + byte < |src|
      invariant 0 <= i <= 9
      invariant forall k :: 0 <= k < i ==> k + byte < |src| && buf[k] == src[k + byte]
      invariant forall k :: i <= k < 9 ==> buf[k] == 0
    {
      buf[i] := src[i + byte];
      i := i + 1;
    }
    value := GetField(buf[..], offset - byte * 8, bits, signed);
    SameWindow(src, buf[..], offset, bits);
  }

  lemma SameWindow(src: seq<Byte>, buf: seq<Byte>, offset: nat, bits: nat)
    requires |buf| == 9 && bits <= 64
    requires forall k :: 0 <= k < 9 ==> buf[k] == if k + offset / 8 < |src| then src[k + offset / 8] else 0
    ensures Window(buf, offset % 8, bits) == Window(src, offset, bits)
  {
    hide Padded;
    var a, b := Window(buf, offset % 8, bits), Window(src, offset, bits);
    forall j | 0 <= j < bits
      ensures a[j] == b[j]
    {
      SameBit(src, buf, offset, offset % 8 + j);
      assert offset / 8 * 8 + (offset % 8 + j) == offset + j;
    }
  }

  lemma SameBit(src: seq<Byte>, buf: seq<Byte>, offset: nat, i: nat)
    requires |buf| == 9 && i < 72
    requires buf[i / 8] == if i / 8 + offset / 8 < |src| then src[i / 8 + offset / 8] else 0
    ensures Padded(buf, i) == Padded(src, offset / 8 * 8 + i)
  {
    var g := offset / 8 * 8 + i;
    assert g / 8 == offset / 8 + i / 8 && g % 8 == i % 8;
    assert !On(0, 7 - i % 8);
  }
}
