/**
  Counting ones (src/bitops.c): redisPopcount, and BITCOUNT over a range of bytes or bits.
*/
module BitCount {
  import opened Wrappers
  import opened Bits
  import Swar

  /** bitsinbyte */
  function Ones(b: Byte): nat {
    One(On(b, 0)) + One(On(b, 1)) + One(On(b, 2)) + One(On(b, 3)) + One(On(b, 4)) + One(On(b, 5)) + One(On(b, 6)) + One(On(b, 7))
  }

  /** The ones of a string. */
  function CountBytes(s: seq<Byte>): nat {
    if s == [] then 0 else CountBytes(s[..|s| - 1]) + Ones(s[|s| - 1])
  }

  lemma {:induction false} CountSplits(s: seq<Byte>, t: seq<Byte>)
    ensures CountBytes(s + t) == CountBytes(s) + CountBytes(t)
  {
    hide Ones;
    if t == [] {
      assert s + t == s;
    } else {
      var n := |t| - 1;
      assert (s + t)[..|s| + n] == s + t[..n];
      CountSplits(s, t[..n]);
    }
  }

  /** The ones of a number with byte b at the bottom. */
  lemma OnesValue(b: Byte, x: nat)
    ensures Value(b) < 256 && Swar.Ones(Value(b) + 256 * x) == Ones(b) + Swar.Ones(x)
  {
    hide Swar.Ones, On;
    OnesDown(One(On(b, 0)), One(On(b, 1)), One(On(b, 2)), One(On(b, 3)),
             One(On(b, 4)), One(On(b, 5)), One(On(b, 6)), One(On(b, 7)), x);
  }

  lemma OnesDown(b0: nat, b1: nat, b2: nat, b3: nat, b4: nat, b5: nat, b6: nat, b7: nat, x: nat)
    requires b0 < 2 && b1 < 2 && b2 < 2 && b3 < 2 && b4 < 2 && b5 < 2 && b6 < 2 && b7 < 2
    ensures Swar.Ones(b0 + 2 * (b1 + 2 * (b2 + 2 * (b3 + 2 * (b4 + 2 * (b5 + 2 * (b6 + 2 * b7)))))) + 256 * x)
         == b0 + b1 + b2 + b3 + b4 + b5 + b6 + b7 + Swar.Ones(x)
  {
    hide Swar.Ones;
    var v7 := b7 + 2 * x;
    var v6 := b6 + 2 * v7;
    var v5 := b5 + 2 * v6;
    var v4 := b4 + 2 * v5;
    var v3 := b3 + 2 * v4;
    var v2 := b2 + 2 * v3;
    var v1 := b1 + 2 * v2;
    Swar.OnesBit(b7, x);
    Swar.OnesBit(b6, v7);
    Swar.OnesBit(b5, v6);
    Swar.OnesBit(b4, v5);
    Swar.OnesBit(b3, v4);
    Swar.OnesBit(b2, v3);
    Swar.OnesBit(b1, v2);
    Swar.OnesBit(b0, v1);
  }

  // ----------------------------------------------------------------- redisPopcount

  /** A 32-bit load. */
  function Load(s: seq<Byte>, i: nat): nat
    requires i + 4 <= |s|
  {
    Value(s[i]) + 256 * (Value(s[i + 1]) + 256 * (Value(s[i + 2]) + 256 * Value(s[i + 3])))
  }

  lemma LoadOnes(s: seq<Byte>, i: nat)
    requires i + 4 <= |s|
    ensures Load(s, i) < Swar.TWO32 && Swar.Ones(Load(s, i)) == CountBytes(s[i..i + 4])
  {
    hide Value, Ones, Swar.Ones;
    OnesValue(s[i + 3], 0);
    OnesValue(s[i + 2], Value(s[i + 3]));
    OnesValue(s[i + 1], Value(s[i + 2]) + 256 * Value(s[i + 3]));
    OnesValue(s[i], Value(s[i + 1]) + 256 * (Value(s[i + 2]) + 256 * Value(s[i + 3])));
    NoOnes();
    Four(s[i..i + 4]);
  }

  lemma NoOnes()
    ensures Swar.Ones(0) == 0
  {}

  lemma Four(t: seq<Byte>)
    requires |t| == 4
    ensures CountBytes(t) == Ones(t[0]) + Ones(t[1]) + Ones(t[2]) + Ones(t[3])
  {
    hide Ones;
    assert t[..3][..2] == t[..2] && t[..2][..1] == t[..1] && t[..1][..0] == [];
    assert CountBytes(t[..1]) == Ones(t[0]);
    assert CountBytes(t[..2]) == Ones(t[0]) + Ones(t[1]);
    assert CountBytes(t[..3]) == Ones(t[0]) + Ones(t[1]) + Ones(t[2]);
  }

  /** The sum of the lanes of the k words from i on. */
  function LaneSum(s: seq<Byte>, i: nat, k: nat): nat
    requires i + 4 * k <= |s|
  {
    if k == 0 then 0 else LaneSum(s, i, k - 1) + Swar.CountLanes(Load(s, i + 4 * (k - 1)))
  }

  lemma CountNothing()
    ensures CountBytes([]) == 0
  {}

  lemma {:induction false} LaneSumCounts(s: seq<Byte>, i: nat, k: nat)
    requires i + 4 * k <= |s| && k <= 7
    ensures var x := LaneSum(s, i, k);
            Swar.Sum256(x) == CountBytes(s[i..i + 4 * k]) && Swar.Max256(x, 8 * k) && x <= k * 0x0F0F0F0F
    decreases k
  {
    hide Swar.Sum256, Swar.Max256, Swar.CountLanes, Load, Swar.Ones, CountBytes;
    if k == 0 {
      assert CountBytes([]) == 0 by {
        CountNothing();
      }
      assert s[i..i] == [];
      Swar.NoDigits();
    } else {
      var j := i + 4 * (k - 1);
      LaneSumCounts(s, i, k - 1);
      LoadOnes(s, j);
      Swar.LanesCount(Load(s, j));
      Swar.AddDigits(LaneSum(s, i, k - 1), Swar.CountLanes(Load(s, j)), 8 * (k - 1), 8);
      CountSplits(s[i..j], s[j..j + 4]);
      assert s[i..i + 4 * k] == s[i..j] + s[j..j + 4];
    }
  }

  lemma SevenLanes(s: seq<Byte>, i: nat)
    requires i + 28 <= |s|
    ensures LaneSum(s, i, 7)
            == Swar.CountLanes(Load(s, i)) + Swar.CountLanes(Load(s, i + 4)) + Swar.CountLanes(Load(s, i + 8))
             + Swar.CountLanes(Load(s, i + 12)) + Swar.CountLanes(Load(s, i + 16)) + Swar.CountLanes(Load(s, i + 20))
             + Swar.CountLanes(Load(s, i + 24))
  {
    hide Swar.CountLanes, Load;
    assert LaneSum(s, i, 1) == Swar.CountLanes(Load(s, i));
    assert LaneSum(s, i, 3) == LaneSum(s, i, 1) + Swar.CountLanes(Load(s, i + 4)) + Swar.CountLanes(Load(s, i + 8));
    assert LaneSum(s, i, 5) == LaneSum(s, i, 3) + Swar.CountLanes(Load(s, i + 12)) + Swar.CountLanes(Load(s, i + 16));
  }

  /** One turn of the 28-byte loop. */
  method Block(s: seq<Byte>, i: nat) returns (n: nat)
    requires i + 28 <= |s|
    ensures n == CountBytes(s[i..i + 28])
  {
    hide Swar.Sum256, Swar.Max256, Swar.CountLanes, Load;
    var aux1, aux2, aux3, aux4 := Load(s, i), Load(s, i + 4), Load(s, i + 8), Load(s, i + 12);
    var aux5, aux6, aux7 := Load(s, i + 16), Load(s, i + 20), Load(s, i + 24);
    var sum := Swar.CountLanes(aux1) + Swar.CountLanes(aux2) + Swar.CountLanes(aux3) + Swar.CountLanes(aux4)
             + Swar.CountLanes(aux5) + Swar.CountLanes(aux6) + Swar.CountLanes(aux7);
    SevenLanes(s, i);
    hide LaneSum;
    LaneSumCounts(s, i, 7);
    Swar.TopByte(sum);
    n := sum % Swar.TWO32 * 0x01010101 % Swar.TWO32 / 0x1000000;
  }

  /** redisPopcount of a string at address addr. */
  method Popcount(s: seq<Byte>, addr: nat) returns (bits: nat)
    ensures bits == CountBytes(s)
  {
    hide Ones;
    bits := 0;
    var p := 0;
    while (addr + p) % 4 != 0 && p < |s|
      invariant 0 <= p <= |s| && bits == CountBytes(s[..p])
      decreases |s| - p
    {
      bits := bits + Ones(s[p]);
      p := p + 1;
      assert s[..p][..p - 1] == s[..p - 1];
    }
    while |s| - p >= 28
      invariant 0 <= p <= |s| && bits == CountBytes(s[..p])
    {
      var n := Block(s, p);
      CountSplits(s[..p], s[p..p + 28]);
      assert s[..p] + s[p..p + 28] == s[..p + 28];
      bits := bits + n;
      p := p + 28;
    }
    while p < |s|
      invariant 0 <= p <= |s| && bits == CountBytes(s[..p])
    {
      bits := bits + Ones(s[p]);
      p := p + 1;
      assert s[..p][..p - 1] == s[..p - 1];
    }
    assert s[..p] == s;
  }

  // ----------------------------------------------------------------------- BITCOUNT

  /** The ones among bits lo..hi of a string, hi not included. */
  function CountBits(s: seq<Byte>, lo: nat, hi: nat): nat
    requires hi <= 8 * |s|
  {
    if hi <= lo then 0 else CountBits(s, lo, hi - 1) + One(Bit(s, hi - 1))
  }

  lemma {:induction false} CountBitsSplit(s: seq<Byte>, lo: nat, mid: nat, hi: nat)
    requires lo <= mid <= hi <= 8 * |s|
    ensures CountBits(s, lo, hi) == CountBits(s, lo, mid) + CountBits(s, mid, hi)
    decreases hi
  {
    if mid < hi {
      CountBitsSplit(s, lo, mid, hi - 1);
    }
  }

  /** The ones among the first r bits of a byte. */
  function FirstOnes(b: Byte, r: nat): nat
    requires r <= 8
  {
    if r == 0 then 0 else FirstOnes(b, r - 1) + One(On(b, 8 - r))
  }

  lemma AllOnes(b: Byte)
    ensures FirstOnes(b, 8) == Ones(b)
  {
    hide On;
    assert FirstOnes(b, 1) == One(On(b, 7));
    assert FirstOnes(b, 2) == One(On(b, 7)) + One(On(b, 6));
    assert FirstOnes(b, 4) == FirstOnes(b, 2) + One(On(b, 5)) + One(On(b, 4));
    assert FirstOnes(b, 6) == FirstOnes(b, 4) + One(On(b, 3)) + One(On(b, 2));
  }

  /** The first bits of one byte of a string. */
  lemma {:induction false} PartOfByte(s: seq<Byte>, i: nat, r: nat)
    requires i < |s| && r <= 8
    ensures CountBits(s, 8 * i, 8 * i + r) == FirstOnes(s[i], r)
    decreases r
  {
    hide On;
    if r > 0 {
      PartOfByte(s, i, r - 1);
      assert (8 * i + r - 1) / 8 == i && (8 * i + r - 1) % 8 == r - 1;
    }
  }

  /** Whole bytes. */
  lemma {:induction false} CountWhole(s: seq<Byte>, a: nat, b: nat)
    requires a <= b <= |s|
    ensures CountBits(s, 8 * a, 8 * b) == CountBytes(s[a..b])
    decreases b
  {
    hide Ones, FirstOnes, Bit;
    if a < b {
      CountWhole(s, a, b - 1);
      PartOfByte(s, b - 1, 8);
      AllOnes(s[b - 1]);
      CountBitsSplit(s, 8 * a, 8 * (b - 1), 8 * b);
      assert s[a..b][..b - 1 - a] == s[a..b - 1];
    }
  }

  // -------------------------------------------------------------------- edge masks

  /** ~((1 << (8 - k)) - 1) & 0xff: the first k bits. */
  function FirstMask(k: nat): Byte
    requires k < 8
  {
    if k == 0 then 0 else !(Mask(8 - k) - 1)
  }

  /** (1 << (7 - e)) - 1: the bits behind bit e. */
  function LastMask(e: nat): Byte
    requires e < 8
  {
    Mask(7 - e) - 1
  }

  function Masked(b: Byte, mask: Byte): Byte {
    b & mask
  }

  lemma FirstMaskOn(b: Byte, k: nat, j: nat)
    requires k < 8 && j < 8
    ensures On(Masked(b, FirstMask(k)), j) == (On(b, j) && j >= 8 - k)
    ensures FirstMask(k) == 0 <==> k == 0
  {}

  lemma LastMaskOn(b: Byte, e: nat, j: nat)
    requires e < 8 && j < 8
    ensures On(Masked(b, LastMask(e)), j) == (On(b, j) && j < 7 - e)
    ensures LastMask(e) == 0 <==> e == 7
  {}

  lemma {:induction false} FirstMaskOnes(b: Byte, k: nat, r: nat)
    requires k < 8 && r <= 8
    ensures FirstOnes(Masked(b, FirstMask(k)), r) == FirstOnes(b, if r < k then r else k)
    decreases r
  {
    hide On, FirstMask, Masked;
    if r > 0 {
      FirstMaskOnes(b, k, r - 1);
      FirstMaskOn(b, k, 8 - r);
    }
  }

  lemma OneMore(b: Byte, r: nat)
    requires r <= 8
    ensures FirstOnes(b, r) == if r == 0 then 0 else FirstOnes(b, r - 1) + One(On(b, 8 - r))
  {
    hide On;
  }

  lemma {:induction false} LastMaskOnes(b: Byte, e: nat, r: nat)
    requires e < 8 && r <= 8
    ensures FirstOnes(Masked(b, LastMask(e)), r) == if r <= e + 1 then 0 else FirstOnes(b, r) - FirstOnes(b, e + 1)
    decreases r
  {
    hide On, LastMask, Masked, FirstOnes;
    var c := Masked(b, LastMask(e));
    OneMore(b, r);
    OneMore(c, r);
    if r > 0 {
      LastMaskOnes(b, e, r - 1);
      LastMaskOn(b, e, 8 - r);
    }
  }

  /** What the masks cut off at both ends. */
  lemma EdgesOnes(first: Byte, last: Byte, k: nat, e: nat)
    requires k < 8 && e < 8
    ensures Ones(Masked(first, FirstMask(k))) == FirstOnes(first, k)
    ensures Ones(Masked(last, LastMask(e))) == Ones(last) - FirstOnes(last, e + 1)
  {
    hide Ones, FirstOnes, FirstMask, LastMask, Masked;
    AllOnes(Masked(first, FirstMask(k)));
    AllOnes(Masked(last, LastMask(e)));
    AllOnes(last);
    FirstMaskOnes(first, k, 8);
    LastMaskOnes(last, e, 8);
  }

  // ------------------------------------------------------------------- the command

  /** The start and end arguments over totlen units: negative ones count from the end; None if the range is empty. */
  function Clip(start: int, end: int, totlen: nat): (r: Option<(nat, nat)>)
    ensures r.Some? ==> r.value.0 <= r.value.1 < totlen
  {
    var s := if start < 0 then totlen + start else start;
    var e := if end < 0 then totlen + end else end;
    var s' := if s < 0 then 0 else s;
    var e' := if e < 0 then 0 else e;
    var last := if e' >= totlen then totlen - 1 else e';
    if s' > last then None else Some((s', last))
  }

  /** BITCOUNT also rules out two negative arguments in the wrong order. */
  function Range(start: int, end: int, totlen: nat): (r: Option<(nat, nat)>)
    ensures r.Some? ==> r.value.0 <= r.value.1 < totlen
  {
    if start < 0 && end < 0 && start > end then None else Clip(start, end, totlen)
  }

  /** The index i of totlen is not before the start; a negative start counts from the end. */
  predicate NotBefore(i: nat, start: int, totlen: nat) {
    if start >= 0 then i >= start else totlen - i <= -start
  }

  /** Nor behind the end; an end before the beginning is the first index. */
  predicate NotBehind(i: nat, end: int, totlen: nat) {
    if end >= 0 then i <= end else totlen - i >= -end || i == 0
  }

  predicate Selected(i: nat, start: int, end: int, totlen: nat) {
    i < totlen && NotBefore(i, start, totlen) && NotBehind(i, end, totlen)
  }

  predicate Within(range: Option<(nat, nat)>, i: nat) {
    range.Some? && range.value.0 <= i <= range.value.1
  }

  /** What the arguments select. */
  lemma ClipSelects(start: int, end: int, totlen: nat, i: nat)
    ensures Selected(i, start, end, totlen) <==> Within(Clip(start, end, totlen), i)
  {}

  /** In particular 0 to -1 is everything, and -k is the k-th index from the end. */
  lemma WholeRange(totlen: nat, i: nat, k: nat)
    requires i < totlen
    ensures Selected(i, 0, -1, totlen)
    ensures 1 <= k <= totlen ==> (Selected(i, -(k as int), -(k as int), totlen) <==> i == totlen - k)
  {}

  /** The one bits that BITCOUNT counts; two negative arguments in the wrong order select nothing. */
  ghost function Counted(s: seq<Byte>, start: int, end: int, isbit: bool): set<int> {
    set i | 0 <= i < 8 * |s| && Bit(s, i) && !(start < 0 && end < 0 && start > end)
            && (if isbit then Selected(i, start, end, 8 * |s|) else Selected(i / 8, start, end, |s|))
  }

  ghost function OnesBetween(s: seq<Byte>, lo: nat, hi: nat): set<int>
    requires hi <= 8 * |s|
  {
    set i | lo <= i < hi && Bit(s, i)
  }

  /** CountBits is the number of one bits. */
  lemma {:induction false} CountIs(s: seq<Byte>, lo: nat, hi: nat)
    requires hi <= 8 * |s|
    ensures CountBits(s, lo, hi) == |OnesBetween(s, lo, hi)|
    decreases hi
  {
    hide Bit;
    if hi <= lo {
      assert OnesBetween(s, lo, hi) == {};
    } else {
      CountIs(s, lo, hi - 1);
      var less := OnesBetween(s, lo, hi - 1);
      assert OnesBetween(s, lo, hi) == less + if Bit(s, hi - 1) then {hi - 1} else {};
    }
  }

  lemma CountedIs(s: seq<Byte>, start: int, end: int, isbit: bool)
    ensures match Range(start, end, if isbit then 8 * |s| else |s|)
            case None => Counted(s, start, end, isbit) == {}
            case Some((a, b)) => Counted(s, start, end, isbit) == if isbit then OnesBetween(s, a, b + 1) else OnesBetween(s, 8 * a, 8 * b + 8)
  {
    hide Bit, Clip, Selected;
    forall i: nat
      ensures Selected(i, start, end, 8 * |s|) <==> Within(Clip(start, end, 8 * |s|), i)
      ensures Selected(i, start, end, |s|) <==> Within(Clip(start, end, |s|), i)
    {
      ClipSelects(start, end, 8 * |s|, i);
      ClipSelects(start, end, |s|, i);
    }
  }

  /** The bits that BITCOUNT counts in a range. */
  lemma InRange(s: seq<Byte>, a: nat, b: nat)
    requires a <= b < 8 * |s|
    ensures a / 8 <= b / 8 < |s|
    ensures CountBits(s, a, b + 1) == CountBytes(s[a / 8..b / 8 + 1])
                                      - FirstOnes(s[a / 8], a % 8)
                                      - (Ones(s[b / 8]) - FirstOnes(s[b / 8], b % 8 + 1))
  {
    hide CountBits, CountBytes, Ones, FirstOnes;
    var x, y := a / 8, b / 8;
    CountWhole(s, x, y + 1);
    CountBitsSplit(s, 8 * x, a, 8 * (y + 1));
    CountBitsSplit(s, a, b + 1, 8 * (y + 1));
    CountBitsSplit(s, 8 * y, b + 1, 8 * (y + 1));
    PartOfByte(s, x, a % 8);
    PartOfByte(s, y, b % 8 + 1);
    PartOfByte(s, y, 8);
    AllOnes(s[y]);
  }

  /** bitcountCommand with a range, on a string at address addr; scratch is where firstlast happens to be. */
  method Bitcount(s: seq<Byte>, addr: nat, scratch: nat, start: int, end: int, isbit: bool) returns (count: int)
    ensures count == match Range(start, end, if isbit then 8 * |s| else |s|)
                     case None => 0
                     case Some((a, b)) => if isbit then CountBits(s, a, b + 1) else CountBits(s, 8 * a, 8 * b + 8)
    ensures count == |Counted(s, start, end, isbit)|
  {
    hide CountBits, CountBytes, Ones, FirstOnes, Counted, OnesBetween;
    CountedIs(s, start, end, isbit);
    if start < 0 && end < 0 && start > end {
      return 0;
    }
    var totlen := if isbit then 8 * |s| else |s|;
    var first := if start < 0 then totlen + start else start;
    var last := if end < 0 then totlen + end else end;
    if first < 0 {
      first := 0;
    }
    if last < 0 {
      last := 0;
    }
    if last >= totlen {
      last := totlen - 1;
    }
    if first > last {
      return 0;
    }
    if isbit {
      CountIs(s, first, last + 1);
      count := CountEdges(s, addr, scratch, first, last);
    } else {
      CountIs(s, 8 * first, 8 * last + 8);
      CountWhole(s, first, last + 1);
      count := Popcount(s[first..last + 1], addr + first);
    }
  }

  /** The part of bitcountCommand with masks: all the bytes, less what the edges have too much. */
  method CountEdges(s: seq<Byte>, addr: nat, scratch: nat, first: nat, last: nat) returns (count: int)
    requires first <= last < 8 * |s|
    ensures count == CountBits(s, first, last + 1)
  {
    hide CountBits, Ones, FirstOnes, FirstMask, LastMask, Masked;
    var firstNeg, lastNeg := FirstMask(first % 8), LastMask(last % 8);
    var start, end := first / 8, last / 8;
    InRange(s, first, last);
    EdgesOnes(s[start], s[end], first % 8, last % 8);
    NoMask(s[start]);
    NoMask(s[end]);
    count := Popcount(s[start..end + 1], addr + start);
    if firstNeg != 0 || lastNeg != 0 {
      var a := if firstNeg != 0 then Masked(s[start], firstNeg) else 0;
      var b := if lastNeg != 0 then Masked(s[end], lastNeg) else 0;
      Two(a, b);
      var n := Popcount([a, b], scratch);
      count := count - n;
    }
  }

  lemma Two(a: Byte, b: Byte)
    ensures CountBytes([a, b]) == Ones(a) + Ones(b)
  {
    hide Ones;
    assert [a, b][..1] == [a] && [a][..0] == [];
    assert CountBytes([a]) == Ones(a);
  }

  lemma NoMask(b: Byte)
    ensures Masked(b, 0) == 0 && Ones(0) == 0
  {}
}
