/**
  BITOP (src/bitops.c): four words at a time while all sources have data, then byte
  by byte with early exits.
*/
module BitOp {
  import opened Wrappers
  import opened Bits

  datatype Op = AndOp | OrOp | XorOp | NotOp

  /** Byte j of a source, zero where it has ended. */
  function At(s: seq<Byte>, j: nat): Byte {
    if j < |s| then s[j] else 0
  }

  function Apply(op: Op, a: Byte, b: Byte): Byte {
    match op
    case AndOp => a & b
    case OrOp => a | b
    case XorOp => a ^ b
    case NotOp => !a
  }

  /** The operation over the first n sources. */
  function FoldTo(op: Op, src: seq<seq<Byte>>, j: nat, n: nat): Byte
    requires 1 <= n <= |src|
  {
    if n == 1 then At(src[0], j) else Apply(op, FoldTo(op, src, j, n - 1), At(src[n - 1], j))
  }

  /** Byte j of the result. */
  function Result(op: Op, src: seq<seq<Byte>>, j: nat): Byte
    requires src != []
  {
    if op == NotOp then !At(src[0], j) else FoldTo(op, src, j, |src|)
  }

  // ---------------------------------------------------------- what the bits mean

  lemma AndOn(a: Byte, b: Byte, k: nat)
    requires k < 8
    ensures On(Apply(AndOp, a, b), k) == (On(a, k) && On(b, k))
  {}

  lemma OrOn(a: Byte, b: Byte, k: nat)
    requires k < 8
    ensures On(Apply(OrOp, a, b), k) == (On(a, k) || On(b, k))
  {}

  predicate Single(m: Byte) {
    m & (m - 1) == 0
  }

  lemma MaskSingle(k: nat)
    requires k < 8
    ensures Single(Mask(k))
  {}

  lemma XorOn(a: Byte, b: Byte, k: nat)
    requires k < 8
    ensures On(Apply(XorOp, a, b), k) == (On(a, k) != On(b, k))
  {
    hide Mask, Single;
    MaskSingle(k);
  }

  lemma NotOn(a: Byte, b: Byte, k: nat)
    requires k < 8
    ensures On(Apply(NotOp, a, b), k) == !On(a, k)
  {}

  lemma ApplyOn(op: Op, a: Byte, b: Byte, k: nat)
    requires k < 8
    ensures On(Apply(op, a, b), k) ==
            match op
            case AndOp => On(a, k) && On(b, k)
            case OrOp => On(a, k) || On(b, k)
            case XorOp => On(a, k) != On(b, k)
            case NotOp => !On(a, k)
  {
    hide On, Apply;
    match op {
      case AndOp => AndOn(a, b, k);
      case OrOp => OrOn(a, b, k);
      case XorOp => XorOn(a, b, k);
      case NotOp => NotOn(a, b, k);
    }
  }

  /** How many of the first n sources have bit k of byte j set. */
  function CountOn(src: seq<seq<Byte>>, j: nat, k: nat, n: nat): nat
    requires n <= |src| && k < 8
  {
    if n == 0 then 0 else CountOn(src, j, k, n - 1) + One(On(At(src[n - 1], j), k))
  }

  /** AND: in all of them; OR: in one of them; XOR: in an odd number of them. */
  lemma {:induction false} FoldMeans(op: Op, src: seq<seq<Byte>>, j: nat, k: nat, n: nat)
    requires 1 <= n <= |src| && k < 8 && op != NotOp
    ensures match op
            case AndOp => On(FoldTo(op, src, j, n), k) <==> CountOn(src, j, k, n) == n
            case OrOp => On(FoldTo(op, src, j, n), k) <==> CountOn(src, j, k, n) > 0
            case XorOp => On(FoldTo(op, src, j, n), k) <==> CountOn(src, j, k, n) % 2 == 1
            case NotOp => true
    ensures CountOn(src, j, k, n) <= n
    decreases n
  {
    hide On, Apply, At;
    if n > 1 {
      FoldMeans(op, src, j, k, n - 1);
      ApplyOn(op, FoldTo(op, src, j, n - 1), At(src[n - 1], j), k);
    } else {
      assert CountOn(src, j, k, 0) == 0;
    }
  }

  // --------------------------------------------------------------------- words

  /** Byte k of a 64-bit word. */
  function Lane(x: bv64, k: nat): Byte
    requires k < 8
  {
    match k
    case 0 => (x & 0xff) as bv8
    case 1 => ((x >> 8) & 0xff) as bv8
    case 2 => ((x >> 16) & 0xff) as bv8
    case 3 => ((x >> 24) & 0xff) as bv8
    case 4 => ((x >> 32) & 0xff) as bv8
    case 5 => ((x >> 40) & 0xff) as bv8
    case 6 => ((x >> 48) & 0xff) as bv8
    case _ => (x >> 56) as bv8
  }

  /** A 64-bit load on a little-endian machine. */
  function Load(s: seq<Byte>): bv64
    requires |s| == 8
  {
    Word(s[0], s[1], s[2], s[3], s[4], s[5], s[6], s[7])
  }

  function Word(b0: Byte, b1: Byte, b2: Byte, b3: Byte, b4: Byte, b5: Byte, b6: Byte, b7: Byte): bv64 {
    (b0 as bv64) | ((b1 as bv64) << 8) | ((b2 as bv64) << 16) | ((b3 as bv64) << 24)
    | ((b4 as bv64) << 32) | ((b5 as bv64) << 40) | ((b6 as bv64) << 48) | ((b7 as bv64) << 56)
  }

  function ApplyWord(op: Op, a: bv64, b: bv64): bv64 {
    match op
    case AndOp => a & b
    case OrOp => a | b
    case XorOp => a ^ b
    case NotOp => !a
  }

  lemma LoadLane(s: seq<Byte>, k: nat)
    requires |s| == 8 && k < 8
    ensures Lane(Load(s), k) == s[k]
  {
    hide Word, Lane;
    WordLow(s[0], s[1], s[2], s[3], s[4], s[5], s[6], s[7]);
    WordHigh(s[0], s[1], s[2], s[3], s[4], s[5], s[6], s[7]);
    assert k == 0 || k == 1 || k == 2 || k == 3 || k == 4 || k == 5 || k == 6 || k == 7;
  }

  lemma WordLow(b0: Byte, b1: Byte, b2: Byte, b3: Byte, b4: Byte, b5: Byte, b6: Byte, b7: Byte)
    ensures var w := Word(b0, b1, b2, b3, b4, b5, b6, b7);
            Lane(w, 0) == b0 && Lane(w, 1) == b1 && Lane(w, 2) == b2 && Lane(w, 3) == b3
  {}

  lemma WordHigh(b0: Byte, b1: Byte, b2: Byte, b3: Byte, b4: Byte, b5: Byte, b6: Byte, b7: Byte)
    ensures var w := Word(b0, b1, b2, b3, b4, b5, b6, b7);
            Lane(w, 4) == b4 && Lane(w, 5) == b5 && Lane(w, 6) == b6 && Lane(w, 7) == b7
  {}

  lemma AndLaneRaw(a: bv64, b: bv64)
    ensures Lane(a & b, 0) == Lane(a, 0) & Lane(b, 0) && Lane(a & b, 1) == Lane(a, 1) & Lane(b, 1)
    ensures Lane(a & b, 2) == Lane(a, 2) & Lane(b, 2) && Lane(a & b, 3) == Lane(a, 3) & Lane(b, 3)
    ensures Lane(a & b, 4) == Lane(a, 4) & Lane(b, 4) && Lane(a & b, 5) == Lane(a, 5) & Lane(b, 5)
    ensures Lane(a & b, 6) == Lane(a, 6) & Lane(b, 6) && Lane(a & b, 7) == Lane(a, 7) & Lane(b, 7)
  {}

  lemma AndLane(a: bv64, b: bv64)
    ensures var w := ApplyWord(AndOp, a, b);
            && Lane(w, 0) == Apply(AndOp, Lane(a, 0), Lane(b, 0)) && Lane(w, 1) == Apply(AndOp, Lane(a, 1), Lane(b, 1))
            && Lane(w, 2) == Apply(AndOp, Lane(a, 2), Lane(b, 2)) && Lane(w, 3) == Apply(AndOp, Lane(a, 3), Lane(b, 3))
            && Lane(w, 4) == Apply(AndOp, Lane(a, 4), Lane(b, 4)) && Lane(w, 5) == Apply(AndOp, Lane(a, 5), Lane(b, 5))
            && Lane(w, 6) == Apply(AndOp, Lane(a, 6), Lane(b, 6)) && Lane(w, 7) == Apply(AndOp, Lane(a, 7), Lane(b, 7))
  {
    hide Lane;
    AndLaneRaw(a, b);
  }

  lemma OrLaneRaw(a: bv64, b: bv64)
    ensures Lane(a | b, 0) == Lane(a, 0) | Lane(b, 0) && Lane(a | b, 1) == Lane(a, 1) | Lane(b, 1)
    ensures Lane(a | b, 2) == Lane(a, 2) | Lane(b, 2) && Lane(a | b, 3) == Lane(a, 3) | Lane(b, 3)
    ensures Lane(a | b, 4) == Lane(a, 4) | Lane(b, 4) && Lane(a | b, 5) == Lane(a, 5) | Lane(b, 5)
    ensures Lane(a | b, 6) == Lane(a, 6) | Lane(b, 6) && Lane(a | b, 7) == Lane(a, 7) | Lane(b, 7)
  {}

  lemma OrLane(a: bv64, b: bv64)
    ensures var w := ApplyWord(OrOp, a, b);
            && Lane(w, 0) == Apply(OrOp, Lane(a, 0), Lane(b, 0)) && Lane(w, 1) == Apply(OrOp, Lane(a, 1), Lane(b, 1))
            && Lane(w, 2) == Apply(OrOp, Lane(a, 2), Lane(b, 2)) && Lane(w, 3) == Apply(OrOp, Lane(a, 3), Lane(b, 3))
            && Lane(w, 4) == Apply(OrOp, Lane(a, 4), Lane(b, 4)) && Lane(w, 5) == Apply(OrOp, Lane(a, 5), Lane(b, 5))
            && Lane(w, 6) == Apply(OrOp, Lane(a, 6), Lane(b, 6)) && Lane(w, 7) == Apply(OrOp, Lane(a, 7), Lane(b, 7))
  {
    hide Lane;
    OrLaneRaw(a, b);
  }

  lemma XorLaneRaw(a: bv64, b: bv64)
    ensures Lane(a ^ b, 0) == Lane(a, 0) ^ Lane(b, 0) && Lane(a ^ b, 1) == Lane(a, 1) ^ Lane(b, 1)
    ensures Lane(a ^ b, 2) == Lane(a, 2) ^ Lane(b, 2) && Lane(a ^ b, 3) == Lane(a, 3) ^ Lane(b, 3)
    ensures Lane(a ^ b, 4) == Lane(a, 4) ^ Lane(b, 4) && Lane(a ^ b, 5) == Lane(a, 5) ^ Lane(b, 5)
    ensures Lane(a ^ b, 6) == Lane(a, 6) ^ Lane(b, 6) && Lane(a ^ b, 7) == Lane(a, 7) ^ Lane(b, 7)
  {}

  lemma XorLane(a: bv64, b: bv64)
    ensures var w := ApplyWord(XorOp, a, b);
            && Lane(w, 0) == Apply(XorOp, Lane(a, 0), Lane(b, 0)) && Lane(w, 1) == Apply(XorOp, Lane(a, 1), Lane(b, 1))
            && Lane(w, 2) == Apply(XorOp, Lane(a, 2), Lane(b, 2)) && Lane(w, 3) == Apply(XorOp, Lane(a, 3), Lane(b, 3))
            && Lane(w, 4) == Apply(XorOp, Lane(a, 4), Lane(b, 4)) && Lane(w, 5) == Apply(XorOp, Lane(a, 5), Lane(b, 5))
            && Lane(w, 6) == Apply(XorOp, Lane(a, 6), Lane(b, 6)) && Lane(w, 7) == Apply(XorOp, Lane(a, 7), Lane(b, 7))
  {
    hide Lane;
    XorLaneRaw(a, b);
  }

  lemma NotLaneRaw(a: bv64)
    ensures Lane(!a, 0) == !Lane(a, 0) && Lane(!a, 1) == !Lane(a, 1)
    ensures Lane(!a, 2) == !Lane(a, 2) && Lane(!a, 3) == !Lane(a, 3)
    ensures Lane(!a, 4) == !Lane(a, 4) && Lane(!a, 5) == !Lane(a, 5)
    ensures Lane(!a, 6) == !Lane(a, 6) && Lane(!a, 7) == !Lane(a, 7)
  {}

  lemma NotLane(a: bv64, b: bv64)
    ensures var w := ApplyWord(NotOp, a, b);
            && Lane(w, 0) == Apply(NotOp, Lane(a, 0), Lane(b, 0)) && Lane(w, 1) == Apply(NotOp, Lane(a, 1), Lane(b, 1))
            && Lane(w, 2) == Apply(NotOp, Lane(a, 2), Lane(b, 2)) && Lane(w, 3) == Apply(NotOp, Lane(a, 3), Lane(b, 3))
            && Lane(w, 4) == Apply(NotOp, Lane(a, 4), Lane(b, 4)) && Lane(w, 5) == Apply(NotOp, Lane(a, 5), Lane(b, 5))
            && Lane(w, 6) == Apply(NotOp, Lane(a, 6), Lane(b, 6)) && Lane(w, 7) == Apply(NotOp, Lane(a, 7), Lane(b, 7))
  {
    hide Lane;
    NotLaneRaw(a);
  }

  /** A word operation is eight byte operations. */
  lemma ApplyLane(op: Op, a: bv64, b: bv64, k: nat)
    requires k < 8
    ensures Lane(ApplyWord(op, a, b), k) == Apply(op, Lane(a, k), Lane(b, k))
  {
    hide Lane, ApplyWord, Apply;
    match op {
      case AndOp => AndLane(a, b);
      case OrOp => OrLane(a, b);
      case XorOp => XorLane(a, b);
      case NotOp => NotLane(a, b);
    }
  }

  // ---------------------------------------------------------------------- the fast path

  /** Only from o on, n bytes have had the operation applied with those of s. */
  ghost predicate Applied(op: Op, was: seq<Byte>, now: seq<Byte>, o: nat, n: nat, s: seq<Byte>) {
    && |now| == |was|
    && forall t :: 0 <= t < |was| ==> now[t] == if o <= t < o + n then Apply(op, was[t], At(s, t)) else was[t]
  }

  lemma AppliedBoth(op: Op, a: seq<Byte>, b: seq<Byte>, c: seq<Byte>, o: nat, n: nat, m: nat, s: seq<Byte>)
    requires Applied(op, a, b, o, n, s) && Applied(op, b, c, o + n, m, s)
    ensures Applied(op, a, c, o, n + m, s)
  {
    hide Apply, At;
  }

  /** lres[w] op= lp[i][w] */
  method WordStep(op: Op, res: array<Byte>, o: nat, s: seq<Byte>)
    requires o + 8 <= res.Length && (op != NotOp ==> o + 8 <= |s|)
    modifies res
    ensures Applied(op, old(res[..]), res[..], o, 8, s)
  {
    hide Lane, Load, ApplyWord;
    var x := Load(res[o..o + 8]);
    var y := if op == NotOp then 0 else Load(s[o..o + 8]);
    var w := ApplyWord(op, x, y);
    for k := 0 to 8
      invariant forall t :: 0 <= t < res.Length ==>
                  res[t] == if o <= t < o + k then Lane(w, t - o) else old(res[t])
    {
      res[o + k] := Lane(w, k);
    }
    forall t | o <= t < o + 8
      ensures Lane(w, t - o) == Apply(op, old(res[t]), At(s, t))
    {
      ApplyLane(op, x, y, t - o);
      LoadLane(old(res[o..o + 8]), t - o);
      if op == NotOp {
      } else {
        LoadLane(s[o..o + 8], t - o);
      }
    }
  }

  /** The four words of one turn of the fast path, for one source. */
  method BlockStep(op: Op, res: array<Byte>, o: nat, s: seq<Byte>)
    requires o + 32 <= res.Length && (op != NotOp ==> o + 32 <= |s|)
    modifies res
    ensures Applied(op, old(res[..]), res[..], o, 32, s)
  {
    hide Applied;
    ghost var r0 := res[..];
    WordStep(op, res, o, s);
    ghost var r1 := res[..];
    WordStep(op, res, o + 8, s);
    ghost var r2 := res[..];
    AppliedBoth(op, r0, r1, r2, o, 8, 8, s);
    WordStep(op, res, o + 16, s);
    ghost var r3 := res[..];
    AppliedBoth(op, r0, r2, r3, o, 16, 8, s);
    WordStep(op, res, o + 24, s);
    AppliedBoth(op, r0, r3, res[..], o, 24, 8, s);
  }

  /** The bytes before `done` are the result, those up to `end` are the fold of n sources, those up to `limit` the first source. */
  ghost predicate Progress(op: Op, src: seq<seq<Byte>>, r: seq<Byte>, done: nat, end: nat, n: nat, limit: nat)
    requires 1 <= n <= |src|
  {
    && done <= end && limit <= |r|
    && (forall t :: 0 <= t < done && t < |r| ==> r[t] == Result(op, src, t))
    && (forall t :: done <= t < end && t < |r| ==> r[t] == FoldTo(op, src, t, n))
    && (forall t :: end <= t < limit ==> r[t] == At(src[0], t))
  }

  lemma ProgressFold(op: Op, src: seq<seq<Byte>>, a: seq<Byte>, b: seq<Byte>, done: nat, n: nat, limit: nat)
    requires 1 <= n < |src| && Progress(op, src, a, done, done + 32, n, limit) && Applied(op, a, b, done, 32, src[n])
    ensures Progress(op, src, b, done, done + 32, n + 1, limit)
  {
    hide Apply, At, Result;
  }

  /** The fast path: whole blocks of 32 bytes. */
  method FastPath(op: Op, res: array<Byte>, src: seq<seq<Byte>>, minlen: nat) returns (j: nat)
    requires src != [] && (op == NotOp ==> |src| == 1) && minlen <= res.Length && forall i :: 0 <= i < |src| ==> minlen <= |src[i]|
    modifies res
    ensures j <= minlen && forall t :: 0 <= t < j ==> res[t] == Result(op, src, t)
  {
    hide Apply, FoldTo, At, Result;
    var i := 0;
    while i < minlen
      invariant 0 <= i <= minlen
      invariant forall t :: 0 <= t < i ==> res[t] == src[0][t]
    {
      res[i] := src[0][i];
      i := i + 1;
    }
    j := 0;
    Copied(op, src, res[..], minlen);
    while minlen - j >= 32
      invariant 0 <= j <= minlen && Progress(op, src, res[..], j, j, 1, minlen)
    {
      Turn(op, res, src, j, minlen);
      j := j + 32;
    }
    assert forall t :: 0 <= t < j ==> res[t] == res[..][t];
  }

  lemma Copied(op: Op, src: seq<seq<Byte>>, r: seq<Byte>, minlen: nat)
    requires src != [] && minlen <= |r| && minlen <= |src[0]| && forall t :: 0 <= t < minlen ==> r[t] == src[0][t]
    ensures Progress(op, src, r, 0, 0, 1, minlen)
  {}

  /** One turn of the fast path: 32 bytes for every source. */
  method Turn(op: Op, res: array<Byte>, src: seq<seq<Byte>>, j: nat, minlen: nat)
    requires src != [] && (op == NotOp ==> |src| == 1) && minlen <= res.Length && forall i :: 0 <= i < |src| ==> minlen <= |src[i]|
    requires j + 32 <= minlen && Progress(op, src, res[..], j, j, 1, minlen)
    modifies res
    ensures Progress(op, src, res[..], j + 32, j + 32, 1, minlen)
  {
    hide Applied, Progress;
    if op == NotOp {
      ghost var before := res[..];
      BlockStep(op, res, j, []);
      TurnNot(src, before, res[..], j, minlen);
    } else {
      TurnStart(op, src, res[..], j, minlen);
      for i := 1 to |src|
        invariant Progress(op, src, res[..], j, j + 32, i, minlen)
      {
        ghost var before := res[..];
        BlockStep(op, res, j, src[i]);
        ProgressFold(op, src, before, res[..], j, i, minlen);
      }
      TurnEnd(op, src, res[..], j, minlen);
    }
  }

  lemma TurnNot(src: seq<seq<Byte>>, a: seq<Byte>, b: seq<Byte>, j: nat, limit: nat)
    requires |src| == 1 && j + 32 <= limit && Progress(NotOp, src, a, j, j, 1, limit) && Applied(NotOp, a, b, j, 32, [])
    ensures Progress(NotOp, src, b, j + 32, j + 32, 1, limit)
  {}

  lemma TurnStart(op: Op, src: seq<seq<Byte>>, r: seq<Byte>, j: nat, limit: nat)
    requires src != [] && j + 32 <= limit && Progress(op, src, r, j, j, 1, limit)
    ensures Progress(op, src, r, j, j + 32, 1, limit)
  {
    hide Apply, At, Result;
  }

  lemma TurnEnd(op: Op, src: seq<seq<Byte>>, r: seq<Byte>, j: nat, limit: nat)
    requires src != [] && op != NotOp && Progress(op, src, r, j, j + 32, |src|, limit)
    ensures Progress(op, src, r, j + 32, j + 32, 1, limit)
  {
    hide Apply, At, FoldTo;
  }

  // ---------------------------------------------------------------------- the rest

  /** Nothing turns a bit back on in AND, or off in OR. */
  lemma {:induction false} Settled(op: Op, src: seq<seq<Byte>>, j: nat, i: nat, n: nat)
    requires 1 <= i <= n <= |src|
    ensures op == AndOp && FoldTo(op, src, j, i) == 0 ==> FoldTo(op, src, j, n) == 0
    ensures op == OrOp && FoldTo(op, src, j, i) == 0xff ==> FoldTo(op, src, j, n) == 0xff
    decreases n
  {
    hide At;
    if i < n {
      Settled(op, src, j, i, n - 1);
    }
  }

  /** One byte of the slow path, which stops early when the byte cannot change any more. */
  method SlowByte(op: Op, src: seq<seq<Byte>>, j: nat) returns (output: Byte)
    requires src != [] && (op == NotOp ==> |src| == 1)
    ensures output == Result(op, src, j)
  {
    hide At;
    output := At(src[0], j);
    if op == NotOp {
      output := !output;
    }
    for i := 1 to |src|
      invariant op != NotOp ==> output == FoldTo(op, src, j, i)
      invariant op == NotOp ==> output == Result(op, src, j)
    {
      output := Apply(op, output, At(src[i], j));
      var skip := (op == AndOp && output == 0) || (op == OrOp && output == 0xff);
      if skip {
        Settled(op, src, j, i + 1, |src|);
        return;
      }
    }
  }

  /** The sources, missing keys being empty. */
  function Sources(keys: seq<Option<seq<Byte>>>): (src: seq<seq<Byte>>)
    ensures |src| == |keys| && forall i :: 0 <= i < |keys| ==> src[i] == if keys[i].Some? then keys[i].value else []
  {
    seq(|keys|, i requires 0 <= i < |keys| => if keys[i].Some? then keys[i].value else [])
  }

  /** The loop that looks the keys up: the greatest length, and a length that every source has. */
  method Lengths(keys: seq<Option<seq<Byte>>>) returns (maxlen: nat, minlen: nat)
    requires keys != []
    ensures forall i :: 0 <= i < |keys| ==> minlen <= |Sources(keys)[i]| <= maxlen
    ensures exists i :: 0 <= i < |keys| && |Sources(keys)[i]| == maxlen
  {
    maxlen, minlen := 0, 0;
    for j := 0 to |keys|
      invariant forall i :: 0 <= i < j ==> minlen <= |Sources(keys)[i]| <= maxlen
      invariant j == 0 ==> maxlen == 0
      invariant j > 0 ==> exists i :: 0 <= i < j && |Sources(keys)[i]| == maxlen
    {
      ghost var at := Sources(keys)[j];
      match keys[j] {
        case None =>
          minlen := 0;
        case Some(s) =>
          if |s| > maxlen {
            maxlen := |s|;
          }
          if j == 0 || |s| < minlen {
            minlen := |s|;
          }
      }
      assert |at| <= maxlen;
    }
  }

  /** bitopCommand: every byte of the greatest length, the sources being padded with zeros. */
  method Bitop(op: Op, keys: seq<Option<seq<Byte>>>) returns (r: seq<Byte>)
    requires keys != [] && (op == NotOp ==> |keys| == 1)
    ensures var src := Sources(keys);
            && (forall i :: 0 <= i < |src| ==> |src[i]| <= |r|) && (exists i :: 0 <= i < |src| && |src[i]| == |r|)
            && forall j :: 0 <= j < |r| ==> r[j] == Result(op, src, j)
  {
    hide Result;
    var src := Sources(keys);
    var maxlen, minlen := Lengths(keys);
    var res := new Byte[maxlen];
    var j := 0;
    if minlen >= 32 && |keys| <= 16 {
      j := FastPath(op, res, src, minlen);
    }
    while j < maxlen
      invariant 0 <= j <= maxlen && forall t :: 0 <= t < j ==> res[t] == Result(op, src, t)
    {
      var output := SlowByte(op, src, j);
      res[j] := output;
      j := j + 1;
    }
    r := res[..];
  }
}
