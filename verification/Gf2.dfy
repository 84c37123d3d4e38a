/**
  Polynomials over the field of two elements, as sequences of coefficients, the leading
  one first: addition, long multiplication by a monic polynomial, and remainders.
*/
module Gf2 {

  type Poly = seq<bool>

  function Zero(n: nat): (z: Poly)
    ensures |z| == n && forall i :: 0 <= i < n ==> !z[i]
  {
    seq(n, _ => false)
  }

  function Add(a: Poly, b: Poly): (r: Poly)
    requires |a| == |b|
    ensures |r| == |a| && forall i :: 0 <= i < |a| ==> r[i] == (a[i] != b[i])
  {
    seq(|a|, i requires 0 <= i < |a| => a[i] != b[i])
  }

  /** q times the monic polynomial of degree |p| whose other coefficients are p. */
  function Times(q: Poly, p: Poly): (r: Poly)
    ensures |r| == |q| + |p|
  {
    if q == [] then Zero(|p|)
    else
      var n := |q| - 1;
      Add(Times(q[..n], p) + [false], if q[n] then Zero(n) + [true] + p else Zero(|q| + |p|))
  }

  /** d is a multiple of the monic polynomial, and v of lower degree. */
  ghost predicate IsRemainder(d: Poly, p: Poly, v: Poly) {
    exists q: Poly :: Divides(d, p, q, v)
  }

  ghost predicate Divides(d: Poly, p: Poly, q: Poly, v: Poly) {
    |v| == |p| && |d| == |q| + |p| && d == Add(Times(q, p), Zero(|q|) + v)
  }

  lemma TimesSnoc(q: Poly, c: bool, p: Poly)
    ensures Times(q + [c], p) == Add(Times(q, p) + [false], if c then Zero(|q|) + [true] + p else Zero(|q| + 1 + |p|))
  {
    assert (q + [c])[..|q|] == q;
  }

  lemma TimesAt(q: Poly, c: bool, p: Poly, i: nat)
    requires i <= |q|
    ensures Times(q + [c], p)[i] == if i < |q| then Times(q, p)[i] else (Times(q, p) + [false])[i] != c
  {
    TimesSnoc(q, c, p);
    hide Times;
    assert c ==> (Zero(|q|) + [true] + p)[i] == (i == |q|);
  }

  /** The leading coefficients of a product determine the quotient. */
  lemma {:induction false} SameQuotient(q: Poly, r: Poly, p: Poly)
    requires |q| == |r| && forall i :: 0 <= i < |q| ==> Times(q, p)[i] == Times(r, p)[i]
    ensures q == r
    decreases |q|
  {
    hide Times;
    if q != [] {
      var n := |q| - 1;
      var q', r', c, e := q[..n], r[..n], q[n], r[n];
      assert q == q' + [c] && r == r' + [e];
      forall i | 0 <= i < n
        ensures Times(q', p)[i] == Times(r', p)[i]
      {
        TimesAt(q', c, p, i);
        TimesAt(r', e, p, i);
      }
      SameQuotient(q', r', p);
      TimesAt(q', c, p, n);
      TimesAt(r', e, p, n);
    }
  }

  /** There is only one remainder. */
  lemma RemainderUnique(d: Poly, p: Poly, v: Poly, w: Poly)
    requires IsRemainder(d, p, v) && IsRemainder(d, p, w)
    ensures v == w
  {
    var q: Poly :| Divides(d, p, q, v);
    var r: Poly :| Divides(d, p, r, w);
    hide Times;
    forall i | 0 <= i < |q|
      ensures Times(q, p)[i] == Times(r, p)[i]
    {
      assert (Zero(|q|) + v)[i] == false && (Zero(|r|) + w)[i] == false;
    }
    SameQuotient(q, r, p);
    forall i | 0 <= i < |v|
      ensures v[i] == w[i]
    {
      assert (Zero(|q|) + v)[|q| + i] == v[i] && (Zero(|q|) + w)[|q| + i] == w[i];
      assert d[|q| + i] == (Times(q, p)[|q| + i] != v[i]) && d[|q| + i] == (Times(q, p)[|q| + i] != w[i]);
    }
  }

  /** What a shift register does with a message bit: the next step of the division. */
  function Shifted(v: Poly, p: Poly, b: bool): (r: Poly)
    requires |v| == |p| > 0
    ensures |r| == |v|
  {
    Add(v[1..] + [false], if v[0] != b then p else Zero(|p|))
  }

  /** One more coefficient of the dividend, at position n, and one more of the quotient. */
  lemma DivideStep(d: Poly, p: Poly, q: Poly, v: Poly, b: bool)
    requires |p| > 0 && Divides(d, p, q, v)
    ensures Divides(Add(d + [false], Zero(|q|) + [b] + Zero(|p|)), p, q + [v[0] != b], Shifted(v, p, b))
  {
    var n, m := |q|, |p|;
    var c := v[0] != b;
    var d' := Add(d + [false], Zero(n) + [b] + Zero(m));
    var t := Times(q, p);
    TimesSnoc(q, c, p);
    hide Times;
    var e := if c then Zero(n) + [true] + p else Zero(n + 1 + m);
    var t' := Times(q + [c], p);
    var w := Zero(n + 1) + Shifted(v, p, b);
    forall i | 0 <= i < n + 1 + m
      ensures d'[i] == (t'[i] != w[i])
    {
      StepAt(d, t, v, p, n, b, i);
    }
    assert d' == Add(t', w);
  }

  lemma StepAt(d: Poly, t: Poly, v: Poly, p: Poly, n: nat, b: bool, i: nat)
    requires |v| == |p| > 0 && |d| == |t| == n + |p| && i < n + 1 + |p| && d == Add(t, Zero(n) + v)
    ensures var c := v[0] != b;
            var e := if c then Zero(n) + [true] + p else Zero(n + 1 + |p|);
            Add(d + [false], Zero(n) + [b] + Zero(|p|))[i]
            == (Add(t + [false], e)[i] != (Zero(n + 1) + Shifted(v, p, b))[i])
  {
    if i < n {
      assert d[i] == (t[i] != (Zero(n) + v)[i]);
    } else if i == n {
      assert d[i] == (t[i] != v[0]);
    } else if i < n + |p| {
      assert d[i] == (t[i] != v[i - n]);
      assert (v[1..] + [false])[i - n - 1] == v[i - n];
    }
  }
}
