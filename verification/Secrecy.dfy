/** The other side of the threshold: fewer shares than the threshold fit every secret. */
module Secrecy {
  import opened PrimeField
  import opened Interpolation
  import opened Feldman

  // ----- arithmetic of polynomials

  /** p + c * q. */
  function AddScaled(p: seq<int>, c: int, q: seq<int>): (r: seq<int>)
    requires |p| <= |q|
    ensures |r| == |q|
  {
    seq(|q|, i requires 0 <= i < |q| => Times(c, q[i]) + if i < |p| then p[i] else 0)
  }

  /** (x - a) * q. */
  function TimesLinear(q: seq<int>, a: int): (r: seq<int>)
    ensures |r| == |q| + 1
  {
    seq(|q| + 1, i requires 0 <= i <= |q| => (if i > 0 then q[i - 1] else 0) - if i < |q| then Times(a, q[i]) else 0)
  }

  lemma PolySnoc(p: seq<int>, a: int, x: int)
    ensures PolyAt(p + [a], x) == PolyAt(p, x) + Times(a, Pow(x, |p|))
  {
    assert (p + [a])[..|p|] == p;
  }

  lemma PolyLast(p: seq<int>, x: int)
    requires p != []
    ensures PolyAt(p, x) == PolyAt(p[..|p| - 1], x) + Times(p[|p| - 1], Pow(x, |p| - 1))
  {
  }

  lemma AddScaledShape(p: seq<int>, c: int, q: seq<int>, p': seq<int>, a: int)
    requires |p| <= |q| && q != []
    requires if |p| < |q| then p' == p && a == 0 else p' == p[..|p| - 1] && a == p[|p| - 1]
    ensures var n := |q| - 1; AddScaled(p, c, q) == AddScaled(p', c, q[..n]) + [Times(c, q[n]) + a]
  {
    hide Times;
  }

  lemma AddScaledTerm(a: int, b: int, c: int, u: int, v: int, y: int)
    ensures u + Times(c, v) + Times(Times(c, b) + a, y) == u + Times(a, y) + Times(c, v + Times(b, y))
    ensures a == 0 ==> Times(a, y) == 0
  {
    assert (c * b + a) * y == c * b * y + a * y;
    assert c * (v + b * y) == c * v + c * (b * y);
    assert c * b * y == c * (b * y);
  }

  lemma {:induction false} AddScaledAt(p: seq<int>, c: int, q: seq<int>, x: int)
    requires |p| <= |q|
    ensures PolyAt(AddScaled(p, c, q), x) == PolyAt(p, x) + Times(c, PolyAt(q, x))
    decreases |q|
  {
    if q == [] {
      assert PolyAt(p, x) == 0 && PolyAt(q, x) == 0 && AddScaled(p, c, q) == [];
    } else {
      hide PolyAt;
      hide AddScaled;
      hide Pow;
      hide Times;
      var n := |q| - 1;
      var p', a := p, 0;
      if |p| == |q| {
        p', a := p[..n], p[n];
        PolyLast(p, x);
      }
      PolyLast(q, x);
      AddScaledAt(p', c, q[..n], x);
      AddScaledShape(p, c, q, p', a);
      PolySnoc(AddScaled(p', c, q[..n]), Times(c, q[n]) + a, x);
      AddScaledTerm(a, q[n], c, PolyAt(p', x), PolyAt(q[..n], x), Pow(x, n));
    }
  }

  lemma TimesLinearShape(q: seq<int>, a: int)
    requires q != []
    ensures var n := |q| - 1;
            var t := TimesLinear(q[..n], a);
            t == t[..n] + [t[n]] && TimesLinear(q, a) == t[..n] + [t[n] - Times(a, q[n])] + [q[n]]
  {
    hide Times;
  }

  lemma TimesLinearTerm(a: int, b: int, t: int, x: int, u: int, y: int)
    ensures Times(t - Times(a, b), y) + Times(b, Times(x, y)) == Times(t, y) + Times(x - a, Times(b, y))
    ensures Times(x - a, u + Times(b, y)) == Times(x - a, u) + Times(x - a, Times(b, y))
  {
    assert (t - a * b) * y == t * y - a * b * y;
    assert (x - a) * (b * y) == x * (b * y) - a * (b * y);
    assert x * (b * y) == b * (x * y);
    assert a * b * y == a * (b * y);
    assert (x - a) * (u + b * y) == (x - a) * u + (x - a) * (b * y);
  }

  lemma {:induction false} TimesLinearAt(q: seq<int>, a: int, x: int)
    ensures PolyAt(TimesLinear(q, a), x) == Times(x - a, PolyAt(q, x))
  {
    if q == [] {
      assert TimesLinear(q, a) == [] + [0];
      PolySnoc([], 0, x);
    } else {
      var n := |q| - 1;
      assert Pow(x, n + 1) == Times(x, Pow(x, n));
      hide PolyAt;
      hide TimesLinear;
      hide Pow;
      hide Times;
      var b, q' := q[n], q[..n];
      var t := TimesLinear(q', a);
      TimesLinearAt(q', a, x);
      TimesLinearShape(q, a);
      PolyLast(q, x);
      PolySnoc(t[..n], t[n], x);
      PolySnoc(t[..n], t[n] - Times(a, b), x);
      PolySnoc(t[..n] + [t[n] - Times(a, b)], b, x);
      TimesLinearTerm(a, b, t[n], x, PolyAt(q', x), Pow(x, n));
    }
  }

  // ----- a polynomial that vanishes at zero and at the given points

  function Nodal(js: seq<int>): (q: seq<int>)
    ensures |q| == |js| + 2 && q[0] == 0
  {
    if js == [] then [0, 1] else TimesLinear(Nodal(js[..|js| - 1]), js[|js| - 1])
  }

  lemma ZeroFactor(a: int, b: int)
    ensures a == 0 || b == 0 ==> Times(a, b) == 0
  {
  }

  lemma {:induction false} NodalZero(js: seq<int>, i: nat)
    requires i < |js|
    ensures PolyAt(Nodal(js), js[i]) == 0
  {
    hide PolyAt;
    hide TimesLinear;
    hide Times;
    var n := |js| - 1;
    TimesLinearAt(Nodal(js[..n]), js[n], js[i]);
    if i < n {
      NodalZero(js[..n], i);
      assert js[..n][i] == js[i];
    }
    ZeroFactor(js[i] - js[n], PolyAt(Nodal(js[..n]), js[i]));
  }

  lemma {:induction false} NodalNonzero(js: seq<int>, y: int)
    requires 0 < y < ORDER && forall i :: 0 <= i < |js| ==> 0 <= js[i] < ORDER && js[i] != y
    ensures !Cong(PolyAt(Nodal(js), y), 0)
  {
    if js == [] {
      assert [0, 1] == [0] + [1] && [0] == [] + [0];
      PolySnoc([], 0, y);
      PolySnoc([0], 1, y);
      assert Pow(y, 1) == y * Pow(y, 0);
      IndexDifference(y, 0);
    } else {
      var n := |js| - 1;
      TimesLinearAt(Nodal(js[..n]), js[n], y);
      NodalNonzero(js[..n], y);
      IndexDifference(y, js[n]);
      CongProductZero(y - js[n], PolyAt(Nodal(js[..n]), y));
    }
  }

  // ----- a polynomial through the points, with any constant term

  function Fit(js: seq<int>, vs: seq<Scalar>, secret: int): (coeffs: seq<int>)
    requires |js| == |vs|
    ensures |coeffs| == |js| + 1 && coeffs[0] == secret
  {
    if js == [] then [secret]
    else
      var n := |js| - 1;
      var p, q := Fit(js[..n], vs[..n], secret), Nodal(js[..n]);
      AddScaled(p, Step(vs[n], PolyAt(p, js[n]), PolyAt(q, js[n])), q)
  }

  /** How much of q takes p to v. */
  function Step(v: int, p: int, q: int): int {
    (v - p) * Inv(q)
  }

  lemma Correction(v: int, p: int, q: int)
    requires !Cong(q, 0)
    ensures Cong(p + Times(Step(v, p, q), q), v)
  {
    InvCorrect(q);
    CongMul(v - p, v - p, q * Inv(q), 1);
    assert (v - p) * (q * Inv(q)) == (v - p) * Inv(q) * q;
    CongAdd(p, p, (v - p) * Inv(q) * q, v - p);
  }

  lemma {:induction false} FitsAt(js: seq<int>, vs: seq<Scalar>, secret: int, i: nat)
    requires |js| == |vs| && Distinct(js) && i < |js|
    requires forall k :: 0 <= k < |js| ==> 0 < js[k] < ORDER
    ensures Cong(PolyAt(Fit(js, vs, secret), js[i]), vs[i])
  {
    hide Step;
    hide Times;
    hide PolyAt;
    hide Nodal;
    hide Fit;
    hide Cong;
    var n := |js| - 1;
    var p, q := Fit(js[..n], vs[..n], secret), Nodal(js[..n]);
    FitStep(js, vs, secret, js[i]);
    if i < n {
      NodalZero(js[..n], i);
      FitsAt(js[..n], vs[..n], secret, i);
      assert js[..n][i] == js[i] && vs[..n][i] == vs[i];
      ZeroFactor(Step(vs[n], PolyAt(p, js[n]), PolyAt(q, js[n])), PolyAt(q, js[i]));
    } else {
      NodalNonzero(js[..n], js[n]);
      Correction(vs[n], PolyAt(p, js[n]), PolyAt(q, js[n]));
    }
  }

  lemma FitStep(js: seq<int>, vs: seq<Scalar>, secret: int, x: int)
    requires |js| == |vs| && js != []
    ensures var n := |js| - 1;
            var p, q := Fit(js[..n], vs[..n], secret), Nodal(js[..n]);
            PolyAt(Fit(js, vs, secret), x) == PolyAt(p, x) + Times(Step(vs[n], PolyAt(p, js[n]), PolyAt(q, js[n])), PolyAt(q, x))
  {
    hide Step;
    hide Times;
    hide PolyAt;
    var n := |js| - 1;
    var p, q := Fit(js[..n], vs[..n], secret), Nodal(js[..n]);
    AddScaledAt(p, Step(vs[n], PolyAt(p, js[n]), PolyAt(q, js[n])), q, x);
  }

  /** Fewer than k shares say nothing about the secret: for every secret there is a
      polynomial of at most k coefficients that has it as constant term and gives exactly
      these shares. */
  lemma FewerSharesHide(shares: seq<Share<Scalar>>, k: nat, secret: Scalar)
    requires |shares| < k && UsableIndices(shares) && BelowOrder(shares)
    ensures exists coeffs: seq<int> :: 0 < |coeffs| <= k && coeffs[0] == secret && OnPolynomial(shares, coeffs)
  {
    var js, vs := IndexSeq(shares), ValueSeq(shares);
    var coeffs := Fit(js, vs, secret);
    forall i | 0 <= i < |shares|
      ensures Cong(shares[i].value, PolyAt(coeffs, shares[i].index))
    {
      assert shares[i] in shares;
      FitsAt(js, vs, secret, i);
    }
    assert OnPolynomial(shares, coeffs);
  }
}
