/** Lagrange interpolation at zero over Fr.

    Weights are the ones the code computes: a product of (-j) times the inverse
    of a product of (i - j), over the other indices j. The main result is
    Recombine: for a polynomial of degree below the number of points, the
    weighted sum of its values is its constant term. */
module Interpolation {
  import opened PrimeField

  function Pow(x: int, n: nat): int {
    if n == 0 then 1 else Pow(x, n - 1) * x
  }

  /** The value at x of the polynomial with the given coefficients, lowest first. */
  function PolyAt(coeffs: seq<int>, x: int): int {
    if coeffs == [] then 0
    else
      var n := |coeffs| - 1;
      PolyAt(coeffs[..n], x) + coeffs[n] * Pow(x, n)
  }

  function Num(i: int, js: seq<int>): int {
    if js == [] then 1
    else
      var n := |js| - 1;
      Num(i, js[..n]) * (if js[n] == i then 1 else -js[n])
  }

  function Den(i: int, js: seq<int>): int {
    if js == [] then 1
    else
      var n := |js| - 1;
      Den(i, js[..n]) * (if js[n] == i then 1 else i - js[n])
  }

  /** The Lagrange coefficient of index i at zero, for the index list js. */
  function Lambda(i: int, js: seq<int>): Scalar {
    Reduce(Num(i, js) * Inv(Den(i, js)))
  }

  ghost predicate Distinct(js: seq<int>) {
    forall a, b :: 0 <= a < b < |js| ==> js[a] != js[b]
  }

  /** Index lists that identify distinct non-zero points of the field. */
  ghost predicate Indices(js: seq<int>) {
    && Distinct(js)
    && forall a :: 0 <= a < |js| ==> 0 < js[a] < ORDER
  }

  lemma IndexDifference(a: int, b: int)
    requires 0 <= a < ORDER && 0 <= b < ORDER && a != b
    ensures !Cong(a - b, 0)
  {
    if Cong(a - b, 0) {
      var q := CongElim(a - b, 0);
      SmallMultiple(ORDER, q);
      assert false;
    }
  }

  lemma DenNonzero(i: int, js: seq<int>)
    requires 0 <= i < ORDER
    requires forall a :: 0 <= a < |js| ==> 0 <= js[a] < ORDER
    ensures !Cong(Den(i, js), 0)
  {
    if js == [] {
    } else {
      var n := |js| - 1;
      DenNonzero(i, js[..n]);
      if js[n] == i {
      } else {
        IndexDifference(i, js[n]);
      }
      CongProductZero(Den(i, js[..n]), if js[n] == i then 1 else i - js[n]);
    }
  }

  lemma PowNonzero(x: int, n: nat)
    requires 0 < x < ORDER
    ensures !Cong(Pow(x, n), 0)
  {
    ReduceSmall(x);
    if n > 0 {
      PowNonzero(x, n - 1);
      CongProductZero(Pow(x, n - 1), x);
    }
  }

  lemma ProductsConcat(i: int, a: seq<int>, b: seq<int>)
    ensures Num(i, a + b) == Num(i, a) * Num(i, b)
    ensures Den(i, a + b) == Den(i, a) * Den(i, b)
  {
    if b == [] {
      assert a + b == a;
    } else {
      var n := |b| - 1;
      ProductsConcat(i, a, b[..n]);
      assert (a + b)[..|a + b| - 1] == a + b[..n];
      var f, g := if b[n] == i then 1 else -b[n], if b[n] == i then 1 else i - b[n];
      Assoc(Num(i, a), Num(i, b[..n]), f);
      Assoc(Den(i, a), Den(i, b[..n]), g);
    }
  }

  lemma Assoc(x: int, y: int, z: int)
    ensures (x * y) * z == x * (y * z)
  {
  }

  lemma LambdaRotate(i: int, a: int, js: seq<int>)
    ensures Lambda(i, [a] + js) == Lambda(i, js + [a])
  {
    ProductsConcat(i, [a], js);
    ProductsConcat(i, js, [a]);
  }

  /** What one more point b does to the weight of x. */
  lemma LambdaExtend(x: int, js: seq<int>, b: int)
    requires Indices(js + [b]) && 0 < x < ORDER && x != b
    ensures Cong(Lambda(x, js + [b]) * (x - b), -b * Lambda(x, js))
  {
    var js' := js + [b];
    assert js'[..|js|] == js && js'[|js|] == b;
    assert forall a :: 0 <= a < |js| ==> js'[a] == js[a];
    var d, d', n := Den(x, js), Den(x, js'), Num(x, js);
    assert d' == d * (x - b) && Num(x, js') == n * -b;
    DenNonzero(x, js);
    DenNonzero(x, js');
    InvCorrect(d);
    InvCorrect(d');
    var i, i' := Inv(d), Inv(d');
    InverseQuotient(d, x - b, i, i');
    WeightQuotient(n, b, x - b, i, i');
  }

  lemma LambdaPrepend(x: int, a: int, js: seq<int>)
    requires Indices([a] + js) && 0 < x < ORDER && x != a
    ensures Cong(Lambda(x, [a] + js) * (x - a), -a * Lambda(x, js))
  {
    IndicesRotate(a, js);
    LambdaRotate(x, a, js);
    LambdaExtend(x, js, a);
  }

  lemma InverseQuotient(d: int, e: int, i: int, i': int)
    requires Cong(d * i, 1) && Cong((d * e) * i', 1) && !Cong(d, 0)
    ensures Cong(i' * e, i)
  {
    assert (d * e) * i' == (i' * e) * d by {
      Assoc(d, e, i');
      assert e * i' == i' * e;
    }
    assert d * i == i * d;
    CongCancel(i' * e, i, d);
  }

  lemma WeightQuotient(n: int, b: int, e: int, i: int, i': int)
    requires Cong(i' * e, i)
    ensures Cong(Reduce((n * -b) * i') * e, -b * Reduce(n * i))
  {
    CongMul(Reduce((n * -b) * i'), (n * -b) * i', e, e);
    Assoc(n * -b, i', e);
    CongMul(n * -b, n * -b, i' * e, i);
    assert (n * -b) * i == -b * (n * i) by {
      Assoc(-b, n, i);
      assert n * -b == -b * n;
    }
    CongMul(-b, -b, n * i, Reduce(n * i));
  }

  /** The sum over xs of the weights for the points js, each times x^m. */
  function Moment(xs: seq<int>, js: seq<int>, m: nat): int {
    if xs == [] then 0
    else
      var n := |xs| - 1;
      Moment(xs[..n], js, m) + Lambda(xs[n], js) * Pow(xs[n], m)
  }

  lemma MomentConcat(xs: seq<int>, ys: seq<int>, js: seq<int>, m: nat)
    ensures Moment(xs + ys, js, m) == Moment(xs, js, m) + Moment(ys, js, m)
  {
    if ys == [] {
      assert xs + ys == xs;
    } else {
      var n := |ys| - 1;
      MomentConcat(xs, ys[..n], js, m);
      assert (xs + ys)[..|xs + ys| - 1] == xs + ys[..n];
    }
  }

  // ----- the weights add up to one

  /** Neville's step for one weight: dropping the last or the first point. */
  lemma NevilleWeight(x: int, a: int, mid: seq<int>, b: int)
    requires Indices([a] + mid + [b]) && 0 < x < ORDER && x != a && x != b
    ensures Cong((b - a) * Lambda(x, [a] + mid + [b]),
                 b * Lambda(x, [a] + mid) - a * Lambda(x, mid + [b]))
  {
    var w := Lambda(x, [a] + mid + [b]);
    var p, q := Lambda(x, [a] + mid), Lambda(x, mid + [b]);
    assert ([a] + mid + [b]) == [a] + (mid + [b]);
    LambdaExtend(x, [a] + mid, b);
    LambdaPrepend(x, a, mid + [b]);
    assert Cong(w * (x - b), -b * p) && Cong(w * (x - a), -a * q);
    NevilleAlgebra(w, x, a, b, p, q);
  }

  lemma NevilleAlgebra(w: int, x: int, a: int, b: int, p: int, q: int)
    requires Cong(w * (x - b), -b * p) && Cong(w * (x - a), -a * q)
    ensures Cong((b - a) * w, b * p - a * q)
  {
    var r := CongElim(w * (x - b), -b * p);
    var s := CongElim(w * (x - a), -a * q);
    assert (b - a) * w == w * (x - a) - w * (x - b);
    assert ORDER * (s - r) == ORDER * s - ORDER * r;
    CongIntro((b - a) * w, b * p - a * q, s - r);
  }

  lemma IndicesRotate(a: int, js: seq<int>)
    requires Indices([a] + js)
    ensures Indices(js + [a]) && Indices(js)
  {
    var l, r := [a] + js, js + [a];
    assert forall i :: 0 <= i < |js| ==> js[i] == l[i + 1] && r[i] == js[i];
    assert r[|js|] == l[0];
  }

  lemma {:induction false} NevilleSum(xs: seq<int>, a: int, mid: seq<int>, b: int)
    requires Indices([a] + mid + [b])
    requires forall i :: 0 <= i < |xs| ==> xs[i] in mid
    ensures Cong((b - a) * Moment(xs, [a] + mid + [b], 0),
                 b * Moment(xs, [a] + mid, 0) - a * Moment(xs, mid + [b], 0))
  {
    var all, front, back := [a] + mid + [b], [a] + mid, mid + [b];
    if xs == [] {
    } else {
      var n := |xs| - 1;
      NevilleSum(xs[..n], a, mid, b);
      var x := xs[n];
      var i :| 0 <= i < |mid| && mid[i] == x;
      assert all[i + 1] == x && all[0] == a && all[|all| - 1] == b;
      NevilleWeight(x, a, mid, b);
      NevilleStep(a, b, Moment(xs[..n], all, 0), Lambda(x, all), Moment(xs[..n], front, 0),
                  Lambda(x, front), Moment(xs[..n], back, 0), Lambda(x, back));
      MomentSnoc(xs, all);
      MomentSnoc(xs, front);
      MomentSnoc(xs, back);
    }
  }

  lemma NevilleStep(a: int, b: int, s: int, w: int, t: int, p: int, u: int, q: int)
    requires Cong((b - a) * s, b * t - a * u) && Cong((b - a) * w, b * p - a * q)
    ensures Cong((b - a) * (s + w), b * (t + p) - a * (u + q))
  {
    CongAdd((b - a) * s, b * t - a * u, (b - a) * w, b * p - a * q);
    NevilleDistribute(a, b, s, w, t, p, u, q);
  }

  lemma NevilleDistribute(a: int, b: int, s: int, w: int, t: int, p: int, u: int, q: int)
    ensures (b - a) * s + (b - a) * w == (b - a) * (s + w)
    ensures b * t - a * u + (b * p - a * q) == b * (t + p) - a * (u + q)
  {
  }

  lemma MomentSnoc(xs: seq<int>, js: seq<int>)
    requires xs != []
    ensures Moment(xs, js, 0) == Moment(xs[..|xs| - 1], js, 0) + Lambda(xs[|xs| - 1], js)
  {
  }

  lemma {:induction false} WeightsSumToOne(js: seq<int>)
    requires Indices(js) && |js| > 0
    ensures Cong(Moment(js, js, 0), 1)
    decreases |js|
  {
    hide Moment;
    hide Cong;
    if |js| == 1 {
      SinglePoint(js[0]);
      assert js == [js[0]];
    } else {
      var n := |js| - 1;
      var a, mid, b := js[0], js[1..n], js[n];
      var front, back := [a] + mid, mid + [b];
      assert js == front + [b] && js == [a] + back;
      assert forall i :: 0 <= i < n ==> front[i] == js[i] && back[i] == js[i + 1];
      WeightsSumToOne(front);
      WeightsSumToOne(back);
      UnityStep(a, mid, b);
    }
  }

  lemma SinglePoint(a: int)
    ensures Cong(Moment([a], [a], 0), 1)
  {
    assert [a][..0] == [];
    assert Num(a, [a]) == 1 && Den(a, [a]) == 1;
    InvCorrect(1);
    assert Moment([a], [a], 0) == Lambda(a, [a]);
  }

  lemma UnityStep(a: int, mid: seq<int>, b: int)
    requires Indices([a] + mid + [b])
    requires Cong(Moment([a] + mid, [a] + mid, 0), 1) && Cong(Moment(mid + [b], mid + [b], 0), 1)
    ensures Cong(Moment([a] + mid + [b], [a] + mid + [b], 0), 1)
  {
    var front, back, js := [a] + mid, mid + [b], [a] + mid + [b];
    MomentConcat([a], mid, front, 0);
    MomentConcat(mid, [b], back, 0);
    MomentSingle(a, front);
    MomentSingle(b, back);
    UnityWeights(a, mid, b);
    MomentEnds(a, mid, b, js);
  }

  lemma UnityWeights(a: int, mid: seq<int>, b: int)
    requires Indices([a] + mid + [b])
    requires Cong(Lambda(a, [a] + mid) + Moment(mid, [a] + mid, 0), 1)
    requires Cong(Moment(mid, mid + [b], 0) + Lambda(b, mid + [b]), 1)
    ensures var js := [a] + mid + [b];
            Cong(Lambda(a, js) + Moment(mid, js, 0) + Lambda(b, js), 1)
  {
    var front, back, js := [a] + mid, mid + [b], [a] + mid + [b];
    assert js == [a] + back && js[0] == a && js[|js| - 1] == b;
    assert forall i :: 0 <= i < |mid| ==> mid[i] in mid;
    IndexDifference(b, a);
    NevilleSum(mid, a, mid, b);
    LambdaExtend(a, front, b);
    LambdaPrepend(b, a, back);
    UnityAlgebra(a, b, Lambda(a, js), Moment(mid, js, 0), Lambda(b, js),
                 Lambda(a, front), Moment(mid, front, 0), Moment(mid, back, 0), Lambda(b, back));
  }

  lemma MomentSingle(a: int, js: seq<int>)
    ensures Moment([a], js, 0) == Lambda(a, js)
  {
    assert [a][..0] == [];
  }

  lemma MomentEnds(a: int, mid: seq<int>, b: int, js: seq<int>)
    requires js == [a] + mid + [b]
    ensures Moment(js, js, 0) == Lambda(a, js) + Moment(mid, js, 0) + Lambda(b, js)
  {
    MomentConcat([a] + mid, [b], js, 0);
    MomentConcat([a], mid, js, 0);
    MomentSingle(a, js);
    MomentSingle(b, js);
  }

  lemma CongScale(c: int, x: int, y: int)
    requires Cong(x, y)
    ensures Cong(c * x, c * y)
  {
    CongMul(c, c, x, y);
  }

  lemma UnityAlgebra(a: int, b: int, wa: int, wm: int, wb: int, fa: int, fm: int, gm: int, gb: int)
    requires Cong(wa * (a - b), -b * fa) && Cong(wb * (b - a), -a * gb)
    requires Cong((b - a) * wm, b * fm - a * gm)
    requires Cong(fa + fm, 1) && Cong(gm + gb, 1) && !Cong(b - a, 0)
    ensures Cong(wa + wm + wb, 1)
  {
    CongScale(-1, wa * (a - b), -b * fa);
    CongAdd(-1 * (wa * (a - b)), -1 * (-b * fa), (b - a) * wm, b * fm - a * gm);
    CongAdd(-1 * (wa * (a - b)) + (b - a) * wm, -1 * (-b * fa) + (b * fm - a * gm), wb * (b - a), -a * gb);
    var sum := -1 * (wa * (a - b)) + (b - a) * wm + wb * (b - a);
    CongScale(b, fa + fm, 1);
    CongScale(-a, gm + gb, 1);
    CongAdd(b * (fa + fm), b * 1, -a * (gm + gb), -a * 1);
    UnityDistribute(a, b, wa, wm, wb, fa, fm, gm, gb);
    CongCancel(wa + wm + wb, 1, b - a);
  }

  lemma UnityDistribute(a: int, b: int, wa: int, wm: int, wb: int, fa: int, fm: int, gm: int, gb: int)
    ensures -1 * (wa * (a - b)) + (b - a) * wm + wb * (b - a) == (wa + wm + wb) * (b - a)
    ensures -1 * (-b * fa) + (b * fm - a * gm) + -a * gb == b * (fa + fm) + -a * (gm + gb)
  {
  }

  // ----- the higher moments vanish

  lemma MomentShift(xs: seq<int>, js: seq<int>, b: int, m: nat)
    requires Indices(js + [b]) && m > 0
    requires forall i :: 0 <= i < |xs| ==> xs[i] in js
    ensures Cong(Moment(xs, js + [b], m), -b * Moment(xs, js, m - 1) + b * Moment(xs, js + [b], m - 1))
  {
    if xs == [] {
    } else {
      var n := |xs| - 1;
      MomentShift(xs[..n], js, b, m);
      var x, all := xs[n], js + [b];
      var i :| 0 <= i < |js| && js[i] == x;
      assert all[i] == x && all[|js|] == b;
      LambdaExtend(x, js, b);
      PowerShift(x, b, Lambda(x, all), Lambda(x, js), Pow(x, m - 1));
      CongAdd(Moment(xs[..n], all, m),
              -b * Moment(xs[..n], js, m - 1) + b * Moment(xs[..n], all, m - 1),
              Lambda(x, all) * Pow(x, m),
              -b * (Lambda(x, js) * Pow(x, m - 1)) + b * (Lambda(x, all) * Pow(x, m - 1)));
      ShiftDistribute(b, Moment(xs[..n], js, m - 1), Moment(xs[..n], all, m - 1),
                      Lambda(x, js) * Pow(x, m - 1), Lambda(x, all) * Pow(x, m - 1));
    }
  }

  lemma ShiftDistribute(b: int, s: int, t: int, u: int, v: int)
    ensures -b * s + b * t + (-b * u + b * v) == -b * (s + u) + b * (t + v)
  {
  }

  lemma PowerShift(x: int, b: int, w: int, v: int, y: int)
    requires Cong(w * (x - b), -b * v)
    ensures Cong(w * (y * x), -b * (v * y) + b * (w * y))
  {
    var q := CongElim(w * (x - b), -b * v);
    assert w * (y * x) - b * (w * y) == (w * (x - b)) * y by {
      assert w * (y * x) == (w * x) * y;
      assert b * (w * y) == (w * b) * y;
    }
    assert -b * (v * y) == (-b * v) * y;
    assert (w * (x - b)) * y - (-b * v) * y == (ORDER * q) * y;
    Assoc(ORDER, q, y);
    CongIntro(w * (y * x), -b * (v * y) + b * (w * y), q * y);
  }

  /** The m-th moment of the weights is 1 for m = 0 and 0 for 0 < m < |js|. */
  lemma {:induction false} MomentVanishes(js: seq<int>, m: nat)
    requires Indices(js) && 0 < m < |js|
    ensures Cong(Moment(js, js, m), 0)
    decreases m
  {
    var n := |js| - 1;
    var ys, b := js[..n], js[n];
    assert js == ys + [b];
    assert forall i :: 0 <= i < n ==> ys[i] == js[i];
    if m == 1 {
      WeightsSumToOne(ys);
      WeightsSumToOne(js);
      VanishStep(ys, b, m, 1);
    } else {
      MomentVanishes(ys, m - 1);
      MomentVanishes(js, m - 1);
      VanishStep(ys, b, m, 0);
    }
  }

  lemma VanishStep(ys: seq<int>, b: int, m: nat, c: int)
    requires Indices(ys + [b]) && 0 < m
    requires Cong(Moment(ys, ys, m - 1), c) && Cong(Moment(ys + [b], ys + [b], m - 1), c)
    ensures Cong(Moment(ys + [b], ys + [b], m), 0)
  {
    var js := ys + [b];
    assert forall i :: 0 <= i < |ys| ==> ys[i] in ys;
    MomentLast(ys, b, js, m - 1);
    MomentLast(ys, b, js, m);
    assert Pow(b, m) == Pow(b, m - 1) * b;
    var w, y, s, t, u := Lambda(b, js), Pow(b, m - 1), Moment(ys, js, m), Moment(ys, ys, m - 1), Moment(ys, js, m - 1);
    MomentShift(ys, ys, b, m);
    VanishAlgebra(b, w, y, c, s, t, u);
  }

  lemma MomentLast(ys: seq<int>, b: int, js: seq<int>, m: nat)
    ensures Moment(ys + [b], js, m) == Moment(ys, js, m) + Lambda(b, js) * Pow(b, m)
  {
    assert (ys + [b])[..|ys|] == ys;
  }

  lemma VanishAlgebra(b: int, w: int, y: int, c: int, s: int, t: int, u: int)
    requires Cong(s, -b * t + b * u) && Cong(t, c) && Cong(u + w * y, c)
    ensures Cong(s + w * (y * b), 0)
  {
    var q1 := CongElim(s, -b * t + b * u);
    var q2 := CongElim(t, c);
    var q3 := CongElim(u + w * y, c);
    assert w * (y * b) == b * (w * y);
    assert b * (u + w * y) - b * c == ORDER * (b * q3) by { Assoc(b, ORDER, q3); Assoc(ORDER, b, q3); }
    assert b * t - b * c == ORDER * (b * q2) by { Assoc(b, ORDER, q2); Assoc(ORDER, b, q2); }
    CongIntro(s + w * (y * b), 0, q1 - b * q2 + b * q3);
  }

  // ----- interpolation

  /** The weighted sum of values vs given at the points xs. */
  function Combine(xs: seq<int>, vs: seq<int>, js: seq<int>): int
    requires |xs| == |vs|
  {
    if xs == [] then 0
    else
      var n := |xs| - 1;
      Combine(xs[..n], vs[..n], js) + vs[n] * Lambda(xs[n], js)
  }

  function PolyValues(coeffs: seq<int>, xs: seq<int>): (vs: seq<int>)
    ensures |vs| == |xs|
  {
    seq(|xs|, i requires 0 <= i < |xs| => PolyAt(coeffs, xs[i]))
  }

  lemma CombineCong(xs: seq<int>, vs: seq<int>, us: seq<int>, js: seq<int>)
    requires |xs| == |vs| == |us|
    requires forall i :: 0 <= i < |xs| ==> Cong(vs[i], us[i])
    ensures Cong(Combine(xs, vs, js), Combine(xs, us, js))
  {
    if xs == [] {
    } else {
      var n := |xs| - 1;
      CombineCong(xs[..n], vs[..n], us[..n], js);
      CongMul(vs[n], us[n], Lambda(xs[n], js), Lambda(xs[n], js));
      CongAdd(Combine(xs[..n], vs[..n], js), Combine(xs[..n], us[..n], js),
              vs[n] * Lambda(xs[n], js), us[n] * Lambda(xs[n], js));
    }
  }

  lemma CombineLinear(coeffs: seq<int>, xs: seq<int>, js: seq<int>)
    requires coeffs != []
    ensures var n := |coeffs| - 1;
            Combine(xs, PolyValues(coeffs, xs), js)
            == Combine(xs, PolyValues(coeffs[..n], xs), js) + coeffs[n] * Moment(xs, js, n)
  {
    if xs != [] {
      var n, k := |coeffs| - 1, |xs| - 1;
      CombineLinear(coeffs, xs[..k], js);
      assert PolyValues(coeffs, xs)[..k] == PolyValues(coeffs, xs[..k]);
      assert PolyValues(coeffs[..n], xs)[..k] == PolyValues(coeffs[..n], xs[..k]);
      LinearAlgebra(PolyAt(coeffs[..n], xs[k]), coeffs[n], Pow(xs[k], n), Lambda(xs[k], js), Moment(xs[..k], js, n));
    }
  }

  lemma LinearAlgebra(p: int, c: int, y: int, w: int, s: int)
    ensures (p + c * y) * w + c * s == p * w + c * (s + w * y)
  {
    assert (c * y) * w == c * (w * y);
  }

  lemma {:induction false} RecombineExact(coeffs: seq<int>, js: seq<int>)
    requires Indices(js) && 0 < |coeffs| <= |js|
    ensures Cong(Combine(js, PolyValues(coeffs, js), js), coeffs[0])
    decreases |coeffs|
  {
    var n := |coeffs| - 1;
    CombineLinear(coeffs, js, js);
    if n == 0 {
      CombineZero(js, js);
      WeightsSumToOne(js);
      CongMul(coeffs[0], coeffs[0], Moment(js, js, 0), 1);
    } else {
      RecombineExact(coeffs[..n], js);
      MomentVanishes(js, n);
      CongMul(coeffs[n], coeffs[n], Moment(js, js, n), 0);
      CongAdd(Combine(js, PolyValues(coeffs[..n], js), js), coeffs[0], coeffs[n] * Moment(js, js, n), coeffs[n] * 0);
    }
  }

  lemma CombineZero(xs: seq<int>, js: seq<int>)
    ensures Combine(xs, PolyValues([], xs), js) == 0
  {
    if xs != [] {
      var k := |xs| - 1;
      assert PolyValues([], xs)[..k] == PolyValues([], xs[..k]);
      CombineZero(xs[..k], js);
    }
  }

  /** Interpolation at zero: values of a polynomial of degree below |js|, taken
      at any distinct non-zero points, determine its constant term. */
  lemma Recombine(coeffs: seq<int>, js: seq<int>, vs: seq<int>)
    requires Indices(js) && 0 < |coeffs| <= |js| == |vs|
    requires forall i :: 0 <= i < |js| ==> Cong(vs[i], PolyAt(coeffs, js[i]))
    ensures Cong(Combine(js, vs, js), coeffs[0])
  {
    CombineCong(js, vs, PolyValues(coeffs, js), js);
    RecombineExact(coeffs, js);
  }
}
