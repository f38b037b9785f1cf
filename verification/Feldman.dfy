/** Compressed group elements. A well-formed element of a prime-order group is
    represented by its discrete logarithm, so compression is injective, scalar
    multiplication is a product and group addition a sum. */
module Curve {
  import opened PrimeField

  datatype Compressed = Point(dlog: Scalar) | Garbage(size: nat)

  /** All the encodings decompress. */
  predicate AllPoints(cs: seq<Compressed>) {
    forall i :: 0 <= i < |cs| ==> cs[i].Point?
  }

  function Logs(cs: seq<Compressed>): (ls: seq<Scalar>)
    requires AllPoints(cs)
    ensures |ls| == |cs|
  {
    seq(|cs|, i requires 0 <= i < |cs| => cs[i].dlog)
  }

  // Scalar operations of the curve library report a flag. The only assumption
  // is that a reported failure means that the result is zero.

  method MulChecked(a: Scalar, b: Scalar) returns (r: Scalar, ok: bool)
    ensures r == Reduce(a * b)
    ensures !ok ==> r == 0
  {
    r := Reduce(a * b);
    ok :| !ok ==> r == 0;
  }

  method AddChecked(a: Scalar, b: Scalar) returns (r: Scalar, ok: bool)
    ensures r == Reduce(a + b)
    ensures !ok ==> r == 0
  {
    r := Reduce(a + b);
    ok :| !ok ==> r == 0;
  }

  method SubChecked(a: Scalar, b: Scalar) returns (r: Scalar, ok: bool)
    ensures r == Reduce(a - b)
    ensures !ok ==> r == 0
  {
    r := Reduce(a - b);
    ok :| !ok ==> r == 0;
  }
}

/** Shamir sharing with Feldman commitments: internal/tss/dkg/feldman_crypto_blst.go
    and the key generation of cmd/beast-keygen. */
module Feldman {
  import opened PrimeField
  import opened Interpolation
  import opened Curve
  import opened Outcomes
  import Sorting

  datatype CryptoError = InvalidParams | InvalidPoint | InvalidShare

  // ----- evaluating a polynomial

  /** No coefficient and no partial sum of the evaluation is zero. */
  ghost predicate NoZeroStep(coeffs: seq<Scalar>, x: int) {
    forall n :: 0 <= n < |coeffs| ==> coeffs[n] != 0 && Reduce(PolyAt(coeffs[..n + 1], x)) != 0
  }

  method EvalPolyAt(coeffs: seq<Scalar>, x: int) returns (r: Result<Scalar, CryptoError>)
    requires x < ORDER
    ensures coeffs == [] || x <= 0 ==> r == Err(InvalidParams)
    ensures r.Ok? ==> r.value == Reduce(PolyAt(coeffs, x))
    ensures coeffs != [] && 0 < x && NoZeroStep(coeffs, x) ==> r.Ok?
  {
    if coeffs == [] || x <= 0 {
      return Err(InvalidParams);
    }
    var acc: Scalar, pow: Scalar := 0, 1;
    for n := 0 to |coeffs|
      invariant acc == Reduce(PolyAt(coeffs[..n], x))
      invariant pow == Reduce(Pow(x, n))
    {
      var term, ok := MulChecked(coeffs[n], pow);
      if !ok {
        PowStep(x, n);
        ProductZeroFactor(coeffs[n], pow);
        return Err(InvalidShare);
      }
      acc, ok := AddChecked(acc, term);
      PolyStep(coeffs, n, x);
      if !ok {
        return Err(InvalidShare);
      }
      pow, ok := MulChecked(pow, x);
      PowStep(x, n);
      if !ok {
        assert false;
      }
    }
    assert coeffs[..|coeffs|] == coeffs;
    r := Ok(acc);
  }

  lemma TermReduce(c: int, y: int, s: int)
    ensures Reduce(c * Reduce(y)) == Reduce(c * y)
    ensures Reduce(Reduce(s) + Reduce(c * y)) == Reduce(s + c * y)
    ensures Reduce(Reduce(s) + Reduce(c * Reduce(y))) == Reduce(s + c * y)
  {
    ReduceOps(y, c);
    assert Reduce(y) * c == c * Reduce(y) && y * c == c * y;
    ReduceOps(s, Reduce(c * y));
    ReduceOps(c * y, s);
    assert Reduce(c * y) + s == s + Reduce(c * y);
  }

  lemma PolyStep(coeffs: seq<Scalar>, n: nat, x: int)
    requires n < |coeffs|
    ensures Reduce(Reduce(PolyAt(coeffs[..n], x)) + Reduce(coeffs[n] * Reduce(Pow(x, n))))
         == Reduce(PolyAt(coeffs[..n + 1], x))
  {
    hide *;
    var s, y := PolyAt(coeffs[..n], x), Pow(x, n);
    TermReduce(coeffs[n], y, s);
    assert PolyAt(coeffs[..n + 1], x) == s + coeffs[n] * y by {
      PolyUnfold(coeffs, n, x);
    }
  }

  lemma PolyUnfold(coeffs: seq<Scalar>, n: nat, x: int)
    requires n < |coeffs|
    ensures PolyAt(coeffs[..n + 1], x) == PolyAt(coeffs[..n], x) + coeffs[n] * Pow(x, n)
  {
    assert coeffs[..n + 1][..n] == coeffs[..n];
  }

  lemma PowStep(x: int, n: nat)
    requires 0 < x < ORDER
    ensures Reduce(Reduce(Pow(x, n)) * x) == Reduce(Pow(x, n + 1))
    ensures Reduce(Pow(x, n)) != 0 && Reduce(Pow(x, n + 1)) != 0
  {
    ReduceOps(Pow(x, n), x);
    PowNonzero(x, n);
    PowNonzero(x, n + 1);
  }

  lemma ProductZeroFactor(c: Scalar, y: int)
    requires Reduce(c * y) == 0 && !Cong(y, 0)
    ensures c == 0
  {
    ReduceSmall(c);
    if c != 0 {
      CongProductZero(c, y);
      assert false;
    }
  }

  lemma {:induction false} HornerStep(coeffs: seq<int>, x: int)
    requires coeffs != []
    ensures PolyAt(coeffs, x) == PolyAt(coeffs[1..], x) * x + coeffs[0]
  {
    var n := |coeffs| - 1;
    if n == 0 {
      assert coeffs[..0] == [] && coeffs[1..] == [];
    } else {
      HornerStep(coeffs[..n], x);
      assert coeffs[..n][1..] == coeffs[1..][..n - 1];
      HornerAlgebra(PolyAt(coeffs[1..][..n - 1], x), coeffs[n], Pow(x, n - 1), x);
    }
  }

  lemma HornerAlgebra(s: int, c: int, y: int, x: int)
    ensures s * x + c * (y * x) == (s + c * y) * x
  {
    assert c * (y * x) == (c * y) * x;
  }

  lemma ConstantPoly(c: Scalar, x: int)
    ensures Reduce(PolyAt([c], x)) == c
  {
    assert [c][..0] == [];
    ReduceSmall(c);
  }

  lemma FactorZero(c: Scalar, x: int)
    requires 0 < x < ORDER && Reduce(c * x) == 0
    ensures c == 0
  {
    ReduceSmall(x);
    ProductZeroFactor(c, x);
  }

  lemma HornerReduce(coeffs: seq<Scalar>, n: nat, x: int)
    requires n < |coeffs|
    ensures Reduce(Reduce(Reduce(PolyAt(coeffs[n + 1..], x)) * x) + coeffs[n]) == Reduce(PolyAt(coeffs[n..], x))
  {
    HornerStep(coeffs[n..], x);
    assert coeffs[n..][1..] == coeffs[n + 1..];
    ReduceOps(PolyAt(coeffs[n + 1..], x), x);
    ReduceOps(PolyAt(coeffs[n + 1..], x) * x, coeffs[n]);
  }

  /** Key generation evaluates the same polynomial in Horner form. */
  method EvalPoly(coeffs: seq<Scalar>, x: int) returns (r: Result<Scalar, CryptoError>)
    requires 0 < x < ORDER
    ensures coeffs == [] ==> r == Err(InvalidParams)
    ensures r.Ok? ==> r.value == Reduce(PolyAt(coeffs, x))
    ensures coeffs != [] && (forall n :: 0 <= n < |coeffs| ==> Reduce(PolyAt(coeffs[n..], x)) != 0) ==> r.Ok?
  {
    if coeffs == [] {
      return Err(InvalidParams);
    }
    var n := |coeffs| - 1;
    var res := coeffs[n];
    assert coeffs[n..] == [res];
    ConstantPoly(res, x);
    while n > 0
      invariant 0 <= n < |coeffs|
      invariant res == Reduce(PolyAt(coeffs[n..], x))
    {
      n := n - 1;
      var up, ok := MulChecked(res, x);
      if !ok {
        FactorZero(res, x);
        return Err(InvalidShare);
      }
      HornerReduce(coeffs, n, x);
      res, ok := AddChecked(up, coeffs[n]);
      if !ok {
        return Err(InvalidShare);
      }
    }
    assert coeffs[0..] == coeffs;
    r := Ok(res);
  }

  // ----- commitments

  function Commit(coeffs: seq<Scalar>): (cs: seq<Compressed>)
    ensures |cs| == |coeffs| && AllPoints(cs) && Logs(cs) == coeffs
  {
    seq(|coeffs|, i requires 0 <= i < |coeffs| => Point(coeffs[i]))
  }

  method CommitmentsFromPoly(coeffs: seq<Scalar>) returns (r: Result<seq<Compressed>, CryptoError>)
    ensures r == if coeffs == [] then Err(InvalidParams) else Ok(Commit(coeffs))
  {
    if coeffs == [] {
      return Err(InvalidParams);
    }
    var out: seq<Compressed> := [];
    for n := 0 to |coeffs|
      invariant out == Commit(coeffs[..n])
    {
      out := out + [Point(coeffs[n])];
    }
    assert coeffs[..|coeffs|] == coeffs;
    r := Ok(out);
  }

  /** The verdict of the Feldman check. */
  function FeldmanCheck(share: Scalar, x: int, commitments: seq<Compressed>): Result<bool, CryptoError> {
    if x <= 0 || commitments == [] then Err(InvalidParams)
    else if !AllPoints(commitments) then Err(InvalidPoint)
    else Ok(share == Reduce(PolyAt(Logs(commitments), x)))
  }

  method VerifyFeldmanShare(share: Scalar, x: int, commitments: seq<Compressed>)
    returns (r: Result<bool, CryptoError>)
    requires x < ORDER
    ensures r == FeldmanCheck(share, x, commitments)
  {
    if x <= 0 || commitments == [] {
      return Err(InvalidParams);
    }
    var pow: Scalar, acc: Scalar := 1, 0;
    for n := 0 to |commitments|
      invariant AllPoints(commitments[..n])
      invariant acc == Reduce(PolyAt(Logs(commitments[..n]), x))
      invariant pow == Reduce(Pow(x, n))
    {
      var c := commitments[n];
      if !c.Point? {
        return Err(InvalidPoint);
      }
      assert AllPoints(commitments[..n + 1]);
      assert Logs(commitments[..n + 1])[..n] == Logs(commitments[..n]);
      PolyStep(Logs(commitments[..n + 1]), n, x);
      assert Logs(commitments[..n + 1])[..n + 1] == Logs(commitments[..n + 1]);
      acc := Reduce(acc + Reduce(c.dlog * pow));
      var ok;
      pow, ok := MulChecked(pow, x);
      PowStep(x, n);
      if !ok {
        assert false;
      }
    }
    assert commitments[..|commitments|] == commitments;
    r := Ok(share == acc);
  }

  /** Soundness and completeness of the Feldman check. */
  lemma FeldmanExact(coeffs: seq<Scalar>, share: Scalar, x: int)
    requires coeffs != [] && 0 < x
    ensures FeldmanCheck(share, x, Commit(coeffs)) == Ok(true) <==> share == Reduce(PolyAt(coeffs, x))
    ensures FeldmanCheck(share, x, Commit(coeffs)).Ok?
  {
  }

  // ----- recombination

  method LagrangeAtZero(i: int, indices: seq<int>) returns (r: Result<Scalar, CryptoError>)
    requires i < ORDER && forall a :: 0 <= a < |indices| ==> indices[a] < ORDER
    ensures i <= 0 || indices == [] ==> r == Err(InvalidParams)
    ensures (exists a :: 0 <= a < |indices| && indices[a] <= 0) ==> r == Err(InvalidParams)
    ensures 0 < i && indices != [] && (forall a :: 0 <= a < |indices| ==> 0 < indices[a]) ==>
              r == Ok(Lambda(i, indices))
  {
    if i <= 0 || indices == [] {
      return Err(InvalidParams);
    }
    var num: Scalar, den: Scalar := 1, 1;
    for n := 0 to |indices|
      invariant num == Reduce(Num(i, indices[..n])) && num != 0
      invariant den == Reduce(Den(i, indices[..n])) && den != 0
      invariant forall a :: 0 <= a < n ==> 0 < indices[a]
    {
      var j := indices[n];
      assert indices[..n + 1][..n] == indices[..n];
      if j == i {
        continue;
      }
      if j <= 0 {
        return Err(InvalidParams);
      }
      var neg, ok := SubChecked(0, j);
      NegNonzero(j);
      if !ok {
        assert false;
      }
      var num', den';
      num', ok := MulChecked(num, neg);
      FactorStep(Num(i, indices[..n]), -j);
      if !ok {
        assert false;
      }
      var diff;
      diff, ok := SubChecked(i, j);
      IndexDifference(i, j);
      if !ok {
        assert false;
      }
      den', ok := MulChecked(den, diff);
      FactorStep(Den(i, indices[..n]), i - j);
      if !ok {
        assert false;
      }
      num, den := num', den';
    }
    assert indices[..|indices|] == indices;
    var inv := Inv(den);
    var out, ok := MulChecked(num, inv);
    ReduceOps(Num(i, indices), inv);
    if !ok {
      InvCorrect(Den(i, indices));
      CongProductZero(Num(i, indices), inv);
      assert false;
    }
    r := Ok(out);
  }

  lemma NegNonzero(j: int)
    requires 0 < j < ORDER
    ensures Reduce(0 - j) != 0
  {
    IndexDifference(0, j);
  }

  lemma FactorStep(a: int, b: int)
    requires Reduce(a) != 0 && Reduce(b) != 0
    ensures Reduce(Reduce(a) * Reduce(b)) == Reduce(a * b) && Reduce(a * b) != 0
  {
    TermReduce(Reduce(a), b, 0);
    ReduceOps(a, b);
    CongProductZero(a, b);
  }

  /** A share held by the participant with the given index. */
  datatype Share<V> = Share(index: int, value: V)

  function ByIndex<V>(): (Share<V>, Share<V>) -> bool {
    (a: Share<V>, b: Share<V>) => a.index < b.index
  }

  function IndexSeq<V>(shares: seq<Share<V>>): (js: seq<int>)
    ensures |js| == |shares|
  {
    seq(|shares|, i requires 0 <= i < |shares| => shares[i].index)
  }

  function ValueSeq(shares: seq<Share<Scalar>>): (vs: seq<Scalar>)
    ensures |vs| == |shares|
  {
    seq(|shares|, i requires 0 <= i < |shares| => shares[i].value)
  }

  /** The subset that recombination uses: the k smallest indices. */
  function Chosen<V>(shares: seq<Share<V>>, k: nat): (c: seq<Share<V>>)
    requires k <= |shares|
    ensures |c| == k
  {
    Sorting.StableSort(shares, ByIndex())[..k]
  }

  /** Positive and pairwise different. */
  ghost predicate UsableIndices<V>(shares: seq<Share<V>>) {
    Distinct(IndexSeq(shares)) && forall i :: 0 <= i < |shares| ==> 0 < shares[i].index
  }

  ghost predicate BelowOrder<V>(shares: seq<Share<V>>) {
    forall s :: s in shares ==> s.index < ORDER
  }

  /** Every share is the value at its index of the polynomial coeffs. */
  ghost predicate OnPolynomial(shares: seq<Share<Scalar>>, coeffs: seq<int>) {
    forall i :: 0 <= i < |shares| ==> Cong(shares[i].value, PolyAt(coeffs, shares[i].index))
  }

  lemma ChosenMembers<V(!new)>(shares: seq<Share<V>>, k: nat)
    requires k <= |shares|
    ensures forall s :: s in Chosen(shares, k) ==> s in shares
  {
    var r := Sorting.StableSort(shares, ByIndex());
    Sorting.SameElements(r, shares);
    forall s | s in Chosen(shares, k)
      ensures s in shares
    {
      assert s in r[..k] && s in r;
    }
  }

  /** The chosen shares come in order of index, and no index left out is smaller than a
      chosen one. */
  lemma ChosenSmallest<V(!new)>(shares: seq<Share<V>>, k: nat) returns (rest: seq<Share<V>>)
    requires k <= |shares|
    ensures multiset(Chosen(shares, k)) + multiset(rest) == multiset(shares)
    ensures forall x, y :: x in Chosen(shares, k) && y in rest ==> x.index <= y.index
    ensures forall i, j :: 0 <= i < j < k ==> Chosen(shares, k)[i].index <= Chosen(shares, k)[j].index
  {
    var t := Sorting.StableSort(shares, ByIndex());
    rest := t[k..];
    Sorting.TopOfSort(shares, ByIndex(), k);
    var c := Chosen(shares, k);
    forall x, y | x in c && y in rest
      ensures x.index <= y.index
    {
      var i :| 0 <= i < k && t[i] == x;
      var j :| 0 <= j < |rest| && rest[j] == y;
      assert y == t[k + j];
      assert !ByIndex<V>()(t[k + j], t[i]);
    }
    forall i, j | 0 <= i < j < k
      ensures c[i].index <= c[j].index
    {
      assert !ByIndex<V>()(c[j], c[i]);
    }
  }

  lemma {:induction false} ChosenDistinct<V(!new)>(shares: seq<Share<V>>, k: nat)
    requires k <= |shares| && Distinct(IndexSeq(shares))
    ensures Distinct(IndexSeq(Chosen(shares, k)))
  {
    var r := Sorting.StableSort(shares, ByIndex());
    forall a, b | 0 <= a < b < k
      ensures r[a].index != r[b].index
    {
      if r[a].index == r[b].index {
        SortedDistinct(shares, r, a, b);
        assert false;
      }
    }
  }

  lemma SortedDistinct<V(!new)>(s: seq<Share<V>>, r: seq<Share<V>>, a: nat, b: nat)
    requires multiset(s) == multiset(r) && Distinct(IndexSeq(s)) && a < b < |r|
    ensures r[a].index != r[b].index
  {
    if r[a].index == r[b].index {
      Sorting.SameElements(s, r);
      assert r[a] in r && r[b] in r;
      var i :| 0 <= i < |s| && s[i] == r[a];
      var j :| 0 <= j < |s| && s[j] == r[b];
      var ix := IndexSeq(s);
      assert ix[i] == ix[j];
      assert i == j;
      CountTwice(r, a, b);
      CountOnce(s, i);
      assert false;
    }
  }

  lemma CountTwice<V>(r: seq<Share<V>>, a: nat, b: nat)
    requires a < b < |r| && r[a] == r[b]
    ensures multiset(r)[r[a]] >= 2
  {
    assert r == r[..a] + [r[a]] + r[a + 1..b] + [r[b]] + r[b + 1..];
  }

  lemma CountOnce<V>(s: seq<Share<V>>, i: nat)
    requires i < |s| && Distinct(IndexSeq(s))
    ensures multiset(s)[s[i]] == 1
  {
    var l, t, ix := s[..i], s[i + 1..], IndexSeq(s);
    assert s == l + [s[i]] + t;
    assert s[i] !in l by {
      assert forall j :: 0 <= j < i ==> ix[j] == l[j].index && ix[j] != ix[i];
    }
    assert s[i] !in t by {
      assert forall j :: 0 <= j < |t| ==> ix[i + 1 + j] == t[j].index && ix[i + 1 + j] != ix[i];
    }
  }

  /** Which k-subset is used does not matter: the secret is the constant term. */
  lemma SharesDetermineSecret(shares: seq<Share<Scalar>>, k: nat, coeffs: seq<int>)
    requires 0 < |coeffs| <= k <= |shares|
    requires BelowOrder(shares) && OnPolynomial(shares, coeffs)
    requires UsableIndices(Chosen(shares, k))
    ensures var c := Chosen(shares, k);
            Cong(Interpolation.Combine(IndexSeq(c), ValueSeq(c), IndexSeq(c)), coeffs[0])
  {
    var c := Chosen(shares, k);
    ChosenMembers(shares, k);
    forall i | 0 <= i < k
      ensures Cong(c[i].value, PolyAt(coeffs, c[i].index)) && c[i].index < ORDER
    {
      assert c[i] in c && c[i] in shares;
    }
    Recombine(coeffs, IndexSeq(c), ValueSeq(c));
  }

  /** No chosen value and no partial weighted sum is zero. */
  ghost predicate NoZeroSum(c: seq<Share<Scalar>>, js: seq<int>) {
    forall n :: 0 <= n < |c| ==>
      && c[n].value != 0
      && Reduce(Interpolation.Combine(IndexSeq(c)[..n + 1], ValueSeq(c)[..n + 1], js)) != 0
  }

  /** The guard shared by every recombination: the indices to use, or nothing. */
  method UsableOrNone<V>(c: seq<Share<V>>) returns (r: Option<seq<int>>)
    ensures r == if UsableIndices(c) then Some(IndexSeq(c)) else None
  {
    var indices: seq<int>, seen: set<int> := [], {};
    for n := 0 to |c|
      invariant indices == IndexSeq(c)[..n]
      invariant forall x :: x in seen <==> x in indices
      invariant Distinct(indices) && forall i :: 0 <= i < n ==> 0 < c[i].index
    {
      if c[n].index <= 0 {
        return None;
      }
      if c[n].index in seen {
        var i :| 0 <= i < n && indices[i] == c[n].index;
        assert IndexSeq(c)[i] == IndexSeq(c)[n];
        return None;
      }
      seen := seen + {c[n].index};
      indices := indices + [c[n].index];
    }
    assert IndexSeq(c)[..|c|] == IndexSeq(c);
    r := Some(indices);
  }

  method WeightedSum(c: seq<Share<Scalar>>, indices: seq<int>) returns (r: Result<Scalar, CryptoError>)
    requires c != [] && UsableIndices(c) && indices == IndexSeq(c)
    requires forall i :: 0 <= i < |c| ==> c[i].index < ORDER
    ensures r.Ok? ==> r.value == Reduce(Interpolation.Combine(indices, ValueSeq(c), indices))
    ensures NoZeroSum(c, indices) ==> r.Ok?
  {
    ghost var vs := ValueSeq(c);
    var acc: Scalar := 0;
    for n := 0 to |c|
      invariant acc == Reduce(Interpolation.Combine(indices[..n], vs[..n], indices))
    {
      var coeff := LagrangeAtZero(c[n].index, indices);
      if coeff.Err? {
        assert false;
      }
      var term, ok := MulChecked(c[n].value, coeff.value);
      if !ok {
        LambdaNonzero(c[n].index, indices);
        ProductZeroFactor(c[n].value, coeff.value);
        return Err(InvalidShare);
      }
      CombineStep(indices, vs, n);
      acc, ok := AddChecked(acc, term);
      if !ok {
        return Err(InvalidShare);
      }
    }
    assert indices[..|c|] == indices && vs[..|c|] == vs;
    r := Ok(acc);
  }

  lemma CombineStep(js: seq<int>, vs: seq<Scalar>, n: nat)
    requires n < |js| && n < |vs|
    ensures Reduce(Reduce(Interpolation.Combine(js[..n], vs[..n], js)) + Reduce(vs[n] * Lambda(js[n], js)))
         == Reduce(Interpolation.Combine(js[..n + 1], vs[..n + 1], js))
  {
    hide *;
    CombineUnfold(js, vs, n);
    TermReduce(vs[n], Lambda(js[n], js), Interpolation.Combine(js[..n], vs[..n], js));
  }

  lemma CombineUnfold(js: seq<int>, vs: seq<int>, n: nat)
    requires n < |js| && n < |vs|
    ensures Interpolation.Combine(js[..n + 1], vs[..n + 1], js)
         == Interpolation.Combine(js[..n], vs[..n], js) + vs[n] * Lambda(js[n], js)
  {
    assert js[..n + 1][..n] == js[..n] && vs[..n + 1][..n] == vs[..n];
  }

  method CombineScalarSharesAtZero(shares: seq<Share<Scalar>>, k: int) returns (r: Result<Scalar, CryptoError>)
    requires BelowOrder(shares)
    ensures k <= 0 || |shares| < k ==> r == Err(InvalidParams)
    ensures 0 < k <= |shares| && !UsableIndices(Chosen(shares, k)) ==> r == Err(InvalidParams)
    ensures 0 < k <= |shares| && UsableIndices(Chosen(shares, k)) ==>
              NoZeroSum(Chosen(shares, k), IndexSeq(Chosen(shares, k))) ==> r.Ok?
    ensures forall coeffs: seq<int> :: r.Ok? && 0 < |coeffs| <= k && OnPolynomial(shares, coeffs) ==>
              r.value == Reduce(coeffs[0])
  {
    if k <= 0 || |shares| < k {
      return Err(InvalidParams);
    }
    var c := Chosen(shares, k);
    ChosenMembers(shares, k);
    var usable := UsableOrNone(c);
    if usable.None? {
      return Err(InvalidParams);
    }
    var js := usable.value;
    r := WeightedSum(c, js);
    forall coeffs: seq<int> | r.Ok? && 0 < |coeffs| <= k && OnPolynomial(shares, coeffs)
      ensures r.value == Reduce(coeffs[0])
    {
      SharesDetermineSecret(shares, k, coeffs);
    }
  }

  lemma NumNonzero(i: int, js: seq<int>)
    requires forall a :: 0 <= a < |js| ==> 0 < js[a] < ORDER
    ensures !Cong(Num(i, js), 0)
  {
    if js != [] {
      var n := |js| - 1;
      NumNonzero(i, js[..n]);
      NegNonzero(js[n]);
      CongProductZero(Num(i, js[..n]), if js[n] == i then 1 else -js[n]);
    }
  }

  lemma LambdaNonzero(i: int, js: seq<int>)
    requires 0 < i < ORDER && forall a :: 0 <= a < |js| ==> 0 < js[a] < ORDER
    ensures !Cong(Lambda(i, js), 0)
  {
    NumNonzero(i, js);
    DenNonzero(i, js);
    InvCorrect(Den(i, js));
    var x := Num(i, js) * Inv(Den(i, js));
    CongProductZero(Num(i, js), Inv(Den(i, js)));
    if Cong(Lambda(i, js), 0) {
      assert false;
    }
  }
}
