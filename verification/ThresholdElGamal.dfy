/** Recombination in the exponent, shared by threshold ElGamal and threshold IBE. */
module ExponentShares {
  import opened PrimeField
  import opened Interpolation
  import opened Curve
  import opened Outcomes
  import opened Feldman

  type PointShare = Share<Compressed>

  ghost predicate PointsOnly(c: seq<PointShare>) {
    forall i :: 0 <= i < |c| ==> c[i].value.Point?
  }

  function LogSeq(c: seq<PointShare>): (vs: seq<Scalar>)
    requires PointsOnly(c)
    ensures |vs| == |c|
  {
    seq(|c|, i requires 0 <= i < |c| => c[i].value.dlog)
  }

  /** The sum of all points, each multiplied by its Lagrange coefficient. */
  method CombinePoints(c: seq<PointShare>, indices: seq<int>) returns (r: Option<Scalar>)
    requires c != [] && UsableIndices(c) && indices == IndexSeq(c)
    requires forall i :: 0 <= i < |c| ==> c[i].index < ORDER
    ensures r.Some? <==> PointsOnly(c)
    ensures r.Some? ==> r.value == Reduce(Interpolation.Combine(indices, LogSeq(c), indices))
  {
    var acc: Scalar := 0;
    ghost var vs: seq<Scalar> := [];
    for n := 0 to |c|
      invariant |vs| == n && forall i :: 0 <= i < n ==> c[i].value == Point(vs[i])
      invariant acc == Reduce(Interpolation.Combine(indices[..n], vs, indices))
    {
      var coeff := LagrangeAtZero(c[n].index, indices);
      if coeff.Err? {
        assert false;
      }
      if !c[n].value.Point? {
        return None;
      }
      var p := c[n].value.dlog;
      acc := AddMultiple(acc, p, coeff.value, indices, vs);
      vs := vs + [p];
    }
    assert indices[..|c|] == indices && vs == LogSeq(c);
    r := Some(acc);
  }

  /** acc + p * w in the group. */
  method AddMultiple(acc: Scalar, p: Scalar, w: Scalar, ghost js: seq<int>, ghost vs: seq<Scalar>)
    returns (r: Scalar)
    requires |vs| < |js| && w == Lambda(js[|vs|], js)
    requires acc == Reduce(Interpolation.Combine(js[..|vs|], vs, js))
    ensures r == Reduce(Interpolation.Combine(js[..|vs| + 1], vs + [p], js))
  {
    PointStep(js, vs, p);
    r := Reduce(acc + Reduce(p * w));
  }

  lemma PointStep(js: seq<int>, vs: seq<Scalar>, p: Scalar)
    requires |vs| < |js|
    ensures var n := |vs|;
            Reduce(Reduce(Interpolation.Combine(js[..n], vs, js)) + Reduce(p * Lambda(js[n], js)))
            == Reduce(Interpolation.Combine(js[..n + 1], vs + [p], js))
  {
    hide Interpolation.Combine;
    hide Lambda;
    var n := |vs|;
    var vs' := vs + [p];
    assert vs'[..n] == vs && vs'[..n + 1] == vs' && vs'[n] == p;
    CombineStep(js, vs', n);
  }

  /** Shares of base^secret: every value is base times the participant's scalar share. */
  ghost predicate ExponentiatedBy(shares: seq<PointShare>, base: int, coeffs: seq<int>) {
    forall s :: s in shares ==> s.value.Point? && Cong(s.value.dlog, base * PolyAt(coeffs, s.index))
  }

  function Scale(c: int, coeffs: seq<int>): (r: seq<int>)
    ensures |r| == |coeffs|
  {
    seq(|coeffs|, i requires 0 <= i < |coeffs| => c * coeffs[i])
  }

  lemma ScaleEval(c: int, coeffs: seq<int>, x: int)
    ensures PolyAt(Scale(c, coeffs), x) == c * PolyAt(coeffs, x)
  {
    if coeffs != [] {
      var n := |coeffs| - 1;
      ScaleEval(c, coeffs[..n], x);
      assert Scale(c, coeffs)[..n] == Scale(c, coeffs[..n]);
      ScaleAlgebra(c, PolyAt(coeffs[..n], x), coeffs[n], Pow(x, n));
    }
  }

  lemma ScaleAlgebra(c: int, s: int, a: int, y: int)
    ensures c * s + (c * a) * y == c * (s + a * y)
  {
    assert (c * a) * y == c * (a * y);
  }

  /** Any threshold subset of exponent shares recombines to base^secret. */
  lemma ExponentSecret(shares: seq<PointShare>, k: nat, base: int, coeffs: seq<int>)
    requires 0 < |coeffs| <= k <= |shares|
    requires BelowOrder(shares) && ExponentiatedBy(shares, base, coeffs)
    requires UsableIndices(Chosen(shares, k))
    ensures var c := Chosen(shares, k);
            PointsOnly(c) && Cong(Interpolation.Combine(IndexSeq(c), LogSeq(c), IndexSeq(c)), base * coeffs[0])
  {
    var c := Chosen(shares, k);
    ChosenMembers(shares, k);
    var scaled := Scale(base, coeffs);
    forall i | 0 <= i < k
      ensures c[i].value.Point? && Cong(c[i].value.dlog, PolyAt(scaled, c[i].index)) && c[i].index < ORDER
    {
      assert c[i] in c;
      ScaleEval(base, coeffs, c[i].index);
    }
    Recombine(scaled, IndexSeq(c), LogSeq(c));
  }
}

/** Additively homomorphic threshold ElGamal: internal/beast/bte/bte_blst.go. */
module ThresholdElGamal {
  import opened PrimeField
  import opened Interpolation
  import opened Curve
  import opened Outcomes
  import opened Feldman
  import opened ExponentShares

  datatype BteError = Invalid

  datatype KeyCiphertext = KeyCiphertext(c1: Compressed, c2: Compressed)

  /** Encrypts g^key under pk with randomness r. A scalar encoding that does not
      deserialize is None. */
  function EncryptKey(pk: Compressed, key: Option<Scalar>, r: Scalar): Result<KeyCiphertext, BteError> {
    if pk.Garbage? || key.None? then Err(Invalid)
    else
      var m := key.value;
      var pkR := Reduce(pk.dlog * r);
      Ok(KeyCiphertext(Point(r), Point(Reduce(pkR + m))))
  }

  function SumOf(xs: seq<int>): int {
    if xs == [] then 0 else SumOf(xs[..|xs| - 1]) + xs[|xs| - 1]
  }

  predicate WellFormed(cts: seq<KeyCiphertext>) {
    forall i :: 0 <= i < |cts| ==> cts[i].c1.Point? && cts[i].c2.Point?
  }

  function C1Logs(cts: seq<KeyCiphertext>): (r: seq<Scalar>)
    requires WellFormed(cts)
    ensures |r| == |cts|
  {
    seq(|cts|, i requires 0 <= i < |cts| => cts[i].c1.dlog)
  }

  function C2Logs(cts: seq<KeyCiphertext>): (r: seq<Scalar>)
    requires WellFormed(cts)
    ensures |r| == |cts|
  {
    seq(|cts|, i requires 0 <= i < |cts| => cts[i].c2.dlog)
  }

  /** The component-wise sum of a list of ciphertexts. */
  function Aggregate(cts: seq<KeyCiphertext>): KeyCiphertext
    requires WellFormed(cts)
  {
    KeyCiphertext(Point(Reduce(SumOf(C1Logs(cts)))), Point(Reduce(SumOf(C2Logs(cts)))))
  }

  method AddCiphertexts(cts: seq<KeyCiphertext>) returns (r: Result<KeyCiphertext, BteError>)
    ensures r == if cts == [] || !WellFormed(cts) then Err(Invalid) else Ok(Aggregate(cts))
  {
    if cts == [] {
      return Err(Invalid);
    }
    var acc1: Scalar, acc2: Scalar := 0, 0;
    for n := 0 to |cts|
      invariant WellFormed(cts[..n])
      invariant acc1 == Reduce(SumOf(C1Logs(cts[..n]))) && acc2 == Reduce(SumOf(C2Logs(cts[..n])))
    {
      var ct := cts[n];
      if !ct.c1.Point? || !ct.c2.Point? {
        return Err(Invalid);
      }
      assert C1Logs(cts[..n + 1])[..n] == C1Logs(cts[..n]) && C2Logs(cts[..n + 1])[..n] == C2Logs(cts[..n]);
      ReduceOps(SumOf(C1Logs(cts[..n])), ct.c1.dlog);
      ReduceOps(SumOf(C2Logs(cts[..n])), ct.c2.dlog);
      acc1 := Reduce(acc1 + ct.c1.dlog);
      acc2 := Reduce(acc2 + ct.c2.dlog);
    }
    assert cts[..|cts|] == cts;
    r := Ok(KeyCiphertext(Point(acc1), Point(acc2)));
  }

  /** C1 raised to a participant's share of the secret. */
  function PartialDecrypt(ct: KeyCiphertext, share: Option<Scalar>, index: int): Result<PointShare, BteError> {
    if index <= 0 || share.None? || ct.c1.Garbage? then Err(Invalid)
    else Ok(Share(index, Point(Reduce(ct.c1.dlog * share.value))))
  }

  /** What DecryptKeyG returns for a list of partial decryptions. */
  ghost function Decryption(ct: KeyCiphertext, shares: seq<PointShare>, t: int): Result<Compressed, BteError> {
    if t <= 0 || |shares| < t then Err(Invalid)
    else
      var c := Chosen(shares, t);
      if ct.c2.Garbage? || !UsableIndices(c) || !PointsOnly(c) then Err(Invalid)
      else Ok(Point(Reduce(ct.c2.dlog - Reduce(Interpolation.Combine(IndexSeq(c), LogSeq(c), IndexSeq(c))))))
  }

  method DecryptKeyG(ct: KeyCiphertext, shares: seq<PointShare>, threshold: int)
    returns (r: Result<Compressed, BteError>)
    requires BelowOrder(shares)
    ensures r == Decryption(ct, shares, threshold)
  {
    if threshold <= 0 || |shares| < threshold {
      return Err(Invalid);
    }
    var c := Chosen(shares, threshold);
    ChosenMembers(shares, threshold);
    var usable := UsableOrNone(c);
    if usable.None? {
      return Err(Invalid);
    }
    assert forall i :: 0 <= i < |c| ==> c[i] in c;
    var acc := CombinePoints(c, usable.value);
    if acc.None? || !ct.c2.Point? {
      return Err(Invalid);
    }
    r := Ok(Point(Reduce(ct.c2.dlog - acc.value)));
  }

  /** Every share is the partial decryption of ct with the sharing polynomial coeffs. */
  ghost predicate PartialDecryptions(shares: seq<PointShare>, ct: KeyCiphertext, coeffs: seq<int>) {
    forall s :: s in shares ==>
      PartialDecrypt(ct, Some(Reduce(PolyAt(coeffs, s.index))), s.index) == Ok(s)
  }

  lemma PartialsExponentiate(shares: seq<PointShare>, ct: KeyCiphertext, coeffs: seq<int>)
    requires PartialDecryptions(shares, ct, coeffs) && ct.c1.Point?
    ensures ExponentiatedBy(shares, ct.c1.dlog, coeffs)
  {
    forall s | s in shares
      ensures s.value.Point? && Cong(s.value.dlog, ct.c1.dlog * PolyAt(coeffs, s.index))
    {
      assert PartialDecrypt(ct, Some(Reduce(PolyAt(coeffs, s.index))), s.index) == Ok(s);
      TermReduce(ct.c1.dlog, PolyAt(coeffs, s.index), 0);
    }
  }

  /** Decrypting with any t shares of s removes the mask C1^s from C2. */
  lemma DecryptionUnmasks(ct: KeyCiphertext, shares: seq<PointShare>, t: nat, coeffs: seq<int>)
    requires ct.c1.Point? && ct.c2.Point? && 0 < |coeffs| <= t <= |shares|
    requires BelowOrder(shares) && UsableIndices(Chosen(shares, t))
    requires ExponentiatedBy(shares, ct.c1.dlog, coeffs)
    ensures Decryption(ct, shares, t) == Ok(Point(Reduce(ct.c2.dlog - ct.c1.dlog * coeffs[0])))
  {
    var c := Chosen(shares, t);
    ExponentSecret(shares, t, ct.c1.dlog, coeffs);
    var x := Interpolation.Combine(IndexSeq(c), LogSeq(c), IndexSeq(c));
    var y := ct.c1.dlog * coeffs[0];
    SubtractCong(ct.c2.dlog, Reduce(x), y);
  }

  lemma SubtractCong(a: int, x: int, y: int)
    requires Cong(x, y)
    ensures Reduce(a - x) == Reduce(a - y)
  {
    var q := CongElim(x, y);
    CongIntro(a - x, a - y, -q);
  }

  /** cts are encryptions of the keys under pk with the randomness rs. */
  ghost predicate Encryptions(cts: seq<KeyCiphertext>, pk: Compressed, keys: seq<Scalar>, rs: seq<Scalar>) {
    |cts| == |keys| == |rs| &&
    forall i :: 0 <= i < |cts| ==> EncryptKey(pk, Some(keys[i]), rs[i]) == Ok(cts[i])
  }

  lemma {:induction false} AggregateMask(cts: seq<KeyCiphertext>, pk: Compressed, keys: seq<Scalar>, rs: seq<Scalar>)
    requires pk.Point? && Encryptions(cts, pk, keys, rs)
    ensures WellFormed(cts) && C1Logs(cts) == rs
    ensures Cong(SumOf(C2Logs(cts)), pk.dlog * SumOf(rs) + SumOf(keys))
  {
    EncryptionShape(cts, pk, keys, rs);
    if cts == [] {
    } else {
      var n := |cts| - 1;
      assert Encryptions(cts[..n], pk, keys[..n], rs[..n]);
      AggregateMask(cts[..n], pk, keys[..n], rs[..n]);
      assert C2Logs(cts)[..n] == C2Logs(cts[..n]);
      MaskStep(pk.dlog, SumOf(C2Logs(cts[..n])), SumOf(rs[..n]), SumOf(keys[..n]), rs[n], keys[n]);
    }
  }

  lemma EncryptionShape(cts: seq<KeyCiphertext>, pk: Compressed, keys: seq<Scalar>, rs: seq<Scalar>)
    requires pk.Point? && Encryptions(cts, pk, keys, rs)
    ensures WellFormed(cts) && C1Logs(cts) == rs
    ensures forall i :: 0 <= i < |cts| ==> C2Logs(cts)[i] == Reduce(Reduce(pk.dlog * rs[i]) + keys[i])
  {
    forall i | 0 <= i < |cts|
      ensures cts[i].c1 == Point(rs[i]) && cts[i].c2 == Point(Reduce(Reduce(pk.dlog * rs[i]) + keys[i]))
    {
      assert EncryptKey(pk, Some(keys[i]), rs[i]) == Ok(cts[i]);
    }
  }

  lemma MaskStep(s: int, x: int, r: int, k: int, r': int, k': int)
    requires Cong(x, s * r + k)
    ensures Cong(x + Reduce(Reduce(s * r') + k'), s * (r + r') + (k + k'))
  {
    ReduceOps(s * r', k');
    CongAdd(x, s * r + k, Reduce(Reduce(s * r') + k'), s * r' + k');
    MaskAlgebra(s, r, r', k, k');
  }

  lemma MaskAlgebra(s: int, r: int, r': int, k: int, k': int)
    ensures s * r + k + (s * r' + k') == s * (r + r') + (k + k')
  {
  }

  /** End to end: aggregate any non-empty list of encryptions under g^secret and
      combine any threshold-sized set of correct partial decryptions. The result
      is g^(sum of the keys), whatever the randomness and whichever the shares. */
  lemma HomomorphicThresholdDecryption(
      cts: seq<KeyCiphertext>, keys: seq<Scalar>, rs: seq<Scalar>,
      coeffs: seq<int>, shares: seq<PointShare>, t: nat)
    requires cts != [] && 0 < |coeffs| <= t <= |shares|
    requires Encryptions(cts, Point(Reduce(coeffs[0])), keys, rs)
    requires WellFormed(cts) ==> PartialDecryptions(shares, Aggregate(cts), coeffs)
    requires BelowOrder(shares) && Distinct(IndexSeq(shares))
    ensures WellFormed(cts)
    ensures Decryption(Aggregate(cts), shares, t) == Ok(Point(Reduce(SumOf(keys))))
  {
    var s := Reduce(coeffs[0]);
    AggregateMask(cts, Point(s), keys, rs);
    var ct := Aggregate(cts);
    PartialsUsable(shares, ct, coeffs, t);
    PartialsExponentiate(shares, ct, coeffs);
    DecryptionUnmasks(ct, shares, t, coeffs);
    UnmaskedSum(SumOf(C2Logs(cts)), SumOf(rs), coeffs[0], SumOf(keys));
  }

  lemma PartialsUsable(shares: seq<PointShare>, ct: KeyCiphertext, coeffs: seq<int>, t: nat)
    requires t <= |shares| && PartialDecryptions(shares, ct, coeffs) && Distinct(IndexSeq(shares))
    ensures UsableIndices(Chosen(shares, t))
  {
    ChosenDistinct(shares, t);
    ChosenMembers(shares, t);
    var c := Chosen(shares, t);
    forall i | 0 <= i < t
      ensures 0 < c[i].index
    {
      assert c[i] in c;
      assert PartialDecrypt(ct, Some(Reduce(PolyAt(coeffs, c[i].index))), c[i].index) == Ok(c[i]);
    }
  }

  lemma UnmaskedSum(x: int, r: int, secret: int, k: int)
    requires Cong(x, Reduce(secret) * r + k)
    ensures Reduce(Reduce(x) - Reduce(r) * secret) == Reduce(k)
  {
    var q1 := CongElim(Reduce(x), Reduce(secret) * r + k);
    var q2 := CongElim(Reduce(r), r);
    var q3 := CongElim(Reduce(secret), secret);
    UnmaskAlgebra(Reduce(x), Reduce(r), r, Reduce(secret), secret, k, q1, q2, q3);
    CongIntro(Reduce(x) - Reduce(r) * secret, k, q1 + q3 * r - q2 * secret);
  }

  lemma UnmaskAlgebra(x: int, r': int, r: int, s': int, s: int, k: int, q1: int, q2: int, q3: int)
    requires x - (s' * r + k) == ORDER * q1 && r' - r == ORDER * q2 && s' - s == ORDER * q3
    ensures x - r' * s - k == ORDER * (q1 + q3 * r - q2 * s)
  {
    assert (s' - s) * r == (ORDER * q3) * r == ORDER * (q3 * r);
    assert (r' - r) * s == (ORDER * q2) * s == ORDER * (q2 * s);
    assert s' * r == s * r + ORDER * (q3 * r);
    assert r' * s == r * s + ORDER * (q2 * s);
    assert s * r == r * s;
  }
}
