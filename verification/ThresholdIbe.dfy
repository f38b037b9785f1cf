/** Threshold identity-based encryption: internal/beast/ibe/ibe_blst.go. The hash of
    an identity onto G2 is given by its logarithm h. Sealing is symbolic: a box opens
    exactly with the key it was sealed under. */
module ThresholdIbe {
  import opened PrimeField
  import opened Interpolation
  import opened Curve
  import opened Outcomes
  import opened Feldman
  import opened ExponentShares

  datatype IbeError = BadPoint | BadShare | CannotOpen

  datatype Box<M> = Box(key: Scalar, message: M)

  /** H(id)^share. */
  function DeriveShare(share: Option<Scalar>, h: Scalar): Result<Compressed, IbeError> {
    if share.None? then Err(BadShare) else Ok(Point(Mul(h, share.value)))
  }

  function Encrypt<M>(pk: Compressed, h: Scalar, message: M, r: Scalar): Result<(Compressed, Box<M>), IbeError> {
    if pk.Garbage? then Err(BadPoint)
    else Ok((Point(r), Box(Mul(h, Mul(pk.dlog, r)), message)))
  }

  function Decrypt<M>(privKey: Compressed, u: Compressed, box: Box<M>): Result<M, IbeError> {
    if privKey.Garbage? || u.Garbage? then Err(BadPoint)
    else if Mul(privKey.dlog, u.dlog) != box.key then Err(CannotOpen)
    else Ok(box.message)
  }

  predicate SomeEmpty(c: seq<PointShare>) {
    exists i :: 0 <= i < |c| && c[i].value == Garbage(0)
  }

  /** What CombineShares returns. */
  ghost function Combined(shares: seq<PointShare>, k: int): Result<Compressed, IbeError> {
    if k <= 0 || |shares| < k then Err(BadShare)
    else
      var c := Chosen(shares, k);
      if !UsableIndices(c) || SomeEmpty(c) then Err(BadShare)
      else if !PointsOnly(c) then Err(BadPoint)
      else Ok(Point(Reduce(Interpolation.Combine(IndexSeq(c), LogSeq(c), IndexSeq(c)))))
  }

  method CombineShares(shares: seq<PointShare>, k: int) returns (r: Result<Compressed, IbeError>)
    requires BelowOrder(shares)
    ensures r == Combined(shares, k)
  {
    if k <= 0 || |shares| < k {
      return Err(BadShare);
    }
    var c := Chosen(shares, k);
    ChosenMembers(shares, k);
    var usable := UsableOrNone(c);
    if usable.None? || SomeEmpty(c) {
      return Err(BadShare);
    }
    assert forall i :: 0 <= i < |c| ==> c[i] in c;
    var acc := CombinePoints(c, usable.value);
    if acc.None? {
      return Err(BadPoint);
    }
    r := Ok(Point(acc.value));
  }

  /** Every share is the one DeriveShare gives the participant for the identity. */
  ghost predicate Derived(shares: seq<PointShare>, h: Scalar, coeffs: seq<int>) {
    forall s :: s in shares ==>
      0 < s.index < ORDER && DeriveShare(Some(Reduce(PolyAt(coeffs, s.index))), h) == Ok(s.value)
  }

  /** Any k distinct shares combine to the identity's private key H(id)^secret. */
  lemma PrivateKeyRecovered(shares: seq<PointShare>, k: nat, h: Scalar, coeffs: seq<int>)
    requires 0 < |coeffs| <= k <= |shares|
    requires Derived(shares, h, coeffs) && Distinct(IndexSeq(shares))
    ensures Combined(shares, k) == Ok(Point(Mul(h, coeffs[0])))
  {
    forall s | s in shares
      ensures s.value.Point? && Cong(s.value.dlog, h * PolyAt(coeffs, s.index)) && 0 < s.index < ORDER
    {
      assert DeriveShare(Some(Reduce(PolyAt(coeffs, s.index))), h) == Ok(s.value);
      MulReduce(h, Reduce(PolyAt(coeffs, s.index)));
      TermReduce(h, PolyAt(coeffs, s.index), 0);
    }
    ChosenDistinct(shares, k);
    ChosenMembers(shares, k);
    var c := Chosen(shares, k);
    assert forall i :: 0 <= i < k ==> c[i] in c;
    ExponentSecret(shares, k, h, coeffs);
    MulReduce(h, coeffs[0]);
  }

  /** End to end: what was encrypted under g^secret for an identity opens with the
      key combined from any k shares derived for that identity. */
  lemma ThresholdIbeRoundTrip<M>(
      shares: seq<PointShare>, k: nat, h: Scalar, coeffs: seq<int>, message: M, r: Scalar)
    requires 0 < |coeffs| <= k <= |shares|
    requires Derived(shares, h, coeffs) && Distinct(IndexSeq(shares))
    ensures Combined(shares, k).Ok? && Encrypt(Point(Reduce(coeffs[0])), h, message, r).Ok?
    ensures var (u, box) := Encrypt(Point(Reduce(coeffs[0])), h, message, r).value;
            Decrypt(Combined(shares, k).value, u, box) == Ok(message)
  {
    PrivateKeyRecovered(shares, k, h, coeffs);
    PairingAgrees(h, coeffs[0], r);
  }

  /** A key combined for the identity h' opens what was encrypted for h if and only if the
      identities hash alike, or the secret or the randomness is zero. */
  lemma WrongIdentity<M>(
      shares: seq<PointShare>, k: nat, h: Scalar, h': Scalar, coeffs: seq<int>, message: M, r: Scalar)
    requires 0 < |coeffs| <= k <= |shares|
    requires Derived(shares, h', coeffs) && Distinct(IndexSeq(shares))
    ensures Combined(shares, k).Ok? && Encrypt(Point(Reduce(coeffs[0])), h, message, r).Ok?
    ensures var (u, box) := Encrypt(Point(Reduce(coeffs[0])), h, message, r).value;
            var got := Decrypt(Combined(shares, k).value, u, box);
            && (got == Ok(message) <==> h == h' || Reduce(coeffs[0]) == 0 || r == 0)
            && (got != Ok(message) ==> got == Err(CannotOpen))
  {
    PrivateKeyRecovered(shares, k, h', coeffs);
    PairingAgrees(h', coeffs[0], r);
    PairingsCoincide(h, h', Mul(Reduce(coeffs[0]), r));
    MulReduce(Reduce(coeffs[0]), r);
    ProductZero(Reduce(coeffs[0]), r);
  }

  lemma ProductZero(a: Scalar, b: Scalar)
    ensures Reduce(a * b) == 0 <==> a == 0 || b == 0
  {
    ReduceSmall(a);
    ReduceSmall(b);
    ReduceSmall(0);
    if a != 0 && b != 0 {
      CongProductZero(a, b);
    }
  }

  lemma PairingsCoincide(h: Scalar, h': Scalar, x: Scalar)
    ensures Mul(h, x) == Mul(h', x) <==> h == h' || x == 0
  {
    MulReduce(h, x);
    MulReduce(h', x);
    ReduceSmall(h);
    ReduceSmall(h');
    ReduceSmall(x);
    ReduceSmall(0);
    if Cong(h * x, h' * x) && x != 0 {
      CongCancel(h, h', x);
    }
  }

  lemma PairingAgrees(h: Scalar, s: int, r: Scalar)
    ensures Mul(Mul(h, s), r) == Mul(h, Mul(Reduce(s), r))
  {
    MulReduce(h, s);
    MulReduce(Reduce(h * s), r);
    ReduceOps(h * s, r);
    MulReduce(Reduce(s), r);
    ReduceOps(s, r);
    MulReduce(h, Reduce(s * r));
    TermReduce(h, s * r, 0);
    assert (h * s) * r == h * (s * r);
  }
}
