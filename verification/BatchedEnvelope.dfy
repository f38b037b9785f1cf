/** Private transactions: sealing by cmd/beast-encrypt and opening by
    internal/payload/private_v1. Hashing is uninterpreted. */
module BatchedEnvelope {
  import opened PrimeField
  import opened Interpolation
  import opened Curve
  import opened Outcomes
  import opened Feldman
  import opened ExponentShares
  import opened ThresholdElGamal
  import opened LinearPprf
  import opened BatchRecovery
  import opened MapSums

  type Pad = b: Bytes | |b| == 32 witness seq(32, _ => 0)
  type NonZero = x: Scalar | x != 0 witness 1

  /** The scalar derived from a seed for the PRF setup, and the pad derived from a PRF value. */
  datatype Hashes = Hashes(setup: Compressed -> NonZero, pad: Scalar -> Pad)

  /** An envelope; ephemeral is None when the field does not hold two points' worth of bytes. */
  datatype PrivateTx = PrivateTx(
    ciphertext: Bytes, ephemeral: Option<KeyCiphertext>, targetHeight: nat, batchIndex: nat, puncturedKey: Compressed)

  datatype SealError = NoDomain | Crypto

  /** The batch index chosen for a nonce. */
  function BatchIndex(nonce: nat, n: nat): (i: nat)
    requires n > 0
    ensures 0 < i <= n
  {
    nonce % n + 1
  }

  /** The batched branch of the encryption command. */
  function Seal(hs: Hashes, pk: Compressed, n: int, nonce: nat, height: nat, plain: Bytes, key: Scalar, r: Scalar)
    : Result<PrivateTx, SealError>
  {
    if n <= 0 then Err(NoDomain)
    else
      var pp := Setup(n, hs.setup(pk));
      var idx := BatchIndex(nonce, n);
      var prf := Eval(pp, Some(key), idx);
      var ct := EncryptKey(pk, Some(key), r);
      var kStar := Puncture(pp, Some(key), idx);
      if prf.Err? || ct.Err? || kStar.Err? then Err(Crypto)
      else Ok(PrivateTx(Xor(plain, hs.pad(prf.value)), Some(ct.value), height, idx, kStar.value))
  }

  // ----- where an envelope goes

  lemma TimesMinus(a: int, b: int, n: int)
    ensures Times(a - b, n) == Times(a, n) - Times(b, n) && Times(1, n) == n && Times(-a, n) == -Times(a, n) && Times(0, n) == 0
  {
  }

  lemma MultipleAtLeast(n: nat, q: int)
    requires q > 0
    ensures Times(q, n) >= n
  {
    assert q * n == (q - 1) * n + n;
  }

  /** A multiple of n between -n and n is 0. */
  lemma SmallMultipleZero(n: nat, q: int)
    requires 0 - n < Times(q, n) < n
    ensures Times(q, n) == 0
  {
    TimesMinus(q, 0, n);
    if q > 0 {
      MultipleAtLeast(n, q);
    } else if q < 0 {
      MultipleAtLeast(n, -q);
    }
  }

  /** The index is the nonce's remainder, counted from 1. */
  lemma IndexDecomposes(n: nat, nonce: nat) returns (q: int)
    requires n > 0
    ensures 1 <= BatchIndex(nonce, n) <= n && nonce == Times(q, n) + BatchIndex(nonce, n) - 1
  {
    q := nonce / n;
    assert nonce == n * (nonce / n) + nonce % n;
    assert n * q == q * n;
  }

  /** Two nonces get the same index if and only if they differ by a multiple of n. */
  lemma SameIndexIff(n: nat, a: nat, b: nat)
    requires n > 0
    ensures BatchIndex(a, n) == BatchIndex(b, n) <==> exists k :: a - b == Times(k, n)
  {
    var q1 := IndexDecomposes(n, a);
    var q2 := IndexDecomposes(n, b);
    hide BatchIndex;
    hide Times;
    TimesMinus(q1, q2, n);
    if BatchIndex(a, n) == BatchIndex(b, n) {
      assert a - b == Times(q1 - q2, n);
    }
    if k :| a - b == Times(k, n) {
      TimesMinus(k, q1 - q2, n);
      SmallMultipleZero(n, k - (q1 - q2));
    }
  }

  /** Nonce 0 gets index 1, and the next nonce the next index, wrapping at n. */
  lemma NextIndex(n: nat, a: nat)
    requires n > 0
    ensures BatchIndex(0, n) == 1
    ensures BatchIndex(a + 1, n) == if BatchIndex(a, n) == n then 1 else BatchIndex(a, n) + 1
  {
    var q0 := IndexDecomposes(n, 0);
    var q1 := IndexDecomposes(n, a);
    var q2 := IndexDecomposes(n, a + 1);
    hide BatchIndex;
    hide Times;
    TimesMinus(0, q0, n);
    SmallMultipleZero(n, 0 - q0);
    TimesMinus(q2, q1, n);
    TimesMinus(q2 - q1, 1, n);
    if BatchIndex(a, n) == n {
      SmallMultipleZero(n, q2 - q1 - 1);
    } else {
      SmallMultipleZero(n, q2 - q1);
    }
  }

  /** Nonces less than n apart get different indices. */
  lemma NearNoncesApart(n: nat, a: nat, b: nat)
    requires n > 0 && a != b && 0 - n < a - b < n
    ensures BatchIndex(a, n) != BatchIndex(b, n)
  {
    SameIndexIff(n, a, b);
    hide BatchIndex;
    if k :| a - b == Times(k, n) {
      SmallMultipleZero(n, k);
    }
  }

  /** A sealed envelope goes to its height, at its nonce's index. */
  lemma SealedAt(hs: Hashes, pk: Compressed, n: int, nonce: nat, height: nat, plain: Bytes, key: Scalar, r: Scalar)
    requires Seal(hs, pk, n, nonce, height, plain, key, r).Ok?
    ensures var tx := Seal(hs, pk, n, nonce, height, plain, key, r).value;
            n > 0 && tx.targetHeight == height && tx.batchIndex == BatchIndex(nonce, n)
  {
    hide BatchIndex;
  }

  datatype Config = Config(groupPubKey: Compressed, threshold: int, index: int, share: Option<Scalar>, batchN: int)

  datatype PrivateError = InvalidTx | Cipher | NotReady | Empty

  predicate Admissible(conf: Config, tx: PrivateTx) {
    && conf.batchN > 0 && conf.index > 0 && conf.share.Some?
    && tx.ciphertext != [] && tx.ephemeral.Some? && tx.batchIndex != 0
    && SizeIn(tx.puncturedKey, G1_SIZE) == G1_SIZE
    && tx.batchIndex <= conf.batchN
  }

  /** The part of opening that follows the collection of shares. */
  ghost function Unseal(hs: Hashes, conf: Config, tx: PrivateTx, shares: seq<PointShare>): Result<Bytes, PrivateError>
    requires Admissible(conf, tx)
  {
    var gk := Decryption(tx.ephemeral.value, shares, conf.threshold);
    if gk.Err? then Err(Cipher)
    else
      var pp := Setup(conf.batchN, hs.setup(conf.groupPubKey));
      var prf := Recovery(pp, gk.value, tx.batchIndex, map[tx.batchIndex := tx.puncturedKey]);
      if prf.Err? then Err(Cipher) else Ok(Xor(tx.ciphertext, hs.pad(prf.value)))
  }

  /** A listing, in any order, of the shares recorded for one batch position. */
  ghost predicate Lists(shares: seq<PointShare>, recorded: map<int, Compressed>) {
    && |shares| == |recorded|
    && Distinct(IndexSeq(shares))
    && forall s :: s in shares ==> s.index in recorded && recorded[s.index] == s.value
  }

  /** Every recorded share is the holder's partial decryption of ct. */
  ghost predicate CorrectShares(recorded: map<int, Compressed>, ct: KeyCiphertext, coeffs: seq<int>) {
    forall i :: i in recorded ==>
      i < ORDER && PartialDecrypt(ct, Some(Reduce(PolyAt(coeffs, i))), i) == Ok(Share(i, recorded[i]))
  }

  lemma ListedShares(shares: seq<PointShare>, recorded: map<int, Compressed>, ct: KeyCiphertext, coeffs: seq<int>)
    requires Lists(shares, recorded) && CorrectShares(recorded, ct, coeffs)
    ensures BelowOrder(shares) && PartialDecryptions(shares, ct, coeffs)
  {
    forall s | s in shares
      ensures s.index < ORDER && PartialDecrypt(ct, Some(Reduce(PolyAt(coeffs, s.index))), s.index) == Ok(s)
    {
      assert PartialDecrypt(ct, Some(Reduce(PolyAt(coeffs, s.index))), s.index) == Ok(Share(s.index, recorded[s.index]));
    }
  }

  lemma SoleEncryption(ct: KeyCiphertext, s: Scalar, key: Scalar, r: Scalar)
    requires EncryptKey(Point(s), Some(key), r) == Ok(ct)
    ensures WellFormed([ct]) && Aggregate([ct]) == ct && Reduce(SumOf([key])) == key
    ensures Encryptions([ct], Point(s), [key], [r])
  {
    assert C1Logs([ct]) == [ct.c1.dlog] && C2Logs([ct]) == [ct.c2.dlog];
    SumOfOne(ct.c1.dlog);
    SumOfOne(ct.c2.dlog);
    SumOfOne(key);
  }

  lemma SumOfOne(x: Scalar)
    ensures Reduce(SumOf([x])) == x
  {
    assert [x][..0] == [];
    ReduceSmall(x);
  }

  /** A batch of one: the aggregate key is the key itself. */
  lemma SoleMember(pp: LinearParams, x: int, key: Scalar, kStar: Compressed, i: int)
    requires pp.n > 0 && pp == Setup(pp.n, x) && 0 < i <= pp.n && Puncture(pp, Some(key), i) == Ok(kStar)
    ensures Eval(pp, Some(key), i).Ok?
    ensures Recovery(pp, Point(key), i, map[i := kStar]) == Ok(Eval(pp, Some(key), i).value)
  {
    var keys := map[i := key];
    BatchPrfRecovery(pp, x, keys, map[i := kStar], i);
    var logs := KeyLogs(keys);
    SumMapRemove(logs, i);
    assert (logs - {i}).Keys == {};
    ReduceSmall(key);
  }

  /** Round trip: an envelope sealed for g^secret opens to the same bytes, for every
      nonce, domain size and threshold, from any listing of at least t correct shares. */
  lemma BatchedRoundTrip(hs: Hashes, conf: Config, coeffs: seq<int>, nonce: nat, height: nat, plain: Bytes,
                         key: Scalar, r: Scalar, recorded: map<int, Compressed>, shares: seq<PointShare>)
    requires 0 < |coeffs| <= conf.threshold <= |recorded| && plain != []
    requires conf.groupPubKey == Point(Reduce(coeffs[0])) && conf.batchN > 0
    requires conf.index > 0 && conf.share.Some?
    requires var tx := Seal(hs, conf.groupPubKey, conf.batchN, nonce, height, plain, key, r);
             tx.Ok? ==> CorrectShares(recorded, tx.value.ephemeral.value, coeffs)
    requires Lists(shares, recorded)
    ensures var tx := Seal(hs, conf.groupPubKey, conf.batchN, nonce, height, plain, key, r);
            && tx.Ok? && Admissible(conf, tx.value)
            && Unseal(hs, conf, tx.value, shares) == Ok(plain)
  {
    var pk, n, s := conf.groupPubKey, conf.batchN, Reduce(coeffs[0]);
    var x, idx := hs.setup(pk), BatchIndex(nonce, n);
    hide BatchIndex;
    var pp := Setup(n, x);
    SetupEntry(pp, x, idx);
    SetupEntry(pp, x, n + 1 + idx);
    var tx := Seal(hs, pk, n, nonce, height, plain, key, r).value;
    var ct := tx.ephemeral.value;
    SoleEncryption(ct, s, key, r);
    ListedShares(shares, recorded, ct, coeffs);
    HomomorphicThresholdDecryption([ct], [key], [r], coeffs, shares, conf.threshold);
    SoleMember(pp, x, key, tx.puncturedKey, idx);
    XorTwice(plain, hs.pad(Eval(pp, Some(key), idx).value));
  }

  /** Shares recorded for a different ciphertext at the same batch position recover
      g^key exactly when both ciphertexts used the same randomness or the secret is zero. */
  lemma StaleSharesExact(ct: KeyCiphertext, prior: KeyCiphertext, key: Scalar, r: Scalar, r': Scalar,
                         coeffs: seq<int>, shares: seq<PointShare>, t: nat)
    requires 0 < |coeffs| <= t <= |shares| && BelowOrder(shares) && Distinct(IndexSeq(shares))
    requires EncryptKey(Point(Reduce(coeffs[0])), Some(key), r) == Ok(ct)
    requires prior.c1 == Point(r') && PartialDecryptions(shares, prior, coeffs)
    ensures Decryption(ct, shares, t) == Ok(Point(key)) <==> r == r' || Reduce(coeffs[0]) == 0
  {
    var s := coeffs[0];
    PartialsUsable(shares, prior, coeffs, t);
    PartialsExponentiate(shares, prior, coeffs);
    var mixed := KeyCiphertext(prior.c1, ct.c2);
    DecryptionUnmasks(mixed, shares, t, coeffs);
    assert Decryption(ct, shares, t) == Decryption(mixed, shares, t);
    StaleAlgebra(key, r, r', s);
  }

  lemma StaleAlgebra(key: Scalar, r: Scalar, r': Scalar, s: int)
    ensures Reduce(Reduce(Reduce(Reduce(s) * r) + key) - r' * s) == key <==> r == r' || Reduce(s) == 0
  {
    MaskLeft(key, r, r', s);
    var m := (r - r') * s;
    ReduceSmall(key);
    if r == r' {
    } else if Reduce(s) == 0 {
      CongMul(r - r', r - r', s, 0);
      CongAdd(m, 0, key, key);
    } else {
      IndexDifference(r, r');
      CongProductZero(r - r', s);
      if Reduce(m + key) == key {
        CancelKey(m, key);
        assert false;
      }
    }
  }

  lemma MaskLeft(key: Scalar, r: Scalar, r': Scalar, s: int)
    ensures Cong(Reduce(Reduce(Reduce(s) * r) + key) - r' * s, (r - r') * s + key)
  {
    ReduceOps(s, r);
    ReduceOps(s * r, key);
    var x := Reduce(Reduce(Reduce(s) * r) + key);
    var q := CongElim(x, s * r + key);
    assert x - r' * s - ((r - r') * s + key) == x - (s * r + key) by {
      assert (r - r') * s == s * r - r' * s;
    }
    CongIntro(x - r' * s, (r - r') * s + key, q);
  }

  lemma CancelKey(a: int, key: Scalar)
    requires Reduce(a + key) == key
    ensures Cong(a, 0)
  {
    ReduceSmall(key);
    var q := CongElim(a + key, key);
    CongIntro(a, 0, q);
  }
}
