/** The share maps and key cache of internal/payload/private_v1/threshold_state.go, with
    the two operations that read them: thresholdPrivateKey and decryptBatched. */
module ThresholdState {
  import opened PrimeField
  import opened Interpolation
  import opened Curve
  import opened Outcomes
  import opened Feldman
  import opened ExponentShares
  import opened ThresholdElGamal
  import opened LinearPprf
  import opened BatchRecovery
  import opened BatchedEnvelope
  import opened MapSums
  import ThresholdIbe

  type ShareRow = map<int, Compressed>

  function Row<K(==)>(m: map<K, ShareRow>, k: K): ShareRow {
    if k in m then m[k] else map[]
  }

  /** Recording keeps the first share of each participant. */
  function FirstWins(row: ShareRow, index: int, share: Compressed): ShareRow {
    if index in row then row else row[index := share]
  }

  ghost predicate BelowOrderKeys(row: ShareRow) {
    forall i :: i in row ==> i < ORDER
  }

  /** A slice of the recorded shares, in whatever order the map is walked. */
  method ListRow(row: ShareRow) returns (shares: seq<PointShare>)
    ensures Lists(shares, row)
  {
    shares := [];
    var rest := row.Keys;
    while rest != {}
      invariant rest <= row.Keys && |shares| + |rest| == |row|
      invariant forall i :: 0 <= i < |shares| ==>
        shares[i].index in row && shares[i].index !in rest && shares[i].value == row[shares[i].index]
      invariant Distinct(IndexSeq(shares))
      decreases rest
    {
      var i := Take(rest);
      assert IndexSeq(shares + [Share(i, row[i])]) == IndexSeq(shares) + [i];
      shares := shares + [Share(i, row[i])];
      rest := rest - {i};
    }
  }

  lemma ListedBelowOrder(shares: seq<PointShare>, row: ShareRow)
    requires Lists(shares, row) && BelowOrderKeys(row)
    ensures BelowOrder(shares)
  {
  }

  /** Every share is the one its participant derives for the identity h. */
  ghost predicate RowSound(row: ShareRow, h: Scalar, coeffs: seq<int>) {
    forall i :: i in row ==>
      0 < i < ORDER && ThresholdIbe.DeriveShare(Some(Reduce(PolyAt(coeffs, i))), h) == Ok(row[i])
  }

  lemma EmptyRow(h: Scalar, coeffs: seq<int>)
    ensures RowSound(map[], h, coeffs) && BelowOrderKeys(map[])
  {
  }

  /** What fetching an uncached key gives: the combination of a listing of the recorded
      shares, once there are k, unless they do not combine. */
  ghost predicate Fetched(enabled: bool, k: int, row: ShareRow, r: Option<Compressed>) {
    if !enabled || k <= 0 || |row| < k then r == None
    else
      exists shares ::
        Lists(shares, row) && r == match ThresholdIbe.Combined(shares, k) case Ok(pk) => Some(pk) case Err(_) => None
  }

  lemma ListedDerived(shares: seq<PointShare>, row: ShareRow, h: Scalar, coeffs: seq<int>)
    requires Lists(shares, row) && RowSound(row, h, coeffs)
    ensures ThresholdIbe.Derived(shares, h, coeffs)
  {
    hide ThresholdIbe.DeriveShare;
    forall s | s in shares
      ensures 0 < s.index < ORDER && ThresholdIbe.DeriveShare(Some(Reduce(PolyAt(coeffs, s.index))), h) == Ok(s.value)
    {
      var n :| 0 <= n < |shares| && shares[n] == s;
    }
  }

  /** Opening a transaction with the shares at hand. */
  method OpenWith(hs: Hashes, conf: Config, tx: PrivateTx, shares: seq<PointShare>) returns (r: Result<Bytes, PrivateError>)
    requires Admissible(conf, tx) && BelowOrder(shares) && |shares| >= conf.threshold && conf.groupPubKey != Garbage(0)
    ensures r == Unseal(hs, conf, tx, shares)
  {
    var built := BuildLinearParams(conf.batchN, hs.setup(conf.groupPubKey));
    var pp := built.value;
    var gk := DecryptKeyG(tx.ephemeral.value, shares, conf.threshold);
    if gk.Err? {
      return Err(Cipher);
    }
    var punctured := map[tx.batchIndex as int := tx.puncturedKey];
    var prf := RecoverPRFAt(pp, gk.value, tx.batchIndex, punctured);
    if prf.Err? {
      return Err(Cipher);
    }
    var plain := RecoverXOR(tx.ciphertext, hs.pad(prf.value));
    if plain == [] {
      return Err(Empty);
    }
    r := Ok(plain);
  }

  // ----- batched shares

  /** Recorded shares by height and batch index. */
  type BatchStore = map<(nat, nat), ShareRow>

  function Position(tx: PrivateTx): (nat, nat) {
    (tx.targetHeight, tx.batchIndex)
  }

  /** The configuration and the envelope let the node compute its partial decryption. */
  predicate Computable(conf: Config, tx: PrivateTx) {
    Admissible(conf, tx) && conf.groupPubKey != Garbage(0) && tx.ephemeral.value.c1.Point?
  }

  function OwnShare(conf: Config, tx: PrivateTx): Compressed
    requires Computable(conf, tx)
  {
    PartialDecrypt(tx.ephemeral.value, conf.share, conf.index).value.value
  }

  /** A node records its own share, and only that. */
  function RecordOwn(store: BatchStore, conf: Config, tx: PrivateTx): BatchStore {
    if !Computable(conf, tx) || tx.targetHeight == 0 then store
    else store[Position(tx) := FirstWins(Row(store, Position(tx)), conf.index, OwnShare(conf, tx))]
  }

  /** What opening the envelope may give once row is what its position holds. */
  ghost predicate Outcome(hs: Hashes, conf: Config, tx: PrivateTx, row: ShareRow, r: Result<Bytes, PrivateError>) {
    if !Admissible(conf, tx) then r == Err(InvalidTx)
    else if !Computable(conf, tx) then r == Err(Cipher)
    else if |row| < conf.threshold then r == Err(NotReady)
    else exists shares :: Lists(shares, row) && r == Unseal(hs, conf, tx, shares)
  }

  /** Exactly which envelopes are refused outright, and which have to wait. */
  lemma RefusedExactly(hs: Hashes, conf: Config, tx: PrivateTx, row: ShareRow, r: Result<Bytes, PrivateError>)
    requires Outcome(hs, conf, tx, row, r)
    ensures r == Err(InvalidTx) <==>
      || conf.batchN <= 0 || conf.index <= 0 || conf.share.None?
      || tx.ciphertext == [] || tx.ephemeral.None? || SizeIn(tx.puncturedKey, 48) != 48
      || tx.batchIndex == 0 || tx.batchIndex > conf.batchN
    ensures r == Err(NotReady) <==>
      && r != Err(InvalidTx) && conf.groupPubKey != Garbage(0) && tx.ephemeral.Some? && tx.ephemeral.value.c1.Point?
      && |row| < conf.threshold
  {
    if Computable(conf, tx) && |row| >= conf.threshold {
      var shares :| Lists(shares, row) && r == Unseal(hs, conf, tx, shares);
    }
    hide Decryption;
    hide Recovery;
  }

  /** What is recorded stays, and nothing is recorded but the node's own share, for the
      envelope's position and for a height other than 0. */
  lemma RecordsOnce(store: BatchStore, conf: Config, tx: PrivateTx, at: (nat, nat), i: int)
    ensures var after := RecordOwn(store, conf, tx);
            && (at in store && i in store[at] ==> at in after && i in after[at] && after[at][i] == store[at][i])
            && (at in after && i in after[at] && !(at in store && i in store[at]) ==>
                  at == (tx.targetHeight, tx.batchIndex) && tx.targetHeight != 0 && i == conf.index)
  {
    hide Computable;
    hide OwnShare;
  }

  /** The envelope was sealed from plain under the sharing coeffs of the group secret. */
  ghost predicate Sealed(hs: Hashes, conf: Config, tx: PrivateTx, coeffs: seq<int>, nonce: nat, plain: Bytes, key: Scalar, rnd: Scalar) {
    && 0 < |coeffs| <= conf.threshold && plain != [] && conf.groupPubKey == Point(Reduce(coeffs[0]))
    && conf.batchN > 0 && conf.index > 0 && conf.share.Some?
    && Seal(hs, conf.groupPubKey, conf.batchN, nonce, tx.targetHeight, plain, key, rnd) == Ok(tx)
  }

  /** The round trip, through the store: with enough correct shares recorded, whatever
      order they are listed in, opening a sealed envelope gives its plaintext. */
  lemma SealedOpens(hs: Hashes, conf: Config, tx: PrivateTx, row: ShareRow, r: Result<Bytes, PrivateError>,
                    coeffs: seq<int>, nonce: nat, plain: Bytes, key: Scalar, rnd: Scalar)
    requires Sealed(hs, conf, tx, coeffs, nonce, plain, key, rnd) && Outcome(hs, conf, tx, row, r)
    requires |row| >= conf.threshold && CorrectShares(row, tx.ephemeral.value, coeffs)
    ensures r == Ok(plain)
  {
    hide Seal;
    hide Unseal;
    hide CorrectShares;
    SealedShape(hs, conf, tx, coeffs, nonce, plain, key, rnd);
    var shares :| Lists(shares, row) && r == Unseal(hs, conf, tx, shares);
    BatchedRoundTrip(hs, conf, coeffs, nonce, tx.targetHeight, plain, key, rnd, row, shares);
  }

  lemma SealedShape(hs: Hashes, conf: Config, tx: PrivateTx, coeffs: seq<int>, nonce: nat, plain: Bytes, key: Scalar, rnd: Scalar)
    requires Sealed(hs, conf, tx, coeffs, nonce, plain, key, rnd)
    ensures Computable(conf, tx) && EncryptKey(conf.groupPubKey, Some(key), rnd) == Ok(tx.ephemeral.value)
    ensures tx.ephemeral.value.c1 == Point(rnd)
  {
  }

  // ----- one node by itself

  ghost predicate OwnOnly(store: BatchStore, index: int) {
    forall at :: at in store ==> store[at].Keys <= {index}
  }

  lemma RecordOwnKeeps(store: BatchStore, conf: Config, tx: PrivateTx)
    requires OwnOnly(store, conf.index)
    ensures OwnOnly(RecordOwn(store, conf, tx), conf.index)
  {
    hide Computable;
  }

  /** The store after a node, under one configuration, has handled envelopes. */
  function RecordAll(conf: Config, txs: seq<PrivateTx>): BatchStore {
    if txs == [] then map[] else RecordOwn(RecordAll(conf, txs[..|txs| - 1]), conf, txs[|txs| - 1])
  }

  lemma {:induction false} RecordAllOwn(conf: Config, txs: seq<PrivateTx>)
    ensures OwnOnly(RecordAll(conf, txs), conf.index)
  {
    hide RecordOwn;
    if txs != [] {
      RecordAllOwn(conf, txs[..|txs| - 1]);
      RecordOwnKeeps(RecordAll(conf, txs[..|txs| - 1]), conf, txs[|txs| - 1]);
    }
  }

  /** Nothing but the node's own share is ever recorded: over any run under one
      configuration a position holds at most one share, so no envelope opens unless the
      threshold is 1. */
  lemma OpensOnlyAlone(hs: Hashes, conf: Config, txs: seq<PrivateTx>, tx: PrivateTx, r: Result<Bytes, PrivateError>)
    requires Outcome(hs, conf, tx, Row(RecordAll(conf, txs), Position(tx)), r)
    ensures |Row(RecordAll(conf, txs), Position(tx))| <= 1
    ensures r.Ok? ==> conf.threshold == 1
  {
    RecordAllOwn(conf, txs);
    var row := Row(RecordAll(conf, txs), Position(tx));
    OneEntry(row, conf.index);
  }

  lemma OneEntry(row: ShareRow, index: int)
    requires row.Keys <= {index}
    ensures |row| <= 1
  {
    assert row.Keys == {} || row.Keys == {index};
  }

  lemma {:induction false} Untouched(conf: Config, txs: seq<PrivateTx>, at: (nat, nat))
    requires forall i :: 0 <= i < |txs| ==> Position(txs[i]) != at
    ensures Row(RecordAll(conf, txs), at) == map[]
  {
    if txs != [] {
      Untouched(conf, txs[..|txs| - 1], at);
    }
  }

  /** The node's own share of a ciphertext, on the polynomial. */
  lemma OwnShareCorrect(conf: Config, tx: PrivateTx, coeffs: seq<int>)
    requires Computable(conf, tx) && conf.index < ORDER && conf.share == Some(Reduce(PolyAt(coeffs, conf.index)))
    ensures CorrectShares(map[conf.index := OwnShare(conf, tx)], tx.ephemeral.value, coeffs)
  {
  }

  /** Exactly when a node by itself opens an envelope sealed for its committee, the first at
      its position: when the threshold is 1. */
  lemma OpensIffAlone(hs: Hashes, conf: Config, txs: seq<PrivateTx>, tx: PrivateTx, r: Result<Bytes, PrivateError>,
                      coeffs: seq<int>, nonce: nat, plain: Bytes, key: Scalar, rnd: Scalar)
    requires Sealed(hs, conf, tx, coeffs, nonce, plain, key, rnd) && tx.targetHeight != 0 && conf.index < ORDER
    requires conf.share == Some(Reduce(PolyAt(coeffs, conf.index)))
    requires forall i :: 0 <= i < |txs| ==> Position(txs[i]) != Position(tx)
    requires Outcome(hs, conf, tx, Row(RecordAll(conf, txs + [tx]), Position(tx)), r)
    ensures r == Ok(plain) <==> conf.threshold == 1
  {
    hide Seal;
    hide Outcome;
    hide CorrectShares;
    SealedShape(hs, conf, tx, coeffs, nonce, plain, key, rnd);
    OpensOnlyAlone(hs, conf, txs + [tx], tx, r);
    Untouched(conf, txs, Position(tx));
    assert (txs + [tx])[..|txs|] == txs;
    var row := Row(RecordAll(conf, txs + [tx]), Position(tx));
    assert row == map[conf.index := OwnShare(conf, tx)];
    hide RecordAll;
    OwnShareCorrect(conf, tx, coeffs);
    if conf.threshold == 1 {
      SealedOpens(hs, conf, tx, row, r, coeffs, nonce, plain, key, rnd);
    }
  }

  /** Two envelopes at one position: the share of the first stays recorded, and from it the
      key of the second is recovered if and only if both used the same randomness or the
      secret is zero. */
  lemma SecondEnvelope(hs: Hashes, conf: Config, store: BatchStore, secret: int, tx1: PrivateTx, tx2: PrivateTx,
                       nonce1: nat, plain1: Bytes, key1: Scalar, rnd1: Scalar,
                       nonce2: nat, plain2: Bytes, key2: Scalar, rnd2: Scalar, shares: seq<PointShare>)
    requires conf.threshold == 1 && conf.share == Some(Reduce(PolyAt([secret], conf.index))) && conf.index < ORDER
    requires Sealed(hs, conf, tx1, [secret], nonce1, plain1, key1, rnd1) && Sealed(hs, conf, tx2, [secret], nonce2, plain2, key2, rnd2)
    requires Position(tx1) == Position(tx2) && tx1.targetHeight != 0 && Row(store, Position(tx1)) == map[]
    requires Lists(shares, Row(RecordOwn(RecordOwn(store, conf, tx1), conf, tx2), Position(tx2)))
    ensures Row(RecordOwn(RecordOwn(store, conf, tx1), conf, tx2), Position(tx2)) == map[conf.index := OwnShare(conf, tx1)]
    ensures Decryption(tx2.ephemeral.value, shares, 1) == Ok(Point(key2)) <==> rnd1 == rnd2 || Reduce(secret) == 0
  {
    hide Seal;
    SealedShape(hs, conf, tx1, [secret], nonce1, plain1, key1, rnd1);
    SealedShape(hs, conf, tx2, [secret], nonce2, plain2, key2, rnd2);
    OwnShareCorrect(conf, tx1, [secret]);
    var row := map[conf.index := OwnShare(conf, tx1)];
    assert Row(RecordOwn(RecordOwn(store, conf, tx1), conf, tx2), Position(tx2)) == row;
    hide RecordOwn;
    ListedShares(shares, row, tx1.ephemeral.value, [secret]);
    StaleSharesExact(tx2.ephemeral.value, tx1.ephemeral.value, key2, rnd2, rnd1, [secret], shares, 1);
  }

  /** An envelope with what it was sealed from. */
  datatype Envelope = Envelope(tx: PrivateTx, nonce: nat, plain: Bytes, key: Scalar, rnd: Scalar)

  ghost predicate SealedAs(hs: Hashes, conf: Config, e: Envelope, coeffs: seq<int>) {
    Sealed(hs, conf, e.tx, coeffs, e.nonce, e.plain, e.key, e.rnd)
  }

  function Txs(es: seq<Envelope>): (txs: seq<PrivateTx>)
    ensures |txs| == |es|
  {
    seq(|es|, i requires 0 <= i < |es| => es[i].tx)
  }

  /** Distinct nonces, no two of them n or more apart. */
  ghost predicate NearNonces(es: seq<Envelope>, n: int) {
    forall i, j :: 0 <= i < j < |es| ==> es[i].nonce != es[j].nonce && 0 - n < es[i].nonce - es[j].nonce < n
  }

  /** Envelopes for one height whose nonces are among n consecutive ones never share a
      position. */
  lemma NearPositionsApart(hs: Hashes, conf: Config, es: seq<Envelope>, coeffs: seq<int>, height: nat, i: nat, j: nat)
    requires i < j < |es| && NearNonces(es, conf.batchN) && es[i].tx.targetHeight == es[j].tx.targetHeight == height
    requires SealedAs(hs, conf, es[i], coeffs) && SealedAs(hs, conf, es[j], coeffs)
    ensures Position(es[i].tx) != Position(es[j].tx)
  {
    hide Seal;
    hide BatchIndex;
    SealedAt(hs, conf.groupPubKey, conf.batchN, es[i].nonce, height, es[i].plain, es[i].key, es[i].rnd);
    SealedAt(hs, conf.groupPubKey, conf.batchN, es[j].nonce, height, es[j].plain, es[j].key, es[j].rnd);
    NearNoncesApart(conf.batchN, es[i].nonce, es[j].nonce);
  }

  /** So a committee of threshold 1 opens all of them, in whatever order they are handled. */
  lemma NearNoncesOpen(hs: Hashes, conf: Config, es: seq<Envelope>, coeffs: seq<int>, height: nat, k: nat,
                       r: Result<Bytes, PrivateError>)
    requires conf.threshold == 1 && conf.index < ORDER && height != 0 && k < |es| && NearNonces(es, conf.batchN)
    requires coeffs != [] && conf.share == Some(Reduce(PolyAt(coeffs, conf.index)))
    requires forall i :: 0 <= i < |es| ==> es[i].tx.targetHeight == height && SealedAs(hs, conf, es[i], coeffs)
    requires Outcome(hs, conf, es[k].tx, Row(RecordAll(conf, Txs(es[..k]) + [es[k].tx]), Position(es[k].tx)), r)
    ensures r == Ok(es[k].plain)
  {
    hide Seal;
    hide Outcome;
    hide RecordAll;
    var before := Txs(es[..k]);
    forall i | 0 <= i < |before|
      ensures Position(before[i]) != Position(es[k].tx)
    {
      NearPositionsApart(hs, conf, es, coeffs, height, i, k);
    }
    OpensIffAlone(hs, conf, before, es[k].tx, r, coeffs, es[k].nonce, es[k].plain, es[k].key, es[k].rnd);
  }

  class State {
    var enabled: bool
    var k: int
    var sharesByHeight: map<nat, ShareRow>
    var privKeyByHeight: map<nat, Compressed>
    var batchShares: map<(nat, nat), ShareRow>

    constructor ()
      ensures !enabled && sharesByHeight == map[] && privKeyByHeight == map[] && batchShares == map[]
    {
      enabled, k := false, 0;
      sharesByHeight, privKeyByHeight, batchShares := map[], map[], map[];
    }

    /** Every recorded share and every cached key is the right one for its height. */
    ghost predicate Sound(hash: nat -> Scalar, coeffs: seq<int>)
      requires coeffs != []
      reads this
    {
      && (forall h :: h in sharesByHeight ==> RowSound(sharesByHeight[h], hash(h), coeffs))
      && (forall h :: h in privKeyByHeight ==> privKeyByHeight[h] == Point(Mul(hash(h), coeffs[0])))
    }

    method HandleThresholdShare(height: nat, index: int, share: Compressed,
                                ghost hash: nat -> Scalar, ghost coeffs: seq<int>)
      requires coeffs != []
      modifies this`sharesByHeight
      ensures sharesByHeight ==
        if height == 0 || index <= 0 || SizeIn(share, G2_SIZE) != G2_SIZE then old(sharesByHeight)
        else old(sharesByHeight)[height := FirstWins(Row(old(sharesByHeight), height), index, share)]
      ensures forall h, i :: h in old(sharesByHeight) && i in old(sharesByHeight)[h] ==>
        h in sharesByHeight && i in sharesByHeight[h] && sharesByHeight[h][i] == old(sharesByHeight)[h][i]
      ensures (old(Sound(hash, coeffs)) && index < ORDER
               && ThresholdIbe.DeriveShare(Some(Reduce(PolyAt(coeffs, index))), hash(height)) == Ok(share))
              ==> Sound(hash, coeffs)
    {
      if height == 0 || index <= 0 || SizeIn(share, G2_SIZE) != G2_SIZE {
        return;
      }
      var m := Row(sharesByHeight, height);
      sharesByHeight := sharesByHeight[height := FirstWins(m, index, share)];
    }

    /** The key of the height: from the cache, or combined from any k recorded shares and
        then cached, or nothing. When all recorded shares are correct it is the identity's
        key, as soon as k of them are known, and the store stays correct. */
    method ThresholdPrivateKey(height: nat, ghost hash: nat -> Scalar, ghost coeffs: seq<int>)
      returns (r: Option<Compressed>)
      requires coeffs != [] && forall h :: h in sharesByHeight ==> BelowOrderKeys(sharesByHeight[h])
      modifies this`privKeyByHeight
      ensures privKeyByHeight == if r.Some? then old(privKeyByHeight)[height := r.value] else old(privKeyByHeight)
      ensures height == 0 ==> r == None
      ensures height != 0 && height in old(privKeyByHeight) ==> r == Some(old(privKeyByHeight)[height])
      ensures height != 0 && height !in old(privKeyByHeight) ==>
        Fetched(enabled, k, Row(sharesByHeight, height), r)
      ensures old(Sound(hash, coeffs)) && |coeffs| <= k ==>
        && Sound(hash, coeffs)
        && (r.Some? <==> height != 0 && (height in old(privKeyByHeight) || (enabled && |Row(sharesByHeight, height)| >= k)))
        && (r.Some? ==> r.value == Point(Mul(hash(height), coeffs[0])))
    {
      hide RowSound;
      hide BelowOrderKeys;
      hide ThresholdIbe.Combined;
      if height == 0 {
        return None;
      }
      if height in privKeyByHeight {
        return Some(privKeyByHeight[height]);
      }
      if !enabled || k <= 0 {
        return None;
      }
      var m := Row(sharesByHeight, height);
      if |m| < k {
        return None;
      }
      EmptyRow(hash(height), coeffs);
      var shares := ListRow(m);
      ListedBelowOrder(shares, m);
      var pk := ThresholdIbe.CombineShares(shares, k);
      if RowSound(m, hash(height), coeffs) && |coeffs| <= k {
        ListedDerived(shares, m, hash(height), coeffs);
        ThresholdIbe.PrivateKeyRecovered(shares, k, hash(height), coeffs);
      }
      if pk.Err? {
        return None;
      }
      privKeyByHeight := privKeyByHeight[height := pk.value];
      r := Some(pk.value);
    }

    /** Opening a batched envelope: the node's own share is recorded if it is the first, no
        other position changes, and with enough correct shares recorded a sealed envelope
        gives its plaintext. */
    method DecryptBatched(hs: Hashes, conf: Config, tx: PrivateTx) returns (r: Result<Bytes, PrivateError>)
      requires conf.index < ORDER
      requires forall at :: at in batchShares ==> BelowOrderKeys(batchShares[at])
      modifies this`batchShares
      ensures batchShares == RecordOwn(old(batchShares), conf, tx)
      ensures Outcome(hs, conf, tx, Row(batchShares, Position(tx)), r)
      ensures forall coeffs, nonce, plain, key, rnd ::
        (Sealed(hs, conf, tx, coeffs, nonce, plain, key, rnd) && |Row(batchShares, Position(tx))| >= conf.threshold &&
         CorrectShares(Row(batchShares, Position(tx)), tx.ephemeral.value, coeffs)) ==> r == Ok(plain)
    {
      r := RecordAndOpen(hs, conf, tx);
      hide *;
      forall coeffs, nonce, plain, key, rnd |
        Sealed(hs, conf, tx, coeffs, nonce, plain, key, rnd) && |Row(batchShares, Position(tx))| >= conf.threshold
        && CorrectShares(Row(batchShares, Position(tx)), tx.ephemeral.value, coeffs)
        ensures r == Ok(plain)
      {
        SealedOpens(hs, conf, tx, Row(batchShares, Position(tx)), r, coeffs, nonce, plain, key, rnd);
      }
    }

    method RecordAndOpen(hs: Hashes, conf: Config, tx: PrivateTx) returns (r: Result<Bytes, PrivateError>)
      requires conf.index < ORDER
      requires forall at :: at in batchShares ==> BelowOrderKeys(batchShares[at])
      modifies this`batchShares
      ensures batchShares == RecordOwn(old(batchShares), conf, tx)
      ensures Outcome(hs, conf, tx, Row(batchShares, Position(tx)), r)
    {
      hide Unseal;
      if !Admissible(conf, tx) {
        return Err(InvalidTx);
      }
      if conf.groupPubKey == Garbage(0) {
        return Err(Cipher);
      }
      var sh := PartialDecrypt(tx.ephemeral.value, conf.share, conf.index);
      if sh.Err? {
        return Err(Cipher);
      }
      var at := (tx.targetHeight, tx.batchIndex);
      if tx.targetHeight != 0 {
        batchShares := batchShares[at := FirstWins(Row(batchShares, at), conf.index, sh.value.value)];
      }
      var shared := Row(batchShares, at);
      if |shared| < conf.threshold {
        return Err(NotReady);
      }
      var shares := ListRow(shared);
      ListedBelowOrder(shares, shared);
      r := OpenWith(hs, conf, tx, shares);
    }
  }
}
