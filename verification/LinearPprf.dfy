/** Sums over the entries of a finite map, in any order. */
module MapSums {
  /** Some element of a non-empty set. */
  ghost function Pick<T>(s: set<T>): (x: T)
    requires s != {}
    ensures x in s
  {
    var x :| x in s;
    x
  }

  method Take<T(==)>(s: set<T>) returns (x: T)
    requires s != {}
    ensures x in s
  {
    x :| x in s;
  }

  ghost function SumMap(m: map<int, int>): int {
    if m.Keys == {} then 0
    else
      var k := Pick(m.Keys);
      m[k] + SumMap(m - {k})
  }

  lemma SumMapUnfold(m: map<int, int>)
    requires m.Keys != {}
    ensures SumMap(m) == m[Pick(m.Keys)] + SumMap(m - {Pick(m.Keys)})
  {
  }

  lemma {:induction false} SumMapRemove(m: map<int, int>, k: int)
    requires k in m
    ensures SumMap(m) == m[k] + SumMap(m - {k})
    decreases |m|
  {
    var j := Pick(m.Keys);
    SumMapUnfold(m);
    hide SumMap;
    if j != k {
      SumMapRemove(m - {j}, k);
      SumMapRemove(m - {k}, j);
      assert m - {j} - {k} == m - {k} - {j};
    }
  }
}

/** The linear puncturable PRF, Construction 5.4 of ePrint 2023/1582:
    internal/beast/pprf/pprf_blst.go. Elements of GT are represented by their
    discrete logarithm, and the pairing multiplies logarithms. */
module LinearPprf {
  import opened PrimeField
  import opened Interpolation
  import opened Curve
  import opened Outcomes

  datatype PprfError = InvalidParams | InvalidKey | Punctured

  datatype LinearParams = LinearParams(n: int, g1: seq<Compressed>, g2: seq<Compressed>)

  const G1_SIZE := 48
  const G2_SIZE := 96

  function SizeIn(c: Compressed, pointSize: nat): nat {
    if c.Point? then pointSize else c.size
  }

  predicate ValidShape(pp: LinearParams) {
    && pp.n > 0
    && |pp.g1| == |pp.g2| == 2 * pp.n + 2
    && forall i :: 1 <= i < 2 * pp.n + 2 && i != pp.n + 1 ==>
         SizeIn(pp.g1[i], G1_SIZE) == G1_SIZE && SizeIn(pp.g2[i], G2_SIZE) == G2_SIZE
  }

  method Validate(pp: LinearParams) returns (ok: bool)
    ensures ok <==> ValidShape(pp)
  {
    if pp.n <= 0 {
      return false;
    }
    var want := 2 * pp.n + 2;
    if |pp.g1| != want || |pp.g2| != want {
      return false;
    }
    for i := 1 to want
      invariant forall j :: 1 <= j < i && j != pp.n + 1 ==>
        SizeIn(pp.g1[j], G1_SIZE) == G1_SIZE && SizeIn(pp.g2[j], G2_SIZE) == G2_SIZE
    {
      if i == pp.n + 1 {
        continue;
      }
      if SizeIn(pp.g1[i], G1_SIZE) != G1_SIZE || SizeIn(pp.g2[i], G2_SIZE) != G2_SIZE {
        return false;
      }
    }
    ok := true;
  }

  /** g^(x^i) for i in 1..2n+1 other than n+1; the other two entries are empty. */
  function Powers(n: nat, x: int): (ps: seq<Compressed>)
    ensures |ps| == 2 * n + 2
  {
    seq(2 * n + 2, i requires 0 <= i < 2 * n + 2 =>
      if i == 0 || i == n + 1 then Garbage(0) else Point(Reduce(Pow(x, i))))
  }

  function Setup(n: nat, x: int): LinearParams {
    LinearParams(n, Powers(n, x), Powers(n, x))
  }

  lemma SetupValid(n: nat, x: int)
    requires n > 0
    ensures ValidShape(Setup(n, x))
  {
  }

  method BuildLinearParams(n: int, x: Scalar) returns (r: Result<LinearParams, PprfError>)
    ensures n <= 0 ==> r == Err(InvalidParams)
    ensures n > 0 && r.Ok? ==> r.value == Setup(n, x)
    ensures n > 0 && x != 0 ==> r.Ok?
  {
    if n <= 0 {
      return Err(InvalidParams);
    }
    var maxPow := 2 * n + 1;
    var g1 := new Compressed[maxPow + 1](_ => Garbage(0));
    var g2 := new Compressed[maxPow + 1](_ => Garbage(0));
    var pow := x;
    for i := 1 to maxPow + 1
      invariant pow == if i == 1 then x else Reduce(Pow(x, i - 1))
      invariant g1[..i] == Powers(n, x)[..i] && g2[..i] == Powers(n, x)[..i]
      invariant forall j :: i <= j <= maxPow ==> g1[j] == Garbage(0) && g2[j] == Garbage(0)
    {
      if i > 1 {
        var ok;
        pow, ok := MulChecked(pow, x);
        PowerStep(x, i);
        if !ok {
          ZeroPower(x, i);
          return Err(InvalidParams);
        }
      } else {
        FirstPower(x);
      }
      if i == n + 1 {
        continue;
      }
      g1[i] := Point(pow);
      g2[i] := Point(pow);
    }
    assert g1[..maxPow + 1] == g1[..] && g2[..maxPow + 1] == g2[..];
    var pp := LinearParams(n, g1[..], g2[..]);
    SetupValid(n, x);
    r := Ok(pp);
  }

  lemma PowerStep(x: int, i: nat)
    requires i > 0
    ensures Reduce(Reduce(Pow(x, i - 1)) * x) == Reduce(Pow(x, i))
  {
    ReduceOps(Pow(x, i - 1), x);
  }

  lemma FirstPower(x: Scalar)
    ensures Reduce(Pow(x, 1)) == x
  {
    assert Pow(x, 1) == Pow(x, 0) * x == x;
    ReduceSmall(x);
  }

  lemma ZeroPower(x: Scalar, n: nat)
    requires Reduce(Pow(x, n)) == 0
    ensures x == 0
  {
    if x != 0 {
      PowNonzero(x, n);
      assert false;
    }
  }

  /** PRF(k, i) = e(g1^(x^(n+1+i) * k), g2). */
  function Eval(pp: LinearParams, key: Option<Scalar>, i: int): Result<Scalar, PprfError> {
    if !ValidShape(pp) || i <= 0 || i > pp.n then Err(InvalidParams)
    else if key.None? then Err(InvalidKey)
    else if pp.g1[pp.n + 1 + i].Garbage? then Err(InvalidParams)
    else Ok(Mul(pp.g1[pp.n + 1 + i].dlog, key.value))
  }

  function EvalFromGK(pp: LinearParams, gk: Compressed, i: int): Result<Scalar, PprfError> {
    if !ValidShape(pp) || i <= 0 || i > pp.n then Err(InvalidParams)
    else if gk.Garbage? then Err(InvalidKey)
    else if pp.g2[pp.n + 1 + i].Garbage? then Err(InvalidParams)
    else Ok(Mul(gk.dlog, pp.g2[pp.n + 1 + i].dlog))
  }

  /** k* = g1^(x^i * k). */
  function Puncture(pp: LinearParams, key: Option<Scalar>, i: int): Result<Compressed, PprfError> {
    if !ValidShape(pp) || i <= 0 || i > pp.n then Err(InvalidParams)
    else if key.None? then Err(InvalidKey)
    else if pp.g1[i].Garbage? then Err(InvalidParams)
    else Ok(Point(Mul(pp.g1[i].dlog, key.value)))
  }

  function PuncturedEval(pp: LinearParams, kStar: Compressed, iStar: int, i: int): Result<Scalar, PprfError> {
    if !ValidShape(pp) || iStar <= 0 || iStar > pp.n || i <= 0 || i > pp.n then Err(InvalidParams)
    else if i == iStar then Err(Punctured)
    else if kStar.Garbage? then Err(InvalidKey)
    else
      var exp := pp.n + 1 + i - iStar;
      if exp <= 0 || exp >= |pp.g2| || pp.g2[exp].Garbage? then Err(InvalidParams)
      else Ok(Mul(kStar.dlog, pp.g2[exp].dlog))
  }

  lemma {:induction false} PowAdd(x: int, a: nat, b: nat)
    ensures Pow(x, a + b) == Pow(x, a) * Pow(x, b)
    decreases b
  {
    if b > 0 {
      PowAdd(x, a, b - 1);
      Assoc(Pow(x, a), Pow(x, b - 1), x);
    }
  }

  lemma ReducedProduct(a: int, b: int, k: int)
    ensures Mul(Mul(Reduce(a), k), Reduce(b)) == Reduce(k * (a * b))
  {
    MulReduce(Reduce(a), k);
    MulReduce(Mul(Reduce(a), k), Reduce(b));
    ReduceOps(a, k);
    ReduceOps(a * k, Reduce(b));
    ReduceOps(b, a * k);
    assert Reduce(b) * (a * k) == (a * k) * Reduce(b);
    assert b * (a * k) == k * (a * b);
  }

  lemma MulOperand(a: int, k: int)
    ensures Mul(Reduce(a), k) == Reduce(k * a)
  {
    MulReduce(Reduce(a), k);
    ReduceOps(a, k);
    assert a * k == k * a;
  }

  /** A punctured key evaluates the PRF everywhere except at its own index, and
      the exponent of g2 it reads is always present in the parameters. */
  lemma PuncturedKeyAgrees(n: nat, x: int, k: Scalar, j: int, i: int)
    requires 0 < i <= n && 0 < j <= n && i != j
    ensures var pp := Setup(n, x);
            && 2 <= n + 1 + i - j <= 2 * n + 1 && n + 1 + i - j != n + 1
            && Puncture(pp, Some(k), j).Ok?
            && PuncturedEval(pp, Puncture(pp, Some(k), j).value, j, i) == Eval(pp, Some(k), i)
            && PuncturedEval(pp, Puncture(pp, Some(k), j).value, j, j) == Err(Punctured)
  {
    var pp, e := Setup(n, x), n + 1 + i - j;
    SetupValid(n, x);
    PowAdd(x, j, e);
    ReducedProduct(Pow(x, j), Pow(x, e), k);
    MulOperand(Pow(x, n + 1 + i), k);
  }

  /** The PRF value is x^(n+1+i) times the key in the exponent, and evaluating from g^k
      needs only the other group's parameters. */
  lemma EvalFromGKAgrees(n: nat, x: int, k: Scalar, i: int)
    requires 0 < i <= n
    ensures EvalFromGK(Setup(n, x), Point(k), i) == Eval(Setup(n, x), Some(k), i)
    ensures Eval(Setup(n, x), Some(k), i) == Ok(Reduce(Pow(x, n + 1 + i) * k))
  {
    SetupValid(n, x);
    MulOperand(Pow(x, n + 1 + i), k);
    var b := Reduce(Pow(x, n + 1 + i));
    MulReduce(k, b);
    MulReduce(b, k);
    assert k * b == b * k;
  }
}

/** Batch decryption of the PRF: internal/beast/bte/batch_blst.go. */
module BatchRecovery {
  import opened PrimeField
  import opened Interpolation
  import opened Curve
  import opened Outcomes
  import opened LinearPprf
  import opened MapSums

  datatype BatchError = Params | Invalid | Missing

  /** The exponent of g2 that pairs with the punctured key of index j. */
  function ExponentFor(pp: LinearParams, i: int, j: int): int {
    pp.n + 1 + i - j
  }

  /** Reading the parameters for the other members stays inside the slice. */
  ghost predicate InRange(pp: LinearParams, i: int, punctured: map<int, Compressed>) {
    forall j :: j in punctured && j != i ==> 0 <= ExponentFor(pp, i, j) < 2 * pp.n + 2
  }

  ghost predicate Readable(pp: LinearParams, i: int, punctured: map<int, Compressed>)
    requires ValidShape(pp) && InRange(pp, i, punctured)
  {
    forall j :: j in punctured && j != i ==> punctured[j].Point? && pp.g2[ExponentFor(pp, i, j)].Point?
  }

  /** The pairing of each other member's punctured key, by member. */
  ghost function Denominators(pp: LinearParams, i: int, punctured: map<int, Compressed>): map<int, int>
    requires ValidShape(pp) && InRange(pp, i, punctured) && Readable(pp, i, punctured)
  {
    map j | j in punctured && j != i :: Mul(punctured[j].dlog, pp.g2[ExponentFor(pp, i, j)].dlog)
  }

  ghost function Recovery(pp: LinearParams, gk: Compressed, i: int, punctured: map<int, Compressed>)
    : Result<Scalar, BatchError>
    requires InRange(pp, i, punctured)
  {
    if !ValidShape(pp) then Err(Params)
    else if i <= 0 || i > pp.n || SizeIn(gk, G1_SIZE) != G1_SIZE then Err(Invalid)
    else if punctured == map[] then Err(Missing)
    else if gk.Garbage? || pp.g2[pp.n + 1 + i].Garbage? || !Readable(pp, i, punctured) then Err(Invalid)
    else Ok(Reduce(Mul(gk.dlog, pp.g2[pp.n + 1 + i].dlog) - SumMap(Denominators(pp, i, punctured))))
  }

  method RecoverPRFAt(pp: LinearParams, gk: Compressed, i: int, punctured: map<int, Compressed>)
    returns (r: Result<Scalar, BatchError>)
    requires InRange(pp, i, punctured)
    ensures r == Recovery(pp, gk, i, punctured)
  {
    var ok := Validate(pp);
    if !ok {
      return Err(Params);
    }
    if i <= 0 || i > pp.n || SizeIn(gk, G1_SIZE) != G1_SIZE {
      return Err(Invalid);
    }
    if punctured == map[] {
      return Err(Missing);
    }
    if gk.Garbage? || pp.g2[pp.n + 1 + i].Garbage? {
      return Err(Invalid);
    }
    var dens := PairOthers(pp, i, punctured);
    if dens.None? {
      return Err(Invalid);
    }
    r := Ok(Reduce(Mul(gk.dlog, pp.g2[pp.n + 1 + i].dlog) + dens.value));
  }

  /** The contribution of the other members to the multi-pairing. It adds
      logarithms, and negating a point negates its logarithm. */
  method PairOthers(pp: LinearParams, i: int, punctured: map<int, Compressed>) returns (r: Option<int>)
    requires ValidShape(pp) && InRange(pp, i, punctured)
    ensures r.Some? <==> Readable(pp, i, punctured)
    ensures r.Some? ==> r.value == -SumMap(Denominators(pp, i, punctured))
  {
    var gt := 0;
    var rest := punctured.Keys - {i};
    ghost var used: map<int, int> := map[];
    while rest != {}
      invariant rest <= punctured.Keys - {i}
      invariant used.Keys == punctured.Keys - {i} - rest
      invariant forall j :: j in used ==>
        && punctured[j].Point? && pp.g2[ExponentFor(pp, i, j)].Point?
        && used[j] == Mul(punctured[j].dlog, pp.g2[ExponentFor(pp, i, j)].dlog)
      invariant gt == -SumMap(used)
      decreases rest
    {
      var j := Take(rest);
      var kStar, q := punctured[j], pp.g2[ExponentFor(pp, i, j)];
      if kStar.Garbage? || q.Garbage? {
        return None;
      }
      gt := gt - Mul(kStar.dlog, q.dlog);
      used := AddEntry(used, j, Mul(kStar.dlog, q.dlog));
      rest := rest - {j};
    }
    assert used == Denominators(pp, i, punctured);
    r := Some(gt);
  }

  lemma AddEntry(m: map<int, int>, j: int, v: int) returns (m': map<int, int>)
    requires j !in m
    ensures m' == m[j := v] && SumMap(m') == SumMap(m) + v
  {
    m' := m[j := v];
    SumMapRemove(m', j);
    assert m' - {j} == m;
  }

  /** The logarithms of the keys of a batch, as a plain map to integers. */
  function KeyLogs(keys: map<int, Scalar>): map<int, int> {
    map j | j in keys :: keys[j] as int
  }

  /** Keys of a batch: one key for each of a set of indices in 1..n. */
  ghost predicate Batch(keys: map<int, Scalar>, n: int) {
    forall j :: j in keys ==> 0 < j <= n
  }

  /** punctured holds the punctured key of every member. */
  ghost predicate PuncturedKeys(pp: LinearParams, keys: map<int, Scalar>, punctured: map<int, Compressed>) {
    punctured.Keys == keys.Keys &&
    forall j :: j in keys ==> Puncture(pp, Some(keys[j]), j) == Ok(punctured[j])
  }

  lemma SetupEntry(pp: LinearParams, x: int, e: int)
    requires pp.n > 0 && pp == Setup(pp.n, x) && 1 <= e <= 2 * pp.n + 1 && e != pp.n + 1
    ensures ValidShape(pp)
    ensures pp.g1[e] == pp.g2[e] == Point(Reduce(Pow(x, e)))
  {
    SetupValid(pp.n, x);
  }

  /** The pairing of the punctured key of member j is that member's PRF at i. */
  lemma MemberTerm(pp: LinearParams, x: int, keys: map<int, Scalar>, punctured: map<int, Compressed>, i: int, j: int)
    requires pp.n > 0 && pp == Setup(pp.n, x)
    requires Batch(keys, pp.n) && PuncturedKeys(pp, keys, punctured) && i in keys && j in keys && i != j
    ensures 2 <= ExponentFor(pp, i, j) <= 2 * pp.n + 1 && ExponentFor(pp, i, j) != pp.n + 1
    ensures ValidShape(pp) && punctured[j].Point? && pp.g2[ExponentFor(pp, i, j)].Point?
    ensures Mul(punctured[j].dlog, pp.g2[ExponentFor(pp, i, j)].dlog) == Mul(keys[j], Pow(x, pp.n + 1 + i))
  {
    var e := ExponentFor(pp, i, j);
    SetupEntry(pp, x, j);
    SetupEntry(pp, x, e);
    assert Puncture(pp, Some(keys[j]), j) == Ok(punctured[j]);
    PowAdd(x, j, e);
    ReducedProduct(Pow(x, j), Pow(x, e), keys[j]);
    MulReduce(keys[j], Pow(x, pp.n + 1 + i));
  }

  lemma {:induction false} DenominatorSum(keys: map<int, Scalar>, dens: map<int, int>, y: int)
    requires dens.Keys == keys.Keys
    requires forall j :: j in keys ==> Reduce(dens[j]) == Mul(keys[j], y)
    ensures Reduce(SumMap(dens)) == Mul(SumMap(KeyLogs(keys)), y)
    decreases |keys|
  {
    var logs := KeyLogs(keys);
    if keys.Keys == {} {
      assert dens.Keys == {} && logs.Keys == {};
      MulReduce(0, y);
    } else {
      var j := Pick(keys.Keys);
      SumMapRemove(dens, j);
      SumMapRemove(logs, j);
      assert logs - {j} == KeyLogs(keys - {j});
      DenominatorSum(keys - {j}, dens - {j}, y);
      SumStep(dens[j], SumMap(dens - {j}), keys[j], SumMap(logs - {j}), y);
    }
  }

  lemma SumStep(d: int, rest: int, k: int, sum: int, y: int)
    requires Reduce(d) == Mul(k, y) && Reduce(rest) == Mul(sum, y)
    ensures Reduce(d + rest) == Mul(k + sum, y)
  {
    MulReduce(k, y);
    MulReduce(sum, y);
    MulReduce(k + sum, y);
    CongAdd(d, k * y, rest, sum * y);
    assert k * y + sum * y == (k + sum) * y;
  }

  /** Batch recovery: from g^(sum of the keys) and the punctured keys of the whole
      batch, the PRF value of every member comes out exactly. */
  lemma BatchPrfRecovery(pp: LinearParams, x: int, keys: map<int, Scalar>, punctured: map<int, Compressed>, i: int)
    requires pp.n > 0 && pp == Setup(pp.n, x)
    requires Batch(keys, pp.n) && PuncturedKeys(pp, keys, punctured) && i in keys
    ensures InRange(pp, i, punctured)
    ensures Eval(pp, Some(keys[i]), i).Ok?
    ensures Recovery(pp, Point(Reduce(SumMap(KeyLogs(keys)))), i, punctured)
         == Ok(Eval(pp, Some(keys[i]), i).value)
  {
    var y := Pow(x, pp.n + 1 + i);
    SetupEntry(pp, x, pp.n + 1 + i);
    forall j | j in keys && j != i
      ensures 0 <= ExponentFor(pp, i, j) < 2 * pp.n + 2
      ensures punctured[j].Point? && pp.g2[ExponentFor(pp, i, j)].Point?
      ensures Mul(punctured[j].dlog, pp.g2[ExponentFor(pp, i, j)].dlog) == Mul(keys[j], y)
    {
      MemberTerm(pp, x, keys, punctured, i, j);
    }
    RecoverMember(pp, keys, punctured, i, y);
  }

  lemma RecoverMember(pp: LinearParams, keys: map<int, Scalar>, punctured: map<int, Compressed>, i: int, y: int)
    requires ValidShape(pp) && 0 < i <= pp.n && i in keys && punctured.Keys == keys.Keys
    requires pp.g1[pp.n + 1 + i] == pp.g2[pp.n + 1 + i] == Point(Reduce(y))
    requires InRange(pp, i, punctured) && Readable(pp, i, punctured)
    requires forall j :: j in keys && j != i ==>
      Mul(punctured[j].dlog, pp.g2[ExponentFor(pp, i, j)].dlog) == Mul(keys[j], y)
    ensures Eval(pp, Some(keys[i]), i).Ok?
    ensures Recovery(pp, Point(Reduce(SumMap(KeyLogs(keys)))), i, punctured)
         == Ok(Eval(pp, Some(keys[i]), i).value)
  {
    hide *;
    var dens := Denominators(pp, i, punctured);
    var total, rest := SumMap(KeyLogs(keys)), SumMap(KeyLogs(keys - {i}));
    DenominatorTerms(pp, keys, punctured, i, y);
    EvalMember(pp, keys[i], i, y);
    RecoveryValue(pp, Reduce(total), i, punctured);
    OthersSum(keys, i, dens, y);
    RecoveryAlgebra(y, rest, keys[i], SumMap(dens));
  }

  lemma DenominatorTerms(pp: LinearParams, keys: map<int, Scalar>, punctured: map<int, Compressed>, i: int, y: int)
    requires ValidShape(pp) && InRange(pp, i, punctured) && Readable(pp, i, punctured) && punctured.Keys == keys.Keys
    requires forall j :: j in keys && j != i ==>
      Mul(punctured[j].dlog, pp.g2[ExponentFor(pp, i, j)].dlog) == Mul(keys[j], y)
    ensures Denominators(pp, i, punctured).Keys == keys.Keys - {i}
    ensures forall j :: j in Denominators(pp, i, punctured) ==> Denominators(pp, i, punctured)[j] == Mul(keys[j], y)
  {
  }

  lemma EvalMember(pp: LinearParams, key: Scalar, i: int, y: int)
    requires ValidShape(pp) && 0 < i <= pp.n && pp.g1[pp.n + 1 + i] == Point(Reduce(y))
    ensures Eval(pp, Some(key), i) == Ok(Mul(Reduce(y), key))
  {
  }

  lemma RecoveryValue(pp: LinearParams, gk: Scalar, i: int, punctured: map<int, Compressed>)
    requires ValidShape(pp) && 0 < i <= pp.n && i in punctured && pp.g2[pp.n + 1 + i].Point?
    requires InRange(pp, i, punctured) && Readable(pp, i, punctured)
    ensures Recovery(pp, Point(gk), i, punctured)
         == Ok(Reduce(Mul(gk, pp.g2[pp.n + 1 + i].dlog) - SumMap(Denominators(pp, i, punctured))))
  {
    assert punctured != map[];
    assert SizeIn(Point(gk), G1_SIZE) == G1_SIZE;
  }

  lemma OthersSum(keys: map<int, Scalar>, i: int, dens: map<int, int>, y: int)
    requires i in keys && dens.Keys == keys.Keys - {i}
    requires forall j :: j in dens ==> dens[j] == Mul(keys[j], y)
    ensures Reduce(SumMap(dens)) == Mul(SumMap(KeyLogs(keys - {i})), y)
    ensures SumMap(KeyLogs(keys)) == keys[i] + SumMap(KeyLogs(keys - {i}))
  {
    forall j | j in keys - {i}
      ensures Reduce(dens[j]) == Mul((keys - {i})[j], y)
    {
      ReduceSmall(dens[j]);
    }
    DenominatorSum(keys - {i}, dens, y);
    SumMapRemove(KeyLogs(keys), i);
    assert KeyLogs(keys) - {i} == KeyLogs(keys - {i});
  }

  lemma RecoveryAlgebra(y: int, sum: int, k: int, dens: int)
    requires Reduce(dens) == Mul(sum, y)
    ensures Reduce(Mul(Reduce(k + sum), Reduce(y)) - dens) == Mul(Reduce(y), k)
  {
    MulReduce(sum, y);
    MulReduce(Reduce(k + sum), Reduce(y));
    CongMul(Reduce(k + sum), k + sum, Reduce(y), y);
    var q1 := CongElim(Mul(Reduce(k + sum), Reduce(y)), (k + sum) * y);
    var q2 := CongElim(dens, sum * y);
    assert (k + sum) * y == k * y + sum * y;
    CongIntro(Mul(Reduce(k + sum), Reduce(y)) - dens, k * y, q1 - q2);
    MulOperand(y, k);
  }

  // ----- masking

  type Bytes = seq<bv8>

  /** beta XORed with a repeating pad. */
  function Xor(beta: Bytes, pad: Bytes): (r: Bytes)
    requires pad != []
    ensures |r| == |beta|
  {
    seq(|beta|, i requires 0 <= i < |beta| => beta[i] ^ pad[i % |pad|])
  }

  method RecoverXOR(beta: Bytes, pad: Bytes) returns (out: Bytes)
    requires pad != []
    ensures out == Xor(beta, pad)
  {
    if beta == [] {
      return [];
    }
    var buf := new bv8[|beta|];
    for i := 0 to |beta|
      invariant forall j :: 0 <= j < i ==> buf[j] == beta[j] ^ pad[j % |pad|]
    {
      buf[i] := beta[i] ^ pad[i % |pad|];
    }
    out := buf[..];
  }

  lemma XorTwice(beta: Bytes, pad: Bytes)
    requires pad != []
    ensures Xor(Xor(beta, pad), pad) == beta
  {
  }
}
