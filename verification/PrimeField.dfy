/** The scalar field Fr of the pairing curve, as the integers modulo a prime.

    The curve's group order is only used through two facts: it is prime, and
    every participant index is below it. So ORDER is any prime at all. */
module PrimeField {
  predicate Divides(d: int, n: int)
    requires d > 0
  {
    n % d == 0
  }

  ghost predicate IsPrime(p: int) {
    1 < p && forall d :: 0 < d && Divides(d, p) ==> d == 1 || d == p
  }

  /** A product by name, where the multiplication itself is best kept out of sight. */
  function Times(a: int, b: int): int {
    a * b
  }

  lemma DivisorBound(d: int, n: int)
    requires 0 < d && 0 < n && Divides(d, n)
    ensures d <= n
  {
  }

  /** The only multiple of d strictly between -d and d is zero. */
  lemma SmallMultiple(d: int, k: int)
    requires 0 < d && -d < d * k < d
    ensures k == 0
  {
    if k >= 1 {
      MulMonotone(d, 1, k);
      assert false;
    }
    if k <= -1 {
      MulMonotone(d, k, -1);
      assert false;
    }
  }

  lemma MulMonotone(d: int, a: int, b: int)
    requires 0 < d && a <= b
    ensures d * a <= d * b
  {
    assert d * (b - a) >= 0;
  }

  lemma MultipleMod(d: int, q: int)
    requires 0 < d
    ensures Divides(d, d * q)
  {
    var x := d * q;
    var t, r := x / d, x % d;
    assert x == d * t + r;
    assert r == d * (q - t);
    SmallMultiple(d, q - t);
  }

  lemma TwoIsPrime()
    ensures IsPrime(2)
  {
    forall d | 0 < d && Divides(d, 2)
      ensures d == 1 || d == 2
    {
      DivisorBound(d, 2);
    }
  }

  type Prime = p: int | IsPrime(p) witness (TwoIsPrime(); 2)

  /** The order of the groups G1, G2 and GT. */
  const ORDER: Prime

  /** A scalar in canonical form. */
  type Scalar = x: int | 0 <= x < ORDER witness 0

  /** True. A proof mentions it for the integers whose reduction it computes. */
  ghost predicate Unfold(x: int) {
    true
  }

  ghost predicate IsReduction(f: int -> Scalar) {
    && f(0) == 0
    && f(1) == 1
    && (forall x {:trigger f(f(x))} :: f(f(x)) == f(x))
    && forall x {:trigger Unfold(x)} :: Unfold(x) ==> f(x) == x % ORDER
  }

  lemma SmallMod(x: int, d: int)
    requires 0 <= x < d
    ensures x % d == x
  {
    assert x == d * (x / d) + x % d;
    assert -d < d * (x / d) < d;
    SmallMultiple(d, x / d);
  }

  lemma RemainderReduces()
    ensures IsReduction((x: int) => x % ORDER)
  {
    var f: int -> Scalar := (x: int) => x % ORDER;
    SmallMod(0, ORDER);
    SmallMod(1, ORDER);
    forall x: int
      ensures f(f(x)) == f(x)
    {
      SmallMod(f(x), ORDER);
    }
  }

  type Reduction = f: int -> Scalar | IsReduction(f) witness (RemainderReduces(); (x: int) => x % ORDER)

  /** Reduction modulo ORDER, kept behind its specification so that proofs about
      scalars do not turn into proofs about integer division. */
  const REDUCTION: Reduction

  /** The canonical representative of x modulo ORDER. */
  function Reduce(x: int): Scalar {
    REDUCTION(x)
  }

  lemma ReduceMod(x: int)
    ensures Reduce(x) == x % ORDER
  {
    assert Unfold(x);
  }

  lemma ReduceSmall(x: int)
    requires 0 <= x < ORDER
    ensures Reduce(x) == x
  {
    ReduceMod(x);
    SmallMod(x, ORDER);
  }

  ghost predicate UnfoldMul(x: int, y: int) {
    true
  }

  ghost predicate IsMultiplication(f: (int, int) -> Scalar) {
    forall x, y {:trigger UnfoldMul(x, y)} :: UnfoldMul(x, y) ==> f(x, y) == Reduce(x * y)
  }

  type Multiplication = f: (int, int) -> Scalar | IsMultiplication(f)
    witness ((x: int, y: int) => Reduce(x * y))

  const MULTIPLICATION: Multiplication

  /** Multiplication in Fr, behind its specification for the same reason. On
      logarithms it is scalar multiplication of a point, and the pairing. */
  function Mul(x: int, y: int): Scalar {
    MULTIPLICATION(x, y)
  }

  lemma MulReduce(x: int, y: int)
    ensures Mul(x, y) == Reduce(x * y)
  {
    assert UnfoldMul(x, y);
  }

  // ----- congruence modulo ORDER

  predicate Cong(a: int, b: int) {
    Reduce(a) == Reduce(b)
  }

  lemma ReduceQuotient(x: int) returns (q: int)
    ensures x == Reduce(x) + ORDER * q
  {
    ReduceMod(x);
    q := x / ORDER;
  }

  lemma CongIntro(a: int, b: int, q: int)
    requires a - b == ORDER * q
    ensures Cong(a, b)
  {
    var i := ReduceQuotient(a);
    var j := ReduceQuotient(b);
    assert Reduce(a) - Reduce(b) == ORDER * (q - i + j);
    SmallMultiple(ORDER, q - i + j);
  }

  lemma CongElim(a: int, b: int) returns (q: int)
    requires Cong(a, b)
    ensures a - b == ORDER * q
  {
    var i := ReduceQuotient(a);
    var j := ReduceQuotient(b);
    q := i - j;
  }

  lemma CongAdd(a: int, b: int, c: int, d: int)
    requires Cong(a, b) && Cong(c, d)
    ensures Cong(a + c, b + d)
  {
    var q := CongElim(a, b);
    var r := CongElim(c, d);
    CongIntro(a + c, b + d, q + r);
  }

  lemma CongMul(a: int, b: int, c: int, d: int)
    requires Cong(a, b) && Cong(c, d)
    ensures Cong(a * c, b * d)
  {
    var q := CongElim(a, b);
    var r := CongElim(c, d);
    assert a == b + ORDER * q && c == d + ORDER * r;
    assert a * c - b * d == ORDER * (q * c + b * r) by {
      assert a * c == b * c + ORDER * q * c;
      assert b * c == b * d + b * ORDER * r;
    }
    CongIntro(a * c, b * d, q * c + b * r);
  }

  /** Reduction may be applied to the operands of a sum or product first. */
  lemma ReduceOps(a: int, b: int)
    ensures Reduce(Reduce(a) + b) == Reduce(a + b)
    ensures Reduce(Reduce(a) * b) == Reduce(a * b)
  {
    CongAdd(Reduce(a), a, b, b);
    CongMul(Reduce(a), a, b, b);
  }

  // ----- inverses

  /** Extended Euclid: a common divisor of a and b written as u * a + v * b. */
  function Egcd(a: nat, b: nat): (r: (nat, int, int))
    requires 0 < a
    ensures 0 < r.0 && r.0 == r.1 * a + r.2 * b
    ensures Divides(r.0, a) && Divides(r.0, b)
    decreases b
  {
    if b == 0 then (a, 1, 0)
    else
      var (g, u, v) := Egcd(b, a % b);
      assert a == b * (a / b) + a % b;
      assert g == v * a + (u - v * (a / b)) * b by {
        assert v * (a % b) == v * (a - b * (a / b));
        assert v * (b * (a / b)) == (v * (a / b)) * b;
      }
      assert Divides(g, a) by { DividesLinear(g, b, a % b, a / b); }
      (g, v, u - v * (a / b))
  }

  lemma DividesLinear(g: int, b: int, c: int, q: int)
    requires 0 < g && Divides(g, b) && Divides(g, c)
    ensures Divides(g, b * q + c)
  {
    var m := (b / g) * q + c / g;
    assert b == g * (b / g) && c == g * (c / g);
    assert b * q + c == g * m by {
      assert b * q == g * (b / g) * q;
      assert g * (b / g) * q == g * ((b / g) * q);
    }
    MultipleMod(g, m);
  }

  /** Scalar.Inverse: zero has no inverse and is mapped to itself. */
  function Inv(a: int): Scalar {
    if Reduce(a) == 0 then 0 else Reduce(Egcd(Reduce(a), ORDER).1)
  }

  /** Every residue other than zero is invertible, because ORDER is prime. */
  lemma InvCorrect(a: int)
    requires !Cong(a, 0)
    ensures Cong(a * Inv(a), 1)
    ensures !Cong(Inv(a), 0)
  {
    var x: nat := Reduce(a);
    var (g, u, v) := Egcd(x, ORDER);
    if g == ORDER {
      DivisorBound(g, x);
      assert false;
    }
    assert g == 1;
    CongIntro(u * x, 1, -v);
    CongMul(a, x, Inv(a), u);
    assert x * u == u * x;
    if Cong(Inv(a), 0) {
      CongMul(a, a, Inv(a), 0);
      assert false;
    }
  }

  /** A common factor that is not zero cancels. */
  lemma CongCancel(a: int, b: int, c: int)
    requires Cong(a * c, b * c) && !Cong(c, 0)
    ensures Cong(a, b)
  {
    InvCorrect(c);
    var i := Inv(c);
    CongMul(a * c, b * c, i, i);
    CongMul(a, a, c * i, 1);
    CongMul(b, b, c * i, 1);
    assert a * c * i == a * (c * i) && b * c * i == b * (c * i);
  }

  /** There are no zero divisors. */
  lemma CongProductZero(a: int, b: int)
    requires !Cong(a, 0) && !Cong(b, 0)
    ensures !Cong(a * b, 0)
  {
    if Cong(a * b, 0) {
      assert 0 * b == 0;
      CongCancel(a, 0, b);
      assert false;
    }
  }
}
