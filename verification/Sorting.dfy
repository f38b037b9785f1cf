/** Result values and bytes, and the stable sort that sort.Slice and sort.SliceStable perform. */
module Outcomes {
  datatype Option<+T> = None | Some(value: T)
  datatype Result<+T, +E> = Ok(value: T) | Err(error: E)

  type Byte = b: int | 0 <= b < 256
}

module Sorting {
  /** less is a strict weak order on the elements of s. */
  ghost predicate Orders<T(!new)>(less: (T, T) -> bool, s: seq<T>) {
    && (forall x, y :: x in s && y in s && less(x, y) ==> !less(y, x))
    && (forall x, y, z :: x in s && y in s && z in s && less(x, z) ==> less(x, y) || less(y, z))
  }

  ghost predicate Sorted<T>(s: seq<T>, less: (T, T) -> bool) {
    forall i, j :: 0 <= i < j < |s| ==> !less(s[j], s[i])
  }

  function Insert<T>(x: T, s: seq<T>, less: (T, T) -> bool): (r: seq<T>)
    ensures |r| == |s| + 1
    ensures multiset(r) == multiset(s) + multiset{x}
  {
    if s == [] || !less(s[0], x) then [x] + s
    else
      assert s == [s[0]] + s[1..];
      [s[0]] + Insert(x, s[1..], less)
  }

  function StableSort<T>(s: seq<T>, less: (T, T) -> bool): (r: seq<T>)
    ensures |r| == |s| && multiset(r) == multiset(s)
  {
    if s == [] then []
    else
      assert s == [s[0]] + s[1..];
      Insert(s[0], StableSort(s[1..], less), less)
  }

  lemma SameElements<T(!new)>(a: seq<T>, b: seq<T>)
    requires multiset(a) == multiset(b)
    ensures forall x :: x in a <==> x in b
  {
    forall x | true
      ensures x in a <==> x in b
    {
      assert x in a <==> x in multiset(a);
      assert x in b <==> x in multiset(b);
    }
  }

  lemma InsertSorted<T(!new)>(x: T, s: seq<T>, less: (T, T) -> bool)
    requires Sorted(s, less) && Orders(less, [x] + s)
    ensures Sorted(Insert(x, s, less), less)
  {
    var all := [x] + s;
    assert x in all && forall y :: y in s ==> y in all;
    if s != [] && less(s[0], x) {
      var tail := s[1..];
      assert forall y :: y in [x] + tail ==> y in all;
      InsertSorted(x, tail, less);
      var r := Insert(x, tail, less);
      forall j | 0 <= j < |r|
        ensures !less(r[j], s[0])
      {
        assert r[j] in multiset(r);
        assert r[j] == x || r[j] in tail;
      }
    } else if s != [] {
      forall j | 0 <= j < |s|
        ensures !less(s[j], x)
      {
        assert s[j] in all && s[0] in all;
        if j > 0 {
          assert !less(s[j], s[0]);
        }
      }
    }
  }

  lemma {:induction false} StableSortSorted<T(!new)>(s: seq<T>, less: (T, T) -> bool)
    requires Orders(less, s)
    ensures Sorted(StableSort(s, less), less)
  {
    if s != [] {
      var t := StableSort(s[1..], less);
      StableSortSorted(s[1..], less);
      SameElements(t, s[1..]);
      assert forall y :: y in [s[0]] + t ==> y in s;
      InsertSorted(s[0], t, less);
    }
  }

  /** less tells any two elements of s apart. */
  ghost predicate Decides<T(!new)>(less: (T, T) -> bool, s: seq<T>) {
    forall x, y :: x in s && y in s && x != y ==> less(x, y) || less(y, x)
  }

  lemma TailFacts<T(!new)>(s: seq<T>, less: (T, T) -> bool)
    requires s != [] && Sorted(s, less)
    ensures multiset(s[1..]) == multiset(s) - multiset{s[0]} && Sorted(s[1..], less)
    ensures Decides(less, s) ==> Decides(less, s[1..])
  {
    assert s == [s[0]] + s[1..];
  }

  lemma EmptyPermutation<T>(a: seq<T>, b: seq<T>)
    requires a == [] && multiset(a) == multiset(b)
    ensures b == []
  {
    assert |multiset(b)| == 0;
  }

  lemma SameCons<T>(a: seq<T>, b: seq<T>)
    requires a != [] && b != [] && a[0] == b[0] && a[1..] == b[1..]
    ensures a == b
  {
    assert a == [a[0]] + a[1..] && b == [b[0]] + b[1..];
  }

  /** With no ties there is only one sorted arrangement. */
  lemma {:induction false} SortedUnique<T(!new)>(a: seq<T>, b: seq<T>, less: (T, T) -> bool)
    requires multiset(a) == multiset(b) && Sorted(a, less) && Sorted(b, less) && Decides(less, a)
    ensures a == b
  {
    hide Sorted;
    hide Decides;
    if a == [] {
      EmptyPermutation(a, b);
    } else {
      SortedHead(a, b, less);
      TailFacts(a, less);
      TailFacts(b, less);
      SortedUnique(a[1..], b[1..], less);
      SameCons(a, b);
    }
  }

  lemma SortedHead<T(!new)>(a: seq<T>, b: seq<T>, less: (T, T) -> bool)
    requires a != [] && multiset(a) == multiset(b) && Sorted(a, less) && Sorted(b, less) && Decides(less, a)
    ensures b != [] && a[0] == b[0]
  {
    SameElements(a, b);
    assert a[0] in b;
    assert b[0] in a;
    var i :| 0 <= i < |b| && b[i] == a[0];
    var j :| 0 <= j < |a| && a[j] == b[0];
    assert i > 0 ==> !less(b[i], b[0]);
    assert j > 0 ==> !less(a[j], a[0]);
  }

  lemma PermutedSort<T(!new)>(a: seq<T>, b: seq<T>, less: (T, T) -> bool)
    requires multiset(a) == multiset(b) && Orders(less, a) && Decides(less, a)
    ensures StableSort(a, less) == StableSort(b, less)
  {
    var ra, rb := StableSort(a, less), StableSort(b, less);
    SameElements(a, b);
    SameElements(ra, a);
    StableSortSorted(a, less);
    StableSortSorted(b, less);
    SortedUnique(ra, rb, less);
  }

  function Map<T, U>(f: T -> U, s: seq<T>): (r: seq<U>)
    ensures |r| == |s|
    ensures forall i :: 0 <= i < |s| ==> r[i] == f(s[i])
  {
    seq(|s|, i requires 0 <= i < |s| => f(s[i]))
  }

  lemma MapCons<T, U>(f: T -> U, x: T, s: seq<T>)
    ensures Map(f, [x] + s) == [f(x)] + Map(f, s)
  {
  }

  lemma {:induction false} InsertMap<T, U>(x: T, s: seq<T>, f: T -> U, less: (T, T) -> bool, less': (U, U) -> bool)
    requires forall i :: 0 <= i < |s| ==> less'(f(s[i]), f(x)) == less(s[i], x)
    ensures Insert(f(x), Map(f, s), less') == Map(f, Insert(x, s, less))
  {
    if s == [] || !less(s[0], x) {
      MapCons(f, x, s);
    } else {
      InsertMap(x, s[1..], f, less, less');
      assert Map(f, s)[1..] == Map(f, s[1..]);
      MapCons(f, s[0], Insert(x, s[1..], less));
    }
  }

  /** Sorting commutes with relabelling, ties included. */
  lemma {:induction false} StableSortMap<T(!new), U>(s: seq<T>, f: T -> U, less: (T, T) -> bool, less': (U, U) -> bool)
    requires forall x, y :: x in s && y in s ==> less'(f(x), f(y)) == less(x, y)
    ensures StableSort(Map(f, s), less') == Map(f, StableSort(s, less))
  {
    if s == [] {
      assert Map(f, s) == [];
    } else {
      var x, tail := s[0], s[1..];
      var t := StableSort(tail, less);
      assert Map(f, s)[1..] == Map(f, tail) && Map(f, s)[0] == f(x);
      assert StableSort(Map(f, tail), less') == Map(f, t) by {
        StableSortMap(tail, f, less, less');
      }
      assert forall y :: y in t ==> less'(f(y), f(x)) == less(y, x) by {
        SameElements(t, tail);
        assert forall y :: y in t ==> y in s;
        assert x in s;
      }
      InsertMap(x, t, f, less, less');
    }
  }

  lemma SplitAt<T>(t: seq<T>, less: (T, T) -> bool, n: nat)
    requires Sorted(t, less) && n <= |t|
    ensures multiset(t[..n]) + multiset(t[n..]) == multiset(t)
    ensures Sorted(t[..n], less)
    ensures forall i, j :: 0 <= i < n <= j < |t| ==> !less(t[j], t[i])
  {
    assert t == t[..n] + t[n..];
  }

  /** A prefix of the sorted arrangement holds the best elements: nothing left out comes
      before anything in it. */
  lemma TopOfSort<T(!new)>(s: seq<T>, less: (T, T) -> bool, n: nat)
    requires Orders(less, s) && n <= |s|
    ensures var t := StableSort(s, less);
            && multiset(t[..n]) + multiset(t[n..]) == multiset(s)
            && Sorted(t[..n], less)
            && forall i, j :: 0 <= i < n <= j < |s| ==> !less(t[j], t[i])
  {
    StableSortSorted(s, less);
    hide *;
    SplitAt(StableSort(s, less), less, n);
  }

  // ----- stability

  function Filter<T>(s: seq<T>, p: T -> bool): (r: seq<T>)
    ensures forall i :: 0 <= i < |r| ==> r[i] in s && p(r[i])
  {
    if s == [] then []
    else
      var rest := Filter(s[1..], p);
      if p(s[0]) then [s[0]] + rest else rest
  }

  lemma {:induction false} FilterAppend<T>(a: seq<T>, b: seq<T>, p: T -> bool)
    ensures Filter(a + b, p) == Filter(a, p) + Filter(b, p)
  {
    if a == [] {
      assert a + b == b;
    } else {
      assert (a + b)[1..] == a[1..] + b && (a + b)[0] == a[0];
      FilterAppend(a[1..], b, p);
    }
  }

  lemma {:induction false} FilterNone<T>(s: seq<T>, p: T -> bool)
    requires forall i :: 0 <= i < |s| ==> !p(s[i])
    ensures Filter(s, p) == []
  {
    if s != [] {
      FilterNone(s[1..], p);
    }
  }

  lemma {:induction false} FilterAll<T>(s: seq<T>, p: T -> bool)
    requires forall i :: 0 <= i < |s| ==> p(s[i])
    ensures Filter(s, p) == s
  {
    if s != [] {
      FilterAll(s[1..], p);
    }
  }

  lemma {:induction false} FilterHas<T>(s: seq<T>, p: T -> bool, i: nat)
    requires i < |s| && p(s[i])
    ensures Filter(s, p) != [] && s[i] in Filter(s, p)
  {
    if i > 0 {
      FilterHas(s[1..], p, i - 1);
    }
  }

  lemma {:induction false} FilterMultiset<T>(s: seq<T>, p: T -> bool, x: T)
    ensures multiset(Filter(s, p))[x] == if p(x) then multiset(s)[x] else 0
  {
    if s != [] {
      FilterMultiset(s[1..], p, x);
      assert s == [s[0]] + s[1..];
    }
  }

  /** Filtering a permutation gives a permutation. */
  lemma FilterPermute<T(!new)>(a: seq<T>, b: seq<T>, p: T -> bool)
    requires multiset(a) == multiset(b)
    ensures multiset(Filter(a, p)) == multiset(Filter(b, p)) && |Filter(a, p)| == |Filter(b, p)|
  {
    forall x: T
      ensures multiset(Filter(a, p))[x] == multiset(Filter(b, p))[x]
    {
      FilterMultiset(a, p, x);
      FilterMultiset(b, p, x);
    }
    assert |multiset(Filter(a, p))| == |Filter(a, p)| && |multiset(Filter(b, p))| == |Filter(b, p)|;
  }

  lemma {:induction false} InsertFilter<T>(x: T, s: seq<T>, less: (T, T) -> bool, p: T -> bool)
    requires forall i :: 0 <= i < |s| && p(s[i]) && p(x) ==> !less(s[i], x)
    ensures Filter(Insert(x, s, less), p) == Filter([x] + s, p)
  {
    if s != [] && less(s[0], x) {
      InsertFilter(x, s[1..], less, p);
      var r := Insert(x, s[1..], less);
      FilterAppend([s[0]], r, p);
      FilterAppend([x], s[1..], p);
      FilterAppend([x], s, p);
      assert s == [s[0]] + s[1..];
      FilterAppend([s[0]], s[1..], p);
    }
  }

  /** Equivalent elements keep their order. */
  lemma {:induction false} StableSortFilter<T>(s: seq<T>, less: (T, T) -> bool, p: T -> bool)
    requires forall i, j :: 0 <= i < |s| && 0 <= j < |s| && p(s[i]) && p(s[j]) ==> !less(s[i], s[j])
    ensures Filter(StableSort(s, less), p) == Filter(s, p)
  {
    if s != [] {
      var t := StableSort(s[1..], less);
      StableSortFilter(s[1..], less, p);
      forall i | 0 <= i < |t| && p(t[i]) && p(s[0])
        ensures !less(t[i], s[0])
      {
        assert t[i] in multiset(t);
        assert t[i] in s[1..];
      }
      InsertFilter(s[0], t, less, p);
      FilterAppend([s[0]], t, p);
      FilterAppend([s[0]], s[1..], p);
      assert s == [s[0]] + s[1..];
    }
  }
}
