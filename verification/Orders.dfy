/** Sorting as a specification: the result of a library sort under a given order. */
module Orders {

  ghost predicate Ordering<T(!new)>(leq: (T, T) -> bool) {
    && (forall x, y :: leq(x, y) || leq(y, x))
    && (forall x, y, z :: leq(x, y) && leq(y, z) ==> leq(x, z))
  }

  /** No two different elements of xs are tied. */
  ghost predicate NoTies<T(!new)>(leq: (T, T) -> bool, xs: seq<T>) {
    forall x, y :: x in xs && y in xs && leq(x, y) && leq(y, x) ==> x == y
  }

  predicate Sorted<T(!new)>(leq: (T, T) -> bool, xs: seq<T>) {
    forall i, j :: 0 <= i < j < |xs| ==> leq(xs[i], xs[j])
  }

  ghost predicate SameSet<T(!new)>(a: seq<T>, b: seq<T>) {
    forall x :: x in a <==> x in b
  }

  function Insert<T>(leq: (T, T) -> bool, x: T, xs: seq<T>): (r: seq<T>)
    ensures |r| == |xs| + 1
    ensures multiset(r) == multiset{x} + multiset(xs)
  {
    if xs == [] || leq(x, xs[0]) then [x] + xs
    else
      assert xs == [xs[0]] + xs[1..];
      [xs[0]] + Insert(leq, x, xs[1..])
  }

  /** Stable: of two tied elements the earlier one stays earlier. */
  function Sort<T>(leq: (T, T) -> bool, xs: seq<T>): (r: seq<T>)
    ensures multiset(r) == multiset(xs)
    ensures |r| == |xs|
  {
    if xs == [] then []
    else
      assert xs == [xs[0]] + xs[1..];
      Insert(leq, xs[0], Sort(leq, xs[1..]))
  }

  lemma SameElements<T>(xs: seq<T>, ys: seq<T>)
    requires multiset(xs) == multiset(ys)
    ensures |xs| == |ys|
    ensures forall x :: x in xs <==> x in ys
  {
    assert |multiset(xs)| == |multiset(ys)|;
    forall x ensures x in xs <==> x in ys {
      assert x in multiset(xs) <==> x in multiset(ys);
    }
  }

  lemma {:induction false} InsertKeepsSorted<T(!new)>(leq: (T, T) -> bool, x: T, xs: seq<T>)
    requires Ordering(leq) && Sorted(leq, xs)
    ensures Sorted(leq, Insert(leq, x, xs))
  {
    if xs != [] && !leq(x, xs[0]) {
      var rest := Insert(leq, x, xs[1..]);
      InsertKeepsSorted(leq, x, xs[1..]);
      forall k | 0 <= k < |rest| ensures leq(xs[0], rest[k]) {
        assert rest[k] in multiset(rest);
        assert rest[k] == x || rest[k] in multiset(xs[1..]);
      }
    }
  }

  lemma {:induction false} SortSorts<T(!new)>(leq: (T, T) -> bool, xs: seq<T>)
    requires Ordering(leq)
    ensures Sorted(leq, Sort(leq, xs))
  {
    if xs != [] {
      SortSorts(leq, xs[1..]);
      InsertKeepsSorted(leq, xs[0], Sort(leq, xs[1..]));
    }
  }

  /** There is one sorted arrangement of untied elements, whatever algorithm produced it. */
  lemma {:induction false} SortedIsUnique<T(!new)>(leq: (T, T) -> bool, xs: seq<T>, ys: seq<T>)
    requires Sorted(leq, xs) && Sorted(leq, ys) && multiset(xs) == multiset(ys)
    requires NoTies(leq, xs)
    requires forall x :: leq(x, x)
    ensures xs == ys
  {
    SameElements(xs, ys);
    if xs != [] {
      HeadsTied(leq, xs, ys);
      TailsMatch(xs, ys);
      assert NoTies(leq, xs[1..]);
      SortedIsUnique(leq, xs[1..], ys[1..]);
      assert xs == [xs[0]] + xs[1..] && ys == [ys[0]] + ys[1..];
    }
  }

  lemma HeadsTied<T(!new)>(leq: (T, T) -> bool, xs: seq<T>, ys: seq<T>)
    requires Sorted(leq, xs) && Sorted(leq, ys) && multiset(xs) == multiset(ys)
    requires xs != [] && ys != [] && NoTies(leq, xs)
    requires forall x :: leq(x, x)
    ensures xs[0] == ys[0]
  {
    SameElements(xs, ys);
    assert xs[0] in ys && ys[0] in xs;
    var i :| 0 <= i < |ys| && ys[i] == xs[0];
    var j :| 0 <= j < |xs| && xs[j] == ys[0];
    assert leq(ys[0], ys[i]) && leq(xs[0], xs[j]);
  }

  lemma TailsMatch<T>(xs: seq<T>, ys: seq<T>)
    requires xs != [] && ys != [] && xs[0] == ys[0] && multiset(xs) == multiset(ys)
    ensures multiset(xs[1..]) == multiset(ys[1..])
  {
    assert xs == [xs[0]] + xs[1..] && ys == [ys[0]] + ys[1..];
    assert multiset(xs[1..]) == multiset(xs) - multiset{xs[0]};
    assert multiset(ys[1..]) == multiset(ys) - multiset{ys[0]};
  }

  /** Sorting untied elements forgets the order they came in. */
  lemma SortForgetsOrder<T(!new)>(leq: (T, T) -> bool, xs: seq<T>, ys: seq<T>)
    requires Ordering(leq) && NoTies(leq, xs) && multiset(xs) == multiset(ys)
    ensures Sort(leq, xs) == Sort(leq, ys)
  {
    SortSorts(leq, xs);
    SortSorts(leq, ys);
    SameElements(xs, Sort(leq, xs));
    SortedIsUnique(leq, Sort(leq, xs), Sort(leq, ys));
  }

  /** The first n of a sorted list: whatever is left out is no smaller than what is taken. */
  lemma TakesLeast<T(!new)>(leq: (T, T) -> bool, xs: seq<T>, n: nat)
    requires Ordering(leq)
    ensures var k := if |xs| < n then |xs| else n;
            var taken := Sort(leq, xs)[..k];
            && |taken| == k
            && (forall x :: x in taken ==> x in xs)
            && (forall i, j :: 0 <= i < j < |taken| ==> leq(taken[i], taken[j]))
            && (forall x, y :: x in taken && y in xs && y !in taken ==> leq(x, y))
  {
    var k, sorted := if |xs| < n then |xs| else n, Sort(leq, xs);
    SortSorts(leq, xs);
    SameElements(xs, sorted);
    forall x, y | x in sorted[..k] && y in xs && y !in sorted[..k] ensures leq(x, y) {
      var i :| 0 <= i < k && sorted[i] == x;
      var j :| 0 <= j < |sorted| && sorted[j] == y;
      FirstOnesIn(sorted, k, j);
    }
  }

  lemma FirstOnesIn<T>(xs: seq<T>, n: nat, j: nat)
    requires n <= |xs| && j < |xs|
    ensures j < n ==> xs[j] in xs[..n]
  {
    if j < n {
      assert xs[..n][j] == xs[j];
    }
  }

  /* ---------- text in code point order ---------- */

  predicate LexLeq(a: string, b: string) {
    if a == "" then true
    else if b == "" then false
    else if a[0] != b[0] then a[0] < b[0]
    else LexLeq(a[1..], b[1..])
  }

  /** The texts agree up to position k, where the first is smaller. */
  predicate SmallerAt(a: string, b: string, k: nat) {
    k < |a| && k < |b| && a[..k] == b[..k] && a[k] < b[k]
  }

  lemma SmallerLater(a: string, b: string, k: nat)
    requires a != "" && b != "" && a[0] == b[0]
    ensures SmallerAt(a, b, k + 1) <==> SmallerAt(a[1..], b[1..], k)
  {
    if k < |a[1..]| && k < |b[1..]| {
      assert a[..k + 1] == [a[0]] + a[1..][..k] && b[..k + 1] == [b[0]] + b[1..][..k];
    }
  }

  /** A prefix, or smaller at the first difference. */
  lemma {:induction false} LexLeqIff(a: string, b: string)
    ensures LexLeq(a, b) <==> a <= b || exists k: nat :: SmallerAt(a, b, k)
  {
    if a != "" && b != "" && a[0] == b[0] {
      LexLeqIff(a[1..], b[1..]);
      assert a <= b <==> a[1..] <= b[1..] by {
        assert a == [a[0]] + a[1..] && b == [b[0]] + b[1..];
      }
      if k: nat :| SmallerAt(a[1..], b[1..], k) {
        SmallerLater(a, b, k);
      }
      if k: nat :| SmallerAt(a, b, k) {
        SmallerLater(a, b, k - 1);
      }
    } else if a != "" && b != "" {
      assert a[0] < b[0] ==> SmallerAt(a, b, 0);
    }
  }

  lemma {:induction false} LexLeqTotal(a: string, b: string)
    ensures LexLeq(a, b) || LexLeq(b, a)
    ensures LexLeq(a, b) && LexLeq(b, a) ==> a == b
  {
    if a != "" && b != "" {
      LexLeqTotal(a[1..], b[1..]);
      assert a == [a[0]] + a[1..] && b == [b[0]] + b[1..];
    }
  }

  lemma {:induction false} LexLeqTransitive(a: string, b: string, c: string)
    requires LexLeq(a, b) && LexLeq(b, c)
    ensures LexLeq(a, c)
  {
    if a != "" && a[0] == b[0] == c[0] {
      LexLeqTransitive(a[1..], b[1..], c[1..]);
    }
  }

  lemma LexLeqIsOrdering()
    ensures Ordering(LexLeq)
  {
    forall a, b ensures (LexLeq(a, b) || LexLeq(b, a)) && (LexLeq(a, b) && LexLeq(b, a) ==> a == b) {
      LexLeqTotal(a, b);
    }
    forall a, b, c | LexLeq(a, b) && LexLeq(b, c) ensures LexLeq(a, c) {
      LexLeqTransitive(a, b, c);
    }
  }

  lemma LexLeqHasNoTies(xs: seq<string>)
    ensures NoTies(LexLeq, xs)
  {
    forall a, b | a in xs && b in xs && LexLeq(a, b) && LexLeq(b, a) ensures a == b {
      LexLeqTotal(a, b);
    }
  }

  lemma TwiceIsTwo<T>(xs: seq<T>, a: nat, b: nat)
    requires a < b < |xs|
    ensures xs[a] == xs[b] ==> multiset(xs)[xs[a]] >= 2
  {
    assert xs == xs[..b] + xs[b..];
    assert xs[..b][a] in xs[..b] && xs[b..][0] in xs[b..];
  }
}
