/** Sequences up to rearrangement. */
module Lists {
  import opened Num

  lemma InSameMultiset<T>(xs: seq<T>, ys: seq<T>, x: T)
    requires multiset(xs) == multiset(ys)
    ensures x in xs <==> x in ys
  {
    assert x in xs <==> x in multiset(xs);
    assert x in ys <==> x in multiset(ys);
  }

  lemma SameSize<T>(x: seq<T>, y: seq<T>)
    requires multiset(x) == multiset(y)
    ensures |x| == |y|
  {
    assert |x| == |multiset(x)| == |multiset(y)| == |y|;
  }

  lemma TailMultiset<T>(xs: seq<T>)
    requires xs != []
    ensures multiset(xs[1..]) == multiset(xs) - multiset{xs[0]}
  {
    assert xs == [xs[0]] + xs[1..];
  }

  /** The list without its element at `j`. */
  function Without<T>(s: seq<T>, j: nat): (r: seq<T>)
    requires j < |s|
    ensures |r| == |s| - 1
    ensures multiset(r) == multiset(s) - multiset{s[j]} && multiset(s) == multiset(r) + multiset{s[j]}
  {
    assert s == s[..j] + [s[j]] + s[j + 1..];
    s[..j] + s[j + 1..]
  }

  /** Where the first element of a list is in a rearrangement of it, and what remains. */
  lemma Rearranged<T>(xs: seq<T>, ys: seq<T>) returns (j: nat)
    requires multiset(xs) == multiset(ys) && xs != []
    ensures j < |ys| && ys[j] == xs[0] && multiset(xs[1..]) == multiset(Without(ys, j))
  {
    InSameMultiset(xs, ys, xs[0]);
    j :| 0 <= j < |ys| && ys[j] == xs[0];
    TailMultiset(xs);
  }

  function Mapped<S, T>(f: S -> T, s: seq<S>): (r: seq<T>)
    ensures |r| == |s|
    ensures forall i :: 0 <= i < |s| ==> r[i] == f(s[i])
  {
    seq(|s|, i requires 0 <= i < |s| => f(s[i]))
  }

  lemma MappedWithout<S, T>(f: S -> T, s: seq<S>, j: nat)
    requires j < |s|
    ensures Mapped(f, Without(s, j)) == Without(Mapped(f, s), j)
  {
  }

  /** Mapping respects rearrangement. */
  lemma {:induction false} MappedMultiset<S, T>(f: S -> T, xs: seq<S>, ys: seq<S>)
    requires multiset(xs) == multiset(ys)
    ensures multiset(Mapped(f, xs)) == multiset(Mapped(f, ys))
    decreases |xs|
  {
    SameSize(xs, ys);
    if xs != [] {
      var j := Rearranged(xs, ys);
      MappedMultiset(f, xs[1..], Without(ys, j));
      MappedWithout(f, ys, j);
      MappedWithout(f, xs, 0);
      assert Without(xs, 0) == xs[1..];
    }
  }

  function SumOf<T>(f: T -> nat, s: seq<T>): nat {
    if s == [] then 0 else SumOf(f, s[..|s| - 1]) + f(s[|s| - 1])
  }

  lemma SumPrefix<T>(f: T -> nat, s: seq<T>, n: nat)
    requires n < |s|
    ensures SumOf(f, s[..n + 1]) == SumOf(f, s[..n]) + f(s[n])
  {
    assert s[..n + 1][..n] == s[..n];
  }

  lemma SumSnoc<T>(f: T -> nat, s: seq<T>, x: T)
    ensures SumOf(f, s + [x]) == SumOf(f, s) + f(x)
  {
    assert (s + [x])[..|s|] == s;
  }

  lemma {:induction false} SumConcat<T>(f: T -> nat, a: seq<T>, b: seq<T>)
    ensures SumOf(f, a + b) == SumOf(f, a) + SumOf(f, b)
    decreases |b|
  {
    if b == [] {
      assert a + b == a;
    } else {
      var n := |b| - 1;
      SumConcat(f, a, b[..n]);
      SumSnoc(f, a + b[..n], b[n]);
      assert a + b == a + b[..n] + [b[n]];
    }
  }

  lemma SumAround<T>(f: T -> nat, a: seq<T>, x: T, c: seq<T>)
    ensures SumOf(f, a + [x] + c) == SumOf(f, a + c) + f(x)
  {
    SumSnoc(f, a, x);
    SumConcat(f, a + [x], c);
    SumConcat(f, a, c);
  }

  lemma Around<T>(s: seq<T>, j: nat)
    requires j < |s|
    ensures s == s[..j] + [s[j]] + s[j + 1..] && Without(s, j) == s[..j] + s[j + 1..]
  {
  }

  lemma SumWithout<T>(f: T -> nat, s: seq<T>, j: nat)
    requires j < |s|
    ensures SumOf(f, s) == SumOf(f, Without(s, j)) + f(s[j])
  {
    Around(s, j);
    SumAround(f, s[..j], s[j], s[j + 1..]);
  }

  lemma SumUpdated<T>(f: T -> nat, s: seq<T>, j: nat, x: T)
    requires j < |s|
    ensures SumOf(f, s[j := x]) == SumOf(f, s) - f(s[j]) + f(x)
  {
    SumWithout(f, s, j);
    SumWithout(f, s[j := x], j);
    assert Without(s[j := x], j) == Without(s, j);
  }

  /** Sums do not depend on the arrangement. */
  lemma {:induction false} SumMultiset<T>(f: T -> nat, xs: seq<T>, ys: seq<T>)
    requires multiset(xs) == multiset(ys)
    ensures SumOf(f, xs) == SumOf(f, ys)
    decreases |xs|
  {
    SameSize(xs, ys);
    if xs != [] {
      var j := Rearranged(xs, ys);
      SumMultiset(f, xs[1..], Without(ys, j));
      SumWithout(f, ys, j);
      SumWithout(f, xs, 0);
      assert Without(xs, 0) == xs[1..];
    }
  }

  lemma {:induction false} SumSame<T>(f: T -> nat, g: T -> nat, s: seq<T>)
    requires forall x :: x in s ==> f(x) == g(x)
    ensures SumOf(f, s) == SumOf(g, s)
    decreases |s|
  {
    if s != [] {
      SumSame(f, g, s[..|s| - 1]);
    }
  }

  function SumInt<T>(f: T -> int, s: seq<T>): int {
    if s == [] then 0 else SumInt(f, s[..|s| - 1]) + f(s[|s| - 1])
  }

  lemma SumIntPrefix<T>(f: T -> int, s: seq<T>, n: nat)
    requires n < |s|
    ensures SumInt(f, s[..n + 1]) == SumInt(f, s[..n]) + f(s[n])
  {
    assert s[..n + 1][..n] == s[..n];
  }

  /** A sum of integers is the sum of what counts up less the sum of what counts down. */
  lemma {:induction false} SumIntParts<T>(f: T -> int, up: T -> nat, down: T -> nat, s: seq<T>)
    requires forall x :: x in s ==> f(x) == up(x) - down(x)
    ensures SumInt(f, s) == SumOf(up, s) - SumOf(down, s)
    decreases |s|
  {
    if s != [] {
      SumIntParts(f, up, down, s[..|s| - 1]);
    }
  }

  /** The first `n` elements pass a check. */
  predicate Passes<T>(p: T -> bool, s: seq<T>, n: nat)
    requires n <= |s|
  {
    n == 0 || (Passes(p, s, n - 1) && p(s[n - 1]))
  }

  lemma {:induction false} PassesMeaning<T>(p: T -> bool, s: seq<T>, n: nat)
    requires n <= |s|
    ensures Passes(p, s, n) <==> forall i :: 0 <= i < n ==> p(s[i])
  {
    if n > 0 {
      PassesMeaning(p, s, n - 1);
    }
  }

  lemma NotPassing<T>(p: T -> bool, s: seq<T>, i: nat, n: nat)
    requires i < n <= |s| && !p(s[i])
    ensures !Passes(p, s, n)
  {
    PassesMeaning(p, s, n);
  }

  /** `f(0), f(1), ...` up to `n` results, unless one of them fails. */
  function Collect<T>(f: nat -> Option<T>, n: nat): (r: Option<seq<T>>)
    ensures r.Some? ==> |r.value| == n
  {
    if n == 0 then Some([])
    else
      var front, last := Collect(f, n - 1), f(n - 1);
      if front.Some? && last.Some? then Some(front.value + [last.value]) else None
  }

  lemma {:induction false} CollectMeaning<T>(f: nat -> Option<T>, n: nat)
    ensures Collect(f, n).Some? <==> forall i: nat :: i < n ==> f(i).Some?
    ensures Collect(f, n).Some? ==> forall i: nat :: i < n ==> f(i) == Some(Collect(f, n).value[i])
  {
    if n > 0 {
      CollectMeaning(f, n - 1);
    }
  }

  lemma CollectFails<T>(f: nat -> Option<T>, i: nat, n: nat)
    requires i < n && f(i).None?
    ensures Collect(f, n).None?
  {
    CollectMeaning(f, n);
  }

  lemma CollectItem<T>(f: nat -> Option<T>, i: nat, n: nat)
    requires i < n && Collect(f, n).Some?
    ensures f(i) == Some(Collect(f, n).value[i])
  {
    CollectMeaning(f, n);
  }

  lemma PassesAnyOrder<T>(p: T -> bool, xs: seq<T>, ys: seq<T>)
    requires multiset(xs) == multiset(ys) && Passes(p, xs, |xs|)
    ensures Passes(p, ys, |ys|)
  {
    PassesMeaning(p, xs, |xs|);
    PassesMeaning(p, ys, |ys|);
    forall i | 0 <= i < |ys|
      ensures p(ys[i])
    {
      InSameMultiset(xs, ys, ys[i]);
    }
  }

  predicate HoldsBelow(q: nat -> bool, n: nat) {
    n == 0 || (HoldsBelow(q, n - 1) && q(n - 1))
  }

  lemma {:induction false} HoldsBelowMeaning(q: nat -> bool, n: nat)
    ensures HoldsBelow(q, n) <==> forall i: nat :: i < n ==> q(i)
  {
    if n > 0 {
      HoldsBelowMeaning(q, n - 1);
    }
  }

  lemma {:induction false} PassesSame<T>(p: T -> bool, s: seq<T>, q: nat -> bool, n: nat)
    requires n <= |s| && forall i: nat :: i < n ==> p(s[i]) == q(i)
    ensures Passes(p, s, n) <==> HoldsBelow(q, n)
  {
    if n > 0 {
      PassesSame(p, s, q, n - 1);
    }
  }

  lemma {:induction false} SumMapped<S, T>(f: T -> nat, g: S -> T, h: S -> nat, s: seq<S>)
    requires forall x :: x in s ==> h(x) == f(g(x))
    ensures SumOf(h, s) == SumOf(f, Mapped(g, s))
    decreases |s|
  {
    if s != [] {
      var n := |s| - 1;
      SumMapped(f, g, h, s[..n]);
      assert Mapped(g, s)[..n] == Mapped(g, s[..n]);
    }
  }

  function Filter<T>(p: T -> bool, s: seq<T>): seq<T> {
    if s == [] then [] else Filter(p, s[..|s| - 1]) + (if p(s[|s| - 1]) then [s[|s| - 1]] else [])
  }

  lemma FilterSnoc<T>(p: T -> bool, s: seq<T>, n: nat)
    requires n < |s|
    ensures Filter(p, s[..n + 1]) == Filter(p, s[..n]) + (if p(s[n]) then [s[n]] else [])
  {
    assert s[..n + 1][..n] == s[..n];
  }

  /** Elements that fail the check at the end of a list do not show in the result. */
  lemma {:induction false} FilterPrefix<T>(p: T -> bool, s: seq<T>, n: nat)
    requires n <= |s| && forall i :: n <= i < |s| ==> !p(s[i])
    ensures Filter(p, s) == Filter(p, s[..n])
    decreases |s|
  {
    if n == |s| {
      assert s[..n] == s;
    } else {
      var m := |s| - 1;
      FilterPrefix(p, s[..m], n);
      assert s[..m][..n] == s[..n];
    }
  }

  lemma {:induction false} FilterMember<T>(p: T -> bool, s: seq<T>, x: T)
    ensures x in Filter(p, s) <==> x in s && p(x)
    decreases |s|
  {
    if s != [] {
      FilterMember(p, s[..|s| - 1], x);
      assert s == s[..|s| - 1] + [s[|s| - 1]];
    }
  }

  ghost predicate Distinct<T>(s: seq<T>) {
    forall i, j :: 0 <= i < j < |s| ==> s[i] != s[j]
  }

  lemma InWithout<T>(s: seq<T>, j: nat, x: T)
    requires j < |s| && x in s && x != s[j]
    ensures x in Without(s, j)
  {
    var k :| 0 <= k < |s| && s[k] == x;
    assert Without(s, j)[if k < j then k else k - 1] == x;
  }

  /** Pigeonhole: distinct elements that all lie in a list of the same length are a rearrangement of it. */
  lemma {:induction false} InclusionRearranges<T>(xs: seq<T>, ys: seq<T>)
    requires Distinct(xs) && |xs| == |ys| && forall i :: 0 <= i < |xs| ==> xs[i] in ys
    ensures multiset(xs) == multiset(ys)
    decreases |xs|
  {
    if xs != [] {
      var j :| 0 <= j < |ys| && ys[j] == xs[0];
      var rest := xs[1..];
      forall i | 0 <= i < |rest|
        ensures rest[i] in Without(ys, j)
      {
        assert rest[i] == xs[i + 1];
        InWithout(ys, j, rest[i]);
      }
      InclusionRearranges(rest, Without(ys, j));
      TailMultiset(xs);
    }
  }
}
