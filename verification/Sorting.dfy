/**
 Stable sorting by string keys, in the order of UTF-16 code units.

 It stands for `Array.prototype.sort` on key strings, and for `localeCompare`, whose collation is not modelled.
 */
module Sorting {
  import opened Lists

  /** Orders scalar values as their UTF-16 encodings: surrogate pairs sort below U+E000. */
  function Utf16Rank(c: char): nat {
    var n := c as int;
    if n < 0xE000 then n else if n < 0x10000 then n + 0x110000 else n
  }

  lemma RankInjective(c: char, d: char)
    requires Utf16Rank(c) == Utf16Rank(d)
    ensures c == d
  {
    var m, n := c as int, d as int;
    assert m == n;
    assert m as char == n as char;
  }

  predicate LexLe(a: string, b: string) {
    a == [] || (b != [] && (Utf16Rank(a[0]) < Utf16Rank(b[0])
                            || (Utf16Rank(a[0]) == Utf16Rank(b[0]) && LexLe(a[1..], b[1..]))))
  }

  lemma {:induction false} LexAntisymmetric(a: string, b: string)
    requires LexLe(a, b) && LexLe(b, a)
    ensures a == b
    decreases |a|
  {
    if a != [] {
      RankInjective(a[0], b[0]);
      LexAntisymmetric(a[1..], b[1..]);
      assert a == [a[0]] + a[1..] && b == [b[0]] + b[1..];
    }
  }

  lemma {:induction false} LexReflexive(a: string)
    ensures LexLe(a, a)
    decreases |a|
  {
    if a != [] {
      LexReflexive(a[1..]);
    }
  }

  lemma {:induction false} LexTotal(a: string, b: string)
    ensures LexLe(a, b) || LexLe(b, a)
    decreases |a|
  {
    if a != [] && b != [] {
      LexTotal(a[1..], b[1..]);
    }
  }

  lemma {:induction false} LexTransitive(a: string, b: string, c: string)
    requires LexLe(a, b) && LexLe(b, c)
    ensures LexLe(a, c)
    decreases |a|
  {
    if a != [] && Utf16Rank(a[0]) == Utf16Rank(b[0]) == Utf16Rank(c[0]) {
      LexTransitive(a[1..], b[1..], c[1..]);
    }
  }

  // ---------- the order of UTF-16 code units ----------

  /** The code units of a character: one, or a surrogate pair above U+FFFF. */
  function CharUnits(c: char): seq<nat> {
    var n := c as int;
    if n < 0x10000 then [n] else [0xD800 + (n - 0x10000) / 0x400, 0xDC00 + (n - 0x10000) % 0x400]
  }

  function Units(s: string): seq<nat> {
    if s == [] then [] else CharUnits(s[0]) + Units(s[1..])
  }

  /** Lexicographically at most, by the order of numbers. */
  predicate UnitsLe(a: seq<nat>, b: seq<nat>) {
    a == [] || (b != [] && (a[0] < b[0] || (a[0] == b[0] && UnitsLe(a[1..], b[1..]))))
  }

  lemma {:induction false} SamePrefix(p: seq<nat>, a: seq<nat>, b: seq<nat>)
    ensures UnitsLe(p + a, p + b) <==> UnitsLe(a, b)
    decreases |p|
  {
    if p == [] {
      assert p + a == a && p + b == b;
    } else {
      assert (p + a)[1..] == p[1..] + a && (p + b)[1..] == p[1..] + b;
      SamePrefix(p[1..], a, b);
    }
  }

  lemma HighAndLow(m: nat, n: nat)
    requires m != n
    ensures m < n <==> m / 0x400 < n / 0x400 || (m / 0x400 == n / 0x400 && m % 0x400 < n % 0x400)
    ensures m / 0x400 == n / 0x400 ==> m % 0x400 != n % 0x400
  {
  }

  /** Different characters decide by their units, whatever follows. */
  lemma DifferentChars(c: char, d: char, a: seq<nat>, b: seq<nat>)
    requires c != d
    ensures UnitsLe(CharUnits(c) + a, CharUnits(d) + b) <==> Utf16Rank(c) < Utf16Rank(d)
  {
    var x, y := CharUnits(c) + a, CharUnits(d) + b;
    assert x[0] == CharUnits(c)[0] && y[0] == CharUnits(d)[0];
    if |CharUnits(c)| == 2 && |CharUnits(d)| == 2 {
      assert x[1..][0] == CharUnits(c)[1] && y[1..][0] == CharUnits(d)[1];
      HighAndLow(c as int - 0x10000, d as int - 0x10000);
    } else if x[0] == y[0] {
      RankInjective(c, d);
    }
  }

  /** The order used here is the order of the UTF-16 encodings, as `Array.prototype.sort` compares strings. */
  lemma {:induction false} LexLeIsUtf16(a: string, b: string)
    ensures LexLe(a, b) <==> UnitsLe(Units(a), Units(b))
    decreases |a|
  {
    if a != [] && b != [] {
      if a[0] == b[0] {
        SamePrefix(CharUnits(a[0]), Units(a[1..]), Units(b[1..]));
        LexLeIsUtf16(a[1..], b[1..]);
      } else {
        DifferentChars(a[0], b[0], Units(a[1..]), Units(b[1..]));
        if Utf16Rank(a[0]) == Utf16Rank(b[0]) {
          RankInjective(a[0], b[0]);
        }
      }
    }
  }

  // ---------- sorting ----------

  /** An element with its sort key. */
  datatype Keyed<T> = Keyed(key: string, item: T)

  ghost predicate Sorted<T>(xs: seq<Keyed<T>>) {
    forall i, j :: 0 <= i < j < |xs| ==> LexLe(xs[i].key, xs[j].key)
  }

  ghost predicate DistinctKeys<T>(xs: seq<Keyed<T>>) {
    forall i, j :: 0 <= i < j < |xs| ==> xs[i].key != xs[j].key
  }

  /** Puts `x` in front of the first element that is not before it, so equal keys keep their order. */
  function Insert<T>(x: Keyed<T>, xs: seq<Keyed<T>>): (r: seq<Keyed<T>>)
    ensures |r| == |xs| + 1
    ensures multiset(r) == multiset(xs) + multiset{x}
  {
    if xs == [] then [x]
    else if LexLe(x.key, xs[0].key) then [x] + xs
    else
      assert xs == [xs[0]] + xs[1..];
      [xs[0]] + Insert(x, xs[1..])
  }

  function Sort<T>(xs: seq<Keyed<T>>): (r: seq<Keyed<T>>)
    ensures |r| == |xs|
    ensures multiset(r) == multiset(xs)
  {
    if xs == [] then []
    else
      assert xs == [xs[0]] + xs[1..];
      Insert(xs[0], Sort(xs[1..]))
  }

  lemma {:induction false} InsertSorted<T>(x: Keyed<T>, xs: seq<Keyed<T>>)
    requires Sorted(xs)
    ensures Sorted(Insert(x, xs))
    decreases |xs|
  {
    var r := Insert(x, xs);
    if xs != [] {
      if LexLe(x.key, xs[0].key) {
        forall j | 0 <= j < |xs|
          ensures LexLe(x.key, xs[j].key)
        {
          LexReflexive(xs[0].key);
          LexTransitive(x.key, xs[0].key, xs[j].key);
        }
      } else {
        LexTotal(x.key, xs[0].key);
        var rest := Insert(x, xs[1..]);
        InsertSorted(x, xs[1..]);
        forall j | 0 <= j < |rest|
          ensures LexLe(xs[0].key, rest[j].key)
        {
          assert rest[j] in multiset(rest);
          assert rest[j] == x || rest[j] in xs[1..];
        }
      }
    }
  }

  lemma {:induction false} SortSorted<T>(xs: seq<Keyed<T>>)
    ensures Sorted(Sort(xs))
    decreases |xs|
  {
    if xs != [] {
      SortSorted(xs[1..]);
      InsertSorted(xs[0], Sort(xs[1..]));
    }
  }

  function Group<T>(x: Keyed<T>, k: string): seq<Keyed<T>> {
    if x.key == k then [x] else []
  }

  /** The elements of a key, in order. */
  function KeyGroup<T>(xs: seq<Keyed<T>>, k: string): seq<Keyed<T>> {
    if xs == [] then [] else Group(xs[0], k) + KeyGroup(xs[1..], k)
  }

  lemma GroupCons<T>(x: Keyed<T>, xs: seq<Keyed<T>>, k: string)
    ensures KeyGroup([x] + xs, k) == Group(x, k) + KeyGroup(xs, k)
  {
    assert ([x] + xs)[1..] == xs;
  }

  lemma Swap<T>(x: Keyed<T>, y: Keyed<T>, rest: seq<Keyed<T>>, k: string)
    requires x.key != y.key
    ensures Group(y, k) + (Group(x, k) + rest) == Group(x, k) + (Group(y, k) + rest)
  {
  }

  lemma {:induction false} InsertStable<T>(x: Keyed<T>, xs: seq<Keyed<T>>, k: string)
    ensures KeyGroup(Insert(x, xs), k) == Group(x, k) + KeyGroup(xs, k)
    decreases |xs|
  {
    if xs == [] {
      GroupCons(x, [], k);
      assert [x] + [] == [x];
    } else if LexLe(x.key, xs[0].key) {
      GroupCons(x, xs, k);
    } else {
      LexReflexive(x.key);
      InsertStable(x, xs[1..], k);
      GroupCons(xs[0], Insert(x, xs[1..]), k);
      Swap(x, xs[0], KeyGroup(xs[1..], k), k);
    }
  }

  /** Elements with equal keys keep their order. */
  lemma {:induction false} SortIsStable<T>(xs: seq<Keyed<T>>, k: string)
    ensures KeyGroup(Sort(xs), k) == KeyGroup(xs, k)
    decreases |xs|
  {
    if xs != [] {
      SortIsStable(xs[1..], k);
      InsertStable(xs[0], Sort(xs[1..]), k);
    }
  }

  lemma HeadIsLeast<T>(xs: seq<Keyed<T>>, x: Keyed<T>)
    requires Sorted(xs) && x in xs
    ensures LexLe(xs[0].key, x.key)
  {
    LexReflexive(xs[0].key);
  }

  /** Two sorted arrangements start alike. */
  lemma SameHead<T>(xs: seq<Keyed<T>>, ys: seq<Keyed<T>>)
    requires multiset(xs) == multiset(ys) && Sorted(xs) && Sorted(ys) && DistinctKeys(xs) && xs != []
    ensures ys != [] && xs[0] == ys[0]
  {
    assert xs[0] in xs;
    InSameMultiset(xs, ys, xs[0]);
    assert ys[0] in ys;
    InSameMultiset(xs, ys, ys[0]);
    HeadIsLeast(xs, ys[0]);
    HeadIsLeast(ys, xs[0]);
    LexAntisymmetric(xs[0].key, ys[0].key);
  }

  /** A collection with distinct keys has one sorted arrangement. */
  lemma {:induction false} SortedUnique<T>(xs: seq<Keyed<T>>, ys: seq<Keyed<T>>)
    requires multiset(xs) == multiset(ys) && Sorted(xs) && Sorted(ys) && DistinctKeys(xs)
    ensures xs == ys
    decreases |xs|
  {
    if xs == [] {
      assert |multiset(ys)| == 0;
    } else {
      SameHead(xs, ys);
      TailMultiset(xs);
      TailMultiset(ys);
      SortedUnique(xs[1..], ys[1..]);
      assert xs == [xs[0]] + xs[1..] && ys == [ys[0]] + ys[1..];
    }
  }

  lemma {:induction false} KeyOnce<T>(xs: seq<Keyed<T>>)
    requires DistinctKeys(xs)
    ensures forall x, y :: x in xs && y in xs && x.key == y.key ==> x == y
    ensures forall x :: x in multiset(xs) ==> multiset(xs)[x] == 1
    decreases |xs|
  {
    if xs != [] {
      assert xs == [xs[0]] + xs[1..];
      KeyOnce(xs[1..]);
    }
  }

  lemma {:induction false} OnceMeansDistinct<T>(ys: seq<Keyed<T>>)
    requires forall x, y :: x in ys && y in ys && x.key == y.key ==> x == y
    requires forall x :: x in multiset(ys) ==> multiset(ys)[x] == 1
    ensures DistinctKeys(ys)
    decreases |ys|
  {
    if ys != [] {
      var rest := ys[1..];
      assert ys == [ys[0]] + rest;
      assert multiset(ys)[ys[0]] == 1 + multiset(rest)[ys[0]];
      forall x | x in multiset(rest)
        ensures multiset(rest)[x] == 1
      {
        assert x in multiset(ys) && multiset(ys)[x] >= multiset(rest)[x];
      }
      OnceMeansDistinct(rest);
      forall j | 0 <= j < |rest|
        ensures ys[0].key != rest[j].key
      {
        assert rest[j] in multiset(rest);
      }
    }
  }

  /** Distinctness of keys depends only on the elements. */
  lemma DistinctAcross<T>(xs: seq<Keyed<T>>, ys: seq<Keyed<T>>)
    requires multiset(xs) == multiset(ys) && DistinctKeys(xs)
    ensures DistinctKeys(ys)
  {
    KeyOnce(xs);
    forall x, y | x in ys && y in ys && x.key == y.key
      ensures x == y
    {
      InSameMultiset(xs, ys, x);
      InSameMultiset(xs, ys, y);
    }
    OnceMeansDistinct(ys);
  }

  /**
   Sorting makes collections comparable: with distinct keys two lists sort to the same list exactly when they
   hold the same elements.
   */
  lemma SortIdentifiesMultisets<T>(xs: seq<Keyed<T>>, ys: seq<Keyed<T>>)
    requires DistinctKeys(xs)
    ensures Sort(xs) == Sort(ys) <==> multiset(xs) == multiset(ys)
  {
    SortSorted(xs);
    SortSorted(ys);
    if multiset(xs) == multiset(ys) {
      DistinctAcross(xs, Sort(xs));
      SortedUnique(Sort(xs), Sort(ys));
    }
  }
}
