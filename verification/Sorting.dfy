/** sorted(): a stable sort, the order of strings, and when the result depends
    only on which elements there are. */
module Sorting {

  ghost predicate Preorder<T(!new)>(le: (T, T) -> bool) {
    && (forall x, y :: le(x, y) || le(y, x))
    && (forall x, y, z :: le(x, y) && le(y, z) ==> le(x, z))
  }

  ghost predicate SortedBy<T>(s: seq<T>, le: (T, T) -> bool) {
    forall i, j :: 0 <= i < j < |s| ==> le(s[i], s[j])
  }

  /** No two different elements of s are tied. */
  ghost predicate Untied<T>(s: seq<T>, le: (T, T) -> bool) {
    forall i, j :: 0 <= i < |s| && 0 <= j < |s| && le(s[i], s[j]) && le(s[j], s[i]) ==> s[i] == s[j]
  }

  function Insert<T>(s: seq<T>, x: T, le: (T, T) -> bool): (r: seq<T>)
    ensures multiset(r) == multiset(s) + multiset{x} && |r| == |s| + 1
  {
    if s == [] then [x]
    else
      var n := |s| - 1;
      assert s == s[..n] + [s[n]];
      if le(s[n], x) then s + [x] else Insert(s[..n], x, le) + [s[n]]
  }

  function Sort<T>(s: seq<T>, le: (T, T) -> bool): (r: seq<T>)
    ensures multiset(r) == multiset(s) && |r| == |s|
  {
    if s == [] then []
    else
      var n := |s| - 1;
      assert s == s[..n] + [s[n]];
      Insert(Sort(s[..n], le), s[n], le)
  }

  lemma InsertSnoc<T>(s: seq<T>, y: T, x: T, le: (T, T) -> bool)
    ensures Insert(s + [y], x, le) == if le(y, x) then s + [y] + [x] else Insert(s, x, le) + [y]
  {
    assert (s + [y])[..|s|] == s;
  }

  lemma SortSnoc<T>(s: seq<T>, x: T, le: (T, T) -> bool)
    ensures Sort(s + [x], le) == Insert(Sort(s, le), x, le)
  {
    assert (s + [x])[..|s|] == s;
  }

  lemma SameElements<T>(a: seq<T>, b: seq<T>)
    requires multiset(a) == multiset(b)
    ensures |a| == |b| && forall x :: x in a <==> x in b
  {
    assert |a| == |multiset(a)| && |b| == |multiset(b)|;
    forall x ensures x in a <==> x in b {
      assert x in a <==> x in multiset(a);
      assert x in b <==> x in multiset(b);
    }
  }

  lemma {:induction false} InsertSorts<T(!new)>(s: seq<T>, x: T, le: (T, T) -> bool)
    requires Preorder(le) && SortedBy(s, le)
    ensures SortedBy(Insert(s, x, le), le)
  {
    if s != [] {
      var n := |s| - 1;
      var r := Insert(s, x, le);
      if le(s[n], x) {
        forall i | 0 <= i < |s| ensures le(s[i], x) {
          assert i < n ==> le(s[i], s[n]);
        }
      } else {
        var front := Insert(s[..n], x, le);
        InsertSorts(s[..n], x, le);
        forall i | 0 <= i < |front| ensures le(front[i], s[n]) {
          assert front[i] in multiset(front);
          assert front[i] == x || front[i] in s[..n];
        }
        assert r == front + [s[n]];
      }
    }
  }

  lemma {:induction false} SortSorts<T(!new)>(s: seq<T>, le: (T, T) -> bool)
    requires Preorder(le)
    ensures SortedBy(Sort(s, le), le)
  {
    if s != [] {
      SortSorts(s[..|s| - 1], le);
      InsertSorts(Sort(s[..|s| - 1], le), s[|s| - 1], le);
    }
  }

  lemma {:induction false} SortedUnique<T>(a: seq<T>, b: seq<T>, le: (T, T) -> bool)
    requires SortedBy(a, le) && SortedBy(b, le) && multiset(a) == multiset(b) && Untied(a, le)
    ensures a == b
  {
    assert |a| == |multiset(a)| && |b| == |multiset(b)|;
    if a != [] {
      var n := |a| - 1;
      LastsEqual(a, b, le);
      FrontMultiset(a);
      FrontMultiset(b);
      FrontSorted(a, le);
      FrontSorted(b, le);
      SortedUnique(a[..n], b[..n], le);
      assert a == a[..n] + [a[n]] && b == b[..n] + [b[n]];
    }
  }

  lemma FrontMultiset<T>(a: seq<T>)
    requires a != []
    ensures multiset(a[..|a| - 1]) == multiset(a) - multiset{a[|a| - 1]}
  {
    assert a == a[..|a| - 1] + [a[|a| - 1]];
  }

  lemma FrontSorted<T>(a: seq<T>, le: (T, T) -> bool)
    requires a != []
    ensures SortedBy(a, le) ==> SortedBy(a[..|a| - 1], le)
    ensures Untied(a, le) ==> Untied(a[..|a| - 1], le)
  {
  }

  lemma LastsEqual<T>(a: seq<T>, b: seq<T>, le: (T, T) -> bool)
    requires a != [] && |a| == |b| && multiset(a) == multiset(b)
    requires SortedBy(a, le) && SortedBy(b, le) && Untied(a, le)
    ensures a[|a| - 1] == b[|b| - 1]
  {
    SameElements(a, b);
    var n := |a| - 1;
    assert a[n] in b && b[n] in a;
    var i :| 0 <= i < |b| && b[i] == a[n];
    var j :| 0 <= j < |a| && a[j] == b[n];
    if i < n && j < n {
      assert le(b[i], b[n]) && le(a[j], a[n]);
    }
  }

  /** With no ties, sorting depends only on which elements there are. */
  lemma SortCanonical<T(!new)>(a: seq<T>, b: seq<T>, le: (T, T) -> bool)
    requires Preorder(le) && multiset(a) == multiset(b) && Untied(a, le)
    ensures Sort(a, le) == Sort(b, le)
  {
    SortSorts(a, le);
    SortSorts(b, le);
    UntiedStays(a, Sort(a, le), le);
    SortedUnique(Sort(a, le), Sort(b, le), le);
  }

  lemma UntiedStays<T>(a: seq<T>, b: seq<T>, le: (T, T) -> bool)
    requires multiset(a) == multiset(b) && Untied(a, le)
    ensures Untied(b, le)
  {
    SameElements(a, b);
    forall i, j | 0 <= i < |b| && 0 <= j < |b| && le(b[i], b[j]) && le(b[j], b[i]) ensures b[i] == b[j] {
      assert b[i] in a && b[j] in a;
    }
  }

  // ---------------------------------------------------------------- strings

  predicate StringLe(a: string, b: string) {
    a == "" || (b != "" && (a[0] < b[0] || (a[0] == b[0] && StringLe(a[1..], b[1..]))))
  }

  predicate StringLess(a: string, b: string) {
    StringLe(a, b) && a != b
  }

  lemma {:induction false} StringTotal(a: string, b: string)
    ensures StringLe(a, b) || StringLe(b, a)
    ensures StringLe(a, b) && StringLe(b, a) ==> a == b
  {
    if a != "" && b != "" {
      StringTotal(a[1..], b[1..]);
      assert a == [a[0]] + a[1..] && b == [b[0]] + b[1..];
    }
  }

  lemma {:induction false} StringTransitive(a: string, b: string, c: string)
    requires StringLe(a, b) && StringLe(b, c)
    ensures StringLe(a, c)
  {
    if a != "" && a[0] == b[0] == c[0] {
      StringTransitive(a[1..], b[1..], c[1..]);
    }
  }

  lemma StringPreorder()
    ensures Preorder(StringLe)
  {
    forall x, y ensures StringLe(x, y) || StringLe(y, x) { StringTotal(x, y); }
    forall x, y, z | StringLe(x, y) && StringLe(y, z) ensures StringLe(x, z) { StringTransitive(x, y, z); }
  }

  lemma StringsUntied(s: seq<string>)
    ensures Untied(s, StringLe)
  {
    forall i, j | 0 <= i < |s| && 0 <= j < |s| && StringLe(s[i], s[j]) && StringLe(s[j], s[i]) ensures s[i] == s[j] {
      StringTotal(s[i], s[j]);
    }
  }

  lemma {:induction false} StringPrefix(prefix: string, a: string, b: string)
    ensures StringLe(prefix + a, prefix + b) == StringLe(a, b)
  {
    if prefix == "" {
      assert prefix + a == a && prefix + b == b;
    } else {
      var x, y := prefix + a, prefix + b;
      assert x[1..] == prefix[1..] + a && y[1..] == prefix[1..] + b;
      StringPrefix(prefix[1..], a, b);
      assert StringLe(x, y) == StringLe(x[1..], y[1..]);
    }
  }

  // ---------------------------------------------------------------- sorted sets of strings

  /** sorted(set(...)): strictly increasing. */
  predicate Increasing(s: seq<string>) {
    forall i, j :: 0 <= i < j < |s| ==> StringLess(s[i], s[j])
  }

  ghost predicate Distinct<T>(s: seq<T>) {
    forall i, j :: 0 <= i < j < |s| ==> s[i] != s[j]
  }

  function AddNew(s: seq<string>, x: string): (r: seq<string>)
    ensures forall y :: y in r <==> y in s || y == x
  {
    if x in s then s else s + [x]
  }

  function Dedupe(s: seq<string>): (r: seq<string>)
    ensures forall y :: y in r <==> y in s
  {
    if s == [] then [] else
      assert s == s[..|s| - 1] + [s[|s| - 1]];
      AddNew(Dedupe(s[..|s| - 1]), s[|s| - 1])
  }

  function SortedSet(s: seq<string>): seq<string> {
    Sort(Dedupe(s), StringLe)
  }

  lemma {:induction false} DedupeDistinct(s: seq<string>)
    ensures Distinct(Dedupe(s))
  {
    if s != [] {
      DedupeDistinct(s[..|s| - 1]);
    }
  }

  lemma {:induction false} DistinctMultiset<T>(s: seq<T>)
    requires forall x :: multiset(s)[x] <= 1
    ensures Distinct(s)
  {
    if s != [] {
      var n := |s| - 1;
      FrontMultiset(s);
      forall x ensures multiset(s[..n])[x] <= 1 {
        assert multiset(s)[x] <= 1;
      }
      DistinctMultiset(s[..n]);
      assert multiset(s)[s[n]] <= 1;
      assert s[n] !in multiset(s[..n]);
      forall i | 0 <= i < n ensures s[i] != s[n] {
        assert s[..n][i] in multiset(s[..n]);
      }
    }
  }

  lemma {:induction false} MultisetOfDistinct<T>(s: seq<T>)
    requires Distinct(s)
    ensures forall x :: multiset(s)[x] <= 1
  {
    if s != [] {
      var n := |s| - 1;
      assert s == s[..n] + [s[n]];
      MultisetOfDistinct(s[..n]);
      assert s[n] !in multiset(s[..n]);
    }
  }

  /** A permutation of distinct elements is distinct. */
  lemma DistinctStays<T>(a: seq<T>, b: seq<T>)
    requires multiset(a) == multiset(b) && Distinct(a)
    ensures Distinct(b)
  {
    MultisetOfDistinct(a);
    DistinctMultiset(b);
  }

  /** Sorting distinct strings gives a strictly increasing list of the same strings. */
  lemma SortIncreasing(s: seq<string>)
    requires Distinct(s)
    ensures Increasing(Sort(s, StringLe)) && forall y :: y in Sort(s, StringLe) <==> y in s
  {
    StringPreorder();
    SortSorts(s, StringLe);
    DistinctStays(s, Sort(s, StringLe));
    SameElements(s, Sort(s, StringLe));
  }

  lemma SortedSetIncreasing(s: seq<string>)
    ensures Increasing(SortedSet(s)) && forall y :: y in SortedSet(s) <==> y in s
  {
    DedupeDistinct(s);
    SortIncreasing(Dedupe(s));
  }

  /** A strictly increasing list is determined by its elements. */
  lemma {:induction false} IncreasingUnique(a: seq<string>, b: seq<string>)
    requires Increasing(a) && Increasing(b) && forall y :: y in a <==> y in b
    ensures a == b
  {
    if a == [] {
      if b != [] { HasElement(b); }
    } else {
      var n, m := |a| - 1, |b| - 1;
      assert a[n] in a && b != [];
      assert b[m] in b;
      IncreasingLast(a, b);
      IncreasingFront(a, b);
      IncreasingUnique(a[..n], b[..m]);
      assert a == a[..n] + [a[n]] && b == b[..m] + [b[m]];
    }
  }

  lemma HasElement(s: seq<string>)
    requires s != []
    ensures exists y :: y in s
  {
    assert s[0] in s;
  }

  lemma IncreasingLast(a: seq<string>, b: seq<string>)
    requires a != [] && b != [] && Increasing(a) && Increasing(b) && forall y :: y in a <==> y in b
    ensures a[|a| - 1] == b[|b| - 1]
  {
    var x, y := a[|a| - 1], b[|b| - 1];
    assert x in b && y in a;
    StringTotal(x, y);
    StringTotal(x, x);
  }

  lemma IncreasingFront(a: seq<string>, b: seq<string>)
    requires a != [] && b != [] && Increasing(a) && Increasing(b)
    requires (forall y :: y in a <==> y in b) && a[|a| - 1] == b[|b| - 1]
    ensures var front, front' := a[..|a| - 1], b[..|b| - 1]; forall y :: y in front <==> y in front'
  {
    FrontElements(a);
    FrontElements(b);
  }

  lemma FrontElements(a: seq<string>)
    requires a != [] && Increasing(a)
    ensures var front := a[..|a| - 1]; forall y :: y in front <==> y in a && y != a[|a| - 1]
  {
    var front := a[..|a| - 1];
    assert a == front + [a[|a| - 1]];
    assert a[|a| - 1] !in front;
  }
}
