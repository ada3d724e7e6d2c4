/** Comprehensions over sequences, and what they keep under permutation. */
module Sequences {

  function Map<T, U>(s: seq<T>, f: T -> U): (r: seq<U>)
    ensures |r| == |s| && forall i :: 0 <= i < |s| ==> r[i] == f(s[i])
  {
    seq(|s|, i requires 0 <= i < |s| => f(s[i]))
  }

  function Filter<T>(s: seq<T>, p: T -> bool): (r: seq<T>)
    ensures |r| <= |s|
  {
    if s == [] then []
    else Filter(s[..|s| - 1], p) + (if p(s[|s| - 1]) then [s[|s| - 1]] else [])
  }

  function Count<T>(s: seq<T>, p: T -> bool): (n: nat)
    ensures n <= |s|
  {
    if s == [] then 0 else Count(s[..|s| - 1], p) + (if p(s[|s| - 1]) then 1 else 0)
  }

  lemma {:induction false} CountConcat<T>(a: seq<T>, b: seq<T>, p: T -> bool)
    ensures Count(a + b, p) == Count(a, p) + Count(b, p)
  {
    if b == [] {
      assert a + b == a;
    } else {
      CountConcat(a, b[..|b| - 1], p);
      assert (a + b)[..|a + b| - 1] == a + b[..|b| - 1];
    }
  }

  lemma {:induction false} CountUniform<T>(s: seq<T>, p: T -> bool, holds: bool)
    requires forall i :: 0 <= i < |s| ==> p(s[i]) == holds
    ensures Count(s, p) == if holds then |s| else 0
  {
    if s != [] {
      var front := s[..|s| - 1];
      assert forall i :: 0 <= i < |front| ==> front[i] == s[i];
      CountUniform(front, p, holds);
    }
  }

  function One<T>(p: T -> bool, x: T): nat { if p(x) then 1 else 0 }

  lemma CountInsert<T>(s: seq<T>, i: nat, x: T, p: T -> bool)
    requires i <= |s|
    ensures Count(s[..i] + [x] + s[i..], p) == Count(s, p) + One(p, x)
  {
    CountConcat(s[..i] + [x], s[i..], p);
    CountConcat(s[..i], [x], p);
    CountConcat(s[..i], s[i..], p);
    assert s == s[..i] + s[i..];
    assert [x][..0] == [];
    assert Count([x], p) == One(p, x);
  }

  lemma CountUpdate<T>(s: seq<T>, i: nat, x: T, p: T -> bool)
    requires i < |s|
    ensures Count(s[i := x], p) + One(p, s[i]) == Count(s, p) + One(p, x)
  {
    var rest := s[..i] + s[i + 1..];
    CountInsert(rest, i, x, p);
    CountInsert(rest, i, s[i], p);
    assert s[i := x] == rest[..i] + [x] + rest[i..];
    assert s == rest[..i] + [s[i]] + rest[i..];
  }

  function Indices<T>(s: seq<T>, p: T -> bool): set<int> {
    set i | 0 <= i < |s| && p(s[i])
  }

  lemma {:induction false} CountIsCardinality<T>(s: seq<T>, p: T -> bool)
    ensures Count(s, p) == |Indices(s, p)|
  {
    if s == [] {
      assert Indices(s, p) == {};
    } else {
      var n := |s| - 1;
      var front := s[..n];
      CountIsCardinality(front, p);
      assert forall i :: 0 <= i < n ==> front[i] == s[i];
      assert Indices(s, p) == Indices(front, p) + if p(s[n]) then {n} else {};
    }
  }

  lemma {:induction false} CountIsFilterLength<T>(s: seq<T>, p: T -> bool)
    ensures Count(s, p) == |Filter(s, p)|
  {
    if s != [] { CountIsFilterLength(s[..|s| - 1], p); }
  }

  lemma {:induction false} FilterMembers<T>(s: seq<T>, p: T -> bool)
    ensures forall x :: x in Filter(s, p) <==> x in s && p(x)
  {
    if s != [] {
      FilterMembers(s[..|s| - 1], p);
      assert s == s[..|s| - 1] + [s[|s| - 1]];
    }
  }

  ghost function Kept<T>(s: seq<T>, p: T -> bool): multiset<T> {
    multiset(Filter(s, p))
  }

  ghost function KeptOne<T>(x: T, p: T -> bool): multiset<T> {
    if p(x) then multiset{x} else multiset{}
  }

  lemma KeptSnoc<T>(s: seq<T>, p: T -> bool)
    requires s != []
    ensures Kept(s, p) == Kept(s[..|s| - 1], p) + KeptOne(s[|s| - 1], p)
  {
  }

  lemma SumsCommute<T>(a: multiset<T>, b: multiset<T>, c: multiset<T>)
    ensures a + b + c == a + c + b
  {
  }

  lemma {:induction false} KeptDrop<T>(s: seq<T>, j: nat, p: T -> bool)
    requires j < |s|
    ensures Kept(s, p) == Kept(Drop(s, j), p) + KeptOne(s[j], p)
  {
    hide Kept, KeptOne;
    var n := |s| - 1;
    KeptSnoc(s, p);
    if j == n {
      assert Drop(s, j) == s[..n];
    } else {
      KeptDrop(s[..n], j, p);
      KeptSnoc(Drop(s, j), p);
      assert Drop(s, j)[..n - 1] == Drop(s[..n], j) && Drop(s, j)[n - 1] == s[n];
      SumsCommute(Kept(Drop(s[..n], j), p), KeptOne(s[j], p), KeptOne(s[n], p));
    }
  }

  lemma {:induction false} FilterPermutes<T>(a: seq<T>, b: seq<T>, p: T -> bool)
    requires multiset(a) == multiset(b)
    ensures multiset(Filter(a, p)) == multiset(Filter(b, p))
    decreases |a|
  {
    SameLength(a, b);
    if a != [] {
      var j := Position(b, a[0]);
      DropMultiset(a, 0);
      DropMultiset(b, j);
      FilterPermutes(Drop(a, 0), Drop(b, j), p);
      KeptDrop(a, 0, p);
      KeptDrop(b, j, p);
    }
  }

  lemma CountPermutes<T>(a: seq<T>, b: seq<T>, p: T -> bool)
    requires multiset(a) == multiset(b)
    ensures Count(a, p) == Count(b, p)
  {
    FilterPermutes(a, b, p);
    SameLength(Filter(a, p), Filter(b, p));
    CountIsFilterLength(a, p);
    CountIsFilterLength(b, p);
  }

  lemma SameLength<T>(a: seq<T>, b: seq<T>)
    requires multiset(a) == multiset(b)
    ensures |a| == |b|
  {
    assert |a| == |multiset(a)| && |b| == |multiset(b)|;
  }

  lemma {:induction false} FilterAgrees<T>(s: seq<T>, p: T -> bool, q: T -> bool)
    requires forall i :: 0 <= i < |s| ==> p(s[i]) == q(s[i])
    ensures Filter(s, p) == Filter(s, q)
  {
    if s != [] {
      FilterAgrees(s[..|s| - 1], p, q);
    }
  }

  /** Where an element of a filter result comes from. */
  lemma {:induction false} FilterSource<T>(s: seq<T>, p: T -> bool, i: nat) returns (j: nat)
    requires i < |Filter(s, p)|
    ensures j < |s| && s[j] == Filter(s, p)[i] && p(s[j])
  {
    var n := |s| - 1;
    if i < |Filter(s[..n], p)| {
      j := FilterSource(s[..n], p, i);
    } else {
      j := n;
    }
  }

  /** A one-element filter result has one source position. */
  lemma {:induction false} OnlyFiltered<T>(s: seq<T>, p: T -> bool) returns (i: nat)
    requires |Filter(s, p)| == 1
    ensures i < |s| && s[i] == Filter(s, p)[0]
    ensures forall j :: 0 <= j < |s| ==> (p(s[j]) <==> j == i)
  {
    var n := |s| - 1;
    if !p(s[n]) {
      i := OnlyFiltered(s[..n], p);
    } else {
      i := n;
      FilterMembers(s[..n], p);
      forall j | 0 <= j < n ensures !p(s[j]) {
        assert s[..n][j] in s[..n];
      }
    }
  }

  lemma {:induction false} NoneKept<T>(s: seq<T>, p: T -> bool)
    ensures Filter(s, p) == [] <==> forall i :: 0 <= i < |s| ==> !p(s[i])
  {
    if s != [] {
      var n := |s| - 1;
      NoneKept(s[..n], p);
      assert forall i :: 0 <= i < n ==> s[i] == s[..n][i];
    }
  }

  /** Exactly one position passes, exactly when one element is kept. */
  lemma {:induction false} KeptOnce<T>(s: seq<T>, p: T -> bool, i: nat)
    requires i < |s| && forall j :: 0 <= j < |s| ==> (p(s[j]) <==> j == i)
    ensures |Filter(s, p)| == 1
  {
    var n := |s| - 1;
    if i < n {
      KeptOnce(s[..n], p, i);
    } else {
      NoneKept(s[..n], p);
    }
  }

  lemma {:induction false} KeptTwice<T>(s: seq<T>, p: T -> bool, i: nat, j: nat)
    requires i < j < |s| && p(s[i]) && p(s[j])
    ensures |Filter(s, p)| >= 2
  {
    var n := |s| - 1;
    if j < n {
      KeptTwice(s[..n], p, i, j);
    } else {
      NoneKept(s[..n], p);
      assert p(s[..n][i]);
    }
  }

  lemma {:induction false} TwoKept<T>(s: seq<T>, p: T -> bool) returns (i: nat, j: nat)
    requires |Filter(s, p)| >= 2
    ensures i < j < |s| && p(s[i]) && p(s[j])
  {
    var n := |s| - 1;
    if |Filter(s[..n], p)| >= 2 {
      i, j := TwoKept(s[..n], p);
    } else {
      i := FilterSource(s[..n], p, 0);
      j := n;
    }
  }

  /** set(...). */
  function Elements<T>(s: seq<T>): set<T> {
    set x | x in s
  }

  function Drop<T>(s: seq<T>, j: nat): seq<T>
    requires j < |s|
  {
    s[..j] + s[j + 1..]
  }

  lemma DropMultiset<T>(s: seq<T>, j: nat)
    requires j < |s|
    ensures multiset(Drop(s, j)) == multiset(s) - multiset{s[j]}
  {
    assert s == s[..j] + [s[j]] + s[j + 1..];
  }

  lemma MapDrop<T, U>(s: seq<T>, j: nat, f: T -> U)
    requires j < |s|
    ensures multiset(Map(s, f)) == multiset(Map(Drop(s, j), f)) + multiset{f(s[j])}
  {
    assert Map(Drop(s, j), f) == Drop(Map(s, f), j);
    DropMultiset(Map(s, f), j);
  }

  lemma Position<T>(s: seq<T>, x: T) returns (j: nat)
    requires x in multiset(s)
    ensures j < |s| && s[j] == x
  {
    j :| 0 <= j < |s| && s[j] == x;
  }

  lemma {:induction false} MapPermutes<T, U>(a: seq<T>, b: seq<T>, f: T -> U)
    requires multiset(a) == multiset(b)
    ensures multiset(Map(a, f)) == multiset(Map(b, f))
    decreases |a|
  {
    if a == [] {
      assert |a| == |multiset(a)| && |b| == |multiset(b)|;
    } else {
      var j := Position(b, a[0]);
      DropMultiset(a, 0);
      DropMultiset(b, j);
      MapPermutes(Drop(a, 0), Drop(b, j), f);
      MapDrop(a, 0, f);
      MapDrop(b, j, f);
    }
  }

  function Concat<T>(parts: seq<seq<T>>): seq<T> {
    if parts == [] then [] else Concat(parts[..|parts| - 1]) + parts[|parts| - 1]
  }

  function Sum(s: seq<int>): int {
    if s == [] then 0 else Sum(s[..|s| - 1]) + s[|s| - 1]
  }

  lemma {:induction false} SumConcat(a: seq<int>, b: seq<int>)
    ensures Sum(a + b) == Sum(a) + Sum(b)
  {
    if b == [] {
      assert a + b == a;
    } else {
      SumConcat(a, b[..|b| - 1]);
      assert (a + b)[..|a + b| - 1] == a + b[..|b| - 1];
    }
  }

  lemma {:induction false} SumDrop(s: seq<int>, j: nat)
    requires j < |s|
    ensures Sum(s) == Sum(Drop(s, j)) + s[j]
  {
    var n := |s| - 1;
    if j == n {
      assert Drop(s, j) == s[..n];
    } else {
      SumDrop(s[..n], j);
      assert Drop(s, j)[..n - 1] == Drop(s[..n], j);
    }
  }

  lemma SumSnoc(s: seq<int>, x: int)
    ensures Sum(s + [x]) == Sum(s) + x
  {
    assert (s + [x])[..|s|] == s;
  }

  lemma MapSnoc<T, U>(s: seq<T>, x: T, f: T -> U)
    ensures Map(s + [x], f) == Map(s, f) + [f(x)]
  {
  }

  lemma SumMapSnoc<T>(s: seq<T>, x: T, f: T -> int)
    ensures Sum(Map(s + [x], f)) == Sum(Map(s, f)) + f(x)
  {
    assert Map(s + [x], f) == Map(s, f) + [f(x)];
    SumSnoc(Map(s, f), f(x));
  }

  lemma {:induction false} SumPermutes(a: seq<int>, b: seq<int>)
    requires multiset(a) == multiset(b)
    ensures Sum(a) == Sum(b)
    decreases |a|
  {
    if a == [] {
      assert |a| == |multiset(a)| && |b| == |multiset(b)|;
    } else {
      var j := Position(b, a[0]);
      DropMultiset(a, 0);
      DropMultiset(b, j);
      SumPermutes(Drop(a, 0), Drop(b, j));
      SumDrop(a, 0);
      SumDrop(b, j);
    }
  }

  lemma Cancel<T>(a: multiset<T>, b: multiset<T>, x: T)
    requires a + multiset{x} == b + multiset{x}
    ensures a == b
  {
    assert a == a + multiset{x} - multiset{x};
    assert b == b + multiset{x} - multiset{x};
  }

  /** If equal shapes have equal images, the images depend on the shapes alone. */
  lemma {:induction false} ShapesPermute<T(!new), S, U>(a: seq<T>, b: seq<T>, shape: T -> S, f: T -> U)
    requires multiset(Map(a, shape)) == multiset(Map(b, shape))
    requires forall x, y :: shape(x) == shape(y) ==> f(x) == f(y)
    ensures multiset(Map(a, f)) == multiset(Map(b, f)) && |a| == |b|
    decreases |a|
  {
    SameLength(Map(a, shape), Map(b, shape));
    if a != [] {
      var x := shape(a[0]);
      assert Map(a, shape)[0] == x;
      assert x in multiset(Map(b, shape));
      var j := Position(Map(b, shape), x);
      assert Map(b, shape)[j] == shape(b[j]);
      MapDrop(a, 0, shape);
      MapDrop(b, j, shape);
      Cancel(multiset(Map(Drop(a, 0), shape)), multiset(Map(Drop(b, j), shape)), x);
      ShapesPermute(Drop(a, 0), Drop(b, j), shape, f);
      MapDrop(a, 0, f);
      MapDrop(b, j, f);
    }
  }
}
