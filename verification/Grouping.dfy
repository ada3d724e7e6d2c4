/** Grouping a list by a key: the groups partition the list. */
module Grouping {
  import opened Sequences
  import opened Sorting

  function Having<T, K(==)>(f: T -> K, k: K): T -> bool {
    x => f(x) == k
  }

  function GroupOf<T, K(==)>(f: T -> K, s: seq<T>): K -> seq<T> {
    k => Filter(s, Having(f, k))
  }

  function CountOf<T, K(==)>(f: T -> K, s: seq<T>): K -> int {
    k => Count(s, Having(f, k))
  }

  ghost function Parts<T, K>(keys: seq<K>, f: T -> K, s: seq<T>): multiset<T> {
    multiset(Concat(Map(keys, GroupOf(f, s))))
  }

  lemma PartsSnocKey<T, K>(keys: seq<K>, k: K, f: T -> K, s: seq<T>)
    ensures Parts(keys + [k], f, s) == Parts(keys, f, s) + multiset(Filter(s, Having(f, k)))
  {
    var parts := Map(keys + [k], GroupOf(f, s));
    assert parts[..|keys|] == Map(keys, GroupOf(f, s));
  }

  lemma FilterSnoc<T>(s: seq<T>, x: T, p: T -> bool)
    ensures multiset(Filter(s + [x], p)) == if p(x) then multiset(Filter(s, p)) + multiset{x} else multiset(Filter(s, p))
  {
    assert (s + [x])[..|s|] == s;
  }

  lemma AddOnce<T>(a: multiset<T>, b: multiset<T>, a': multiset<T>, b': multiset<T>, x: T, inA: bool, inB: bool)
    requires a' == (if inA then a + multiset{x} else a) && b' == (if inB then b + multiset{x} else b) && !(inA && inB)
    ensures a' + b' == if inA || inB then a + b + multiset{x} else a + b
  {
  }

  /** One element more joins the group of its key, once. */
  lemma {:induction false} PartsSnoc<T, K>(keys: seq<K>, f: T -> K, s: seq<T>, x: T)
    requires Distinct(keys)
    ensures Parts(keys, f, s + [x]) == if f(x) in keys then Parts(keys, f, s) + multiset{x} else Parts(keys, f, s)
  {
    if keys != [] {
      var n := |keys| - 1;
      var front, k := keys[..n], keys[n];
      assert keys == front + [k];
      hide Parts, Filter;
      PartsSnoc(front, f, s, x);
      PartsSnocKey(front, k, f, s);
      PartsSnocKey(front, k, f, s + [x]);
      FilterSnoc(s, x, Having(f, k));
      assert k !in front;
      AddOnce(Parts(front, f, s), multiset(Filter(s, Having(f, k))), Parts(front, f, s + [x]),
              multiset(Filter(s + [x], Having(f, k))), x, f(x) in front, f(x) == k);
    }
  }

  /** The groups hold exactly the elements whose key is listed. */
  lemma {:induction false} GroupsPartition<T, K>(keys: seq<K>, f: T -> K, s: seq<T>)
    requires Distinct(keys)
    ensures Parts(keys, f, s) <= multiset(s)
    ensures (forall i :: 0 <= i < |s| ==> f(s[i]) in keys) ==> Parts(keys, f, s) == multiset(s)
  {
    if s == [] {
      NoGroups(keys, f);
    } else {
      var n := |s| - 1;
      assert s == s[..n] + [s[n]];
      GroupsPartition(keys, f, s[..n]);
      PartsSnoc(keys, f, s[..n], s[n]);
    }
  }

  lemma {:induction false} NoGroups<T, K>(keys: seq<K>, f: T -> K)
    ensures Parts(keys, f, []) == multiset{}
  {
    if keys != [] {
      var n := |keys| - 1;
      assert keys == keys[..n] + [keys[n]];
      NoGroups(keys[..n], f);
      PartsSnocKey(keys[..n], keys[n], f, []);
    }
  }

  lemma {:induction false} GroupSizes<T, K>(keys: seq<K>, f: T -> K, s: seq<T>)
    ensures Sum(Map(keys, CountOf(f, s))) == |Parts(keys, f, s)|
  {
    if keys != [] {
      var n := |keys| - 1;
      assert keys == keys[..n] + [keys[n]];
      GroupSizes(keys[..n], f, s);
      PartsSnocKey(keys[..n], keys[n], f, s);
      SumMapSnoc(keys[..n], keys[n], CountOf(f, s));
      CountIsFilterLength(s, Having(f, keys[n]));
    }
  }

  /** Group sizes add up to at most the length of the list, and to exactly that
      when every element has a listed key. */
  lemma SizesAddUp<T, K>(keys: seq<K>, f: T -> K, s: seq<T>)
    requires Distinct(keys)
    ensures Sum(Map(keys, CountOf(f, s))) <= |s|
    ensures (forall i :: 0 <= i < |s| ==> f(s[i]) in keys) ==> Sum(Map(keys, CountOf(f, s))) == |s|
  {
    GroupsPartition(keys, f, s);
    GroupSizes(keys, f, s);
    Smaller(Parts(keys, f, s), multiset(s));
  }

  lemma Smaller<T>(a: multiset<T>, b: multiset<T>)
    requires a <= b
    ensures |a| <= |b|
  {
    assert b == a + (b - a);
  }
}
