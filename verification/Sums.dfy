// Sums of multisets over the keys of an unordered container.
module Sums {

  ghost function Sum<K, X>(keys: set<K>, f: K -> multiset<X>): multiset<X> {
    if keys == {} then multiset{}
    else
      var k :| k in keys;
      f(k) + Sum(keys - {k}, f)
  }

  lemma SumEmpty<K, X>(f: K -> multiset<X>)
    ensures Sum({}, f) == multiset{}
  {
  }

  // Any key can be taken out first.
  lemma {:induction false} SumTake<K, X>(keys: set<K>, f: K -> multiset<X>, k: K)
    requires k in keys
    ensures Sum(keys, f) == f(k) + Sum(keys - {k}, f)
    decreases keys
  {
    var first :| first in keys && Sum(keys, f) == f(first) + Sum(keys - {first}, f);
    if first != k {
      SumTake(keys - {first}, f, k);
      SumTake(keys - {k}, f, first);
      assert keys - {first} - {k} == keys - {k} - {first};
    }
  }

  lemma {:induction false} SumCongruent<K, X>(keys: set<K>, f: K -> multiset<X>, g: K -> multiset<X>)
    requires forall k :: k in keys ==> f(k) == g(k)
    ensures Sum(keys, f) == Sum(keys, g)
    decreases keys
  {
    if keys != {} {
      var k :| k in keys;
      SumTake(keys, f, k);
      SumTake(keys, g, k);
      SumCongruent(keys - {k}, f, g);
    }
  }

  // Keys without contribution can be left out.
  lemma {:induction false} SumExtra<K, X>(keys: set<K>, more: set<K>, f: K -> multiset<X>)
    requires keys <= more && forall k :: k in more && k !in keys ==> f(k) == multiset{}
    ensures Sum(more, f) == Sum(keys, f)
    decreases more
  {
    if k :| k in more {
      SumTake(more, f, k);
      if k in keys {
        SumTake(keys, f, k);
        SumExtra(keys - {k}, more - {k}, f);
      } else {
        SumExtra(keys, more - {k}, f);
      }
    }
  }

  // Changing the contribution of one key, present before or not.
  lemma SumUpdate<K, X>(keys: set<K>, f: K -> multiset<X>, g: K -> multiset<X>, k: K)
    requires forall j :: j in keys && j != k ==> f(j) == g(j)
    requires k !in keys ==> f(k) == multiset{}
    ensures Sum(keys + {k}, g) + f(k) == Sum(keys, f) + g(k)
    ensures f(k) <= Sum(keys, f)
  {
    var others := keys - {k};
    SumCongruent(others, f, g);
    SumTake(keys + {k}, g, k);
    assert keys + {k} - {k} == others;
    if k in keys {
      SumTake(keys, f, k);
    } else {
      assert others == keys;
    }
    Swap(f(k), g(k), Sum(others, f));
  }

  lemma Swap<X>(a: multiset<X>, b: multiset<X>, s: multiset<X>)
    ensures (b + s) + a == (a + s) + b
    ensures multiset{} + s == s
  {
  }

  // Sums of three contributions.
  lemma {:induction false} SumPlus<K, X>(keys: set<K>, f: K -> multiset<X>, g: K -> multiset<X>, h: K -> multiset<X>, all: K -> multiset<X>)
    requires forall k :: k in keys ==> all(k) == f(k) + g(k) + h(k)
    ensures Sum(keys, f) + Sum(keys, g) + Sum(keys, h) == Sum(keys, all)
    decreases keys
  {
    if k :| k in keys {
      SumTake(keys, f, k);
      SumTake(keys, g, k);
      SumTake(keys, h, k);
      SumTake(keys, all, k);
      SumPlus(keys - {k}, f, g, h, all);
      Shuffle(f(k), g(k), h(k), Sum(keys - {k}, f), Sum(keys - {k}, g), Sum(keys - {k}, h));
    }
  }

  lemma Shuffle<X>(a: multiset<X>, b: multiset<X>, c: multiset<X>, r: multiset<X>, s: multiset<X>, t: multiset<X>)
    ensures (a + r) + (b + s) + (c + t) == (a + b + c) + (r + s + t)
  {
  }

  // Elements of a sum come from some key.
  lemma {:induction false} SumMember<K, X>(keys: set<K>, f: K -> multiset<X>, x: X)
    requires x in Sum(keys, f)
    ensures exists k :: k in keys && x in f(k)
    decreases keys
  {
    var k :| k in keys && Sum(keys, f) == f(k) + Sum(keys - {k}, f);
    if x !in f(k) { SumMember(keys - {k}, f, x); }
  }
}
