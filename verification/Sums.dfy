// Finite sums of reals over the keys of a table, in no particular order.

module Sums {
  import opened Reals

  ghost function Sum<K(!new)>(ks: set<K>, f: K -> real): real {
    if ks == {} then 0.0
    else
      var k :| k in ks;
      f(k) + Sum(ks - {k}, f)
  }

  /** Any key may be taken out first. */
  lemma {:induction false} SumPick<K(!new)>(ks: set<K>, f: K -> real, k: K)
    requires k in ks
    ensures Sum(ks, f) == f(k) + Sum(ks - {k}, f)
    decreases |ks|
  {
    var j :| j in ks && Sum(ks, f) == f(j) + Sum(ks - {j}, f);
    if j != k {
      SumPick(ks - {j}, f, k);
      SumPick(ks - {k}, f, j);
      assert ks - {j} - {k} == ks - {k} - {j};
    }
  }

  /** h agrees with f + g. */
  lemma {:induction false} SumAdd<K(!new)>(ks: set<K>, f: K -> real, g: K -> real, h: K -> real)
    requires forall k :: k in ks ==> h(k) == f(k) + g(k)
    ensures Sum(ks, h) == Sum(ks, f) + Sum(ks, g)
  {
    if ks != {} {
      var k :| k in ks;
      SumPick(ks, f, k);
      SumPick(ks, g, k);
      SumPick(ks, h, k);
      SumAdd(ks - {k}, f, g, h);
    }
  }

  ghost function Times<K(!new)>(c: real, f: K -> real): K -> real {
    k => c * f(k)
  }

  lemma {:induction false} SumTimes<K(!new)>(ks: set<K>, c: real, f: K -> real)
    ensures Sum(ks, Times(c, f)) == c * Sum(ks, f)
  {
    if ks != {} {
      var k :| k in ks;
      SumPick(ks, f, k);
      SumPick(ks, Times(c, f), k);
      SumTimes(ks - {k}, c, f);
      Distribute(c, f(k), Sum(ks - {k}, f));
    }
  }

  lemma {:induction false} SumSame<K(!new)>(ks: set<K>, f: K -> real, g: K -> real)
    requires forall k :: k in ks ==> f(k) == g(k)
    ensures Sum(ks, f) == Sum(ks, g)
  {
    if ks != {} {
      var k :| k in ks;
      SumPick(ks, f, k);
      SumPick(ks, g, k);
      SumSame(ks - {k}, f, g);
    }
  }

  /** f is zero outside js. */
  lemma {:induction false} SumWithin<K(!new)>(ks: set<K>, js: set<K>, f: K -> real)
    requires js <= ks && forall k :: k in ks - js ==> f(k) == 0.0
    ensures Sum(ks, f) == Sum(js, f)
    decreases |ks - js|
  {
    if ks - js == {} {
      assert ks == js;
    } else {
      var k :| k in ks - js;
      SumPick(ks, f, k);
      assert ks - {k} - js == ks - js - {k};
      SumWithin(ks - {k}, js, f);
    }
  }

  lemma {:induction false} SumBounds<K(!new)>(ks: set<K>, f: K -> real)
    requires forall k :: k in ks ==> f(k) >= 0.0
    ensures Sum(ks, f) >= 0.0
    ensures forall k :: k in ks ==> f(k) <= Sum(ks, f)
  {
    forall k | k in ks ensures f(k) <= Sum(ks, f) {
      SumPick(ks, f, k);
      SumBounds(ks - {k}, f);
    }
    if k :| k in ks {
      assert f(k) <= Sum(ks, f);
    }
  }

  lemma Member<K>(ks: set<K>) returns (k: K)
    requires ks != {}
    ensures k in ks
  {
    k :| k in ks;
  }

  // ----- Sums along a list -----

  ghost function SeqSum<T(!new)>(s: seq<T>, f: T -> real): real {
    if s == [] then 0.0 else SeqSum(s[..|s| - 1], f) + f(s[|s| - 1])
  }

  lemma {:induction false} SeqSumJoin<T(!new)>(a: seq<T>, b: seq<T>, f: T -> real)
    ensures SeqSum(a + b, f) == SeqSum(a, f) + SeqSum(b, f)
  {
    if b == [] {
      assert a + b == a;
    } else {
      assert (a + b)[..|a + b| - 1] == a + b[..|b| - 1];
      SeqSumJoin(a, b[..|b| - 1], f);
    }
  }

  lemma SeqSumOne<T(!new)>(x: T, f: T -> real)
    ensures SeqSum([x], f) == f(x)
  {
  }

  /** s' is s with every value divided by c. */
  lemma {:induction false} SeqSumScaled<T(!new)>(s: seq<T>, s': seq<T>, f: T -> real, c: real)
    requires |s| == |s'| && forall i :: 0 <= i < |s| ==> c * f(s'[i]) == f(s[i])
    ensures c * SeqSum(s', f) == SeqSum(s, f)
  {
    if s != [] {
      var n := |s| - 1;
      SeqSumScaled(s[..n], s'[..n], f, c);
      Distribute(c, SeqSum(s'[..n], f), f(s'[n]));
    }
  }

  ghost function Without<T>(s: seq<T>, i: nat): seq<T>
    requires i < |s|
  {
    s[..i] + s[i + 1..]
  }

  lemma RemoveAt<T(!new)>(s: seq<T>, i: nat, f: T -> real)
    requires i < |s|
    ensures multiset(Without(s, i)) == multiset(s) - multiset{s[i]}
    ensures SeqSum(s, f) == SeqSum(Without(s, i), f) + f(s[i])
  {
    hide SeqSum;
    assert s == s[..i] + ([s[i]] + s[i + 1..]);
    SeqSumJoin(s[..i], [s[i]] + s[i + 1..], f);
    SeqSumJoin([s[i]], s[i + 1..], f);
    SeqSumOne(s[i], f);
    SeqSumJoin(s[..i], s[i + 1..], f);
  }

  /** The order of the list does not matter. */
  lemma {:induction false} SeqSumPermuted<T(!new)>(a: seq<T>, b: seq<T>, f: T -> real)
    requires multiset(a) == multiset(b)
    ensures SeqSum(a, f) == SeqSum(b, f)
    decreases |a|
  {
    hide SeqSum, Without;
    if a == [] {
      assert |multiset(b)| == 0;
      assert b == [];
    } else {
      assert a[0] in multiset(b);
      var i :| 0 <= i < |b| && b[i] == a[0];
      RemoveAt(a, 0, f);
      RemoveAt(b, i, f);
      SmallerWithout(a, 0);
      SeqSumPermuted(Without(a, 0), Without(b, i), f);
    }
  }

  lemma SmallerWithout<T>(s: seq<T>, i: nat)
    requires i < |s|
    ensures |Without(s, i)| < |s|
  {
  }

  // ----- Tables of weights -----

  /** The entry of a table, with zero for a missing key. */
  function At<K>(m: map<K, real>, k: K): real {
    if k in m then m[k] else 0.0
  }

  /** A total that is safe to divide by: the source takes 1 when nothing positive adds up. */
  function OneIfNone(total: real): (t: real)
    ensures t > 0.0 && (total > 0.0 ==> t == total) && (total <= 0.0 ==> t == 1.0)
  {
    if total <= 0.0 then 1.0 else total
  }

  ghost function Entries<K(!new)>(m: map<K, real>): K -> real {
    k => At(m, k)
  }

  ghost function Total<K(!new)>(m: map<K, real>): real {
    Sum(m.Keys, Entries(m))
  }

  /** The loop with which the source adds up a table. */
  method SumValues(m: map<int, real>) returns (total: real)
    ensures total == Total(m)
  {
    total := 0.0;
    var rest := m.Keys;
    while rest != {}
      invariant rest <= m.Keys && total + Sum(rest, Entries(m)) == Total(m)
      decreases |rest|
    {
      ghost var member := Member(rest);
      var k :| k in rest;
      SumPick(rest, Entries(m), k);
      total := total + m[k];
      rest := rest - {k};
    }
  }
}
