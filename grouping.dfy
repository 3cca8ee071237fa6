/**
 * Generic building blocks of the group-by aggregations: distinct keys in
 * first-occurrence order, sums that skip nothing, per-key sums, and the
 * mean and maximum of a non-empty column of reals.
 */
module Grouping {

  predicate NoDuplicates<T(==)>(xs: seq<T>) {
    forall i, j :: 0 <= i < j < |xs| ==> xs[i] != xs[j]
  }

  /** The distinct elements of `xs`, each kept at its first occurrence. */
  function Distinct<T(==)>(xs: seq<T>): (r: seq<T>)
    ensures NoDuplicates(r)
    ensures forall i :: 0 <= i < |r| ==> r[i] in xs
    ensures forall i :: 0 <= i < |xs| ==> xs[i] in r
    ensures |r| <= |xs|
    decreases |xs|
  {
    if xs == [] then []
    else
      var d := Distinct(xs[..|xs| - 1]);
      if xs[|xs| - 1] in d then d else d + [xs[|xs| - 1]]
  }

  function Sum(xs: seq<real>): real
    decreases |xs|
  {
    if xs == [] then 0.0 else Sum(xs[..|xs| - 1]) + xs[|xs| - 1]
  }

  lemma {:induction false} SumAppend(xs: seq<real>, ys: seq<real>)
    ensures Sum(xs + ys) == Sum(xs) + Sum(ys)
    decreases |ys|
  {
    if ys == [] {
      assert xs + ys == xs;
    } else {
      var ys' := ys[..|ys| - 1];
      assert (xs + ys)[..|xs + ys| - 1] == xs + ys';
      SumAppend(xs, ys');
    }
  }

  /** The keys of a sequence of (key, value) entries. */
  function Keys<K>(es: seq<(K, real)>): (r: seq<K>)
    ensures |r| == |es|
    ensures forall i :: 0 <= i < |es| ==> r[i] == es[i].0
  {
    seq(|es|, i requires 0 <= i < |es| => es[i].0)
  }

  /** The values of a sequence of (key, value) entries. */
  function Values<K>(es: seq<(K, real)>): (r: seq<real>)
    ensures |r| == |es|
    ensures forall i :: 0 <= i < |es| ==> r[i] == es[i].1
  {
    seq(|es|, i requires 0 <= i < |es| => es[i].1)
  }

  /** Sum of the values of the entries whose key satisfies `g`. */
  function SumIf<K>(es: seq<(K, real)>, g: K -> bool): real
    decreases |es|
  {
    if es == [] then 0.0
    else SumIf(es[..|es| - 1], g) + (if g(es[|es| - 1].0) then es[|es| - 1].1 else 0.0)
  }

  /** Sum of the values of the entries with key `k` (polars `group_by(k).agg(sum)`). */
  function SumFor<K(==)>(es: seq<(K, real)>, k: K): real
    decreases |es|
  {
    if es == [] then 0.0
    else SumFor(es[..|es| - 1], k) + (if es[|es| - 1].0 == k then es[|es| - 1].1 else 0.0)
  }

  /** The per-key sums, for the keys of `ds` that satisfy `g`, in the order of `ds`. */
  function GroupSums<K(==)>(ds: seq<K>, es: seq<(K, real)>, g: K -> bool): seq<real>
    decreases |ds|
  {
    if ds == [] then []
    else
      GroupSums(ds[..|ds| - 1], es, g)
      + (if g(ds[|ds| - 1]) then [SumFor(es, ds[|ds| - 1])] else [])
  }

  lemma {:induction false} SumForAbsent<K>(es: seq<(K, real)>, k: K)
    requires k !in Keys(es)
    ensures SumFor(es, k) == 0.0
    decreases |es|
  {
    if es != [] {
      var es' := es[..|es| - 1];
      assert Keys(es') == Keys(es)[..|es| - 1];
      SumForAbsent(es', k);
    }
  }

  /** Adding one entry (x, v) adds v to the group sum of x, if x is a selected key of `ds`. */
  lemma {:induction false} GroupSumsSnoc<K>(ds: seq<K>, es: seq<(K, real)>, x: K, v: real, g: K -> bool)
    requires NoDuplicates(ds)
    ensures Sum(GroupSums(ds, es + [(x, v)], g))
         == Sum(GroupSums(ds, es, g)) + (if x in ds && g(x) then v else 0.0)
    decreases |ds|
  {
    if ds != [] {
      var ds' := ds[..|ds| - 1];
      var last := ds[|ds| - 1];
      assert NoDuplicates(ds');
      assert (es + [(x, v)])[..|es + [(x, v)]| - 1] == es;
      GroupSumsSnoc(ds', es, x, v, g);
      assert x in ds <==> x in ds' || x == last;
      assert x == last ==> x !in ds';
      if g(last) {
        SumAppend(GroupSums(ds', es + [(x, v)], g), [SumFor(es + [(x, v)], last)]);
        SumAppend(GroupSums(ds', es, g), [SumFor(es, last)]);
      } else {
        assert GroupSums(ds, es + [(x, v)], g) == GroupSums(ds', es + [(x, v)], g);
        assert GroupSums(ds, es, g) == GroupSums(ds', es, g);
        assert (x in ds && g(x)) <==> (x in ds' && g(x));
        assert Sum(GroupSums(ds', es + [(x, v)], g)) == Sum(GroupSums(ds', es, g)) + (if x in ds' && g(x) then v else 0.0);
      }
    }
  }

  /**
   * Grouping loses and invents nothing: the per-key sums over the distinct
   * keys selected by `g` add up to the sum of the values of the selected entries.
   */
  lemma {:induction false} GroupSumsTotal<K>(es: seq<(K, real)>, g: K -> bool)
    ensures Sum(GroupSums(Distinct(Keys(es)), es, g)) == SumIf(es, g)
    decreases |es|
  {
    if es == [] {
      assert Keys(es) == [];
    } else {
      var es' := es[..|es| - 1];
      var (x, v) := es[|es| - 1];
      assert es == es' + [(x, v)];
      assert Keys(es') == Keys(es)[..|es| - 1];
      var d' := Distinct(Keys(es'));
      GroupSumsTotal(es', g);
      GroupSumsSnoc(d', es', x, v, g);
      if x in d' {
        assert Distinct(Keys(es)) == d';
      } else {
        assert Distinct(Keys(es)) == d' + [x];
        assert x !in Keys(es');
        SumForAbsent(es', x);
        assert (d' + [x])[..|d' + [x]| - 1] == d';
        SumAppend(GroupSums(d', es, g), if g(x) then [SumFor(es, x)] else []);
        assert SumFor(es, x) == v;
      }
    }
  }

  lemma {:induction false} SumForTotal<K>(es: seq<(K, real)>)
    ensures Sum(GroupSums(Distinct(Keys(es)), es, k => true)) == Sum(Values(es))
  {
    GroupSumsTotal(es, k => true);
    SumIfTrue(es);
  }

  lemma {:induction false} SumIfTrue<K>(es: seq<(K, real)>)
    ensures SumIf(es, k => true) == Sum(Values(es))
    decreases |es|
  {
    if es != [] {
      var es' := es[..|es| - 1];
      assert Values(es') == Values(es)[..|es| - 1];
      SumIfTrue(es');
    }
  }

  lemma {:induction false} GroupSumsLength<K>(ds: seq<K>, es: seq<(K, real)>)
    ensures |GroupSums(ds, es, k => true)| == |ds|
    decreases |ds|
  {
    if ds != [] {
      GroupSumsLength(ds[..|ds| - 1], es);
    }
  }

  /** Every key of `ds` selected by `g` contributes one sum. */
  lemma {:induction false} GroupSumsNonEmpty<K>(ds: seq<K>, es: seq<(K, real)>, g: K -> bool, k: K)
    requires k in ds && g(k)
    ensures |GroupSums(ds, es, g)| > 0
    decreases |ds|
  {
    if ds[|ds| - 1] != k {
      assert k in ds[..|ds| - 1];
      GroupSumsNonEmpty(ds[..|ds| - 1], es, g, k);
    }
  }

  /** The largest element of a non-empty column (polars `max`). */
  function Max(xs: seq<real>): (m: real)
    requires |xs| > 0
    ensures m in xs
    ensures forall i :: 0 <= i < |xs| ==> xs[i] <= m
    decreases |xs|
  {
    if |xs| == 1 then xs[0]
    else
      var m' := Max(xs[..|xs| - 1]);
      if xs[|xs| - 1] > m' then xs[|xs| - 1] else m'
  }

  /** The arithmetic mean of a column; 0 for an empty one (never used on one). */
  function Mean(xs: seq<real>): real {
    if |xs| == 0 then 0.0 else Sum(xs) / (|xs| as real)
  }

  lemma {:induction false} SumAtMostCountTimesBound(xs: seq<real>, b: real)
    requires forall i :: 0 <= i < |xs| ==> xs[i] <= b
    ensures Sum(xs) <= (|xs| as real) * b
    decreases |xs|
  {
    if xs != [] {
      SumAtMostCountTimesBound(xs[..|xs| - 1], b);
    }
  }

  /** A quotient by a positive divisor stays below any bound the dividend keeps per unit. */
  lemma DivideBound(q: real, s: real, n: real, m: real)
    requires n > 0.0 && q == s / n && s <= n * m
    ensures q <= m
  {
    assert q * n == s;
    assert (m - q) * n == m * n - s;
    assert (m - q) * n >= 0.0;
  }

  /** The maximum of a non-empty column is at least its mean. */
  lemma MaxAtLeastMean(xs: seq<real>)
    requires |xs| > 0
    ensures Mean(xs) <= Max(xs)
  {
    MeanAtMostBound(xs, Max(xs));
  }

  /** A bound on every element of a non-empty column bounds its mean. */
  lemma MeanAtMostBound(xs: seq<real>, b: real)
    requires |xs| > 0
    requires forall i :: 0 <= i < |xs| ==> xs[i] <= b
    ensures Mean(xs) <= b
  {
    var n, s := |xs| as real, Sum(xs);
    SumAtMostCountTimesBound(xs, b);
    assert Mean(xs) == s / n;
    DivideBound(Mean(xs), s, n, b);
  }

  /** The mean times the number of elements gives back the sum. */
  lemma MeanTimesCount(xs: seq<real>)
    requires |xs| > 0
    ensures Mean(xs) * (|xs| as real) == Sum(xs)
  {
  }

  lemma MeanTimesCountIs(xs: seq<real>, total: real)
    requires |xs| > 0 && Sum(xs) == total
    ensures Mean(xs) * (|xs| as real) == total
  {
    MeanTimesCount(xs);
  }

  /** The elements of `xs` that satisfy `p`, in order (polars `filter`). */
  function Filter<T>(xs: seq<T>, p: T -> bool): (r: seq<T>)
    ensures |r| <= |xs|
    ensures forall i :: 0 <= i < |r| ==> r[i] in xs && p(r[i])
    ensures forall i :: 0 <= i < |xs| && p(xs[i]) ==> xs[i] in r
    decreases |xs|
  {
    if xs == [] then []
    else Filter(xs[..|xs| - 1], p) + (if p(xs[|xs| - 1]) then [xs[|xs| - 1]] else [])
  }

  /** The filter keeps every selected element as often as it occurs, and no other. */
  lemma {:induction false} FilterCount<T>(xs: seq<T>, p: T -> bool, x: T)
    ensures multiset(Filter(xs, p))[x] == if p(x) then multiset(xs)[x] else 0
    decreases |xs|
  {
    if xs != [] {
      var init, last := xs[..|xs| - 1], xs[|xs| - 1];
      assert xs == init + [last];
      FilterCount(init, p, x);
    }
  }

  /** Filtering keeps each element satisfying `p` as often as it occurs, and no other. */
  lemma FilterCounts<T>(xs: seq<T>, p: T -> bool)
    ensures forall x :: multiset(Filter(xs, p))[x] == if p(x) then multiset(xs)[x] else 0
  {
    forall x
      ensures multiset(Filter(xs, p))[x] == if p(x) then multiset(xs)[x] else 0
    {
      FilterCount(xs, p, x);
    }
  }

  /** Taking the selected elements commutes with taking the distinct ones. */
  lemma {:induction false} FilterDistinct<T>(xs: seq<T>, p: T -> bool)
    ensures Filter(Distinct(xs), p) == Distinct(Filter(xs, p))
    decreases |xs|
  {
    if xs != [] {
      var init, x := xs[..|xs| - 1], xs[|xs| - 1];
      FilterDistinct(init, p);
      var d, f := Distinct(init), Filter(init, p);
      assert x in d <==> x in init;
      if p(x) {
        assert x in f <==> x in init;
        assert Filter(xs, p) == f + [x];
        assert (f + [x])[..|f + [x]| - 1] == f;
        if x !in d {
          assert (d + [x])[..|d + [x]| - 1] == d;
        }
      } else {
        assert Filter(xs, p) == f;
        if x !in d {
          assert (d + [x])[..|d + [x]| - 1] == d;
        }
      }
    }
  }

  /** The sum of each key of `ks`, in the order of `ks`. */
  function SumsFor<K(==)>(ks: seq<K>, es: seq<(K, real)>): (r: seq<real>)
    ensures |r| == |ks|
    ensures forall i :: 0 <= i < |ks| ==> r[i] == SumFor(es, ks[i])
  {
    seq(|ks|, i requires 0 <= i < |ks| => SumFor(es, ks[i]))
  }

  /** The per-key sums of the keys selected by `g` are the sums of the filtered keys. */
  lemma {:induction false} GroupSumsFilter<K>(ds: seq<K>, es: seq<(K, real)>, g: K -> bool)
    ensures GroupSums(ds, es, g) == SumsFor(Filter(ds, g), es)
    decreases |ds|
  {
    if ds != [] {
      var init, x := ds[..|ds| - 1], ds[|ds| - 1];
      GroupSumsFilter(init, es, g);
      if g(x) {
        assert Filter(ds, g) == Filter(init, g) + [x];
      } else {
        assert Filter(ds, g) == Filter(init, g);
      }
    }
  }

  /** The grouped table: each key of `ks` with its sum. */
  function GroupTable<K(==)>(ks: seq<K>, es: seq<(K, real)>): (r: seq<(K, real)>)
    ensures Keys(r) == ks
    ensures Values(r) == SumsFor(ks, es)
  {
    seq(|ks|, i requires 0 <= i < |ks| => (ks[i], SumFor(es, ks[i])))
  }

  /**
   * Filtering the grouped table on its keys gives the per-key sums of the
   * selected keys: `h` selects an entry exactly when `g` selects its key.
   */
  lemma {:induction false} GroupTableFilter<K>(ks: seq<K>, es: seq<(K, real)>, h: ((K, real)) -> bool, g: K -> bool)
    requires forall i :: 0 <= i < |ks| ==> h((ks[i], SumFor(es, ks[i]))) == g(ks[i])
    ensures Values(Filter(GroupTable(ks, es), h)) == GroupSums(ks, es, g)
    decreases |ks|
  {
    if ks != [] {
      var init, x := ks[..|ks| - 1], ks[|ks| - 1];
      GroupTableFilter(init, es, h, g);
      var t, t' := GroupTable(ks, es), GroupTable(init, es);
      assert t[..|t| - 1] == t';
      var e := (x, SumFor(es, x));
      assert t[|t| - 1] == e;
      var f' := Filter(t', h);
      if g(x) {
        assert Filter(t, h) == f' + [e];
        assert Values(f' + [e]) == Values(f') + [e.1];
      } else {
        assert Filter(t, h) == f';
      }
    }
  }

  lemma {:induction false} FilterNone<T>(xs: seq<T>, p: T -> bool)
    requires forall i :: 0 <= i < |xs| ==> !p(xs[i])
    ensures Filter(xs, p) == []
    decreases |xs|
  {
    if xs != [] {
      FilterNone(xs[..|xs| - 1], p);
    }
  }

  /** When no two elements both satisfy `p`, the filter keeps at most one. */
  lemma {:induction false} FilterAtMostOne<T>(xs: seq<T>, p: T -> bool)
    requires forall a, b :: 0 <= a < b < |xs| && p(xs[a]) ==> !p(xs[b])
    ensures |Filter(xs, p)| <= 1
    decreases |xs|
  {
    if xs != [] {
      var init := xs[..|xs| - 1];
      if p(xs[|xs| - 1]) {
        FilterNone(init, p);
      } else {
        FilterAtMostOne(init, p);
      }
    }
  }
}
