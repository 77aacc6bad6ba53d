/**
 * Sequence vocabulary shared by the models: order-preserving subsequences,
 * first-seen distinct keys, per-key counts and sums, and flattening. The
 * JavaScript objects and Python dicts that the source fills while walking a
 * list keep their keys in first-seen order; `Distinct` is that order.
 */
module Seqs {

  /** `r` is obtained from `s` by deleting elements, keeping the order of the rest. */
  predicate SubseqOf<T(==)>(r: seq<T>, s: seq<T>)
    decreases |s|
  {
    if r == [] then true
    else if s == [] then false
    else if r[0] == s[0] then SubseqOf(r[1..], s[1..])
    else SubseqOf(r, s[1..])
  }

  lemma {:induction false} SubseqLength<T>(r: seq<T>, s: seq<T>)
    requires SubseqOf(r, s)
    ensures |r| <= |s|
    decreases |s|
  {
    if r != [] && s != [] {
      if r[0] == s[0] { SubseqLength(r[1..], s[1..]); } else { SubseqLength(r, s[1..]); }
    }
  }

  lemma {:induction false} SubseqRefl<T>(s: seq<T>)
    ensures SubseqOf(s, s)
    decreases |s|
  {
    if s != [] { SubseqRefl(s[1..]); }
  }

  /** Skipping the next element of `s` keeps `r` a subsequence. */
  lemma {:induction false} SubseqSkip<T>(r: seq<T>, s: seq<T>, x: T)
    requires SubseqOf(r, s)
    ensures SubseqOf(r, s + [x])
    decreases |s|
  {
    if r != [] && s != [] {
      assert (s + [x])[0] == s[0] && (s + [x])[1..] == s[1..] + [x];
      if r[0] == s[0] { SubseqSkip(r[1..], s[1..], x); } else { SubseqSkip(r, s[1..], x); }
    }
  }

  /** Keeping the next element of `s` extends the subsequence by that element. */
  lemma {:induction false} SubseqKeep<T>(r: seq<T>, s: seq<T>, x: T)
    requires SubseqOf(r, s)
    ensures SubseqOf(r + [x], s + [x])
    decreases |s|
  {
    if r == [] {
      SingletonSubseq(s, x);
      assert r + [x] == [x];
    } else {
      assert (s + [x])[0] == s[0] && (s + [x])[1..] == s[1..] + [x];
      assert (r + [x])[0] == r[0] && (r + [x])[1..] == r[1..] + [x];
      if r[0] == s[0] { SubseqKeep(r[1..], s[1..], x); } else { SubseqKeep(r, s[1..], x); }
    }
  }

  lemma {:induction false} SingletonSubseq<T>(s: seq<T>, x: T)
    ensures SubseqOf([x], s + [x])
    decreases |s|
  {
    if s == [] {
      assert [x][1..] == [];
    } else {
      assert (s + [x])[0] == s[0] && (s + [x])[1..] == s[1..] + [x];
      if s[0] != x { SingletonSubseq(s[1..], x); } else { assert [x][1..] == []; }
    }
  }

  /** Every element of a subsequence is an element of the sequence. */
  lemma {:induction false} SubseqMembers<T>(r: seq<T>, s: seq<T>, y: T)
    requires SubseqOf(r, s) && y in r
    ensures y in s
    decreases |s|
  {
    if r[0] == s[0] {
      if y != r[0] { SubseqMembers(r[1..], s[1..], y); }
    } else {
      SubseqMembers(r, s[1..], y);
    }
  }

  predicate NoDuplicates<T(==)>(s: seq<T>) {
    forall i, j :: 0 <= i < j < |s| ==> s[i] != s[j]
  }

  /** The distinct elements of `ks` in first-seen order. */
  function Distinct<K(==)>(ks: seq<K>): (d: seq<K>)
    ensures forall i :: 0 <= i < |d| ==> d[i] in ks
    ensures forall i :: 0 <= i < |ks| ==> ks[i] in d
    ensures NoDuplicates(d)
    ensures |d| <= |ks|
  {
    if ks == [] then []
    else
      var prev := Distinct(ks[..|ks| - 1]);
      if ks[|ks| - 1] in prev then prev else prev + [ks[|ks| - 1]]
  }

  /** The key of every element, in order. */
  function KeysOf<T, K>(xs: seq<T>, key: T -> K): (ks: seq<K>)
    ensures |ks| == |xs| && forall i :: 0 <= i < |xs| ==> ks[i] == key(xs[i])
  {
    seq(|xs|, i requires 0 <= i < |xs| => key(xs[i]))
  }

  /** How many elements of `xs` have key `k`. */
  function CountBy<T, K(==)>(xs: seq<T>, key: T -> K, k: K): nat
  {
    if xs == [] then 0
    else CountBy(xs[..|xs| - 1], key, k) + (if key(xs[|xs| - 1]) == k then 1 else 0)
  }

  /** The sum of the weights of the elements of `xs` that have key `k`. */
  function WeightBy<T, K(==)>(xs: seq<T>, key: T -> K, w: T -> real, k: K): real
  {
    if xs == [] then 0.0
    else WeightBy(xs[..|xs| - 1], key, w, k) + (if key(xs[|xs| - 1]) == k then w(xs[|xs| - 1]) else 0.0)
  }

  /** The sum of the weights of all elements of `xs`. */
  function TotalWeight<T>(xs: seq<T>, w: T -> real): real
  {
    if xs == [] then 0.0 else TotalWeight(xs[..|xs| - 1], w) + w(xs[|xs| - 1])
  }

  /** Sum over the keys `d` of their counts in `xs`. */
  function SumCounts<T, K(==)>(d: seq<K>, xs: seq<T>, key: T -> K): int
  {
    if d == [] then 0 else CountBy(xs, key, d[0]) + SumCounts(d[1..], xs, key)
  }

  /** Sum over the keys `d` of their weights in `xs`. */
  function SumWeights<T, K(==)>(d: seq<K>, xs: seq<T>, key: T -> K, w: T -> real): real
  {
    if d == [] then 0.0 else WeightBy(xs, key, w, d[0]) + SumWeights(d[1..], xs, key, w)
  }

  /** Number of occurrences of `k` in `d`. */
  function Occurrences<K(==)>(d: seq<K>, k: K): nat
  {
    if d == [] then 0 else (if d[0] == k then 1 else 0) + Occurrences(d[1..], k)
  }

  lemma {:induction false} OccurrencesDistinct<K>(d: seq<K>, k: K)
    requires NoDuplicates(d)
    ensures Occurrences(d, k) == if k in d then 1 else 0
  {
    if d != [] {
      assert NoDuplicates(d[1..]) by {
        forall i, j | 0 <= i < j < |d[1..]| ensures d[1..][i] != d[1..][j] {
          assert d[1..][i] == d[i + 1] && d[1..][j] == d[j + 1];
        }
      }
      OccurrencesDistinct(d[1..], k);
      if d[0] == k {
        assert k !in d[1..] by {
          forall i | 0 <= i < |d[1..]| ensures d[1..][i] != k { assert d[1..][i] == d[i + 1]; }
        }
      }
    }
  }

  lemma {:induction false} CountByAbsent<T, K>(xs: seq<T>, key: T -> K, k: K)
    requires k !in KeysOf(xs, key)
    ensures CountBy(xs, key, k) == 0
  {
    if xs != [] {
      var ys := xs[..|xs| - 1];
      assert k !in KeysOf(ys, key) by {
        forall i | 0 <= i < |ys| ensures KeysOf(ys, key)[i] != k { assert KeysOf(xs, key)[i] != k; }
      }
      CountByAbsent(ys, key, k);
      assert KeysOf(xs, key)[|xs| - 1] == key(xs[|xs| - 1]);
    }
  }

  lemma {:induction false} WeightByAbsent<T, K>(xs: seq<T>, key: T -> K, w: T -> real, k: K)
    requires k !in KeysOf(xs, key)
    ensures WeightBy(xs, key, w, k) == 0.0
  {
    if xs != [] {
      var ys := xs[..|xs| - 1];
      assert k !in KeysOf(ys, key) by {
        forall i | 0 <= i < |ys| ensures KeysOf(ys, key)[i] != k { assert KeysOf(xs, key)[i] != k; }
      }
      WeightByAbsent(ys, key, w, k);
      assert KeysOf(xs, key)[|xs| - 1] == key(xs[|xs| - 1]);
    }
  }

  lemma {:induction false} SumCountsStep<T, K>(d: seq<K>, ys: seq<T>, x: T, key: T -> K)
    ensures SumCounts(d, ys + [x], key) == SumCounts(d, ys, key) + Occurrences(d, key(x))
  {
    if d != [] {
      assert (ys + [x])[..|ys + [x]| - 1] == ys;
      SumCountsStep(d[1..], ys, x, key);
    }
  }

  lemma {:induction false} SumWeightsStep<T, K>(d: seq<K>, ys: seq<T>, x: T, key: T -> K, w: T -> real)
    requires NoDuplicates(d)
    ensures SumWeights(d, ys + [x], key, w) == SumWeights(d, ys, key, w) + (if key(x) in d then w(x) else 0.0)
  {
    if d != [] {
      assert (ys + [x])[..|ys + [x]| - 1] == ys;
      assert NoDuplicates(d[1..]) by {
        forall i, j | 0 <= i < j < |d[1..]| ensures d[1..][i] != d[1..][j] {
          assert d[1..][i] == d[i + 1] && d[1..][j] == d[j + 1];
        }
      }
      SumWeightsStep(d[1..], ys, x, key, w);
      if d[0] == key(x) {
        assert key(x) !in d[1..] by {
          forall i | 0 <= i < |d[1..]| ensures d[1..][i] != key(x) { assert d[1..][i] == d[i + 1]; }
        }
      }
    }
  }

  lemma {:induction false} SumCountsAppendKey<T, K>(d: seq<K>, k: K, xs: seq<T>, key: T -> K)
    ensures SumCounts(d + [k], xs, key) == SumCounts(d, xs, key) + CountBy(xs, key, k)
  {
    if d == [] {
      assert [k][1..] == [];
    } else {
      assert (d + [k])[1..] == d[1..] + [k];
      SumCountsAppendKey(d[1..], k, xs, key);
    }
  }

  lemma {:induction false} SumWeightsAppendKey<T, K>(d: seq<K>, k: K, xs: seq<T>, key: T -> K, w: T -> real)
    ensures SumWeights(d + [k], xs, key, w) == SumWeights(d, xs, key, w) + WeightBy(xs, key, w, k)
  {
    if d == [] {
      assert [k][1..] == [];
    } else {
      assert (d + [k])[1..] == d[1..] + [k];
      SumWeightsAppendKey(d[1..], k, xs, key, w);
    }
  }

  /** Grouping by key loses nothing: the per-key counts add up to the length. */
  lemma {:induction false} CountsAddUp<T, K>(xs: seq<T>, key: T -> K)
    ensures SumCounts(Distinct(KeysOf(xs, key)), xs, key) == |xs|
  {
    if xs != [] {
      var ys, x := xs[..|xs| - 1], xs[|xs| - 1];
      assert xs == ys + [x];
      assert KeysOf(xs, key)[..|xs| - 1] == KeysOf(ys, key);
      var d := Distinct(KeysOf(ys, key));
      CountsAddUp(ys, key);
      SumCountsStep(d, ys, x, key);
      OccurrencesDistinct(d, key(x));
      if key(x) !in d {
        SumCountsAppendKey(d, key(x), xs, key);
        SumCountsStep(d, ys, x, key);
        CountByAbsent(ys, key, key(x));
        assert CountBy(xs, key, key(x)) == 1;
      }
    }
  }

  /** Grouping by key loses nothing: the per-key weight sums add up to the total weight. */
  lemma {:induction false} WeightsAddUp<T, K>(xs: seq<T>, key: T -> K, w: T -> real)
    ensures SumWeights(Distinct(KeysOf(xs, key)), xs, key, w) == TotalWeight(xs, w)
  {
    if xs != [] {
      var ys, x := xs[..|xs| - 1], xs[|xs| - 1];
      assert xs == ys + [x];
      assert KeysOf(xs, key)[..|xs| - 1] == KeysOf(ys, key);
      var d := Distinct(KeysOf(ys, key));
      WeightsAddUp(ys, key, w);
      SumWeightsStep(d, ys, x, key, w);
      assert TotalWeight(xs, w) == TotalWeight(ys, w) + w(x);
      if key(x) in d {
        assert Distinct(KeysOf(xs, key)) == d;
      } else {
        assert Distinct(KeysOf(xs, key)) == d + [key(x)];
        SumWeightsAppendKey(d, key(x), xs, key, w);
        WeightByAbsent(ys, key, w, key(x));
        assert WeightBy(xs, key, w, key(x)) == WeightBy(ys, key, w, key(x)) + w(x);
      }
    }
  }

  /** All elements of the inner sequences, in order. */
  function Flatten<T>(ss: seq<seq<T>>): seq<T>
  {
    if ss == [] then [] else Flatten(ss[..|ss| - 1]) + ss[|ss| - 1]
  }

  /** The elements of `xs` that satisfy `p`, in order (`Array.prototype.filter`). */
  function Filter<T(==,!new)>(xs: seq<T>, p: T -> bool): (r: seq<T>)
    ensures |r| <= |xs|
    ensures forall i :: 0 <= i < |r| ==> p(r[i])
    ensures forall x :: x in r <==> x in xs && p(x)
  {
    if xs == [] then []
    else Filter(xs[..|xs| - 1], p) + (if p(xs[|xs| - 1]) then [xs[|xs| - 1]] else [])
  }

  /** A filter keeps the order of what it keeps. */
  lemma {:induction false} FilterIsSubseq<T(!new)>(xs: seq<T>, p: T -> bool)
    ensures SubseqOf(Filter(xs, p), xs)
  {
    if xs == [] {
      SubseqRefl(xs);
    } else {
      var init := xs[..|xs| - 1];
      var last := xs[|xs| - 1];
      FilterIsSubseq(init, p);
      assert xs == init + [last];
      if p(last) {
        SubseqKeep(Filter(init, p), init, last);
        assert Filter(xs, p) == Filter(init, p) + [last];
      } else {
        SubseqSkip(Filter(init, p), init, last);
        assert Filter(xs, p) == Filter(init, p);
      }
    }
  }
}
