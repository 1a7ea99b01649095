/** Sequence operations that the catalog views borrow from JavaScript's
    arrays: `filter`, `slice`, `flatMap`, and the iteration order of a `Set`
    built from an array. Each is stated once here and shared by every page. */
module Seqs {

  datatype Option<T> = None | Some(value: T)

  /** `s.find(p)`: the first element satisfying `p`, or nothing (`undefined`). */
  function FindFirst<T>(s: seq<T>, p: T -> bool): (r: Option<T>)
    ensures r.None? <==> forall k :: 0 <= k < |s| ==> !p(s[k])
    ensures r.Some? ==> exists k :: 0 <= k < |s| && s[k] == r.value && p(s[k]) &&
                                    forall m :: 0 <= m < k ==> !p(s[m])
  {
    if s == [] then None
    else if p(s[0]) then Some(s[0])
    else
      var r := FindFirst(s[1..], p);
      assert forall k :: 1 <= k < |s| ==> s[k] == s[1..][k - 1];
      r
  }

  /** `s.filter(p)`: the elements of `s` that satisfy `p`, in their order. */
  function Filter<T(!new)>(s: seq<T>, p: T -> bool): (r: seq<T>)
    ensures |r| <= |s|
    ensures forall x :: x in r <==> x in s && p(x)
  {
    if s == [] then [] else (if p(s[0]) then [s[0]] else []) + Filter(s[1..], p)
  }

  lemma FilterCons<T(!new)>(x: T, s: seq<T>, p: T -> bool)
    ensures Filter([x] + s, p) == (if p(x) then [x] else []) + Filter(s, p)
  {
    assert ([x] + s)[0] == x;
    assert ([x] + s)[1..] == s;
  }

  /** Filtering distributes over concatenation. */
  lemma {:induction false} FilterConcat<T(!new)>(a: seq<T>, b: seq<T>, p: T -> bool)
    ensures Filter(a + b, p) == Filter(a, p) + Filter(b, p)
  {
    if a != [] {
      assert (a + b)[0] == a[0];
      assert (a + b)[1..] == a[1..] + b;
      FilterConcat(a[1..], b, p);
    } else {
      assert a + b == b;
    }
  }

  /** Two predicates that agree everywhere select the same elements. */
  lemma {:induction false} FilterExt<T(!new)>(s: seq<T>, p: T -> bool, q: T -> bool)
    requires forall x :: p(x) == q(x)
    ensures Filter(s, p) == Filter(s, q)
  {
    if s != [] {
      FilterExt(s[1..], p, q);
    }
  }

  /** A predicate that holds of every element keeps the whole sequence. */
  lemma {:induction false} FilterAll<T(!new)>(s: seq<T>, p: T -> bool)
    requires forall x :: x in s ==> p(x)
    ensures Filter(s, p) == s
  {
    if s != [] {
      FilterAll(s[1..], p);
    }
  }

  /** The first element a filter keeps is the first element satisfying the predicate. */
  lemma {:induction false} FilterFirst<T(!new)>(s: seq<T>, p: T -> bool)
    requires Filter(s, p) != []
    ensures exists k :: 0 <= k < |s| && p(s[k]) && Filter(s, p)[0] == s[k] &&
                        forall m :: 0 <= m < k ==> !p(s[m])
  {
    if !p(s[0]) {
      FilterFirst(s[1..], p);
      var k :| 0 <= k < |s[1..]| && p(s[1..][k]) && Filter(s[1..], p)[0] == s[1..][k] &&
               forall m :: 0 <= m < k ==> !p(s[1..][m]);
      assert s[k + 1] == s[1..][k];
      forall m | 0 <= m < k + 1 ensures !p(s[m]) {
        if m > 0 { assert s[m] == s[1..][m - 1]; }
      }
    } else {
      assert Filter(s, p)[0] == s[0];
    }
  }

  /** A predicate and its negation split a sequence's length between them. */
  lemma {:induction false} FilterComplementLength<T(!new)>(s: seq<T>, p: T -> bool, notP: T -> bool)
    requires forall x :: notP(x) == !p(x)
    ensures |Filter(s, p)| + |Filter(s, notP)| == |s|
  {
    if s != [] {
      FilterComplementLength(s[1..], p, notP);
    }
  }

  /** Two filters in a row are one filter by the conjunction. */
  lemma {:induction false} FilterFilter<T(!new)>(s: seq<T>, p: T -> bool, q: T -> bool, both: T -> bool)
    requires forall x :: both(x) == (p(x) && q(x))
    ensures Filter(Filter(s, p), q) == Filter(s, both)
  {
    if s != [] {
      FilterFilter(s[1..], p, q, both);
      var rest := Filter(s[1..], p);
      if p(s[0]) {
        assert Filter(s, p) == [s[0]] + rest;
        assert ([s[0]] + rest)[0] == s[0];
        assert ([s[0]] + rest)[1..] == rest;
      } else {
        assert Filter(s, p) == rest;
      }
    }
  }

  /** Hence the order in which two filters are applied does not matter. */
  lemma FilterCommutes<T(!new)>(s: seq<T>, p: T -> bool, q: T -> bool)
    ensures Filter(Filter(s, p), q) == Filter(Filter(s, q), p)
  {
    var both := x => p(x) && q(x);
    FilterFilter(s, p, q, both);
    FilterFilter(s, q, p, both);
  }

  /** `idx` lists, strictly increasing, the positions of `b` that spell out `a`. */
  ghost predicate Embedding<T>(idx: seq<nat>, a: seq<T>, b: seq<T>) {
    && |idx| == |a|
    && (forall k :: 0 <= k < |idx| ==> idx[k] < |b| && a[k] == b[idx[k]])
    && (forall k, l :: 0 <= k < l < |idx| ==> idx[k] < idx[l])
  }

  /** `a` is obtained from `b` by deleting elements: order is kept and no
      element of `b` is used twice. */
  ghost predicate SubsequenceOf<T>(a: seq<T>, b: seq<T>) {
    exists idx :: Embedding(idx, a, b)
  }

  lemma SubsequenceCons<T>(a: seq<T>, b: seq<T>, x: T, keep: bool)
    requires SubsequenceOf(a, b)
    ensures SubsequenceOf(if keep then [x] + a else a, [x] + b)
  {
    var idx :| Embedding(idx, a, b);
    var shifted := seq(|idx|, k requires 0 <= k < |idx| => idx[k] + 1);
    if keep {
      var idx' := [0] + shifted;
      assert forall k :: 1 <= k < |idx'| ==> idx'[k] == idx[k - 1] + 1;
      assert Embedding(idx', [x] + a, [x] + b);
    } else {
      assert Embedding(shifted, a, [x] + b);
    }
  }

  /** A filter result is a subsequence of its input. */
  lemma {:induction false} FilterIsSubsequence<T(!new)>(s: seq<T>, p: T -> bool)
    ensures SubsequenceOf(Filter(s, p), s)
  {
    if s == [] {
      assert Embedding([], Filter(s, p), s);
    } else {
      FilterIsSubsequence(s[1..], p);
      SubsequenceCons(Filter(s[1..], p), s[1..], s[0], p(s[0]));
      assert [s[0]] + s[1..] == s;
      assert Filter(s, p) == if p(s[0]) then [s[0]] + Filter(s[1..], p) else Filter(s[1..], p);
    }
  }

  /** A stronger predicate selects a subsequence of what a weaker one selects. */
  lemma NarrowerFilterIsSubsequence<T(!new)>(s: seq<T>, p: T -> bool, q: T -> bool)
    requires forall x :: q(x) ==> p(x)
    ensures SubsequenceOf(Filter(s, q), Filter(s, p))
  {
    FilterFilter(s, p, q, q);
    FilterIsSubsequence(Filter(s, p), q);
  }

  lemma SubsequenceTransitive<T>(a: seq<T>, b: seq<T>, c: seq<T>)
    requires SubsequenceOf(a, b) && SubsequenceOf(b, c)
    ensures SubsequenceOf(a, c)
  {
    var ab :| Embedding(ab, a, b);
    var bc :| Embedding(bc, b, c);
    var ac := seq(|ab|, k requires 0 <= k < |ab| => bc[ab[k]]);
    assert Embedding(ac, a, c);
  }

  predicate NoDuplicates<T(==)>(s: seq<T>) {
    forall i, j :: 0 <= i < j < |s| ==> s[i] != s[j]
  }

  /** A list without repeats has as many elements as its set. */
  lemma {:induction false} DistinctCardinality<T>(s: seq<T>)
    requires NoDuplicates(s)
    ensures |set x | x in s| == |s|
  {
    if s != [] {
      var t := s[1..];
      assert NoDuplicates(t) by {
        forall i, j | 0 <= i < j < |t| ensures t[i] != t[j] {
          assert t[i] == s[i + 1] && t[j] == s[j + 1];
        }
      }
      DistinctCardinality(t);
      assert s[0] !in t by {
        forall i | 0 <= i < |t| ensures t[i] != s[0] {
          assert t[i] == s[i + 1];
        }
      }
      assert (set x | x in s) == {s[0]} + (set x | x in t) by {
        assert s == [s[0]] + t;
      }
    }
  }

  /** `[...new Set(s)]`: every element of `s` once, at its first appearance. */
  function Distinct<T(!new,==)>(s: seq<T>): (r: seq<T>)
    ensures forall x :: x in r <==> x in s
    ensures NoDuplicates(r)
  {
    if s == [] then []
    else
      var d := Distinct(s[..|s| - 1]);
      assert forall x :: x in s <==> x in s[..|s| - 1] || x == s[|s| - 1];
      if s[|s| - 1] in d then d else d + [s[|s| - 1]]
  }

  /** Distinct keeps first-appearance order: an element listed before
      another occurs in `s` before every occurrence of the later one. */
  lemma {:induction false} DistinctFirstAppearance<T(!new)>(s: seq<T>)
    ensures forall i, j, k :: 0 <= i < j < |Distinct(s)| && 0 <= k < |s| && s[k] == Distinct(s)[j] ==>
              Distinct(s)[i] in s[..k]
  {
    if s != [] {
      var n := |s|;
      var pre := s[..n - 1];
      var d := Distinct(pre);
      DistinctFirstAppearance(pre);
      var r := Distinct(s);
      forall i, j, k | 0 <= i < j < |r| && 0 <= k < n && s[k] == r[j]
        ensures r[i] in s[..k]
      {
        assert r[i] in d;
        if k < n - 1 {
          assert pre[k] == s[k];
          assert pre[..k] == s[..k];
          assert s[k] in d;
          assert j < |d|;
          assert r[i] == d[i] && r[j] == d[j];
        } else {
          assert s[..k] == pre;
        }
      }
    }
  }

  /** `ss.flat()` (and so `xs.flatMap(f)`): the sequences of `ss` laid end to end. */
  function Flatten<T(!new)>(ss: seq<seq<T>>): (r: seq<T>)
    ensures forall x :: x in r <==> exists i :: 0 <= i < |ss| && x in ss[i]
  {
    if ss == [] then []
    else
      var rest := Flatten(ss[1..]);
      assert forall x, i :: 0 < i < |ss| && x in ss[i] ==> x in ss[1..][i - 1];
      ss[0] + rest
  }

  /** A single piece flattens to itself. */
  lemma FlattenSingle<T(!new)>(x: seq<T>)
    ensures Flatten([x]) == x
  {
    assert [x][1..] == [];
  }

  /** Flattening distributes over concatenation: the pieces are laid end to
      end in their order, each element as often as it occurs. */
  lemma {:induction false} FlattenConcat<T(!new)>(a: seq<seq<T>>, b: seq<seq<T>>)
    ensures Flatten(a + b) == Flatten(a) + Flatten(b)
  {
    if a == [] {
      assert a + b == b;
    } else {
      assert (a + b)[0] == a[0];
      assert (a + b)[1..] == a[1..] + b;
      FlattenConcat(a[1..], b);
    }
  }

  /** The index that `Array.prototype.slice` derives from an argument: a
      negative one counts back from the end; both are clamped to `[0, n]`. */
  function RelativeIndex(i: int, n: nat): (k: nat)
    ensures k <= n
  {
    if i < 0 then (if n + i < 0 then 0 else n + i) else if i < n then i else n
  }

  /** `s.slice(start, end)`. */
  function Slice<T>(s: seq<T>, start: int, end: int): (r: seq<T>)
    ensures 0 <= start <= |s| && start <= end ==>
              r == s[start..if end < |s| then end else |s|]
    ensures 0 <= start && 0 <= end && (|s| <= start || end <= start) ==> r == []
  {
    var from, to := RelativeIndex(start, |s|), RelativeIndex(end, |s|);
    if from < to then s[from..to] else []
  }

  /** A slice is a contiguous piece of its input, so a subsequence of it. */
  lemma SliceIsSubsequence<T>(s: seq<T>, start: int, end: int)
    ensures SubsequenceOf(Slice(s, start, end), s)
  {
    var from, to := RelativeIndex(start, |s|), RelativeIndex(end, |s|);
    if from < to {
      var idx := seq(to - from, k requires 0 <= k < to - from => from + k);
      assert Embedding(idx, s[from..to], s);
    } else {
      assert Embedding([], [], s);
    }
  }
}
