/** Sequence vocabulary shared by the grouping model: duplicate-freedom,
    first-occurrence de-duplication and occurrence counting. */
module Seqs {
  import opened Wrappers

  /** No element occurs twice in `s`. */
  ghost predicate NoDup<T>(s: seq<T>) {
    forall i, j :: 0 <= i < j < |s| ==> s[i] != s[j]
  }

  /** The index at which `x` first occurs in `s`. */
  function FirstIndex<T(==)>(s: seq<T>, x: T): (k: nat)
    requires x in s
    ensures k < |s| && s[k] == x
    ensures x !in s[..k]
  {
    if s[0] == x then 0 else 1 + FirstIndex(s[1..], x)
  }

  /** The distinct elements of `s`, each placed where it first occurs. */
  function Dedup<T(==,!new)>(s: seq<T>): (r: seq<T>)
    ensures NoDup(r)
    ensures forall x :: x in r <==> x in s
    ensures |r| <= |s|
  {
    if |s| == 0 then []
    else
      var p := Dedup(s[..|s| - 1]);
      assert s == s[..|s| - 1] + [s[|s| - 1]];
      if s[|s| - 1] in p then p else p + [s[|s| - 1]]
  }

  /** The number of times `x` occurs in `s`. */
  function Count<T(==)>(s: seq<T>, x: T): (n: nat)
    ensures n <= |s|
    ensures n > 0 <==> x in s
  {
    if |s| == 0 then 0
    else
      assert s == s[..|s| - 1] + [s[|s| - 1]];
      Count(s[..|s| - 1], x) + (if s[|s| - 1] == x then 1 else 0)
  }

  /** The sum, over the keys `ks`, of the number of times each occurs in `s`. */
  function SumCounts<T(==)>(ks: seq<T>, s: seq<T>): nat
  {
    if |ks| == 0 then 0
    else SumCounts(ks[..|ks| - 1], s) + Count(s, ks[|ks| - 1])
  }

  lemma CountSnoc<T>(s: seq<T>, y: T, x: T)
    ensures Count(s + [y], x) == Count(s, x) + (if x == y then 1 else 0)
  {
    assert (s + [y])[..|s|] == s;
  }

  /** A duplicate-free sequence holds each of its elements exactly once. */
  lemma {:induction false} CountNoDup<T>(ks: seq<T>, y: T)
    requires NoDup(ks)
    ensures Count(ks, y) == if y in ks then 1 else 0
  {
    if |ks| > 0 {
      var p := ks[..|ks| - 1];
      assert ks == p + [ks[|ks| - 1]];
      assert NoDup(p);
      CountNoDup(p, y);
      if y == ks[|ks| - 1] {
        assert y !in p;
      }
    }
  }

  /** Appending `y` to `s` adds to the sum one for each key equal to `y`. */
  lemma {:induction false} SumCountsSnoc<T>(ks: seq<T>, s: seq<T>, y: T)
    ensures SumCounts(ks, s + [y]) == SumCounts(ks, s) + Count(ks, y)
  {
    if |ks| > 0 {
      SumCountsSnoc(ks[..|ks| - 1], s, y);
      CountSnoc(s, y, ks[|ks| - 1]);
    }
  }

  /** Counting every distinct element of `s` counts every position of `s`
      exactly once. */
  lemma {:induction false} SumCountsDedup<T(!new)>(s: seq<T>)
    ensures SumCounts(Dedup(s), s) == |s|
  {
    if |s| > 0 {
      var p := s[..|s| - 1];
      var y := s[|s| - 1];
      assert s == p + [y];
      var d := Dedup(p);
      SumCountsDedup(p);
      SumCountsSnoc(d, p, y);
      CountNoDup(d, y);
      if y !in d {
        assert Dedup(s) == d + [y];
        assert (d + [y])[..|d|] == d;
        CountSnoc(p, y, y);
      }
    }
  }

  /** `Dedup` keeps elements in the order of their first occurrence. */
  lemma {:induction false} DedupFirstOccurrenceOrder<T(!new)>(s: seq<T>, i: nat, j: nat)
    requires i < j < |Dedup(s)|
    ensures FirstIndex(s, Dedup(s)[i]) < FirstIndex(s, Dedup(s)[j])
  {
    var p := s[..|s| - 1];
    var y := s[|s| - 1];
    assert s == p + [y];
    var d := Dedup(p);
    if y in d {
      assert Dedup(s) == d;
      DedupFirstOccurrenceOrder(p, i, j);
      FirstIndexPrefix(p, y, d[i]);
      FirstIndexPrefix(p, y, d[j]);
    } else {
      assert Dedup(s) == d + [y];
      FirstIndexPrefix(p, y, d[i]);
      if j < |d| {
        DedupFirstOccurrenceOrder(p, i, j);
        FirstIndexPrefix(p, y, d[j]);
      } else {
        FirstIndexLast(p, y);
      }
    }
  }

  lemma {:induction false} FirstIndexPrefix<T>(p: seq<T>, y: T, x: T)
    requires x in p
    ensures FirstIndex(p + [y], x) == FirstIndex(p, x)
  {
    if p[0] != x {
      assert (p + [y])[1..] == p[1..] + [y];
      FirstIndexPrefix(p[1..], y, x);
    }
  }

  lemma {:induction false} FirstIndexLast<T>(p: seq<T>, y: T)
    requires y !in p
    ensures FirstIndex(p + [y], y) == |p|
  {
    if |p| > 0 {
      assert (p + [y])[1..] == p[1..] + [y];
      FirstIndexLast(p[1..], y);
    }
  }

  /** Every element satisfies `p`. */
  predicate All<T>(s: seq<T>, p: T -> bool) {
    forall i :: 0 <= i < |s| ==> p(s[i])
  }

  lemma AllSnoc<T>(s: seq<T>, p: T -> bool)
    requires |s| > 0
    ensures All(s, p) <==> All(s[..|s| - 1], p) && p(s[|s| - 1])
  {
    if All(s[..|s| - 1], p) && p(s[|s| - 1]) {
      forall i | 0 <= i < |s|
        ensures p(s[i])
      {
        if i < |s| - 1 {
          assert s[i] == s[..|s| - 1][i];
        }
      }
    }
  }

  /** Appending `f` of the last element keeps `ps` the image of `s`
      under `f`, element by element. */
  lemma MapSnoc<T, U>(s: seq<T>, ps: seq<U>, x: U, f: T -> U)
    requires |s| > 0 && |ps| == |s| - 1
    requires forall i :: 0 <= i < |ps| ==> ps[i] == f(s[i])
    requires x == f(s[|s| - 1])
    ensures forall i :: 0 <= i < |s| ==> (ps + [x])[i] == f(s[i])
  {
  }

  /** The values `f` returns on the elements of `s`, leaving out the
      elements on which it fails. */
  function Values<T, U, E>(s: seq<T>, f: T -> Result<U, E>): set<U> {
    set i | 0 <= i < |s| && f(s[i]).Success? :: f(s[i]).value
  }

  lemma ValuesSnoc<T, U, E>(s: seq<T>, f: T -> Result<U, E>)
    requires |s| > 0 && f(s[|s| - 1]).Success?
    ensures Values(s, f) == Values(s[..|s| - 1], f) + {f(s[|s| - 1]).value}
  {
    var init := s[..|s| - 1];
    forall y | y in Values(s, f)
      ensures y in Values(init, f) + {f(s[|s| - 1]).value}
    {
      var i :| 0 <= i < |s| && f(s[i]).Success? && y == f(s[i]).value;
      if i < |s| - 1 {
        assert s[i] == init[i];
      }
    }
    forall y | y in Values(init, f)
      ensures y in Values(s, f)
    {
      var i :| 0 <= i < |init| && f(init[i]).Success? && y == f(init[i]).value;
      assert init[i] == s[i];
    }
  }

  lemma ValuesEmpty<T, U, E>(f: T -> Result<U, E>)
    ensures Values([], f) == {}
  {
  }
}
