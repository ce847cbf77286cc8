/** Sequence helpers shared by several modules. */
module Seqs {
  /** JavaScript `Array.prototype.indexOf`: the first index holding `x`, or -1. */
  function IndexOf<T(==)>(s: seq<T>, x: T): (r: int)
    ensures -1 <= r < |s|
    ensures r == -1 <==> x !in s
    ensures r >= 0 ==> s[r] == x && forall j :: 0 <= j < r ==> s[j] != x
  {
    if s == [] then -1
    else if s[0] == x then 0
    else var k := IndexOf(s[1..], x); if k == -1 then -1 else k + 1
  }

  /** `s.filter((x, i) => s.indexOf(x) === i)` from position `i` on. */
  function KeepFirstFrom<T(==,!new)>(s: seq<T>, i: nat): (r: seq<T>)
    requires i <= |s|
    decreases |s| - i
    ensures forall x :: x in r <==> x in s && IndexOf(s, x) >= i
    ensures forall a, b :: 0 <= a < b < |r| ==> IndexOf(s, r[a]) < IndexOf(s, r[b])
  {
    if i == |s| then []
    else
      var rest := KeepFirstFrom(s, i + 1);
      if IndexOf(s, s[i]) == i then [s[i]] + rest else rest
  }

  /** The de-duplicating filter: each element at its first occurrence, in order. */
  function KeepFirst<T(==,!new)>(s: seq<T>): (r: seq<T>)
    ensures forall x :: x in r <==> x in s
    ensures forall a, b :: 0 <= a < b < |r| ==> r[a] != r[b]
    ensures forall a, b :: 0 <= a < b < |r| ==> IndexOf(s, r[a]) < IndexOf(s, r[b])
    ensures |r| <= |s|
  {
    var r := KeepFirstFrom(s, 0);
    DistinctBound(r, s);
    r
  }

  predicate Distinct<T(==)>(s: seq<T>)
  {
    forall a, b :: 0 <= a < b < |s| ==> s[a] != s[b]
  }

  /** A duplicate-free sequence drawn from `s` is no longer than `s`. */
  lemma DistinctBound<T>(r: seq<T>, s: seq<T>)
    requires forall a, b :: 0 <= a < b < |r| ==> r[a] != r[b]
    requires forall x :: x in r ==> x in s
    ensures |r| <= |s|
  {
    var rs := set x | x in r;
    var ss := set x | x in s;
    DistinctCard(r);
    SetCardBound(s);
    assert rs <= ss;
    assert ss == rs + (ss - rs);
    assert rs * (ss - rs) == {};
  }

  lemma {:induction false} DistinctCard<T>(r: seq<T>)
    requires forall a, b :: 0 <= a < b < |r| ==> r[a] != r[b]
    ensures |set x | x in r| == |r|
  {
    if r != [] {
      var t := r[1..];
      DistinctCard(t);
      assert (set x | x in r) == {r[0]} + (set x | x in t);
      assert r[0] !in t;
    }
  }

  lemma {:induction false} SetCardBound<T>(s: seq<T>)
    ensures |set x | x in s| <= |s|
  {
    if s != [] {
      SetCardBound(s[1..]);
      assert (set x | x in s) == {s[0]} + (set x | x in s[1..]);
    }
  }

  /** Keeps the elements that satisfy `p`, in order. */
  function Filter<T(!new)>(p: T -> bool, s: seq<T>): (r: seq<T>)
    ensures |r| <= |s|
    ensures forall x :: x in r <==> x in s && p(x)
  {
    if s == [] then [] else (if p(s[0]) then [s[0]] else []) + Filter(p, s[1..])
  }

  function Sum(s: seq<nat>): nat
  {
    if s == [] then 0 else s[0] + Sum(s[1..])
  }
}
