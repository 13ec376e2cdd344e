/** Generic sequence helpers shared by the loader, the timeline and the
    anonymiser: the Option/Result wrappers, order-preserving filtering,
    first-occurrence lookup and first-appearance de-duplication. */
module Seqs {

  datatype Option<+T> = None | Some(value: T)

  datatype Result<+T, +E> = Ok(value: T) | Err(error: E)

  /** `r` keeps some of the elements of `s`, in the order they have in `s`. */
  ghost predicate IsSubsequence<T>(r: seq<T>, s: seq<T>)
    decreases |s|
  {
    if r == [] then true
    else if s == [] then false
    else (r[0] == s[0] && IsSubsequence(r[1..], s[1..])) || IsSubsequence(r, s[1..])
  }

  /** Boolean-mask selection (`df[mask]`): the elements of `s` that satisfy
      `keep`, each as often as in `s`, in their original order. */
  function Filter<T(!new)>(keep: T -> bool, s: seq<T>): (r: seq<T>)
    ensures |r| <= |s|
    ensures forall x :: x in r <==> x in s && keep(x)
    ensures forall x :: multiset(r)[x] == if keep(x) then multiset(s)[x] else 0
    ensures IsSubsequence(r, s)
  {
    if s == [] then []
    else
      var rest := Filter(keep, s[1..]);
      assert s == [s[0]] + s[1..];
      if keep(s[0]) then
        var r := [s[0]] + rest;
        assert r[1..] == rest;
        r
      else rest
  }

  lemma {:induction false} FilterKeepsDistinct<T(!new)>(keep: T -> bool, s: seq<T>)
    requires NoDuplicates(s)
    ensures NoDuplicates(Filter(keep, s))
  {
    if s != [] {
      FilterKeepsDistinct(keep, s[1..]);
      assert s[0] !in s[1..];
    }
  }

  /** The position of the first occurrence of `x` in `s`. */
  function IndexOf<T(==)>(s: seq<T>, x: T): (i: nat)
    requires x in s
    ensures i < |s| && s[i] == x
    ensures forall j :: 0 <= j < i ==> s[j] != x
  {
    if s[0] == x then 0 else 1 + IndexOf(s[1..], x)
  }

  predicate NoDuplicates<T(==)>(s: seq<T>) {
    forall i, j :: 0 <= i < j < |s| ==> s[i] != s[j]
  }

  lemma AppendDistinct<T>(a: seq<T>, b: seq<T>)
    requires NoDuplicates(a) && NoDuplicates(b)
    requires forall x :: x in b ==> x !in a
    ensures NoDuplicates(a + b)
  {
    var s := a + b;
    forall i, j | 0 <= i < j < |s| ensures s[i] != s[j] {
      if i < |a| && j >= |a| {
        assert s[j] == b[j - |a|] && s[i] in a;
      }
    }
  }

  lemma IndexOfDistinct<T>(s: seq<T>, i: nat)
    requires NoDuplicates(s) && i < |s|
    ensures IndexOf(s, s[i]) == i
  {
  }

  /** The distinct elements of `s` in order of first appearance (pandas'
      `Series.unique`). */
  function Unique<T(==,!new)>(s: seq<T>): (u: seq<T>)
    ensures NoDuplicates(u)
    ensures forall x :: x in u <==> x in s
    ensures forall a, b :: 0 <= a < b < |u| ==> IndexOf(s, u[a]) < IndexOf(s, u[b])
  {
    if s == [] then []
    else
      var init := s[..|s| - 1];
      var last := s[|s| - 1];
      var v := Unique(init);
      assert s == init + [last];
      forall x | x in init ensures IndexOf(s, x) == IndexOf(init, x) && IndexOf(s, x) < |s| - 1 {
        PrefixIndexOf(init, last, x);
      }
      if last in v then v
      else
        var u := v + [last];
        assert forall x :: x in init ==> x != last;
        assert IndexOf(s, last) == |s| - 1;
        u
  }

  lemma PrefixIndexOf<T>(init: seq<T>, last: T, x: T)
    requires x in init
    ensures IndexOf(init + [last], x) == IndexOf(init, x)
  {
    var s := init + [last];
    var i := IndexOf(init, x);
    assert s[i] == x;
    assert forall j :: 0 <= j < i ==> s[j] == init[j];
  }
}
