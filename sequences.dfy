/** Searches over sequences and strings as JavaScript's `indexOf` and `lastIndexOf`
    perform them, and duplicate-freedom. */
module Sequences {

  /** `indexOf` on an array or a string: the first index holding x, or -1. */
  function IndexOf<T(==)>(s: seq<T>, x: T): (r: int)
    ensures -1 <= r < |s|
    ensures r >= 0 ==> s[r] == x && forall j :: 0 <= j < r ==> s[j] != x
    ensures r < 0 <==> x !in s
  {
    if s == [] then -1
    else if s[0] == x then 0
    else
      var t := IndexOf(s[1..], x);
      if t < 0 then -1 else t + 1
  }

  predicate NoDup<T(==)>(s: seq<T>) {
    forall i, j :: 0 <= i < j < |s| ==> s[i] != s[j]
  }

  /** `lastIndexOf`: the last index holding x, or -1. */
  function LastIndexOf<T(==)>(s: seq<T>, x: T): (r: int)
    ensures -1 <= r < |s|
    ensures r >= 0 ==> s[r] == x && forall j :: r < j < |s| ==> s[j] != x
    ensures r < 0 <==> x !in s
  {
    if s == [] then -1
    else if s[|s| - 1] == x then |s| - 1
    else LastIndexOf(s[..|s| - 1], x)
  }

  /** The last x of `pre + [x] + post` is the one between them when post holds none. */
  lemma {:induction false} LastIndexOfBefore<T>(pre: seq<T>, x: T, post: seq<T>)
    requires x !in post
    ensures LastIndexOf(pre + [x] + post, x) == |pre|
    decreases |post|
  {
    var s := pre + [x] + post;
    if post == [] {
      assert s == pre + [x];
    } else {
      var init := post[..|post| - 1];
      assert s[|s| - 1] == post[|post| - 1];
      assert post[|post| - 1] in post;
      assert s[..|s| - 1] == pre + [x] + init;
      assert forall y :: y in init ==> y in post;
      LastIndexOfBefore(pre, x, init);
    }
  }

  lemma IndexOfDistinct<T>(s: seq<T>, i: int)
    requires NoDup(s) && 0 <= i < |s|
    ensures IndexOf(s, s[i]) == i
  {
  }

  /** Behind a prefix that does not hold x, the first x is where the rest starts. */
  lemma IndexOfAfter<T>(pre: seq<T>, rest: seq<T>, x: T)
    requires x !in pre && rest != [] && rest[0] == x
    ensures IndexOf(pre + rest, x) == |pre|
  {
    var s := pre + rest;
    assert s[|pre|] == x;
    assert forall j :: 0 <= j < |pre| ==> s[j] == pre[j];
  }
}
