/** Sequence operations shared by the models: filtering, leading slices and the subsequence order. */
module Seqs {

  function Min(a: int, b: int): int { if a <= b then a else b }

  function Max(a: int, b: int): int { if a >= b then a else b }

  /** Length kept by a leading slice that ends at `end`, where a negative `end` counts back from the end. */
  function SliceLength(len: nat, end: int): (n: nat)
    ensures n <= len
  {
    if end < 0 then (if len + end < 0 then 0 else len + end)
    else if end < len then end
    else len
  }

  /** `s.slice(0, end)` in JavaScript, `s[:end]` in Python and `DataFrame.head(end)` in pandas:
      all three keep a leading part of `s`, and all three read a negative `end` as "all but the last -end". */
  function Prefix<T>(s: seq<T>, end: int): (r: seq<T>)
    ensures r <= s
    ensures 0 <= end ==> |r| == Min(end, |s|)
    ensures end < 0 ==> |r| == Max(0, |s| + end)
  {
    s[..SliceLength(|s|, end)]
  }

  /** The elements of `s` that satisfy `p`, in their order in `s` (`Array.prototype.filter`, a boolean mask). */
  function Filter<T>(p: T -> bool, s: seq<T>): (r: seq<T>)
    ensures |r| <= |s|
    ensures forall i :: 0 <= i < |r| ==> p(r[i])
    ensures forall i :: 0 <= i < |r| ==> r[i] in s
    ensures forall i :: 0 <= i < |s| && p(s[i]) ==> s[i] in r
    ensures (forall i :: 0 <= i < |s| ==> p(s[i])) ==> r == s
  {
    if |s| == 0 then []
    else if p(s[0]) then [s[0]] + Filter(p, s[1..])
    else Filter(p, s[1..])
  }

  /** Filtering keeps every copy of a satisfying element; with `FilterIsSubsequence` this fixes the result. */
  lemma {:induction false} FilterKeepsCopies<T>(p: T -> bool, s: seq<T>)
    ensures forall i :: 0 <= i < |s| && p(s[i]) ==> multiset(Filter(p, s))[s[i]] == multiset(s)[s[i]]
  {
    if |s| > 0 {
      FilterKeepsCopies(p, s[1..]);
      FilterCountStep(p, s, Filter(p, s[1..]));
      assert Filter(p, s) == if p(s[0]) then [s[0]] + Filter(p, s[1..]) else Filter(p, s[1..]);
    }
  }

  /** One step of `Filter`: a satisfying element keeps all its copies once the head is put back. */
  lemma FilterCountStep<T>(p: T -> bool, s: seq<T>, rest: seq<T>)
    requires |s| > 0
    requires forall i :: 0 <= i < |rest| ==> rest[i] in s[1..]
    requires forall i :: 0 <= i < |s| - 1 && p(s[1..][i]) ==> multiset(rest)[s[1..][i]] == multiset(s[1..])[s[1..][i]]
    ensures var r := if p(s[0]) then [s[0]] + rest else rest;
            forall i :: 0 <= i < |s| && p(s[i]) ==> multiset(r)[s[i]] == multiset(s)[s[i]]
  {
    var r := if p(s[0]) then [s[0]] + rest else rest;
    assert s == [s[0]] + s[1..];
    forall i | 0 <= i < |s| && p(s[i]) ensures multiset(r)[s[i]] == multiset(s)[s[i]] {
      var x := s[i];
      if i > 0 {
        assert s[1..][i - 1] == x;
      } else if x in s[1..] {
        var k :| 0 <= k < |s| - 1 && s[1..][k] == x;
      } else {
        assert x !in rest;
      }
    }
  }

  /** `a` can be obtained from `b` by deleting elements: same elements, same relative order. */
  predicate IsSubsequence<T(==)>(a: seq<T>, b: seq<T>)
    decreases |b|
  {
    if |a| == 0 then true
    else if |b| == 0 then false
    else (a[0] == b[0] && IsSubsequence(a[1..], b[1..])) || IsSubsequence(a, b[1..])
  }

  /** Filtering keeps the survivors in their original relative order. */
  lemma {:induction false} FilterIsSubsequence<T>(p: T -> bool, s: seq<T>)
    ensures IsSubsequence(Filter(p, s), s)
  {
    if |s| == 0 {
    } else if p(s[0]) {
      FilterIsSubsequence(p, s[1..]);
      assert (Filter(p, s))[1..] == Filter(p, s[1..]);
    } else {
      FilterIsSubsequence(p, s[1..]);
    }
  }
}
