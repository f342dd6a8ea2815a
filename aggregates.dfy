/**
 * Sum, minimum and maximum of a sequence of integers, defined the way the
 * collectors' loops build them: one element at a time, from the front.
 */
module Aggregates {

  function Sum(s: seq<int>): int
  {
    if |s| == 0 then 0 else Sum(s[..|s| - 1]) + s[|s| - 1]
  }

  function MinOf(s: seq<int>): int
    requires |s| > 0
  {
    if |s| == 1 then s[0]
    else var m := MinOf(s[..|s| - 1]); if s[|s| - 1] < m then s[|s| - 1] else m
  }

  function MaxOf(s: seq<int>): int
    requires |s| > 0
  {
    if |s| == 1 then s[0]
    else var m := MaxOf(s[..|s| - 1]); if s[|s| - 1] > m then s[|s| - 1] else m
  }

  lemma {:induction false} SumAppend(a: seq<int>, b: seq<int>)
    ensures Sum(a + b) == Sum(a) + Sum(b)
    decreases |b|
  {
    if |b| == 0 {
      assert a + b == a;
    } else {
      assert (a + b)[..|a + b| - 1] == a + b[..|b| - 1];
      SumAppend(a, b[..|b| - 1]);
    }
  }

  /** `MinOf` is a lower bound of the sequence and one of its elements. */
  lemma {:induction false} MinOfIsLeast(s: seq<int>)
    requires |s| > 0
    ensures forall i :: 0 <= i < |s| ==> MinOf(s) <= s[i]
    ensures exists i :: 0 <= i < |s| && s[i] == MinOf(s)
  {
    if |s| > 1 {
      var p := s[..|s| - 1];
      MinOfIsLeast(p);
      var k :| 0 <= k < |p| && p[k] == MinOf(p);
      if s[|s| - 1] < MinOf(p) {
        assert s[|s| - 1] == MinOf(s);
      } else {
        assert s[k] == MinOf(s);
      }
    } else {
      assert s[0] == MinOf(s);
    }
  }

  /** `MaxOf` is an upper bound of the sequence and one of its elements. */
  lemma {:induction false} MaxOfIsGreatest(s: seq<int>)
    requires |s| > 0
    ensures forall i :: 0 <= i < |s| ==> s[i] <= MaxOf(s)
    ensures exists i :: 0 <= i < |s| && s[i] == MaxOf(s)
  {
    if |s| > 1 {
      var p := s[..|s| - 1];
      MaxOfIsGreatest(p);
      var k :| 0 <= k < |p| && p[k] == MaxOf(p);
      if s[|s| - 1] > MaxOf(p) {
        assert s[|s| - 1] == MaxOf(s);
      } else {
        assert s[k] == MaxOf(s);
      }
    } else {
      assert s[0] == MaxOf(s);
    }
  }

  /**
   * The scan the collectors run: start from the first element and replace
   * the running value whenever an element is strictly smaller.
   */
  lemma MinOfStep(s: seq<int>, x: int)
    requires |s| > 0
    ensures MinOf(s + [x]) == if x < MinOf(s) then x else MinOf(s)
  {
    assert (s + [x])[..|s + [x]| - 1] == s;
  }

  lemma MaxOfStep(s: seq<int>, x: int)
    requires |s| > 0
    ensures MaxOf(s + [x]) == if x > MaxOf(s) then x else MaxOf(s)
  {
    assert (s + [x])[..|s + [x]| - 1] == s;
  }

  lemma SumStep(s: seq<int>, x: int)
    ensures Sum(s + [x]) == Sum(s) + x
  {
    assert (s + [x])[..|s + [x]| - 1] == s;
  }
}
