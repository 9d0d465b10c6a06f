/** Sums over sequences and what holds of some element, when one element is replaced by several. */
module Sums {

  function Total<T>(f: T -> int, ts: seq<T>): int {
    if ts == [] then 0 else f(ts[0]) + Total(f, ts[1..])
  }

  function Replace<T>(ts: seq<T>, i: nat, more: seq<T>): (r: seq<T>)
    requires i < |ts|
  {
    ts[..i] + more + ts[i + 1..]
  }

  lemma {:induction false} TotalConcat<T>(f: T -> int, a: seq<T>, b: seq<T>)
    ensures Total(f, a + b) == Total(f, a) + Total(f, b)
  {
    if a == [] {
      assert a + b == b;
    } else {
      TotalConcat(f, a[1..], b);
      assert (a + b)[1..] == a[1..] + b;
    }
  }

  lemma TotalReplace<T>(f: T -> int, ts: seq<T>, i: nat, more: seq<T>)
    requires i < |ts|
    ensures Total(f, Replace(ts, i, more)) == Total(f, ts) - f(ts[i]) + Total(f, more)
  {
    TotalConcat(f, ts[..i] + more, ts[i + 1..]);
    TotalConcat(f, ts[..i], more);
    assert ts == ts[..i] + ([ts[i]] + ts[i + 1..]);
    TotalConcat(f, ts[..i], [ts[i]] + ts[i + 1..]);
    TotalConcat(f, [ts[i]], ts[i + 1..]);
    assert Total(f, [ts[i]]) == f(ts[i]);
  }

  lemma {:induction false} TotalNonNegative<T>(f: T -> int, ts: seq<T>)
    requires forall i :: 0 <= i < |ts| ==> f(ts[i]) >= 0
    ensures Total(f, ts) >= 0
  {
    if ts != [] {
      TotalNonNegative(f, ts[1..]);
    }
  }

  // A sum of positive terms is positive unless it is empty.
  lemma {:induction false} TotalPositive<T>(f: T -> int, ts: seq<T>)
    requires forall i :: 0 <= i < |ts| ==> f(ts[i]) >= 1
    ensures Total(f, ts) >= |ts|
  {
    if ts != [] {
      TotalPositive(f, ts[1..]);
    }
  }

  predicate Some<T>(ts: seq<T>, p: T -> bool) {
    exists i :: 0 <= i < |ts| && p(ts[i])
  }

  // What holds of some element after one is replaced.
  lemma SomeReplace<T>(ts: seq<T>, i: nat, more: seq<T>, p: T -> bool)
    requires i < |ts|
    ensures Some(Replace(ts, i, more), p) ==> Some(ts, p) || Some(more, p)
    ensures Some(more, p) ==> Some(Replace(ts, i, more), p)
    ensures Some(ts, p) && !p(ts[i]) ==> Some(Replace(ts, i, more), p)
  {
    var all := Replace(ts, i, more);
    if Some(all, p) {
      var k :| 0 <= k < |all| && p(all[k]);
      assert if k < i then p(ts[k]) else if k < i + |more| then p(more[k - i]) else p(ts[k - |more| + 1]);
    }
    if Some(more, p) {
      var k :| 0 <= k < |more| && p(more[k]);
      assert p(all[i + k]);
    }
    if Some(ts, p) && !p(ts[i]) {
      var k :| 0 <= k < |ts| && p(ts[k]);
      assert p(all[if k < i then k else k - 1 + |more|]);
    }
  }
}
