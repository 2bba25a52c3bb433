/** Order-preserving selection from a sequence: Python's
    `list(filter(p, xs))` and the index positions it keeps. */
module Seqs {

  /** No element occurs twice. */
  predicate Distinct<T(==)>(s: seq<T>) {
    forall i, j :: 0 <= i < j < |s| ==> s[i] != s[j]
  }

  /** The indices of `s`, in increasing order, whose element satisfies `p`. */
  function Positions<T>(s: seq<T>, p: T -> bool): (r: seq<nat>)
    ensures forall k :: 0 <= k < |r| ==> r[k] < |s| && p(s[r[k]])
    ensures forall k, m :: 0 <= k < m < |r| ==> r[k] < r[m]
    ensures forall i :: 0 <= i < |s| && p(s[i]) ==> i in r
    decreases |s|
  {
    if |s| == 0 then []
    else
      var s' := s[..|s| - 1];
      var q := Positions(s', p);
      assert forall k :: 0 <= k < |q| ==> s'[q[k]] == s[q[k]];
      assert forall i :: 0 <= i < |s'| ==> s'[i] == s[i];
      q + (if p(s[|s| - 1]) then [|s| - 1] else [])
  }

  /** `list(filter(p, s))`: the elements satisfying `p`, in their order. */
  function Filter<T>(s: seq<T>, p: T -> bool): (r: seq<T>)
    ensures |r| <= |s|
    decreases |s|
  {
    if |s| == 0 then []
    else Filter(s[..|s| - 1], p) + (if p(s[|s| - 1]) then [s[|s| - 1]] else [])
  }

  /** The filtered sequence is `s` read at exactly the positions satisfying
      `p`, in increasing order: nothing is dropped, added or reordered. */
  lemma {:induction false} FilterIsPositions<T>(s: seq<T>, p: T -> bool)
    ensures |Filter(s, p)| == |Positions(s, p)| &&
      forall k :: 0 <= k < |Filter(s, p)| ==> Filter(s, p)[k] == s[Positions(s, p)[k]]
    decreases |s|
  {
    if |s| > 0 {
      var s' := s[..|s| - 1];
      FilterIsPositions(s', p);
      forall k | 0 <= k < |Filter(s', p)|
        ensures Filter(s', p)[k] == s[Positions(s', p)[k]]
      {
        assert s'[Positions(s', p)[k]] == s[Positions(s', p)[k]];
      }
    }
  }

  /** An element is kept exactly when it is in `s` and satisfies `p`. */
  lemma FilterMembers<T>(s: seq<T>, p: T -> bool, x: T)
    ensures x in Filter(s, p) <==> x in s && p(x)
  {
    FilterIsPositions(s, p);
    var f, q := Filter(s, p), Positions(s, p);
    if x in f {
      var k :| 0 <= k < |f| && f[k] == x;
      assert s[q[k]] == x;
    }
    if x in s && p(x) {
      var i :| 0 <= i < |s| && s[i] == x;
      var k :| 0 <= k < |q| && q[k] == i;
      assert f[k] == x;
    }
  }
}
