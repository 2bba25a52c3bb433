/** The k-means page of the visualisation app: grouping image ids by the
    cluster label the fitted model gave each image, and the "more" and
    "less" buttons that change how many rows of a cluster are shown. The
    labels (`km.labels_`) and the image ids are parameters: the page's own
    data sources are not part of this model. */
module KMeansPage {
  import opened Wrappers
  import Seqs

  /** How many images a row shows, and how far one button press moves. */
  const Depth: int := 8

  /** `km.labels_[index]` past the end of the labels. */
  datatype ClusterError = IndexError

  /** Selects the entries equal to `l`. */
  function IsLabel<L(==)>(l: L): L -> bool {
    (x: L) => x == l
  }

  /** The ids whose position carries label `l`, in id order: what the
      cluster keyed by `l` holds once every id has been placed. */
  function Members<L(==), I>(labels: seq<L>, ids: seq<I>, l: L): seq<I>
    requires |ids| <= |labels|
    decreases |ids|
  {
    if |ids| == 0 then []
    else Members(labels, ids[..|ids| - 1], l) + (if labels[|ids| - 1] == l then [ids[|ids| - 1]] else [])
  }

  /** The cluster keyed by `l` is `ids` read at exactly the positions
      labelled `l`, in increasing order: relative order is kept and nothing
      else gets in. */
  lemma {:induction false} MembersByPosition<L, I>(labels: seq<L>, ids: seq<I>, l: L)
    requires |ids| <= |labels|
    ensures var q := Seqs.Positions(labels[..|ids|], IsLabel(l));
      |Members(labels, ids, l)| == |q| &&
      forall k :: 0 <= k < |q| ==> Members(labels, ids, l)[k] == ids[q[k]]
    decreases |ids|
  {
    if |ids| > 0 {
      var n := |ids|;
      var ids' := ids[..n - 1];
      MembersByPosition(labels, ids', l);
      assert labels[..n][..n - 1] == labels[..n - 1];
      var q' := Seqs.Positions(labels[..n - 1], IsLabel(l));
      forall k | 0 <= k < |q'|
        ensures ids'[q'[k]] == ids[q'[k]]
      {
      }
    }
  }

  /** Position `i` is placed in the cluster keyed by `l` exactly when
      `labels[i] == l`, so each position lands in exactly one cluster. */
  lemma PositionInOneCluster<L, I>(labels: seq<L>, ids: seq<I>, i: int, l: L)
    requires |ids| <= |labels| && 0 <= i < |ids|
    ensures i in Seqs.Positions(labels[..|ids|], IsLabel(l)) <==> labels[i] == l
  {
    var q := Seqs.Positions(labels[..|ids|], IsLabel(l));
    if i in q {
      var k :| 0 <= k < |q| && q[k] == i;
      assert IsLabel(l)(labels[..|ids|][i]);
    }
    if labels[i] == l {
      assert IsLabel(l)(labels[..|ids|][i]);
    }
  }

  /** The grouping `image_labels` is meant to build: one cluster per
      distinct label, holding the ids placed at that label's positions. */
  function Clusters(labels: seq<int>, ids: seq<string>): (r: map<int, seq<string>>)
    requires |ids| <= |labels|
    ensures forall l :: l in r <==> l in labels
  {
    map l | l in labels :: Members(labels, ids, l)
  }

  /** `image_labels()` over the model's integer cluster labels and the image
      URLs: a cluster for every distinct label, then each id
      appended to the cluster of the label at its position. */
  method ImageLabels(labels: seq<int>, ids: seq<string>) returns (r: Result<map<int, seq<string>>, ClusterError>)
    ensures r.Err? <==> |ids| > |labels|
    ensures r.Ok? ==> |ids| <= |labels| && r.value == Clusters(labels, ids)
  {
    var clusters: map<int, seq<string>> := map l | l in labels :: [];
    var i := 0;
    while i < |ids| && i < |labels|
      invariant 0 <= i <= |ids| && i <= |labels|
      invariant forall l :: l in clusters <==> l in labels
      invariant forall l :: l in clusters ==> clusters[l] == Members(labels, ids[..i], l)
    {
      var key := labels[i];
      assert ids[..i + 1][..i] == ids[..i];
      clusters := clusters[key := clusters[key] + [ids[i]]];
      i := i + 1;
    }
    if i < |ids| {
      // `km.labels_[index]` with no label left for this id
      r := Err(IndexError);
    } else {
      assert ids[..i] == ids;
      var spec := Clusters(labels, ids);
      assert forall l :: l in clusters <==> l in spec;
      assert forall l :: l in clusters ==> clusters[l] == spec[l];
      r := Ok(clusters);
    }
  }

  /** How often `x` occurs in `keys`. */
  function Occurrences<L(==)>(keys: seq<L>, x: L): nat
    decreases |keys|
  {
    if |keys| == 0 then 0 else (if keys[0] == x then 1 else 0) + Occurrences(keys[1..], x)
  }

  /** A distinct listing holds each of its elements once. */
  lemma {:induction false} OccursOnce<L>(keys: seq<L>, x: L)
    requires Seqs.Distinct(keys) && x in keys
    ensures Occurrences(keys, x) == 1
    decreases |keys|
  {
    if keys[0] == x {
      NotOccurring(keys[1..], x);
    } else {
      OccursOnce(keys[1..], x);
    }
  }

  /** A value absent from `keys` occurs in it zero times. */
  lemma {:induction false} NotOccurring<L>(keys: seq<L>, x: L)
    requires x !in keys
    ensures Occurrences(keys, x) == 0
    decreases |keys|
  {
    if |keys| > 0 {
      NotOccurring(keys[1..], x);
    }
  }

  /** The sizes of the clusters keyed by `keys`, added up. */
  function SizeSum<L(==), I>(labels: seq<L>, ids: seq<I>, keys: seq<L>): nat
    requires |ids| <= |labels|
    decreases |keys|
  {
    if |keys| == 0 then 0 else |Members(labels, ids, keys[0])| + SizeSum(labels, ids, keys[1..])
  }

  /** Placing one more id grows the clusters' total by how often its label
      is among the keys. */
  lemma {:induction false} SizeSumStep<L, I>(labels: seq<L>, ids: seq<I>, keys: seq<L>)
    requires 0 < |ids| <= |labels|
    ensures SizeSum(labels, ids, keys) ==
      SizeSum(labels, ids[..|ids| - 1], keys) + Occurrences(keys, labels[|ids| - 1])
    decreases |keys|
  {
    if |keys| > 0 {
      SizeSumStep(labels, ids, keys[1..]);
    }
  }

  /** Every id is placed exactly once: summed over the distinct labels, the
      cluster sizes add up to the number of ids. */
  lemma {:induction false} ClusterSizesSum<L, I>(labels: seq<L>, ids: seq<I>, keys: seq<L>)
    requires |ids| <= |labels|
    requires Seqs.Distinct(keys)
    requires forall l :: l in keys <==> l in labels
    ensures SizeSum(labels, ids, keys) == |ids|
    decreases |ids|
  {
    if |ids| == 0 {
      ZeroSizes(labels, ids, keys);
    } else {
      ClusterSizesSum(labels, ids[..|ids| - 1], keys);
      SizeSumStep(labels, ids, keys);
      var x := labels[|ids| - 1];
      assert x in labels;
      OccursOnce(keys, x);
    }
  }

  /** Before any id is placed, every cluster is empty. */
  lemma {:induction false} ZeroSizes<L, I>(labels: seq<L>, ids: seq<I>, keys: seq<L>)
    requires |ids| == 0 && |ids| <= |labels|
    ensures SizeSum(labels, ids, keys) == 0
    decreases |keys|
  {
    if |keys| > 0 {
      ZeroSizes(labels, ids, keys[1..]);
    }
  }

  /** The "more" button: one more row of `Depth` images. */
  function AddMore(depth: int): (r: int)
    ensures r > depth && DoLess(r) == depth
  {
    depth + Depth
  }

  /** The "less" button: one row fewer. */
  function DoLess(depth: int): (r: int)
    ensures r < depth
  {
    depth - Depth
  }

  /** One press of each button, in either order, restores the depth. */
  lemma LessThenMore(depth: int)
    ensures AddMore(DoLess(depth)) == depth && DoLess(AddMore(depth)) == depth
  {
  }
}
