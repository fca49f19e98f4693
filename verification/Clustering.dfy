/** Greedy leader clustering of embeddings. */
module Clustering {
  import opened Wrappers
  import opened Cosine

  /** A cluster as a value: its members' positions and the sum of their embeddings. */
  datatype Group = Group(members: seq<nat>, sum: Vector)

  predicate SameLength(embeddings: seq<Vector>) {
    forall i :: 0 <= i < |embeddings| ==> |embeddings[i]| == |embeddings[0]|
  }

  predicate Fits(groups: seq<Group>, dim: nat) {
    forall g :: 0 <= g < |groups| ==> groups[g].members != [] && |groups[g].sum| == dim
  }

  function Centroid(g: Group): (c: Vector)
    requires g.members != []
    ensures |c| == |g.sum|
  {
    Scale(1.0 / |g.members| as real, g.sum)
  }

  function Closeness(root: Root, e: Vector, g: Group): real
    requires g.members != [] && |g.sum| == |e|
  {
    Similarity(root, e, Centroid(g))
  }

  // ---------------------------------------------------------------- one placement, and all

  /** The first of the closest among the first `n` clusters, and how close it is; the
      search starts from -1. */
  function Closest(root: Root, e: Vector, groups: seq<Group>, n: nat): (r: (Option<nat>, real))
    requires n <= |groups| && Fits(groups, |e|)
    ensures r.0.Some? ==> r.0.value < n
  {
    if n == 0 then (None, -1.0)
    else
      var before := Closest(root, e, groups, n - 1);
      var similarity := Closeness(root, e, groups[n - 1]);
      if similarity > before.1 then (Some(n - 1), similarity) else before
  }

  function Added(g: Group, index: nat, e: Vector): Group
    requires |g.sum| == |e|
  {
    Group(g.members + [index], Plus(g.sum, e))
  }

  /** The cluster to join, if any. */
  function Choice(root: Root, threshold: real, groups: seq<Group>, e: Vector): (g: Option<nat>)
    requires Fits(groups, |e|)
    ensures g.Some? ==> g.value < |groups|
  {
    var (best, similarity) := Closest(root, e, groups, |groups|);
    if best.Some? && similarity >= threshold then best else None
  }

  function Place(root: Root, threshold: real, groups: seq<Group>, index: nat, e: Vector): (r: seq<Group>)
    requires Fits(groups, |e|)
    ensures Fits(r, |e|)
  {
    match Choice(root, threshold, groups, e)
    case Some(g) => groups[g := Added(groups[g], index, e)]
    case None => groups + [Group([index], e)]
  }

  /** The clusters after the first `n` embeddings. */
  function Clustered(root: Root, threshold: real, embeddings: seq<Vector>, n: nat): (r: seq<Group>)
    requires SameLength(embeddings) && n <= |embeddings|
    ensures n > 0 ==> Fits(r, |embeddings[0]|)
    ensures n == 0 ==> r == []
  {
    if n == 0 then []
    else Place(root, threshold, Clustered(root, threshold, embeddings, n - 1), n - 1, embeddings[n - 1])
  }

  function Members(groups: seq<Group>): (r: seq<seq<nat>>)
    ensures |r| == |groups| && forall g :: 0 <= g < |groups| ==> r[g] == groups[g].members
  {
    if groups == [] then [] else Members(groups[..|groups| - 1]) + [groups[|groups| - 1].members]
  }

  // ---------------------------------------------------------------- as the code does it

  class Cluster {
    var memberIndices: seq<nat>
    var sum: Vector

    constructor (firstIndex: nat, firstEmbedding: Vector)
      ensures Value() == Group([firstIndex], firstEmbedding)
    {
      memberIndices, sum := [firstIndex], firstEmbedding;
    }

    ghost function Value(): Group
      reads this
    {
      Group(memberIndices, sum)
    }

    method MeanVector() returns (c: Vector)
      requires memberIndices != []
      ensures c == Centroid(Value())
    {
      c := Scale(1.0 / |memberIndices| as real, sum);
    }

    method Add(index: nat, embedding: Vector)
      requires |sum| == |embedding|
      modifies this
      ensures Value() == Added(old(Value()), index, embedding)
    {
      memberIndices := memberIndices + [index];
      sum := Plus(sum, embedding);
    }
  }

  /** The objects are distinct and hold these values. */
  ghost predicate Holds(clusters: seq<Cluster>, groups: seq<Group>)
    reads clusters
  {
    && |clusters| == |groups|
    && (forall i :: 0 <= i < |clusters| ==> clusters[i].Value() == groups[i])
    && (forall i, j :: 0 <= i < j < |clusters| ==> clusters[i] != clusters[j])
  }

  method FindClosest(root: Root, e: Vector, clusters: seq<Cluster>, ghost groups: seq<Group>)
    returns (best: Option<nat>, similarity: real)
    requires Holds(clusters, groups) && Fits(groups, |e|)
    ensures (best, similarity) == Closest(root, e, groups, |groups|)
  {
    hide Similarity, Centroid;
    best, similarity := None, -1.0;
    for n := 0 to |clusters|
      invariant (best, similarity) == Closest(root, e, groups, n)
    {
      assert clusters[n].Value() == groups[n];
      var centroid := clusters[n].MeanVector();
      var s := CosineSimilarity(root, e, centroid);
      if s.value > similarity {
        best, similarity := Some(n), s.value;
      }
    }
  }

  /** Into the closest cluster that is close enough, or else a new one. */
  method PlaceEmbedding(root: Root, threshold: real, clusters: seq<Cluster>, ghost groups: seq<Group>,
                        index: nat, e: Vector)
    returns (r: seq<Cluster>)
    requires Holds(clusters, groups) && Fits(groups, |e|)
    modifies clusters
    ensures Holds(r, Place(root, threshold, groups, index, e))
    ensures forall i :: 0 <= i < |r| ==> r[i] in clusters || fresh(r[i])
  {
    hide Closest;
    var best, similarity := FindClosest(root, e, clusters, groups);
    if best.Some? && similarity >= threshold {
      assert clusters[best.value].Value() == groups[best.value];
      clusters[best.value].Add(index, e);
      r := clusters;
    } else {
      var leader := new Cluster(index, e);
      r := clusters + [leader];
    }
  }

  method Indices(clusters: seq<Cluster>, ghost groups: seq<Group>) returns (indices: seq<seq<nat>>)
    requires Holds(clusters, groups)
    ensures indices == Members(groups)
  {
    indices := [];
    for g := 0 to |clusters|
      invariant |indices| == g && forall k :: 0 <= k < g ==> indices[k] == groups[k].members
    {
      assert clusters[g].Value() == groups[g];
      indices := indices + [clusters[g].memberIndices];
    }
  }

  /** The positions of the embeddings, by cluster; none where the code raises, because two
      embeddings have different lengths. */
  method ClusterBySimilarity(root: Root, embeddings: seq<Vector>, threshold: real) returns (r: Option<seq<seq<nat>>>)
    ensures r.Some? <==> SameLength(embeddings)
    ensures r.Some? ==> r.value == Members(Clustered(root, threshold, embeddings, |embeddings|))
  {
    hide Place, Holds, Fits;
    if exists i :: 0 <= i < |embeddings| && |embeddings[i]| != |embeddings[0]| {
      return None;
    }
    var clusters: seq<Cluster> := [];
    HoldsNone();
    for index := 0 to |embeddings|
      invariant Holds(clusters, Clustered(root, threshold, embeddings, index))
      invariant forall i :: 0 <= i < |clusters| ==> fresh(clusters[i])
    {
      ghost var groups := Clustered(root, threshold, embeddings, index);
      FitsNone(|embeddings[index]|);
      clusters := PlaceEmbedding(root, threshold, clusters, groups, index, embeddings[index]);
    }
    var indices := Indices(clusters, Clustered(root, threshold, embeddings, |embeddings|));
    return Some(indices);
  }

  lemma HoldsNone()
    ensures Holds([], [])
  {
  }

  lemma FitsNone(dim: nat)
    ensures Fits([], dim)
  {
  }

  // ---------------------------------------------------------------- who joins whom

  /** `g` is a closest cluster, above -1, and no earlier one is as close. */
  predicate IsClosest(root: Root, e: Vector, groups: seq<Group>, n: nat, g: nat)
    requires g < n <= |groups| && Fits(groups, |e|)
  {
    && Closeness(root, e, groups[g]) > -1.0
    && (forall h :: 0 <= h < n ==> Closeness(root, e, groups[h]) <= Closeness(root, e, groups[g]))
    && (forall h :: 0 <= h < g ==> Closeness(root, e, groups[h]) < Closeness(root, e, groups[g]))
  }

  lemma {:induction false} ClosestIsFirstMaximum(root: Root, e: Vector, groups: seq<Group>, n: nat)
    requires n <= |groups| && Fits(groups, |e|)
    ensures var (best, similarity) := Closest(root, e, groups, n);
            && (best.None? ==> similarity == -1.0 && forall h :: 0 <= h < n ==> Closeness(root, e, groups[h]) <= -1.0)
            && (best.Some? ==> && similarity == Closeness(root, e, groups[best.value])
                               && IsClosest(root, e, groups, n, best.value))
  {
    hide Closeness;
    if n > 0 {
      ClosestIsFirstMaximum(root, e, groups, n - 1);
    }
  }

  /** An embedding joins some cluster exactly if one meets the threshold and is closer than
      -1, which a threshold above -1 implies; then it joins the earliest of the closest.
      Otherwise it leads a new, last cluster. No other cluster changes. */
  lemma JoinsClosestOrLeads(root: Root, threshold: real, groups: seq<Group>, index: nat, e: Vector)
    requires Fits(groups, |e|)
    ensures var r := Place(root, threshold, groups, index, e);
            if exists h :: && 0 <= h < |groups| && Closeness(root, e, groups[h]) >= threshold
                           && Closeness(root, e, groups[h]) > -1.0
            then exists g :: 0 <= g < |groups| && IsClosest(root, e, groups, |groups|, g)
                             && Closeness(root, e, groups[g]) >= threshold
                             && r == groups[g := Added(groups[g], index, e)]
            else r == groups + [Group([index], e)]
  {
    hide Closeness, Closest, Added;
    ClosestIsFirstMaximum(root, e, groups, |groups|);
  }

  /** -1 is a lower bound of every similarity the search compares with it. */
  lemma ClosenessIsBounded(root: Root, e: Vector, g: Group)
    requires IsRoot(root) && g.members != [] && |g.sum| == |e|
    ensures -1.0 <= Closeness(root, e, g) <= 1.0
  {
    hide Similarity;
    SimilarityIsBounded(root, e, Centroid(g));
  }

  /** Comparing with the mean is comparing with the sum. */
  lemma MeanIsAsSum(root: Root, e: Vector, g: Group)
    requires IsRoot(root) && g.members != [] && |g.sum| == |e|
    ensures Closeness(root, e, g) == Similarity(root, e, g.sum)
  {
    hide Similarity;
    SimilarityIgnoresScale(root, 1.0 / |g.members| as real, e, g.sum);
  }

  /** A similarity of exactly -1 is never better than the starting value: whatever threshold
      of -1 or less is given, an embedding leads exactly if it is opposite to all clusters. */
  lemma OppositeNeverJoins(root: Root, threshold: real, groups: seq<Group>, e: Vector)
    requires IsRoot(root) && Fits(groups, |e|) && threshold <= -1.0
    ensures Choice(root, threshold, groups, e) == None <==>
            forall g :: 0 <= g < |groups| ==> Opposite(e, groups[g].sum)
  {
    hide Closeness, Closest, IsRoot, Opposite;
    ClosestIsFirstMaximum(root, e, groups, |groups|);
    forall g | 0 <= g < |groups|
      ensures -1.0 <= Closeness(root, e, groups[g])
      ensures Closeness(root, e, groups[g]) == -1.0 <==> Opposite(e, groups[g].sum)
    {
      ClosenessIsBounded(root, e, groups[g]);
      OppositeIff(root, e, groups[g]);
    }
  }

  lemma OppositeIff(root: Root, e: Vector, g: Group)
    requires IsRoot(root) && g.members != [] && |g.sum| == |e|
    ensures Closeness(root, e, g) == -1.0 <==> Opposite(e, g.sum)
  {
    hide Closeness, IsRoot, Similarity, Opposite;
    MeanIsAsSum(root, e, g);
    BoundsAreMetIff(root, e, g.sum);
  }

  /** There are such embeddings. */
  lemma OppositeExists(root: Root)
    requires IsRoot(root)
    ensures Closeness(root, [1.0], Group([0], [-1.0])) == -1.0
  {
    hide Closeness, IsRoot;
    MeanIsAsSum(root, [1.0], Group([0], [-1.0]));
    RootSquares(root, 1.0);
    var r := root(1.0);
    TimesZero(r, r);
    assert Dot([1.0], [1.0]) == 1.0 && Dot([-1.0], [-1.0]) == 1.0 && Dot([1.0], [-1.0]) == -1.0;
    assert Similarity(root, [1.0], [-1.0]) == Quotient(-1.0, Times(r, r));
  }

  // ---------------------------------------------------------------- what the clusters are

  function Column(embeddings: seq<Vector>, members: seq<nat>, d: nat): real
    requires forall k :: 0 <= k < |members| ==> members[k] < |embeddings| && d < |embeddings[members[k]]|
  {
    if members == [] then 0.0
    else Column(embeddings, members[..|members| - 1], d) + embeddings[members[|members| - 1]][d]
  }

  /** Increasing positions below `n`. */
  predicate Increasing(members: seq<nat>, n: nat) {
    && (forall k :: 0 <= k < |members| ==> members[k] < n)
    && (forall j, k :: 0 <= j < k < |members| ==> members[j] < members[k])
  }

  /** The sum is that of the members, component by component. */
  predicate SumsUp(embeddings: seq<Vector>, g: Group, dim: nat)
    requires Increasing(g.members, |embeddings|) && forall i :: 0 <= i < |embeddings| ==> |embeddings[i]| == dim
  {
    |g.sum| == dim && forall d :: 0 <= d < dim ==> g.sum[d] == Column(embeddings, g.members, d)
  }

  lemma AddedSumsUp(embeddings: seq<Vector>, g: Group, dim: nat, index: nat)
    requires index < |embeddings| && Increasing(g.members, index)
    requires forall i :: 0 <= i < |embeddings| ==> |embeddings[i]| == dim
    requires SumsUp(embeddings, g, dim)
    ensures Increasing(Added(g, index, embeddings[index]).members, index + 1)
    ensures SumsUp(embeddings, Added(g, index, embeddings[index]), dim)
  {
    assert (g.members + [index])[..|g.members|] == g.members;
  }

  lemma LeaderSumsUp(embeddings: seq<Vector>, dim: nat, index: nat)
    requires index < |embeddings|
    requires forall i :: 0 <= i < |embeddings| ==> |embeddings[i]| == dim
    ensures Increasing([index], index + 1) && SumsUp(embeddings, Group([index], embeddings[index]), dim)
  {
    forall d | 0 <= d < dim ensures Column(embeddings, [index], d) == embeddings[index][d] {
      assert [index][..0] == [];
    }
  }

  predicate Has(ms: seq<seq<nat>>, g: int, i: int) {
    0 <= g < |ms| && i in ms[g]
  }

  ghost predicate Somewhere(ms: seq<seq<nat>>, i: int) {
    exists g :: Has(ms, g, i)
  }

  /** Clusters of the first `n` positions: each increasing, in the order of their leaders,
      no position in two of them, and none left out. */
  ghost predicate Partition(ms: seq<seq<nat>>, n: nat) {
    && (forall g :: 0 <= g < |ms| ==> ms[g] != [] && Increasing(ms[g], n))
    && (forall g, h :: 0 <= g < h < |ms| ==> ms[g][0] < ms[h][0])
    && (forall g, h, i :: Has(ms, g, i) && Has(ms, h, i) ==> g == h)
    && (forall i :: 0 <= i < n ==> Somewhere(ms, i))
  }

  lemma PartitionJoin(ms: seq<seq<nat>>, n: nat, g: nat)
    requires Partition(ms, n) && g < |ms|
    ensures Partition(ms[g := ms[g] + [n]], n + 1)
  {
    var r := ms[g := ms[g] + [n]];
    hide Increasing;
    forall h | 0 <= h < |r| ensures r[h] != [] && Increasing(r[h], n + 1) {
      IncreasingSnoc(ms[h], n);
    }
    assert forall h :: 0 <= h < |r| ==> r[h][0] == ms[h][0];
    HasAfterJoin(ms, n, g);
    hide Has;
    forall i | 0 <= i < n ensures Somewhere(r, i) {
      assert Somewhere(ms, i);
      var h :| Has(ms, h, i);
      assert Has(r, h, i);
    }
    assert Has(r, g, n) && Somewhere(r, n);
    forall h, k, i | Has(r, h, i) && Has(r, k, i) ensures h == k {
      assert i != n ==> Has(ms, h, i) && Has(ms, k, i);
      assert i == n ==> !Has(ms, h, i) && !Has(ms, k, i);
    }
  }

  lemma HasAfterJoin(ms: seq<seq<nat>>, n: nat, g: nat)
    requires g < |ms| && forall h :: 0 <= h < |ms| ==> Increasing(ms[h], n)
    ensures forall h, i :: Has(ms[g := ms[g] + [n]], h, i) <==> Has(ms, h, i) || (h == g && i == n)
    ensures forall h :: !Has(ms, h, n)
  {
    var r := ms[g := ms[g] + [n]];
    forall h, i ensures Has(r, h, i) <==> Has(ms, h, i) || (h == g && i == n) {
      assert i in ms[g] + [n] <==> i in ms[g] || i == n;
    }
  }

  lemma IncreasingSnoc(members: seq<nat>, n: nat)
    requires Increasing(members, n)
    ensures Increasing(members, n + 1) && Increasing(members + [n], n + 1)
  {
  }

  lemma PartitionLead(ms: seq<seq<nat>>, n: nat)
    requires Partition(ms, n)
    ensures Partition(ms + [[n]], n + 1)
  {
    var r := ms + [[n]];
    forall h | 0 <= h < |r| ensures r[h] != [] && Increasing(r[h], n + 1) {
      if h < |ms| {
        IncreasingSnoc(ms[h], n);
      }
    }
    HasAfterLead(ms, n);
    hide Has;
    forall i | 0 <= i < n ensures Somewhere(r, i) {
      assert Somewhere(ms, i);
      var h :| Has(ms, h, i);
      assert Has(r, h, i);
    }
    assert Has(r, |ms|, n);
  }

  lemma HasAfterLead(ms: seq<seq<nat>>, n: nat)
    requires forall h :: 0 <= h < |ms| ==> Increasing(ms[h], n)
    ensures forall h, i :: Has(ms + [[n]], h, i) <==> Has(ms, h, i) || (h == |ms| && i == n)
    ensures forall h :: !Has(ms, h, n)
  {
  }

  lemma MembersOfPlace(groups: seq<Group>, g: nat, index: nat, e: Vector)
    requires g < |groups| ==> |groups[g].sum| == |e|
    ensures g < |groups| ==>
              Members(groups[g := Added(groups[g], index, e)]) == Members(groups)[g := Members(groups)[g] + [index]]
    ensures Members(groups + [Group([index], e)]) == Members(groups) + [[index]]
  {
    if g < |groups| {
      var r := groups[g := Added(groups[g], index, e)];
      assert forall h :: 0 <= h < |r| ==> Members(r)[h] == r[h].members;
    }
  }

  /** Each cluster's positions are increasing and its sum adds up. */
  ghost predicate AllSumUp(embeddings: seq<Vector>, groups: seq<Group>, n: nat, dim: nat)
    requires n <= |embeddings| && forall i :: 0 <= i < |embeddings| ==> |embeddings[i]| == dim
  {
    forall g :: 0 <= g < |groups| ==> Increasing(groups[g].members, n) && SumsUp(embeddings, groups[g], dim)
  }

  lemma AllSumUpAfter(embeddings: seq<Vector>, groups: seq<Group>, g: nat, n: nat, dim: nat)
    requires n < |embeddings| && forall i :: 0 <= i < |embeddings| ==> |embeddings[i]| == dim
    requires AllSumUp(embeddings, groups, n, dim)
    ensures g < |groups| ==> AllSumUp(embeddings, groups[g := Added(groups[g], n, embeddings[n])], n + 1, dim)
    ensures AllSumUp(embeddings, groups + [Group([n], embeddings[n])], n + 1, dim)
  {
    hide Added, Increasing, SumsUp;
    forall h | 0 <= h < |groups| ensures Increasing(groups[h].members, n + 1) {
      IncreasingSnoc(groups[h].members, n);
    }
    if g < |groups| {
      AddedSumsUp(embeddings, groups[g], dim, n);
    }
    LeaderSumsUp(embeddings, dim, n);
  }

  lemma ClusteredStep(root: Root, threshold: real, embeddings: seq<Vector>, n: nat)
    requires SameLength(embeddings) && n < |embeddings|
    ensures var before := Clustered(root, threshold, embeddings, n);
            && Fits(before, |embeddings[n]|)
            && Clustered(root, threshold, embeddings, n + 1) == Place(root, threshold, before, n, embeddings[n])
  {
    hide Place, Fits;
    FitsNone(|embeddings[n]|);
  }

  /** For every input, the clusters partition the positions, and each stored sum is the
      componentwise sum of its members. */
  lemma {:induction false} ClustersPartition(root: Root, threshold: real, embeddings: seq<Vector>, n: nat)
    requires SameLength(embeddings) && n <= |embeddings|
    ensures var groups := Clustered(root, threshold, embeddings, n);
            && Partition(Members(groups), n)
            && (n > 0 ==> AllSumUp(embeddings, groups, n, |embeddings[0]|))
  {
    hide Place, Clustered, Members, Partition, AllSumUp, Fits;
    if n == 0 {
      NothingClustered(root, threshold, embeddings);
    } else {
      var before := Clustered(root, threshold, embeddings, n - 1);
      ClustersPartition(root, threshold, embeddings, n - 1);
      ClusteredStep(root, threshold, embeddings, n - 1);
      if n == 1 {
        NothingClustered(root, threshold, embeddings);
        NothingSumsUp(embeddings, |embeddings[0]|);
      }
      PlaceKeeps(root, threshold, embeddings, before, n - 1);
    }
  }

  lemma PlaceKeeps(root: Root, threshold: real, embeddings: seq<Vector>, groups: seq<Group>, n: nat)
    requires SameLength(embeddings) && n < |embeddings| && Fits(groups, |embeddings[n]|)
    requires Partition(Members(groups), n) && AllSumUp(embeddings, groups, n, |embeddings[0]|)
    ensures var after := Place(root, threshold, groups, n, embeddings[n]);
            Partition(Members(after), n + 1) && AllSumUp(embeddings, after, n + 1, |embeddings[0]|)
  {
    hide Choice, Partition, AllSumUp, Added;
    var choice := Choice(root, threshold, groups, embeddings[n]);
    var g := choice.GetOr(0);
    MembersOfPlace(groups, g, n, embeddings[n]);
    AllSumUpAfter(embeddings, groups, g, n, |embeddings[0]|);
    if choice.Some? {
      PartitionJoin(Members(groups), n, g);
    } else {
      PartitionLead(Members(groups), n);
    }
  }

  lemma NothingClustered(root: Root, threshold: real, embeddings: seq<Vector>)
    requires SameLength(embeddings)
    ensures Clustered(root, threshold, embeddings, 0) == []
    ensures Partition([], 0) && Members([]) == []
  {
  }

  lemma NothingSumsUp(embeddings: seq<Vector>, dim: nat)
    requires forall i :: 0 <= i < |embeddings| ==> |embeddings[i]| == dim
    ensures AllSumUp(embeddings, [], 0, dim)
  {
  }

  // ---------------------------------------------------------------- prefixes

  /** The members below `m`. */
  function Below(members: seq<nat>, m: nat): seq<nat> {
    if members == [] then []
    else
      var last := members[|members| - 1];
      Below(members[..|members| - 1], m) + if last < m then [last] else []
  }

  /** Every cluster cut down to the positions below `m`, and dropped if nothing is left. */
  function Restrict(ms: seq<seq<nat>>, m: nat): seq<seq<nat>> {
    if ms == [] then []
    else
      var last := Below(ms[|ms| - 1], m);
      Restrict(ms[..|ms| - 1], m) + if last == [] then [] else [last]
  }

  lemma {:induction false} BelowAll(members: seq<nat>, m: nat)
    requires Increasing(members, m)
    ensures Below(members, m) == members
  {
    if members != [] {
      BelowAll(members[..|members| - 1], m);
    }
  }

  lemma {:induction false} RestrictAll(ms: seq<seq<nat>>, m: nat)
    requires forall g :: 0 <= g < |ms| ==> ms[g] != [] && Increasing(ms[g], m)
    ensures Restrict(ms, m) == ms
  {
    hide Below, Increasing, Restrict;
    if ms == [] {
      RestrictNone(m);
    } else {
      var front, last := ms[..|ms| - 1], ms[|ms| - 1];
      assert ms == front + [last];
      RestrictAll(front, m);
      BelowAll(last, m);
      RestrictSnoc(front, last, m);
    }
  }

  lemma RestrictNone(m: nat)
    ensures Restrict([], m) == []
  {
  }

  lemma RestrictSnoc(front: seq<seq<nat>>, last: seq<nat>, m: nat)
    ensures Restrict(front + [last], m) ==
              if Below(last, m) == [] then Restrict(front, m) else Restrict(front, m) + [Below(last, m)]
  {
    hide Below;
    assert (front + [last])[..|front|] == front;
  }

  lemma {:induction false} RestrictIgnoresLater(ms: seq<seq<nat>>, m: nat, g: nat, i: nat)
    requires g < |ms| && m <= i
    ensures Restrict(ms[g := ms[g] + [i]], m) == Restrict(ms, m)
  {
    hide Below;
    var last := |ms| - 1;
    var r := ms[g := ms[g] + [i]];
    if g == last {
      assert r[..last] == ms[..last];
      BelowSnoc(ms[g], m, i);
    } else {
      assert r[..last] == ms[..last][g := ms[..last][g] + [i]];
      RestrictIgnoresLater(ms[..last], m, g, i);
    }
  }

  lemma BelowSnoc(members: seq<nat>, m: nat, i: nat)
    requires m <= i
    ensures Below(members + [i], m) == Below(members, m)
  {
    assert (members + [i])[..|members|] == members;
  }

  lemma RestrictIgnoresLeader(ms: seq<seq<nat>>, m: nat, i: nat)
    requires m <= i
    ensures Restrict(ms + [[i]], m) == Restrict(ms, m)
  {
    assert (ms + [[i]])[..|ms|] == ms;
    assert [i] == [] + [i];
    BelowSnoc([], m, i);
  }

  /** Clustering a prefix is restricting the whole clustering to it. */
  lemma {:induction false} PrefixIsRestriction(root: Root, threshold: real, embeddings: seq<Vector>, m: nat, n: nat)
    requires SameLength(embeddings) && m <= n <= |embeddings|
    ensures Members(Clustered(root, threshold, embeddings, m)) ==
            Restrict(Members(Clustered(root, threshold, embeddings, n)), m)
  {
    hide Place, Fits, Restrict, Partition, AllSumUp, Members, Clustered, SameLength;
    if m == n {
      ClustersPartition(root, threshold, embeddings, m);
      PartitionRestricts(Members(Clustered(root, threshold, embeddings, m)), m);
    } else {
      var before := Clustered(root, threshold, embeddings, n - 1);
      var e := embeddings[n - 1];
      PrefixIsRestriction(root, threshold, embeddings, m, n - 1);
      ClusteredStep(root, threshold, embeddings, n - 1);
      PlaceIsLater(root, threshold, before, n - 1, e, m);
    }
  }

  lemma PartitionRestricts(ms: seq<seq<nat>>, m: nat)
    requires Partition(ms, m)
    ensures Restrict(ms, m) == ms
  {
    RestrictAll(ms, m);
  }

  lemma PlaceIsLater(root: Root, threshold: real, groups: seq<Group>, index: nat, e: Vector, m: nat)
    requires Fits(groups, |e|) && m <= index
    ensures Restrict(Members(Place(root, threshold, groups, index, e)), m) == Restrict(Members(groups), m)
  {
    hide Choice, Added, Restrict;
    var choice := Choice(root, threshold, groups, e);
    var g := choice.GetOr(0);
    MembersOfPlace(groups, g, index, e);
    if choice.Some? {
      RestrictIgnoresLater(Members(groups), m, g, index);
    } else {
      RestrictIgnoresLeader(Members(groups), m, index);
    }
  }
}
