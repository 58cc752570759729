/**
 * The geocoding helpers of src/services/nominatim.ts: the greedy
 * anchor-based grouping of points (`groupPointsByDistance`), the POI choice
 * (`extractPoi`) and the retrying reverse-geocoding request
 * (`reverseGeocode`). The distance between two points, the network and the
 * timer are parameters.
 */
module Nominatim {
  import opened Wrappers
  import opened JsValues

  // ---------------------------------------------------------------- groupPointsByDistance

  /** `PointWithIndex<T>`. */
  datatype Point<T> = Point(index: int, lat: real, lon: real, data: T)

  /** The distance function, standing for `haversineDistance(lat1, lon1, lat2, lon2)`. */
  type Distance = (real, real, real, real) -> real

  const DefaultThreshold: real := 50.0

  function Dist<T>(dist: Distance, a: Point<T>, b: Point<T>): real
  {
    dist(a.lat, a.lon, b.lat, b.lon)
  }

  /** The indices held by one group. */
  function GroupIndices<T>(group: seq<Point<T>>): set<int>
  {
    set k | 0 <= k < |group| :: group[k].index
  }

  /** The indices held by a list of groups: the source's `assigned` set. */
  function Indices<T>(groups: seq<seq<Point<T>>>): set<int>
  {
    if groups == [] then {}
    else Indices(groups[..|groups| - 1]) + GroupIndices(groups[|groups| - 1])
  }

  lemma IndicesAppend<T>(groups: seq<seq<Point<T>>>, group: seq<Point<T>>)
    ensures Indices(groups + [group]) == Indices(groups) + GroupIndices(group)
  {
    assert (groups + [group])[..|groups|] == groups;
  }

  lemma GroupIndicesAppend<T>(group: seq<Point<T>>, p: Point<T>)
    ensures GroupIndices(group + [p]) == GroupIndices(group) + {p.index}
  {
    var ext := group + [p];
    assert ext[|group|].index == p.index;
    forall x | x in GroupIndices(group) ensures x in GroupIndices(ext) {
      var k :| 0 <= k < |group| && group[k].index == x;
      assert ext[k].index == x;
    }
  }

  /** An index is held by the groups exactly when some member carries it. */
  lemma {:induction false} IndicesMembers<T>(groups: seq<seq<Point<T>>>, x: int)
    ensures x in Indices(groups) <==>
              exists g, k :: 0 <= g < |groups| && 0 <= k < |groups[g]| && groups[g][k].index == x
  {
    if groups != [] {
      var n := |groups| - 1;
      IndicesMembers(groups[..n], x);
      if x in Indices(groups) {
        if x in GroupIndices(groups[n]) {
          var k :| 0 <= k < |groups[n]| && groups[n][k].index == x;
          assert groups[n][k].index == x;
        } else {
          var g, k :| 0 <= g < n && 0 <= k < |groups[..n][g]| && groups[..n][g][k].index == x;
          assert groups[g][k].index == x;
        }
      }
      if exists g, k :: 0 <= g < |groups| && 0 <= k < |groups[g]| && groups[g][k].index == x {
        var g, k :| 0 <= g < |groups| && 0 <= k < |groups[g]| && groups[g][k].index == x;
        if g == n {
          assert x in GroupIndices(groups[n]);
        } else {
          assert groups[..n][g][k].index == x;
        }
      }
    }
  }

  /** Within a group no index repeats, and no group reuses an index of an earlier group. */
  predicate DistinctIndices<T>(groups: seq<seq<Point<T>>>)
  {
    && (forall g, k1, k2 :: 0 <= g < |groups| && 0 <= k1 < k2 < |groups[g]| ==>
          groups[g][k1].index != groups[g][k2].index)
    && (forall g :: 0 <= g < |groups| ==> GroupIndices(groups[g]) !! Indices(groups[..g]))
  }

  /** `pos` places every member at a position of `points` that holds it. */
  ghost predicate Placed<T>(points: seq<Point<T>>, groups: seq<seq<Point<T>>>, pos: seq<seq<nat>>)
  {
    && |pos| == |groups|
    && (forall g :: 0 <= g < |groups| ==> |pos[g]| == |groups[g]|)
    && (forall g, k :: 0 <= g < |groups| && 0 <= k < |groups[g]| ==>
          pos[g][k] < |points| && points[pos[g][k]] == groups[g][k])
  }

  /** Anchors appear in input order, and so do the members of each group. */
  predicate InInputOrder<T>(groups: seq<seq<Point<T>>>, pos: seq<seq<nat>>)
    requires |pos| == |groups|
    requires forall g :: 0 <= g < |groups| ==> |pos[g]| == |groups[g]|
  {
    && (forall g1, g2 :: 0 <= g1 < g2 < |groups| && |pos[g1]| > 0 && |pos[g2]| > 0 ==>
          pos[g1][0] < pos[g2][0])
    && (forall g, k1, k2 :: 0 <= g < |groups| && 0 <= k1 < k2 < |groups[g]| ==> pos[g][k1] < pos[g][k2])
  }

  /** Every member after the first is within `threshold` of the group's first point, its anchor. */
  predicate WithinAnchor<T>(groups: seq<seq<Point<T>>>, threshold: real, dist: Distance)
  {
    forall g, k :: 0 <= g < |groups| && 0 < k < |groups[g]| ==>
      Dist(dist, groups[g][0], groups[g][k]) <= threshold
  }

  /**
   * Greediness: a point within `threshold` of an anchor is held by that
   * anchor's group or an earlier one.
   */
  predicate Maximal<T>(points: seq<Point<T>>, groups: seq<seq<Point<T>>>, threshold: real, dist: Distance)
  {
    forall g, j :: 0 <= g < |groups| && |groups[g]| > 0 && 0 <= j < |points| &&
                   Dist(dist, groups[g][0], points[j]) <= threshold ==>
      points[j].index in Indices(groups[..g + 1])
  }

  /** Every point before an anchor's position is held by an earlier group. */
  predicate EarlierClaimed<T>(points: seq<Point<T>>, groups: seq<seq<Point<T>>>, pos: seq<seq<nat>>)
    requires |pos| == |groups|
  {
    forall g, j :: 0 <= g < |groups| && |pos[g]| > 0 && 0 <= j < pos[g][0] && j < |points| ==>
      points[j].index in Indices(groups[..g])
  }

  /**
   * Among points sharing an index, the one a group holds is the first within
   * `threshold` of its anchor: no earlier point carrying a member's index
   * lies within `threshold` of that member's anchor.
   */
  ghost predicate FirstOfIndex<T>(points: seq<Point<T>>, groups: seq<seq<Point<T>>>, pos: seq<seq<nat>>,
                                  threshold: real, dist: Distance)
    requires Placed(points, groups, pos)
  {
    forall g, k, q :: 0 <= g < |groups| && 0 < k < |groups[g]| && 0 <= q < pos[g][k] &&
                      points[q].index == groups[g][k].index ==>
      !(Dist(dist, groups[g][0], points[q]) <= threshold)
  }

  /** The loop invariant of the outer pass, after the first `i` points. */
  ghost predicate Progress<T>(points: seq<Point<T>>, groups: seq<seq<Point<T>>>, pos: seq<seq<nat>>,
                              i: nat, threshold: real, dist: Distance)
  {
    && i <= |points|
    && (forall g :: 0 <= g < |groups| ==> |groups[g]| >= 1)
    && Placed(points, groups, pos)
    && InInputOrder(groups, pos)
    && (forall g :: 0 <= g < |groups| ==> pos[g][0] < i)
    && DistinctIndices(groups)
    && (forall j :: 0 <= j < i ==> points[j].index in Indices(groups))
    && WithinAnchor(groups, threshold, dist)
    && Maximal(points, groups, threshold, dist)
    && EarlierClaimed(points, groups, pos)
    && FirstOfIndex(points, groups, pos, threshold, dist)
  }

  /** A point whose index is already claimed is passed over. */
  lemma SkipClaimed<T>(points: seq<Point<T>>, groups: seq<seq<Point<T>>>, pos: seq<seq<nat>>,
                       i: nat, threshold: real, dist: Distance)
    requires i < |points|
    requires Progress(points, groups, pos, i, threshold, dist)
    requires points[i].index in Indices(groups)
    ensures Progress(points, groups, pos, i + 1, threshold, dist)
  {
  }

  /**
   * What the inner pass of anchor `points[i]` builds: the anchor then the
   * unclaimed points within `threshold` of it, in input order, all after `i`,
   * with fresh indices; afterwards every point within `threshold` is claimed.
   */
  ghost predicate AnchoredGroup<T>(points: seq<Point<T>>, groups: seq<seq<Point<T>>>, group: seq<Point<T>>,
                                   gpos: seq<nat>, i: nat, threshold: real, dist: Distance)
    requires i < |points|
  {
    && |gpos| == |group| >= 1 && group[0] == points[i] && gpos[0] == i
    && (forall k :: 0 <= k < |group| ==> gpos[k] < |points| && points[gpos[k]] == group[k])
    && (forall k :: 0 < k < |group| ==> i < gpos[k])
    && (forall k1, k2 :: 0 <= k1 < k2 < |group| ==> gpos[k1] < gpos[k2])
    && (forall k1, k2 :: 0 <= k1 < k2 < |group| ==> group[k1].index != group[k2].index)
    && GroupIndices(group) !! Indices(groups)
    && (forall k :: 0 < k < |group| ==> Dist(dist, points[i], group[k]) <= threshold)
    && (forall j :: 0 <= j < |points| && Dist(dist, points[i], points[j]) <= threshold ==>
          points[j].index in Indices(groups) + GroupIndices(group))
    && ScanFirst(points, group, gpos, i, threshold, dist)
  }

  lemma PrefixOfAppend<T>(groups: seq<seq<Point<T>>>, group: seq<Point<T>>, g: nat)
    requires g <= |groups|
    ensures (groups + [group])[..g] == groups[..g]
  {
  }

  lemma AppendDistinct<T>(points: seq<Point<T>>, groups: seq<seq<Point<T>>>, pos: seq<seq<nat>>,
                         group: seq<Point<T>>, gpos: seq<nat>, i: nat, threshold: real, dist: Distance)
    requires i < |points|
    requires Progress(points, groups, pos, i, threshold, dist)
    requires AnchoredGroup(points, groups, group, gpos, i, threshold, dist)
    ensures DistinctIndices(groups + [group])
  {
    var groups' := groups + [group];
    forall g | 0 <= g < |groups'| ensures GroupIndices(groups'[g]) !! Indices(groups'[..g]) {
      PrefixOfAppend(groups, group, g);
    }
  }

  lemma AppendPlaced<T>(points: seq<Point<T>>, groups: seq<seq<Point<T>>>, pos: seq<seq<nat>>,
                         group: seq<Point<T>>, gpos: seq<nat>, i: nat, threshold: real, dist: Distance)
    requires i < |points|
    requires Progress(points, groups, pos, i, threshold, dist)
    requires AnchoredGroup(points, groups, group, gpos, i, threshold, dist)
    ensures Placed(points, groups + [group], pos + [gpos])
  {
    var groups' := groups + [group];
    var pos' := pos + [gpos];
    forall g, k | 0 <= g < |groups'| && 0 <= k < |groups'[g]|
      ensures pos'[g][k] < |points| && points[pos'[g][k]] == groups'[g][k]
    {
      if g < |groups| {
        assert pos'[g] == pos[g] && groups'[g] == groups[g];
      }
    }
  }

  lemma AppendOrder<T>(groups: seq<seq<Point<T>>>, pos: seq<seq<nat>>, group: seq<Point<T>>, gpos: seq<nat>, i: nat)
    requires |pos| == |groups| && forall g :: 0 <= g < |groups| ==> |pos[g]| == |groups[g]| >= 1
    requires InInputOrder(groups, pos)
    requires forall g :: 0 <= g < |groups| ==> pos[g][0] < i
    requires |gpos| == |group| >= 1 && gpos[0] == i
    requires forall k1, k2 :: 0 <= k1 < k2 < |group| ==> gpos[k1] < gpos[k2]
    ensures |pos + [gpos]| == |groups + [group]|
    ensures forall g :: 0 <= g < |groups + [group]| ==> |(pos + [gpos])[g]| == |(groups + [group])[g]|
    ensures InInputOrder(groups + [group], pos + [gpos])
  {
    var groups' := groups + [group];
    var pos' := pos + [gpos];
    forall g1, g2 | 0 <= g1 < g2 < |groups'| && |pos'[g1]| > 0 && |pos'[g2]| > 0
      ensures pos'[g1][0] < pos'[g2][0]
    {
      assert pos'[g1] == pos[g1];
      if g2 < |groups| {
        assert pos'[g2] == pos[g2];
      }
    }
    forall g, k1, k2 | 0 <= g < |groups'| && 0 <= k1 < k2 < |groups'[g]|
      ensures pos'[g][k1] < pos'[g][k2]
    {
      if g < |groups| {
        assert pos'[g] == pos[g] && groups'[g] == groups[g];
      }
    }
  }

  lemma AppendWithin<T>(points: seq<Point<T>>, groups: seq<seq<Point<T>>>, pos: seq<seq<nat>>,
                         group: seq<Point<T>>, gpos: seq<nat>, i: nat, threshold: real, dist: Distance)
    requires i < |points|
    requires Progress(points, groups, pos, i, threshold, dist)
    requires AnchoredGroup(points, groups, group, gpos, i, threshold, dist)
    ensures WithinAnchor(groups + [group], threshold, dist)
  {
  }

  lemma AppendMaximal<T>(points: seq<Point<T>>, groups: seq<seq<Point<T>>>, group: seq<Point<T>>,
                         i: nat, threshold: real, dist: Distance)
    requires i < |points|
    requires Maximal(points, groups, threshold, dist)
    requires |group| >= 1 && group[0] == points[i]
    requires forall j :: 0 <= j < |points| && Dist(dist, points[i], points[j]) <= threshold ==>
               points[j].index in Indices(groups) + GroupIndices(group)
    ensures Maximal(points, groups + [group], threshold, dist)
  {
    var groups' := groups + [group];
    IndicesAppend(groups, group);
    forall g, j | 0 <= g < |groups'| && |groups'[g]| > 0 && 0 <= j < |points| &&
                  Dist(dist, groups'[g][0], points[j]) <= threshold
      ensures points[j].index in Indices(groups'[..g + 1])
    {
      if g < |groups| {
        PrefixOfAppend(groups, group, g + 1);
        assert groups'[g] == groups[g];
      } else {
        assert groups'[..g + 1] == groups';
      }
    }
  }

  lemma AppendOrderStep<T>(points: seq<Point<T>>, groups: seq<seq<Point<T>>>, pos: seq<seq<nat>>,
                            group: seq<Point<T>>, gpos: seq<nat>, i: nat, threshold: real, dist: Distance)
    requires i < |points|
    requires Progress(points, groups, pos, i, threshold, dist)
    requires AnchoredGroup(points, groups, group, gpos, i, threshold, dist)
    ensures InInputOrder(groups + [group], pos + [gpos])
  {
    AppendOrder(groups, pos, group, gpos, i);
  }

  lemma AppendMaximalStep<T>(points: seq<Point<T>>, groups: seq<seq<Point<T>>>, pos: seq<seq<nat>>,
                              group: seq<Point<T>>, gpos: seq<nat>, i: nat, threshold: real, dist: Distance)
    requires i < |points|
    requires Progress(points, groups, pos, i, threshold, dist)
    requires AnchoredGroup(points, groups, group, gpos, i, threshold, dist)
    ensures Maximal(points, groups + [group], threshold, dist)
  {
    AppendMaximal(points, groups, group, i, threshold, dist);
  }

  lemma AppendEarlier<T>(points: seq<Point<T>>, groups: seq<seq<Point<T>>>, pos: seq<seq<nat>>,
                         group: seq<Point<T>>, gpos: seq<nat>, i: nat, threshold: real, dist: Distance)
    requires i < |points|
    requires Progress(points, groups, pos, i, threshold, dist)
    requires AnchoredGroup(points, groups, group, gpos, i, threshold, dist)
    ensures EarlierClaimed(points, groups + [group], pos + [gpos])
  {
    var groups' := groups + [group];
    var pos' := pos + [gpos];
    forall g, j | 0 <= g < |groups'| && |pos'[g]| > 0 && 0 <= j < pos'[g][0] && j < |points|
      ensures points[j].index in Indices(groups'[..g])
    {
      PrefixOfAppend(groups, group, g);
    }
  }

  /** The loop invariant of the inner pass of anchor `points[i]`, after the first `m` points. */
  ghost predicate Scan<T>(points: seq<Point<T>>, groups: seq<seq<Point<T>>>, group: seq<Point<T>>,
                          gpos: seq<nat>, claimed: set<int>, i: nat, m: nat, threshold: real, dist: Distance)
  {
    && ScanShape(points, group, gpos, i, m)
    && ScanClaims(points, groups, group, claimed, i, m, threshold, dist)
    && ScanFirst(points, group, gpos, i, threshold, dist)
  }

  /** No point before a member that carries its index lies within `threshold` of the anchor `points[i]`. */
  ghost predicate ScanFirst<T>(points: seq<Point<T>>, group: seq<Point<T>>, gpos: seq<nat>, i: nat,
                               threshold: real, dist: Distance)
  {
    && i < |points| && |gpos| == |group|
    && forall k, q :: 0 < k < |group| && 0 <= q < gpos[k] && q < |points| && points[q].index == group[k].index ==>
         !(Dist(dist, points[i], points[q]) <= threshold)
  }

  /** Where the members of the growing group sit: the anchor at `i`, the others after it and before `m`. */
  ghost predicate ScanShape<T>(points: seq<Point<T>>, group: seq<Point<T>>, gpos: seq<nat>, i: nat, m: nat)
  {
    && i < |points| && m <= |points|
    && |gpos| == |group| >= 1 && group[0] == points[i] && gpos[0] == i
    && (forall k :: 0 <= k < |group| ==> gpos[k] < |points| && points[gpos[k]] == group[k])
    && (forall k :: 0 < k < |group| ==> i < gpos[k] < m)
    && (forall k1, k2 :: 0 <= k1 < k2 < |group| ==> gpos[k1] < gpos[k2])
  }

  /** What the growing group claims: fresh indices, all within `threshold`, and every near point before `m`. */
  ghost predicate ScanClaims<T>(points: seq<Point<T>>, groups: seq<seq<Point<T>>>, group: seq<Point<T>>,
                                claimed: set<int>, i: nat, m: nat, threshold: real, dist: Distance)
  {
    && i < |points| && m <= |points|
    && (forall k1, k2 :: 0 <= k1 < k2 < |group| ==> group[k1].index != group[k2].index)
    && GroupIndices(group) !! Indices(groups)
    && claimed == Indices(groups) + GroupIndices(group)
    && (forall k :: 0 < k < |group| ==> Dist(dist, points[i], group[k]) <= threshold)
    && (forall j :: 0 <= j < m && Dist(dist, points[i], points[j]) <= threshold ==> points[j].index in claimed)
  }

  /** `points[m]` is passed over: already claimed, or too far from the anchor. */
  lemma ScanSkip<T>(points: seq<Point<T>>, groups: seq<seq<Point<T>>>,
                    group: seq<Point<T>>, gpos: seq<nat>, claimed: set<int>, i: nat, m: nat,
                    threshold: real, dist: Distance)
    requires m < |points|
    requires Scan(points, groups, group, gpos, claimed, i, m, threshold, dist)
    requires points[m].index in claimed || !(Dist(dist, points[i], points[m]) <= threshold)
    ensures Scan(points, groups, group, gpos, claimed, i, m + 1, threshold, dist)
  {
  }

  lemma ScanAddShape<T>(points: seq<Point<T>>, group: seq<Point<T>>, gpos: seq<nat>, i: nat, m: nat)
    requires m < |points| && i < m
    requires ScanShape(points, group, gpos, i, m)
    ensures ScanShape(points, group + [points[m]], gpos + [m], i, m + 1)
  {
    var group' := group + [points[m]];
    var gpos' := gpos + [m];
    assert forall k :: 0 <= k < |group| ==> group'[k] == group[k] && gpos'[k] == gpos[k];
  }

  lemma ScanAddClaims<T>(points: seq<Point<T>>, groups: seq<seq<Point<T>>>, group: seq<Point<T>>,
                         claimed: set<int>, i: nat, m: nat, threshold: real, dist: Distance)
    requires m < |points|
    requires ScanClaims(points, groups, group, claimed, i, m, threshold, dist)
    requires points[m].index !in claimed && Dist(dist, points[i], points[m]) <= threshold
    ensures ScanClaims(points, groups, group + [points[m]], claimed + {points[m].index}, i, m + 1, threshold, dist)
  {
    var other := points[m];
    assert other.index !in GroupIndices(group);
    GroupIndicesAppend(group, other);
    var group' := group + [other];
    assert forall k :: 0 <= k < |group| ==> group'[k] == group[k];
  }

  /** `points[m]` joins the group: it is unclaimed and within `threshold` of the anchor. */
  lemma ScanAdd<T>(points: seq<Point<T>>, groups: seq<seq<Point<T>>>,
                   group: seq<Point<T>>, gpos: seq<nat>, claimed: set<int>, i: nat, m: nat,
                   threshold: real, dist: Distance)
    requires m < |points|
    requires Scan(points, groups, group, gpos, claimed, i, m, threshold, dist)
    requires forall j :: 0 <= j < i ==> points[j].index in Indices(groups)
    requires points[m].index !in claimed && Dist(dist, points[i], points[m]) <= threshold
    ensures Scan(points, groups, group + [points[m]], gpos + [m], claimed + {points[m].index}, i, m + 1, threshold, dist)
  {
    assert points[m].index !in Indices(groups);
    ScanAddShape(points, group, gpos, i, m);
    ScanAddClaims(points, groups, group, claimed, i, m, threshold, dist);
    ScanAddFirst(points, groups, group, gpos, claimed, i, m, threshold, dist);
  }

  /** The point joining is the first within `threshold` to carry its index: an earlier one would have claimed it. */
  lemma ScanAddFirst<T>(points: seq<Point<T>>, groups: seq<seq<Point<T>>>, group: seq<Point<T>>,
                        gpos: seq<nat>, claimed: set<int>, i: nat, m: nat, threshold: real, dist: Distance)
    requires m < |points|
    requires ScanClaims(points, groups, group, claimed, i, m, threshold, dist)
    requires ScanFirst(points, group, gpos, i, threshold, dist)
    requires points[m].index !in claimed
    ensures ScanFirst(points, group + [points[m]], gpos + [m], i, threshold, dist)
  {
    var group' := group + [points[m]];
    var gpos' := gpos + [m];
    forall k: int, q: int | 0 < k < |group'| && 0 <= q < gpos'[k] && q < |points| && points[q].index == group'[k].index
      ensures !(Dist(dist, points[i], points[q]) <= threshold)
    {
      if k < |group| {
        assert group'[k] == group[k] && gpos'[k] == gpos[k];
      }
    }
  }

  /** After the last point the inner pass has built the anchor's group. */
  lemma ScanDone<T>(points: seq<Point<T>>, groups: seq<seq<Point<T>>>, group: seq<Point<T>>,
                    gpos: seq<nat>, claimed: set<int>, i: nat, threshold: real, dist: Distance)
    requires Scan(points, groups, group, gpos, claimed, i, |points|, threshold, dist)
    ensures AnchoredGroup(points, groups, group, gpos, i, threshold, dist)
  {
  }

  /** Appending the group keeps the shape invariants: distinct indices, placement and input order. */
  lemma AppendShape<T>(points: seq<Point<T>>, groups: seq<seq<Point<T>>>, pos: seq<seq<nat>>,
                       group: seq<Point<T>>, gpos: seq<nat>, i: nat, threshold: real, dist: Distance)
    requires i < |points|
    requires Progress(points, groups, pos, i, threshold, dist)
    requires AnchoredGroup(points, groups, group, gpos, i, threshold, dist)
    ensures DistinctIndices(groups + [group])
    ensures Placed(points, groups + [group], pos + [gpos])
    ensures InInputOrder(groups + [group], pos + [gpos])
    ensures forall g :: 0 <= g < |groups + [group]| ==> |(groups + [group])[g]| >= 1
    ensures forall g :: 0 <= g < |groups + [group]| ==> (pos + [gpos])[g][0] < i + 1
  {
    AppendDistinct(points, groups, pos, group, gpos, i, threshold, dist);
    AppendPlaced(points, groups, pos, group, gpos, i, threshold, dist);
    AppendOrderStep(points, groups, pos, group, gpos, i, threshold, dist);
  }

  /** Appending the group keeps the distance invariants and the claims of earlier points. */
  lemma AppendClaims<T>(points: seq<Point<T>>, groups: seq<seq<Point<T>>>, pos: seq<seq<nat>>,
                        group: seq<Point<T>>, gpos: seq<nat>, i: nat, threshold: real, dist: Distance)
    requires i < |points|
    requires Progress(points, groups, pos, i, threshold, dist)
    requires AnchoredGroup(points, groups, group, gpos, i, threshold, dist)
    ensures WithinAnchor(groups + [group], threshold, dist)
    ensures Maximal(points, groups + [group], threshold, dist)
    ensures EarlierClaimed(points, groups + [group], pos + [gpos])
    ensures Indices(groups + [group]) == Indices(groups) + GroupIndices(group)
    ensures forall j :: 0 <= j < i + 1 ==> points[j].index in Indices(groups + [group])
  {
    IndicesAppend(groups, group);
    AppendWithin(points, groups, pos, group, gpos, i, threshold, dist);
    AppendMaximalStep(points, groups, pos, group, gpos, i, threshold, dist);
    AppendEarlier(points, groups, pos, group, gpos, i, threshold, dist);
    assert points[i].index in GroupIndices(group) by {
      assert group[0].index == points[i].index;
    }
  }

  lemma AppendGroup<T>(points: seq<Point<T>>, groups: seq<seq<Point<T>>>, pos: seq<seq<nat>>,
                       group: seq<Point<T>>, gpos: seq<nat>, i: nat, threshold: real, dist: Distance)
    requires i < |points|
    requires Progress(points, groups, pos, i, threshold, dist)
    requires AnchoredGroup(points, groups, group, gpos, i, threshold, dist)
    ensures Progress(points, groups + [group], pos + [gpos], i + 1, threshold, dist)
    ensures Indices(groups + [group]) == Indices(groups) + GroupIndices(group)
  {
    AppendShape(points, groups, pos, group, gpos, i, threshold, dist);
    AppendClaims(points, groups, pos, group, gpos, i, threshold, dist);
    AppendFirst(points, groups, pos, group, gpos, i, threshold, dist);
  }

  /** Appending the group keeps each member the first within `threshold` to carry its index. */
  lemma AppendFirst<T>(points: seq<Point<T>>, groups: seq<seq<Point<T>>>, pos: seq<seq<nat>>,
                       group: seq<Point<T>>, gpos: seq<nat>, i: nat, threshold: real, dist: Distance)
    requires i < |points|
    requires Progress(points, groups, pos, i, threshold, dist)
    requires AnchoredGroup(points, groups, group, gpos, i, threshold, dist)
    requires Placed(points, groups + [group], pos + [gpos])
    ensures FirstOfIndex(points, groups + [group], pos + [gpos], threshold, dist)
  {
    var groups': seq<seq<Point<T>>> := groups + [group];
    var pos': seq<seq<nat>> := pos + [gpos];
    forall g: int, k: int, q: int | 0 <= g < |groups'| && 0 < k < |groups'[g]| && 0 <= q < pos'[g][k] && q < |points| &&
                     points[q].index == groups'[g][k].index
      ensures !(Dist(dist, groups'[g][0], points[q]) <= threshold)
    {
      if g < |groups| {
        assert groups'[g] == groups[g] && pos'[g] == pos[g];
      }
    }
  }

  /**
   * The inner pass of `groupPointsByDistance` for the anchor `points[i]`:
   * the anchor, then every point whose index is unclaimed and whose distance
   * from the anchor is at most `threshold`, claiming each as it joins.
   */
  method ClaimWithin<T>(points: seq<Point<T>>, i: nat, claimedBefore: set<int>, threshold: real, dist: Distance,
                        ghost groups: seq<seq<Point<T>>>)
    returns (group: seq<Point<T>>, claimed: set<int>, ghost gpos: seq<nat>)
    requires i < |points|
    requires claimedBefore == Indices(groups)
    requires forall j :: 0 <= j < i ==> points[j].index in Indices(groups)
    requires points[i].index !in claimedBefore
    ensures AnchoredGroup(points, groups, group, gpos, i, threshold, dist)
    ensures claimed == claimedBefore + GroupIndices(group)
  {
    var point := points[i];
    group := [point];
    gpos := [i];
    claimed := claimedBefore + {point.index};
    assert GroupIndices(group) == {point.index} by {
      GroupIndicesAppend([], point);
      assert [] + [point] == group;
    }

    var m := 0;
    while m < |points|
      invariant Scan(points, groups, group, gpos, claimed, i, m, threshold, dist)
    {
      var other := points[m];
      if other.index in claimed {
        ScanSkip(points, groups, group, gpos, claimed, i, m, threshold, dist);
        m := m + 1;
        continue;
      }
      var distance := dist(point.lat, point.lon, other.lat, other.lon);
      if distance <= threshold {
        ScanAdd(points, groups, group, gpos, claimed, i, m, threshold, dist);
        group := group + [other];
        gpos := gpos + [m];
        claimed := claimed + {other.index};
      } else {
        ScanSkip(points, groups, group, gpos, claimed, i, m, threshold, dist);
      }
      m := m + 1;
    }
    ScanDone(points, groups, group, gpos, claimed, i, threshold, dist);
  }

  /**
   * `groupPointsByDistance`. `claimed` (the source's `assigned` set) holds the
   * indices claimed so far; each unclaimed point in turn becomes an anchor and
   * claims every unclaimed point within the threshold. `pos` (ghost) records
   * where each member sits in `points`.
   */
  method GroupPointsByDistance<T>(points: seq<Point<T>>, thresholdMeters: Option<real>, dist: Distance)
    returns (groups: seq<seq<Point<T>>>, ghost pos: seq<seq<nat>>)
    ensures |points| == 0 ==> groups == []
    ensures forall g :: 0 <= g < |groups| ==> |groups[g]| >= 1
    ensures Placed(points, groups, pos)
    ensures InInputOrder(groups, pos)
    ensures DistinctIndices(groups)
    // every input index is claimed
    ensures forall j :: 0 <= j < |points| ==> points[j].index in Indices(groups)
    ensures WithinAnchor(groups, thresholdMeters.GetOr(DefaultThreshold), dist)
    ensures Maximal(points, groups, thresholdMeters.GetOr(DefaultThreshold), dist)
    ensures EarlierClaimed(points, groups, pos)
    // with a repeated index, the point kept is the first within the threshold of the anchor
    ensures FirstOfIndex(points, groups, pos, thresholdMeters.GetOr(DefaultThreshold), dist)
  {
    var threshold := thresholdMeters.GetOr(DefaultThreshold);
    groups := [];
    pos := [];
    if |points| == 0 {
      return;
    }
    var claimed: set<int> := {};
    var i := 0;
    while i < |points|
      invariant Progress(points, groups, pos, i, threshold, dist)
      invariant claimed == Indices(groups)
    {
      var point := points[i];
      if point.index in claimed {
        SkipClaimed(points, groups, pos, i, threshold, dist);
        i := i + 1;
        continue;
      }
      var group;
      ghost var gpos;
      group, claimed, gpos := ClaimWithin(points, i, claimed, threshold, dist, groups);
      AppendGroup(points, groups, pos, group, gpos, i, threshold, dist);
      groups := groups + [group];
      pos := pos + [gpos];
      i := i + 1;
    }
  }

  // ---------------------------------------------------------------- properties of a grouping

  /** No two input points share an index. */
  predicate UniqueIndices<T>(points: seq<Point<T>>)
  {
    forall a, b :: 0 <= a < b < |points| ==> points[a].index != points[b].index
  }

  lemma {:induction false} IndicesPrefixMonotone<T>(groups: seq<seq<Point<T>>>, a: nat, b: nat)
    requires a <= b <= |groups|
    ensures Indices(groups[..a]) <= Indices(groups[..b])
  {
    if a < b {
      IndicesPrefixMonotone(groups, a, b - 1);
      assert groups[..b][..b - 1] == groups[..b - 1];
    }
  }

  /** An index of group `g` held by the first `h` groups means `g` is among them. */
  lemma ClaimedEarlier<T>(groups: seq<seq<Point<T>>>, g: nat, h: nat, x: int)
    requires DistinctIndices(groups)
    requires g < |groups| && h <= |groups|
    requires x in GroupIndices(groups[g]) && x in Indices(groups[..h])
    ensures g < h
  {
    if h <= g {
      IndicesPrefixMonotone(groups, h, g);
    }
  }

  lemma MemberInPrefix<T>(groups: seq<seq<Point<T>>>, g: nat, k: nat, h: nat)
    requires g < h <= |groups| && k < |groups[g]|
    ensures groups[g][k].index in Indices(groups[..h])
  {
    assert groups[..h][g][k].index == groups[g][k].index;
    IndicesMembers(groups[..h], groups[g][k].index);
  }

  /** No index is held twice: any two member slots carry different indices. */
  lemma MembersDistinct<T>(groups: seq<seq<Point<T>>>)
    requires DistinctIndices(groups)
    ensures forall g1, k1, g2, k2 ::
              && 0 <= g1 < |groups| && 0 <= k1 < |groups[g1]| && 0 <= g2 < |groups| && 0 <= k2 < |groups[g2]|
              && (g1 != g2 || k1 != k2)
              ==> groups[g1][k1].index != groups[g2][k2].index
  {
    forall g1, k1, g2, k2 |
      0 <= g1 < |groups| && 0 <= k1 < |groups[g1]| && 0 <= g2 < |groups| && 0 <= k2 < |groups[g2]| &&
      (g1 != g2 || k1 != k2)
      ensures groups[g1][k1].index != groups[g2][k2].index
    {
      if g1 < g2 {
        MemberInPrefix(groups, g1, k1, g2);
        assert groups[g2][k2].index in GroupIndices(groups[g2]);
      } else if g2 < g1 {
        MemberInPrefix(groups, g2, k2, g1);
        assert groups[g1][k1].index in GroupIndices(groups[g1]);
      }
    }
  }

  /** A later anchor lies farther than `threshold` from every earlier anchor. */
  lemma AnchorsApart<T>(points: seq<Point<T>>, groups: seq<seq<Point<T>>>, pos: seq<seq<nat>>,
                        threshold: real, dist: Distance)
    requires forall g :: 0 <= g < |groups| ==> |groups[g]| >= 1
    requires Placed(points, groups, pos)
    requires DistinctIndices(groups)
    requires Maximal(points, groups, threshold, dist)
    ensures forall g1, g2 :: 0 <= g1 < g2 < |groups| ==> Dist(dist, groups[g1][0], groups[g2][0]) > threshold
  {
    forall g1, g2 | 0 <= g1 < g2 < |groups| ensures Dist(dist, groups[g1][0], groups[g2][0]) > threshold {
      var j := pos[g2][0];
      assert points[j] == groups[g2][0];
      if Dist(dist, groups[g1][0], points[j]) <= threshold {
        assert points[j].index in GroupIndices(groups[g2]);
        ClaimedEarlier(groups, g2, g1 + 1, points[j].index);
      }
    }
  }

  /** The group holding an index. */
  lemma GroupOfIndex<T>(groups: seq<seq<Point<T>>>, x: int) returns (g: nat, k: nat)
    requires x in Indices(groups)
    ensures g < |groups| && k < |groups[g]| && groups[g][k].index == x
  {
    IndicesMembers(groups, x);
    g, k :| 0 <= g < |groups| && 0 <= k < |groups[g]| && groups[g][k].index == x;
  }

  /** With unique indices, the member carrying a point's index is that point. */
  lemma MemberIsPoint<T>(points: seq<Point<T>>, groups: seq<seq<Point<T>>>, pos: seq<seq<nat>>,
                         g: nat, k: nat, j: nat)
    requires UniqueIndices(points)
    requires Placed(points, groups, pos)
    requires g < |groups| && k < |groups[g]| && j < |points|
    requires groups[g][k].index == points[j].index
    ensures groups[g][k] == points[j]
  {
    assert points[pos[g][k]] == groups[g][k];
  }

  /** `p` is a member of one of the groups. */
  ghost predicate InSomeGroup<T>(groups: seq<seq<Point<T>>>, p: Point<T>)
  {
    exists g, k :: 0 <= g < |groups| && 0 <= k < |groups[g]| && groups[g][k] == p
  }

  /**
   * With unique indices the groups partition the input: every point is a
   * member of some group, and (by `MembersDistinct`) of only one.
   */
  lemma Partition<T>(points: seq<Point<T>>, groups: seq<seq<Point<T>>>, pos: seq<seq<nat>>)
    requires UniqueIndices(points)
    requires Placed(points, groups, pos)
    requires forall j :: 0 <= j < |points| ==> points[j].index in Indices(groups)
    ensures forall j :: 0 <= j < |points| ==> InSomeGroup(groups, points[j])
  {
    forall j | 0 <= j < |points| ensures InSomeGroup(groups, points[j]) {
      var g, k := GroupOfIndex(groups, points[j].index);
      MemberIsPoint(points, groups, pos, g, k, j);
    }
  }

  /** `dist` gives 0 for two identical coordinate pairs, as the haversine formula does. */
  ghost predicate ZeroOnIdentical(dist: Distance)
  {
    forall lat, lon :: dist(lat, lon, lat, lon) == 0.0
  }

  /**
   * A point at the same coordinates as a member of group `g` is held by `g`
   * or an earlier group.
   */
  lemma SameSpotNotLater<T>(points: seq<Point<T>>, groups: seq<seq<Point<T>>>,
                            threshold: real, dist: Distance, g: nat, k: nat, j: nat, h: nat)
    requires 0.0 <= threshold && ZeroOnIdentical(dist)
    requires DistinctIndices(groups)
    requires WithinAnchor(groups, threshold, dist)
    requires Maximal(points, groups, threshold, dist)
    requires g < |groups| && k < |groups[g]| && j < |points| && h < |groups|
    requires groups[g][k].lat == points[j].lat && groups[g][k].lon == points[j].lon
    requires points[j].index in GroupIndices(groups[h])
    ensures h <= g
  {
    var a := groups[g][0];
    if k == 0 {
      assert dist(a.lat, a.lon, a.lat, a.lon) == 0.0;
    } else {
      assert Dist(dist, a, groups[g][k]) <= threshold;
    }
    assert Dist(dist, a, points[j]) <= threshold;
    ClaimedEarlier(groups, h, g + 1, points[j].index);
  }

  /**
   * With unique indices, a distance that is 0 between identical coordinates
   * and a threshold of at least 0, two points at the same coordinates end up
   * in the same group.
   */
  lemma SameSpotSameGroup<T>(points: seq<Point<T>>, groups: seq<seq<Point<T>>>, pos: seq<seq<nat>>,
                             threshold: real, dist: Distance, j1: nat, j2: nat)
    requires 0.0 <= threshold && ZeroOnIdentical(dist)
    requires UniqueIndices(points)
    requires Placed(points, groups, pos)
    requires DistinctIndices(groups)
    requires forall j :: 0 <= j < |points| ==> points[j].index in Indices(groups)
    requires WithinAnchor(groups, threshold, dist)
    requires Maximal(points, groups, threshold, dist)
    requires j1 < |points| && j2 < |points|
    requires points[j1].lat == points[j2].lat && points[j1].lon == points[j2].lon
    ensures exists g :: 0 <= g < |groups| &&
              points[j1].index in GroupIndices(groups[g]) && points[j2].index in GroupIndices(groups[g])
  {
    var g1, k1 := GroupOfIndex(groups, points[j1].index);
    var g2, k2 := GroupOfIndex(groups, points[j2].index);
    MemberIsPoint(points, groups, pos, g1, k1, j1);
    MemberIsPoint(points, groups, pos, g2, k2, j2);
    assert points[j1].index in GroupIndices(groups[g1]);
    assert points[j2].index in GroupIndices(groups[g2]);
    SameSpotNotLater(points, groups, threshold, dist, g1, k1, j2, g2);
    SameSpotNotLater(points, groups, threshold, dist, g2, k2, j1, g1);
  }

  // ---------------------------------------------------------------- extractPoi

  /** The fields of `NominatimAddress` that `extractPoi` reads; the others play no part in the model. */
  datatype Address = Address(amenity: Option<string>, shop: Option<string>, tourism: Option<string>, building: Option<string>)

  /** The POI fields in priority order: amenity, shop, tourism, building. */
  function PoiCandidates(a: Address): seq<Option<string>>
  {
    [a.amenity, a.shop, a.tourism, a.building]
  }

  /** Reference definition: the first present entry of a list, if any. */
  function FirstPresent(xs: seq<Option<string>>): Option<string>
  {
    if xs == [] then None else if xs[0].Some? then xs[0] else FirstPresent(xs[1..])
  }

  /** `extractPoi`: a chain of `??`, so a present empty string still counts. */
  function ExtractPoi(a: Address): (poi: Option<string>)
    ensures poi == FirstPresent(PoiCandidates(a))
  {
    var c := PoiCandidates(a);
    assert c[1..][1..] == [a.tourism, a.building];
    assert c[1..][1..][1..][1..] == [];
    if a.amenity.Some? then a.amenity
    else if a.shop.Some? then a.shop
    else
      assert FirstPresent(c) == FirstPresent([a.tourism, a.building]);
      if a.tourism.Some? then a.tourism else a.building
  }

  /**
   * The first present entry: absent exactly when every entry is absent, and
   * otherwise the entry at some position with nothing present before it.
   */
  lemma {:induction false} FirstPresentIsFirst(xs: seq<Option<string>>)
    ensures FirstPresent(xs).None? <==> forall i :: 0 <= i < |xs| ==> xs[i].None?
    ensures FirstPresent(xs).Some? ==>
              exists i :: 0 <= i < |xs| && xs[i] == FirstPresent(xs) && forall j :: 0 <= j < i ==> xs[j].None?
  {
    if xs != [] && xs[0].None? {
      FirstPresentIsFirst(xs[1..]);
      assert forall i :: 1 <= i < |xs| ==> xs[i] == xs[1..][i - 1];
      if FirstPresent(xs).Some? {
        var i :| 0 <= i < |xs[1..]| && xs[1..][i] == FirstPresent(xs[1..]) && forall j :: 0 <= j < i ==> xs[1..][j].None?;
        assert xs[i + 1] == FirstPresent(xs);
        assert forall j :: 1 <= j < i + 1 ==> xs[j] == xs[1..][j - 1];
      }
    } else if xs != [] {
      assert xs[0] == FirstPresent(xs);
    }
  }

  /** The POI is absent exactly when all four fields are, and otherwise is the first field present. */
  lemma PoiIsFirstPresentField(a: Address)
    ensures ExtractPoi(a).None? <==> a.amenity.None? && a.shop.None? && a.tourism.None? && a.building.None?
    ensures ExtractPoi(a).Some? ==>
              exists i :: 0 <= i < 4 && PoiCandidates(a)[i] == ExtractPoi(a) &&
                          forall j :: 0 <= j < i ==> PoiCandidates(a)[j].None?
  {
    FirstPresentIsFirst(PoiCandidates(a));
  }

  /** An empty amenity is still the POI: `??` does not test truthiness. */
  lemma EmptyAmenityKept(a: Address)
    requires a.amenity == Some("")
    ensures ExtractPoi(a) == Some("")
  {
  }

  // ---------------------------------------------------------------- reverseGeocode

  /** `NominatimConfig`. */
  datatype Config = Config(userAgent: string, email: Option<string>, baseUrl: Option<string>)

  /** `ReverseGeocodeOptions`. */
  datatype Options = Options(maxRetries: Option<Num>, initialDelayMs: Option<Num>)

  const DefaultBaseUrl := "https://nominatim.openstreetmap.org"
  const DefaultMaxRetries: real := 3.0
  const DefaultInitialDelayMs: real := 1000.0

  /** The request URL: base, path and the query parameters in the order they are set. */
  datatype Url = Url(base: string, path: string, query: seq<(string, string)>)

  /** One `fetch` call: the URL and the headers sent. */
  datatype FetchRequest = FetchRequest(url: Url, headers: map<string, string>)

  /** What `response.json()` gives, as far as `reverseGeocode` reads it. */
  datatype Payload =
    | NotJson                                                       // `response.json()` throws
    | JsonNull                                                      // the body is `null`: reading `display_name` throws
    | Document(displayName: Option<string>, address: Option<Address>) // any other JSON value

  /** The outcome of one `fetch`: a thrown error, or a reply with its status, `Retry-After` header and body. */
  datatype Outcome = Thrown | Reply(status: int, retryAfter: Option<string>, payload: Payload)

  /** `ReverseGeocodeResult`. */
  datatype GeocodeResult = GeocodeResult(address: string, poi: Option<string>)

  /** What one attempt leads to: stop with a result (null as None), or sleep `delay` ms and try again. */
  datatype Step = Finish(result: Option<GeocodeResult>) | Retry(delay: Num)

  /** Everything `reverseGeocode` does for one call: the result, the sleeps in order and the number of fetches. */
  datatype Trace = Trace(result: Option<GeocodeResult>, sleeps: seq<Num>, fetches: nat)

  /** `x * k` on a JavaScript number. */
  function Times(x: Num, k: real): Num
  {
    if x.NaN? then NaN else Num(x.value * k)
  }

  /** Multiplying by twice a factor is multiplying by the factor, then by 2. */
  lemma TimesTwice(x: real, k: real)
    ensures x * (2.0 * k) == x * k * 2.0
  {
  }

  /** `Math.pow(2, n)`. */
  function Pow2(n: nat): (r: nat)
    ensures r >= 1
  {
    if n == 0 then 1 else 2 * Pow2(n - 1)
  }

  /** `initialDelayMs * Math.pow(2, attempt)`. */
  function Backoff(initialDelay: Num, attempt: nat): (d: Num)
    ensures attempt == 0 ==> d == initialDelay
    ensures d.NaN? <==> initialDelay.NaN?
    // a non-negative initial delay is never shortened
    ensures initialDelay.Num? && initialDelay.value >= 0.0 ==> d.Num? && d.value >= initialDelay.value
  {
    Times(initialDelay, Pow2(attempt) as real)
  }

  /** Each attempt's backoff is twice the one before. */
  lemma BackoffDoubles(initialDelay: Num, attempt: nat)
    requires attempt > 0
    ensures Backoff(initialDelay, attempt) == Times(Backoff(initialDelay, attempt - 1), 2.0)
  {
    if initialDelay.Num? {
      TimesTwice(initialDelay.value, Pow2(attempt - 1) as real);
    }
  }

  /** `response.ok`. */
  predicate IsOk(status: int)
  {
    200 <= status <= 299
  }

  /** Reading an ok reply throws: the body is not JSON, is null, or has a display name but no address. */
  predicate ReadThrows(p: Payload)
  {
    p.NotJson? || p.JsonNull? || (p.Document? && StrTruthy(p.displayName) && p.address.None?)
  }

  /** The body of the loop for attempt number `attempt`, in the order of its checks. */
  function Classify(o: Outcome, attempt: nat, initialDelay: Num, parseInt: string -> Num): (s: Step)
    // retried exactly on a thrown fetch, a 429, a 5xx, and an ok reply whose reading throws
    ensures s.Retry? <==> o.Thrown? || o.status == 429 || o.status >= 500 || (IsOk(o.status) && ReadThrows(o.payload))
    // Retry-After (seconds, to ms) is used only for a 429 with a truthy header; every other retry backs off
    ensures s.Retry? ==>
              s.delay == if o.Reply? && o.status == 429 && StrTruthy(o.retryAfter)
                         then Times(parseInt(o.retryAfter.value), 1000.0)
                         else Backoff(initialDelay, attempt)
    // a result only for an ok reply with a truthy display name and an address
    ensures (s.Finish? && s.result.Some?) <==>
              o.Reply? && IsOk(o.status) && o.payload.Document? &&
              StrTruthy(o.payload.displayName) && o.payload.address.Some?
    ensures s.Finish? && s.result.Some? ==>
              s.result.value == GeocodeResult(o.payload.displayName.value, ExtractPoi(o.payload.address.value))
  {
    match o
    case Thrown => Retry(Backoff(initialDelay, attempt))
    case Reply(status, retryAfter, payload) =>
      if status == 429 then
        Retry(if StrTruthy(retryAfter) then Times(parseInt(retryAfter.value), 1000.0) else Backoff(initialDelay, attempt))
      else if status >= 500 then Retry(Backoff(initialDelay, attempt))
      else if !IsOk(status) then Finish(None)
      else match payload
        case NotJson => Retry(Backoff(initialDelay, attempt))
        case JsonNull => Retry(Backoff(initialDelay, attempt))
        case Document(displayName, address) =>
          if !StrTruthy(displayName) then Finish(None)
          else if address.None? then Retry(Backoff(initialDelay, attempt))
          else Finish(Some(GeocodeResult(displayName.value, ExtractPoi(address.value))))
  }

  /** The number of attempts, the `attempt` values `0, 1, ...` with `attempt <= maxRetries`. */
  function AttemptCount(maxRetries: Num): (n: nat)
    ensures maxRetries.NaN? || maxRetries.value < 0.0 ==> n == 0
    // otherwise n - 1 is the largest whole number not above maxRetries
    ensures maxRetries.Num? && maxRetries.value >= 0.0 ==> (n - 1) as real <= maxRetries.value < n as real
  {
    if maxRetries.NaN? || maxRetries.value < 0.0 then 0 else (maxRetries.value.Floor + 1) as nat
  }

  /** Attempt `n` runs exactly when the loop test `n <= maxRetries` holds. */
  lemma AttemptRuns(maxRetries: Num, n: nat)
    ensures n < AttemptCount(maxRetries) <==> maxRetries.Num? && n as real <= maxRetries.value
  {
  }

  /** The step each attempt takes against the scripted replies `respond`. */
  function Steps(respond: nat -> Outcome, initialDelay: Num, parseInt: string -> Num): nat -> Step
  {
    (a: nat) => Classify(respond(a), a, initialDelay, parseInt)
  }

  /** Attempts `attempt`, `attempt + 1`, ..., `count - 1`, attempt `a` taking step `steps(a)`. */
  function Run(attempt: nat, count: nat, steps: nat -> Step): (t: Trace)
    decreases count - attempt
    // never more fetches than attempts left
    ensures attempt <= count ==> t.fetches <= count - attempt
    // one sleep per fetch, except after the fetch that stops the loop
    ensures |t.sleeps| == t.fetches || (|t.sleeps| + 1 == t.fetches && attempt + |t.sleeps| < count)
    ensures t.result.Some? ==> |t.sleeps| + 1 == t.fetches
  {
    if attempt >= count then Trace(None, [], 0)
    else match steps(attempt)
      case Finish(r) => Trace(r, [], 1)
      case Retry(d) =>
        var rest := Run(attempt + 1, count, steps);
        Trace(rest.result, [d] + rest.sleeps, rest.fetches + 1)
  }

  /** The sleeps of attempts `from`, ..., `k - 1`, all of which retry. */
  function RetrySleeps(from: nat, k: nat, steps: nat -> Step): (ds: seq<Num>)
    requires from <= k
    requires forall a :: from <= a < k ==> steps(a).Retry?
    decreases k - from
    ensures |ds| == k - from
    ensures forall a :: from <= a < k ==> ds[a - from] == steps(a).delay
  {
    if from == k then [] else [steps(from).delay] + RetrySleeps(from + 1, k, steps)
  }

  /** Attempts before `k` all retried: the trace from `from` is their sleeps followed by the trace from `k`. */
  lemma {:induction false} RunThrough(from: nat, k: nat, count: nat, steps: nat -> Step)
    requires from <= k <= count
    requires forall a :: from <= a < k ==> steps(a).Retry?
    ensures Run(from, count, steps) ==
            var u := Run(k, count, steps);
            Trace(u.result, RetrySleeps(from, k, steps) + u.sleeps, (k - from) + u.fetches)
    decreases k - from
  {
    if from < k {
      RunThrough(from + 1, k, count, steps);
      var u := Run(k, count, steps);
      var next := Run(from + 1, count, steps);
      var d := steps(from).delay;
      assert Run(from, count, steps) == Trace(next.result, [d] + next.sleeps, next.fetches + 1);
      assert RetrySleeps(from, k, steps) == [d] + RetrySleeps(from + 1, k, steps);
      assert [d] + (RetrySleeps(from + 1, k, steps) + u.sleeps) == ([d] + RetrySleeps(from + 1, k, steps)) + u.sleeps;
    }
  }

  /**
   * Every attempt is a retryable failure: the result is null after exactly
   * `count` fetches, and every attempt slept, the last one included.
   */
  lemma AllRetryable(count: nat, steps: nat -> Step)
    requires forall a :: 0 <= a < count ==> steps(a).Retry?
    ensures Run(0, count, steps) == Trace(None, RetrySleeps(0, count, steps), count)
  {
    RunThrough(0, count, count, steps);
    assert RetrySleeps(0, count, steps) + [] == RetrySleeps(0, count, steps);
  }

  /**
   * The first attempt that does not retry ends the call with its own result,
   * after one fetch per attempt so far and one sleep per earlier attempt.
   */
  lemma StopsAtFirstFinish(k: nat, count: nat, steps: nat -> Step)
    requires k < count
    requires forall a :: 0 <= a < k ==> steps(a).Retry?
    requires steps(k).Finish?
    ensures Run(0, count, steps) == Trace(steps(k).result, RetrySleeps(0, k, steps), k + 1)
  {
    RunThrough(0, k, count, steps);
    assert RetrySleeps(0, k, steps) + [] == RetrySleeps(0, k, steps);
  }

  /** A trace continued after the sleeps `ds` of attempts that already retried. */
  function Resumed(ds: seq<Num>, t: Trace): Trace
  {
    Trace(t.result, ds + t.sleeps, |ds| + t.fetches)
  }

  lemma ResumeRetry(ds: seq<Num>, d: Num, attempt: nat, count: nat, steps: nat -> Step)
    requires attempt < count
    requires steps(attempt) == Retry(d)
    ensures Resumed(ds, Run(attempt, count, steps)) == Resumed(ds + [d], Run(attempt + 1, count, steps))
  {
    var next := Run(attempt + 1, count, steps);
    assert ds + ([d] + next.sleeps) == (ds + [d]) + next.sleeps;
  }

  lemma ResumeFinish(ds: seq<Num>, r: Option<GeocodeResult>, attempt: nat, count: nat, steps: nat -> Step)
    requires attempt < count
    requires steps(attempt) == Finish(r)
    ensures Resumed(ds, Run(attempt, count, steps)) == Trace(r, ds, |ds| + 1)
  {
    assert ds + [] == ds;
  }

  /**
   * One attempt of the scripted run, resumed after the sleeps `ds`: a retry
   * adds its delay and moves on, a finish ends the trace with its result.
   */
  lemma Resume(ds: seq<Num>, step: Step, attempt: nat, count: nat,
               respond: nat -> Outcome, initialDelay: Num, parseInt: string -> Num)
    requires attempt < count
    requires step == Classify(respond(attempt), attempt, initialDelay, parseInt)
    ensures var steps := Steps(respond, initialDelay, parseInt);
            && (step.Retry? ==> Resumed(ds, Run(attempt, count, steps)) == Resumed(ds + [step.delay], Run(attempt + 1, count, steps)))
            && (step.Finish? ==> Resumed(ds, Run(attempt, count, steps)) == Trace(step.result, ds, |ds| + 1))
  {
    var steps := Steps(respond, initialDelay, parseInt);
    assert steps(attempt) == step;
    match step
    case Retry(d) => ResumeRetry(ds, d, attempt, count, steps);
    case Finish(r) => ResumeFinish(ds, r, attempt, count, steps);
  }

  /** The `User-Agent` header always; `From` exactly when the configured email is truthy. */
  function RequestHeaders(config: Config): (h: map<string, string>)
    ensures h.Keys == if StrTruthy(config.email) then {"User-Agent", "From"} else {"User-Agent"}
    ensures h["User-Agent"] == config.userAgent
    ensures "From" in h ==> h["From"] == config.email.value
  {
    var h := map["User-Agent" := config.userAgent];
    if StrTruthy(config.email) then h["From" := config.email.value] else h
  }

  /** The names of a list of query parameters, in order. */
  function ParamNames(query: seq<(string, string)>): (names: seq<string>)
    ensures |names| == |query|
    ensures forall i :: 0 <= i < |query| ==> names[i] == query[i].0
  {
    if query == [] then [] else [query[0].0] + ParamNames(query[1..])
  }

  /**
   * `/reverse` against the configured base (the public server by default),
   * `lat` and `lon` written by `numberText` (`toString`).
   */
  function RequestUrl(lat: Num, lon: Num, config: Config, numberText: Num -> string): (u: Url)
    ensures u.base == (if config.baseUrl.Some? then config.baseUrl.value else DefaultBaseUrl)
    ensures u.path == "/reverse"
  {
    Url(config.baseUrl.GetOr(DefaultBaseUrl), "/reverse",
        [("format", "json"), ("lat", numberText(lat)), ("lon", numberText(lon)),
         ("addressdetails", "1"), ("accept-language", "ja")])
  }

  /**
   * Five distinct parameters, each `set` adding a new one: JSON output, the
   * coordinates as `lat` and `lon`, address details on, Japanese names.
   */
  lemma RequestUrlParams(lat: Num, lon: Num, config: Config, numberText: Num -> string)
    ensures var u := RequestUrl(lat, lon, config, numberText);
            && ParamNames(u.query) == ["format", "lat", "lon", "addressdetails", "accept-language"]
            && ("format", "json") in u.query
            && ("lat", numberText(lat)) in u.query && ("lon", numberText(lon)) in u.query
            && ("addressdetails", "1") in u.query
            && ("accept-language", "ja") in u.query
  {
    var u := RequestUrl(lat, lon, config, numberText);
    assert u.query[0] == ("format", "json");
    assert u.query[1] == ("lat", numberText(lat)) && u.query[2] == ("lon", numberText(lon));
    assert u.query[3] == ("addressdetails", "1") && u.query[4] == ("accept-language", "ja");
  }

  /**
   * The body of one attempt of `reverseGeocode`, from the fetch's outcome to
   * either a return value or the delay to sleep before the next attempt.
   */
  method Attempt(outcome: Outcome, attempt: nat, initialDelayMs: Num, parseInt: string -> Num) returns (step: Step)
    ensures step == Classify(outcome, attempt, initialDelayMs, parseInt)
  {
    match outcome {
      case Thrown =>
        return Retry(Backoff(initialDelayMs, attempt));
      case Reply(status, retryAfter, payload) =>
        if status == 429 {
          var delay := if StrTruthy(retryAfter) then Times(parseInt(retryAfter.value), 1000.0)
                       else Backoff(initialDelayMs, attempt);
          return Retry(delay);
        }
        if status >= 500 {
          return Retry(Backoff(initialDelayMs, attempt));
        }
        if !IsOk(status) {
          return Finish(None);
        }
        match payload {
          case NotJson =>
            return Retry(Backoff(initialDelayMs, attempt));
          case JsonNull =>
            return Retry(Backoff(initialDelayMs, attempt));
          case Document(displayName, address) =>
            if !StrTruthy(displayName) {
              return Finish(None);
            }
            if address.None? {
              return Retry(Backoff(initialDelayMs, attempt));
            }
            return Finish(Some(GeocodeResult(displayName.value, ExtractPoi(address.value))));
        }
    }
  }

  /**
   * `reverseGeocode`: the replies to successive fetches are `respond(0)`,
   * `respond(1)`, ...; `parseInt` is `parseInt(_, 10)` and `numberText` is
   * `Number.prototype.toString`. Returns the result, every sleep, the
   * request each fetch sends and the number of fetches, which are exactly
   * those of `Run`.
   */
  method ReverseGeocode(lat: Num, lon: Num, config: Config, options: Options,
                        respond: nat -> Outcome, parseInt: string -> Num, numberText: Num -> string)
    returns (result: Option<GeocodeResult>, sleeps: seq<Num>, request: FetchRequest, fetches: nat)
    // every attempt sends the same request, built once before the loop
    ensures request == FetchRequest(RequestUrl(lat, lon, config, numberText), RequestHeaders(config))
    ensures var maxRetries := options.maxRetries.GetOr(Num(DefaultMaxRetries));
            var initialDelay := options.initialDelayMs.GetOr(Num(DefaultInitialDelayMs));
            Run(0, AttemptCount(maxRetries), Steps(respond, initialDelay, parseInt)) == Trace(result, sleeps, fetches)
  {
    var maxRetries := options.maxRetries.GetOr(Num(DefaultMaxRetries));
    var initialDelayMs := options.initialDelayMs.GetOr(Num(DefaultInitialDelayMs));
    request := FetchRequest(RequestUrl(lat, lon, config, numberText), RequestHeaders(config));
    ghost var count := AttemptCount(maxRetries);
    ghost var steps := Steps(respond, initialDelayMs, parseInt);
    ghost var whole := Run(0, count, steps);
    result := None;
    sleeps := [];
    fetches := 0;
    var attempt: nat := 0;
    AttemptRuns(maxRetries, 0);
    while maxRetries.Num? && attempt as real <= maxRetries.value
      invariant attempt <= count
      invariant fetches == attempt == |sleeps|
      invariant whole == Resumed(sleeps, Run(attempt, count, steps))
      decreases count - attempt
    {
      AttemptRuns(maxRetries, attempt);
      fetches := fetches + 1;
      var step := Attempt(respond(attempt), attempt, initialDelayMs, parseInt);
      Resume(sleeps, step, attempt, count, respond, initialDelayMs, parseInt);
      match step {
        case Finish(r) =>
          result := r;
          return;
        case Retry(delay) =>
          sleeps := sleeps + [delay];
          attempt := attempt + 1;
      }
    }
    AttemptRuns(maxRetries, attempt);
    assert sleeps + [] == sleeps;
  }

  /** With the default `maxRetries` of 3 there are four attempts. */
  lemma DefaultAttempts()
    ensures AttemptCount(Options(None, None).maxRetries.GetOr(Num(DefaultMaxRetries))) == 4
  {
  }

  /** The backoff delays of attempts `0`, ..., `n - 1`. */
  function BackoffSchedule(initialDelay: Num, n: nat): (ds: seq<Num>)
    ensures |ds| == n
    ensures forall a :: 0 <= a < n ==> ds[a] == Backoff(initialDelay, a)
  {
    if n == 0 then [] else BackoffSchedule(initialDelay, n - 1) + [Backoff(initialDelay, n - 1)]
  }

  /**
   * A server that answers every attempt with a 5xx is asked once per attempt,
   * each attempt backs off exponentially, and the call returns null.
   */
  lemma ServerErrorsBackOff(count: nat, respond: nat -> Outcome, initialDelay: Num, parseInt: string -> Num)
    requires forall a :: 0 <= a < count ==> respond(a).Reply? && respond(a).status >= 500
    ensures Run(0, count, Steps(respond, initialDelay, parseInt)) == Trace(None, BackoffSchedule(initialDelay, count), count)
  {
    var steps := Steps(respond, initialDelay, parseInt);
    forall a: nat | a < count
      ensures steps(a) == Retry(Backoff(initialDelay, a))
    {
      assert steps(a) == Classify(respond(a), a, initialDelay, parseInt);
    }
    AllRetryable(count, steps);
    assert RetrySleeps(0, count, steps) == BackoffSchedule(initialDelay, count);
  }

  /** The default schedule: 1000, 2000, 4000 and 8000 ms over the four default attempts. */
  lemma DefaultBackoffSchedule()
    ensures BackoffSchedule(Num(DefaultInitialDelayMs), AttemptCount(Num(DefaultMaxRetries)))
         == [Num(1000.0), Num(2000.0), Num(4000.0), Num(8000.0)]
  {
    var ds := BackoffSchedule(Num(DefaultInitialDelayMs), 4);
    assert Pow2(2) == 4 && Pow2(3) == 8;
    assert ds[0] == Num(1000.0) && ds[1] == Num(2000.0) && ds[2] == Num(4000.0) && ds[3] == Num(8000.0);
  }

  /**
   * A 429 with `Retry-After: 2` followed by a good reply: one sleep of 2000 ms,
   * two fetches, and the display name with its POI as the result.
   */
  lemma RetryAfterThenSuccess(count: nat, respond: nat -> Outcome, initialDelay: Num, parseInt: string -> Num,
                              name: string, address: Address)
    requires count >= 2
    requires respond(0) == Reply(429, Some("2"), NotJson) && parseInt("2") == Num(2.0)
    requires respond(1) == Reply(200, None, Document(Some(name), Some(address))) && name != ""
    ensures Run(0, count, Steps(respond, initialDelay, parseInt))
         == Trace(Some(GeocodeResult(name, ExtractPoi(address))), [Num(2000.0)], 2)
  {
    var steps := Steps(respond, initialDelay, parseInt);
    assert steps(0) == Retry(Num(2000.0));
    assert steps(1) == Finish(Some(GeocodeResult(name, ExtractPoi(address))));
    StopsAtFirstFinish(1, count, steps);
    assert RetrySleeps(0, 1, steps) == [Num(2000.0)];
  }
}
