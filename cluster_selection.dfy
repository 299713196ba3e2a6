/** Cluster selection and ranking.

    The scored table is copied and each row is given a cluster label; the
    labels come from a K-Means fit on the score column, which is not modelled
    and enters here as an arbitrary label sequence of the table's length. The
    mean score of every label that occurs is computed, the label with the
    largest mean is chosen (labels are visited in ascending order and the
    first maximum is kept, so ties go to the lowest label), the rows with that
    label are kept, sorted by score from highest to lowest, and projected onto
    title, rating, vote count and score.
 */
module ClusterSelection {
  import opened Movies
  import opened SeqFacts

  /** A row of the working copy: the scored film and its `cluster` column. */
  datatype ClusteredFilm = ClusteredFilm(film: ScoredFilm, cluster: nat)

  /** The working copy of the table with the cluster column added: one row
      per film, in order, each film unchanged and paired with its label. */
  function AssignClusters(table: seq<ScoredFilm>, labels: seq<nat>): (rows: seq<ClusteredFilm>)
    requires |labels| == |table|
    ensures |rows| == |table|
    ensures forall i :: 0 <= i < |rows| ==> rows[i] == ClusteredFilm(table[i], labels[i])
  {
    if table == [] then []
    else [ClusteredFilm(table[0], labels[0])] + AssignClusters(table[1..], labels[1..])
  }

  /** The labels that actually occur in the table (the groups of the group-by). */
  function Clusters(rows: seq<ClusteredFilm>): set<nat>
  {
    set r | r in rows :: r.cluster
  }

  lemma ClustersCons(rows: seq<ClusteredFilm>)
    requires rows != []
    ensures Clusters(rows) == {rows[0].cluster} + Clusters(rows[1..])
  {
    assert rows == [rows[0]] + rows[1..];
  }

  /** The number of rows carrying label `c`; positive exactly when `c` occurs. */
  function ClusterSize(rows: seq<ClusteredFilm>, c: nat): (n: nat)
    ensures n <= |rows|
    ensures n > 0 <==> c in Clusters(rows)
  {
    if rows == [] then 0
    else
      ClustersCons(rows);
      (if rows[0].cluster == c then 1 else 0) + ClusterSize(rows[1..], c)
  }

  /** The sum of the scores of the rows carrying label `c`; a label that
      occurs nowhere sums to 0. */
  function ClusterSum(rows: seq<ClusteredFilm>, c: nat): (sum: int)
    ensures c !in Clusters(rows) ==> sum == 0
  {
    if rows == [] then 0
    else
      ClustersCons(rows);
      (if rows[0].cluster == c then rows[0].film.score else 0) + ClusterSum(rows[1..], c)
  }

  /** The mean score of the rows carrying label `c`, computed exactly. */
  function ClusterMean(rows: seq<ClusteredFilm>, c: nat): real
    requires c in Clusters(rows)
  {
    ClusterSum(rows, c) as real / ClusterSize(rows, c) as real
  }

  /** If every score in cluster `c` lies in `lo..hi`, so does their sum, `n` times over. */
  lemma {:induction false} ClusterSumBounds(rows: seq<ClusteredFilm>, c: nat, lo: int, hi: int)
    requires forall i :: 0 <= i < |rows| && rows[i].cluster == c ==> lo <= rows[i].film.score <= hi
    ensures lo * ClusterSize(rows, c) <= ClusterSum(rows, c) <= hi * ClusterSize(rows, c)
  {
    if rows != [] {
      var tail := rows[1..];
      assert forall i :: 0 <= i < |tail| ==> tail[i] == rows[i + 1];
      ClusterSumBounds(tail, c, lo, hi);
      if rows[0].cluster == c {
        AddOneRow(lo, hi, ClusterSize(tail, c), ClusterSum(tail, c), rows[0].film.score);
      }
    }
  }

  /** One more row with a score in `lo..hi` keeps a sum of `n` rows within bounds. */
  lemma AddOneRow(lo: int, hi: int, n: int, sum: int, x: int)
    requires lo * n <= sum <= hi * n && lo <= x <= hi
    ensures lo * (n + 1) <= sum + x <= hi * (n + 1)
  {
    assert lo * (n + 1) == lo * n + lo;
    assert hi * (n + 1) == hi * n + hi;
  }

  /** Dividing integer bounds on a sum by a positive count bounds the quotient. */
  lemma QuotientBounds(sum: int, size: int, lo: int, hi: int)
    requires size > 0 && lo * size <= sum <= hi * size
    ensures lo as real <= sum as real / size as real <= hi as real
  {
    var q := sum as real / size as real;
    assert q * size as real == sum as real;
    assert (lo * size) as real == lo as real * size as real;
    assert (hi * size) as real == hi as real * size as real;
  }

  /** A cluster's mean lies between the lowest and the highest score of its members. */
  lemma ClusterMeanBounds(rows: seq<ClusteredFilm>, c: nat, lo: int, hi: int)
    requires c in Clusters(rows)
    requires forall i :: 0 <= i < |rows| && rows[i].cluster == c ==> lo <= rows[i].film.score <= hi
    ensures lo as real <= ClusterMean(rows, c) <= hi as real
  {
    ClusterSumBounds(rows, c, lo, hi);
    QuotientBounds(ClusterSum(rows, c), ClusterSize(rows, c), lo, hi);
  }

  /** The largest label, an upper bound for every label that occurs. */
  function MaxLabel(rows: seq<ClusteredFilm>): (m: nat)
    ensures forall d :: d in Clusters(rows) ==> d <= m
  {
    if rows == [] then 0
    else
      ClustersCons(rows);
      var rest := MaxLabel(rows[1..]);
      if rows[0].cluster < rest then rest else rows[0].cluster
  }

  /** `best` occurs, no label below `c` has a larger mean, and every label
      below `best` has a strictly smaller mean. */
  ghost predicate LeadsBelow(rows: seq<ClusteredFilm>, best: nat, c: nat)
  {
    && best in Clusters(rows)
    && best < c
    && (forall d :: d in Clusters(rows) && d < c ==> ClusterMean(rows, d) <= ClusterMean(rows, best))
    && (forall d :: d in Clusters(rows) && d < best ==> ClusterMean(rows, d) < ClusterMean(rows, best))
  }

  lemma LeadsBelowSkip(rows: seq<ClusteredFilm>, best: nat, c: nat)
    requires LeadsBelow(rows, best, c) && c !in Clusters(rows)
    ensures LeadsBelow(rows, best, c + 1)
  {
  }

  lemma LeadsBelowKeep(rows: seq<ClusteredFilm>, best: nat, c: nat)
    requires LeadsBelow(rows, best, c) && c in Clusters(rows)
    requires ClusterMean(rows, c) <= ClusterMean(rows, best)
    ensures LeadsBelow(rows, best, c + 1)
  {
  }

  lemma LeadsBelowReplace(rows: seq<ClusteredFilm>, best: nat, c: nat)
    requires LeadsBelow(rows, best, c) && c in Clusters(rows)
    requires ClusterMean(rows, c) > ClusterMean(rows, best)
    ensures LeadsBelow(rows, c, c + 1)
  {
  }

  /** The lowest label that occurs: the first group of the group-by. */
  function MinLabel(rows: seq<ClusteredFilm>): (m: nat)
    requires rows != []
    ensures m in Clusters(rows)
    ensures forall d :: d in Clusters(rows) ==> m <= d
  {
    ClustersCons(rows);
    if |rows| == 1 then rows[0].cluster
    else
      var rest := MinLabel(rows[1..]);
      if rows[0].cluster < rest then rows[0].cluster else rest
  }

  /** The scan of the group means in ascending label order from label `c` up
      to `top`, keeping the first label that reaches the maximum. */
  function IdxMax(rows: seq<ClusteredFilm>, c: nat, top: nat, best: nat): (t: nat)
    requires forall d :: d in Clusters(rows) ==> d <= top
    requires LeadsBelow(rows, best, c)
    ensures LeadsBelow(rows, t, top + 1)
    decreases top + 1 - c
  {
    if c > top then
      best
    else if c !in Clusters(rows) then
      LeadsBelowSkip(rows, best, c);
      IdxMax(rows, c + 1, top, best)
    else if ClusterMean(rows, c) > ClusterMean(rows, best) then
      LeadsBelowReplace(rows, best, c);
      IdxMax(rows, c + 1, top, c)
    else
      LeadsBelowKeep(rows, best, c);
      IdxMax(rows, c + 1, top, best)
  }

  /** The target cluster: a label that occurs, whose mean is at least that of
      every label that occurs, and strictly above that of every lower label. */
  function TargetCluster(rows: seq<ClusteredFilm>): (t: nat)
    requires rows != []
    ensures t in Clusters(rows)
    ensures forall d :: d in Clusters(rows) ==> ClusterMean(rows, d) <= ClusterMean(rows, t)
    ensures forall d :: d in Clusters(rows) && d < t ==> ClusterMean(rows, d) < ClusterMean(rows, t)
  {
    var first := MinLabel(rows);
    IdxMax(rows, first + 1, MaxLabel(rows), first)
  }

  /** The three properties above pin the target down: it is the lowest label of maximal mean. */
  lemma TargetClusterUnique(rows: seq<ClusteredFilm>, u: nat)
    requires rows != []
    requires u in Clusters(rows)
    requires forall d :: d in Clusters(rows) ==> ClusterMean(rows, d) <= ClusterMean(rows, u)
    requires forall d :: d in Clusters(rows) && d < u ==> ClusterMean(rows, d) < ClusterMean(rows, u)
    ensures u == TargetCluster(rows)
  {
  }

  /** The rows carrying label `t`, with the cluster column dropped: every
      film with that label, each as often as it occurs with it. */
  function InCluster(rows: seq<ClusteredFilm>, t: nat): (sel: seq<ScoredFilm>)
    ensures |sel| == ClusterSize(rows, t)
    ensures forall f :: multiset(sel)[f] == multiset(rows)[ClusteredFilm(f, t)]
  {
    if rows == [] then []
    else
      assert rows == [rows[0]] + rows[1..];
      (if rows[0].cluster == t then [rows[0].film] else []) + InCluster(rows[1..], t)
  }

  /** Scores never increase along `s`. */
  predicate NonIncreasing(s: seq<ScoredFilm>)
  {
    forall i, j :: 0 <= i < j < |s| ==> s[i].score >= s[j].score
  }

  /** A row scoring at least as much as the head of a sorted list can go in front. */
  lemma PrependSorted(x: ScoredFilm, s: seq<ScoredFilm>)
    requires NonIncreasing(s) && (s == [] || x.score >= s[0].score)
    ensures NonIncreasing([x] + s)
  {
    var r := [x] + s;
    forall i, j | 0 <= i < j < |r| ensures r[i].score >= r[j].score {
      if i == 0 && j > 1 {
        assert r[1].score >= r[j].score;
      }
    }
  }

  /** Putting back the head of a sorted list in front of the insertion into
      its tail gives a sorted list holding the head, the tail and `x`. */
  lemma InsertBehindHead(x: ScoredFilm, s: seq<ScoredFilm>, tail: seq<ScoredFilm>)
    requires NonIncreasing(s) && s != [] && x.score < s[0].score
    requires NonIncreasing(tail) && multiset(tail) == multiset(s[1..]) + multiset{x}
    requires tail != [] && (tail[0] == x || (s[1..] != [] && tail[0] == s[1..][0]))
    ensures NonIncreasing([s[0]] + tail)
    ensures multiset([s[0]] + tail) == multiset(s) + multiset{x}
  {
    assert s == [s[0]] + s[1..];
    PrependSorted(s[0], tail);
  }

  /** Inserts `x` into a list sorted by non-increasing score. */
  function InsertByScore(x: ScoredFilm, s: seq<ScoredFilm>): (r: seq<ScoredFilm>)
    requires NonIncreasing(s)
    ensures NonIncreasing(r)
    ensures multiset(r) == multiset(s) + multiset{x}
    ensures |r| == |s| + 1 && (r[0] == x || (s != [] && r[0] == s[0]))
  {
    if s == [] || x.score >= s[0].score then
      [x] + s
    else
      var tail := InsertByScore(x, s[1..]);
      InsertBehindHead(x, s, tail);
      [s[0]] + tail
  }

  /** The table sorted by score, highest first. The order among equal scores
      is not promised: the sort of the source is not stable. */
  function SortByScore(s: seq<ScoredFilm>): (r: seq<ScoredFilm>)
    ensures NonIncreasing(r)
    ensures multiset(r) == multiset(s)
  {
    if s == [] then []
    else
      assert s == [s[0]] + s[1..];
      InsertByScore(s[0], SortByScore(s[1..]))
  }

  /** The label chosen for the table and labels: one that some film carries. */
  function Target(table: seq<ScoredFilm>, labels: seq<nat>): (t: nat)
    requires |table| > 0 && |labels| == |table|
    ensures exists i :: 0 <= i < |labels| && labels[i] == t
  {
    TargetCluster(AssignClusters(table, labels))
  }

  /** The rows of the target cluster, sorted by score from highest to lowest:
      never empty, and a permutation of the films carrying the target label. */
  function RankedSelection(table: seq<ScoredFilm>, labels: seq<nat>): (ranked: seq<ScoredFilm>)
    requires |table| > 0 && |labels| == |table|
    ensures |ranked| == ClusterSize(AssignClusters(table, labels), Target(table, labels)) > 0
    ensures NonIncreasing(ranked)
    ensures forall f ::
      multiset(ranked)[f] ==
        multiset(AssignClusters(table, labels))[ClusteredFilm(f, Target(table, labels))]
    ensures multiset(ranked) == multiset(InCluster(AssignClusters(table, labels), Target(table, labels)))
  {
    var rows := AssignClusters(table, labels);
    var selected := InCluster(rows, TargetCluster(rows));
    var ranked := SortByScore(selected);
    assert |ranked| == |multiset(ranked)| == |multiset(selected)| == |selected|;
    ranked
  }

  /** The projection of every row onto the four output columns. */
  function ProjectAll(s: seq<ScoredFilm>): seq<Recommendation>
  {
    seq(|s|, i requires 0 <= i < |s| => Project(s[i]))
  }

  /** Projecting two permutations of the same rows gives two permutations of
      the same recommendations: projection keeps every row's multiplicity. */
  lemma {:induction false} ProjectAllPermutation(s: seq<ScoredFilm>, t: seq<ScoredFilm>)
    requires multiset(s) == multiset(t)
    ensures multiset(ProjectAll(s)) == multiset(ProjectAll(t))
  {
    if s == [] {
      assert |t| == |multiset(t)| == 0;
    } else {
      var j := MatchHead(s, t);
      var rest := t[..j] + t[j + 1..];
      ProjectAllPermutation(s[1..], rest);
      assert ProjectAll(s) == [Project(s[0])] + ProjectAll(s[1..]);
      var pt := ProjectAll(t);
      assert ProjectAll(rest) == pt[..j] + pt[j + 1..];
      MultisetRemoveAt(pt, j);
      assert pt[j] in multiset(pt);
    }
  }

  /** The recommendation `x` is the projection of some film of `table` whose label is `t`. */
  predicate ProjectsLabelled(table: seq<ScoredFilm>, labels: seq<nat>, t: nat, x: Recommendation)
    requires |labels| == |table|
  {
    exists i :: 0 <= i < |table| && labels[i] == t && x == Project(table[i])
  }

  /** If `ranked` is sorted and holds each film exactly as often as the
      working copy `rows` holds it with label `t`, its projection is sorted,
      as long as the cluster, and holds the projection of every film with
      that label and nothing else. */
  lemma ProjectedSelection(table: seq<ScoredFilm>, labels: seq<nat>, t: nat, rows: seq<ClusteredFilm>,
                           ranked: seq<ScoredFilm>, recs: seq<Recommendation>)
    requires |labels| == |table| == |rows|
    requires forall i :: 0 <= i < |rows| ==> rows[i] == ClusteredFilm(table[i], labels[i])
    requires |ranked| == ClusterSize(rows, t) > 0 && NonIncreasing(ranked)
    requires forall f :: multiset(ranked)[f] == multiset(rows)[ClusteredFilm(f, t)]
    requires recs == ProjectAll(ranked)
    ensures |recs| == ClusterSize(rows, t) > 0
    ensures forall i, j :: 0 <= i < j < |recs| ==> recs[i].score >= recs[j].score
    ensures forall k :: 0 <= k < |recs| ==> ProjectsLabelled(table, labels, t, recs[k])
    ensures forall i :: 0 <= i < |table| && labels[i] == t ==> Project(table[i]) in recs
  {
    forall k | 0 <= k < |recs|
      ensures ProjectsLabelled(table, labels, t, recs[k])
    {
      var f := ranked[k];
      assert f in multiset(ranked);
      assert ClusteredFilm(f, t) in multiset(rows);
      var i :| 0 <= i < |rows| && rows[i] == ClusteredFilm(f, t);
      assert recs[k] == Project(table[i]);
    }
    forall i | 0 <= i < |table| && labels[i] == t
      ensures Project(table[i]) in recs
    {
      assert rows[i] in multiset(rows);
      assert table[i] in multiset(ranked);
      var k :| 0 <= k < |ranked| && ranked[k] == table[i];
      assert recs[k] == Project(table[i]);
    }
  }

  /** The recommendation list: non-empty, ordered by non-increasing score,
      holding exactly the projections of the films that carry the target
      label, as many entries as there are such films. */
  function Recommend(table: seq<ScoredFilm>, labels: seq<nat>): (recs: seq<Recommendation>)
    requires |table| > 0 && |labels| == |table|
    ensures |recs| == ClusterSize(AssignClusters(table, labels), Target(table, labels)) > 0
    ensures forall i, j :: 0 <= i < j < |recs| ==> recs[i].score >= recs[j].score
    ensures forall k :: 0 <= k < |recs| ==> ProjectsLabelled(table, labels, Target(table, labels), recs[k])
    ensures forall i :: 0 <= i < |table| && labels[i] == Target(table, labels) ==> Project(table[i]) in recs
    ensures multiset(recs) == multiset(ProjectAll(InCluster(AssignClusters(table, labels), Target(table, labels))))
  {
    var ranked := RankedSelection(table, labels);
    ProjectAllPermutation(ranked, InCluster(AssignClusters(table, labels), Target(table, labels)));
    ProjectedSelection(table, labels, Target(table, labels), AssignClusters(table, labels), ranked, ProjectAll(ranked));
    ProjectAll(ranked)
  }

  /** When every film carries the same label there is one cluster, it is the
      target, and the ranking is a permutation of the whole table. */
  lemma SingleClusterKeepsAll(table: seq<ScoredFilm>, labels: seq<nat>)
    requires |table| > 0 && |labels| == |table|
    requires forall i :: 0 <= i < |labels| ==> labels[i] == labels[0]
    ensures Target(table, labels) == labels[0]
    ensures multiset(RankedSelection(table, labels)) == multiset(table)
  {
    var rows := AssignClusters(table, labels);
    var c := labels[0];
    assert Clusters(rows) == {c} by {
      assert rows[0].cluster == c;
      forall r | r in rows ensures r.cluster == c {
        var i :| 0 <= i < |rows| && rows[i] == r;
      }
    }
    var ranked := RankedSelection(table, labels);
    forall f ensures multiset(ranked)[f] == multiset(table)[f] {
      UniformLabelsCount(table, labels, c, f);
    }
  }

  /** With a single label `c` throughout, the working copy holds each film
      with label `c` exactly as often as the table holds the film. */
  lemma {:induction false} UniformLabelsCount(table: seq<ScoredFilm>, labels: seq<nat>, c: nat, f: ScoredFilm)
    requires |labels| == |table|
    requires forall i :: 0 <= i < |labels| ==> labels[i] == c
    ensures multiset(AssignClusters(table, labels))[ClusteredFilm(f, c)] == multiset(table)[f]
  {
    if table != [] {
      UniformLabelsCount(table[1..], labels[1..], c, f);
      assert table == [table[0]] + table[1..];
      var rest := AssignClusters(table[1..], labels[1..]);
      assert AssignClusters(table, labels) == [ClusteredFilm(table[0], c)] + rest;
      assert multiset(AssignClusters(table, labels)) == multiset{ClusteredFilm(table[0], c)} + multiset(rest);
      assert multiset(table) == multiset{table[0]} + multiset(table[1..]);
    }
  }

  /** Removing one element keeps a list sorted by non-increasing score. */
  lemma NonIncreasingRemove(s: seq<ScoredFilm>, j: nat)
    requires NonIncreasing(s) && j < |s|
    ensures NonIncreasing(s[..j] + s[j + 1..])
  {
    var r := s[..j] + s[j + 1..];
    forall p, q | 0 <= p < q < |r| ensures r[p].score >= r[q].score {
      var p' := if p < j then p else p + 1;
      var q' := if q < j then q else q + 1;
      assert r[p] == s[p'] && r[q] == s[q'];
    }
  }

  /** If the head of `a` scores like the first `j + 1` rows of `b`, and the
      rest of `a` scores like `b` without its row `j`, then `a` scores like `b`. */
  lemma ScoresAfterRemoval(a: seq<ScoredFilm>, b: seq<ScoredFilm>, j: nat)
    requires NonIncreasing(b) && |a| == |b| && j < |b|
    requires a[0].score == b[0].score == b[j].score
    requires forall k :: 0 <= k < |a| - 1 ==> a[1..][k].score == (b[..j] + b[j + 1..])[k].score
    ensures forall k :: 0 <= k < |a| ==> a[k].score == b[k].score
  {
    var rest := b[..j] + b[j + 1..];
    forall k | 0 < k < |a| ensures a[k].score == b[k].score {
      assert a[k] == a[1..][k - 1];
      if k <= j {
        assert rest[k - 1] == b[k - 1];
        assert b[0].score >= b[k - 1].score >= b[k].score >= b[j].score;
      } else {
        assert rest[k - 1] == b[k];
      }
    }
  }

  /** Two sorted orderings of the same non-empty rows start with the same score. */
  lemma HeadScoresAgree(a: seq<ScoredFilm>, b: seq<ScoredFilm>)
    requires NonIncreasing(a) && NonIncreasing(b)
    requires multiset(a) == multiset(b) && a != []
    ensures b != [] && a[0].score == b[0].score
  {
    assert a[0] in multiset(b);
    var j :| 0 <= j < |b| && b[j] == a[0];
    assert b[0].score >= b[j].score;
    assert b[0] in multiset(a);
    var m :| 0 <= m < |a| && a[m] == b[0];
    assert a[0].score >= a[m].score;
  }

  /** Any two orderings of the same rows by non-increasing score have the same
      score column: whichever order an unstable sort leaves among equal
      scores, the scores read top to bottom are the same. */
  lemma {:induction false} SortedScoresAgree(a: seq<ScoredFilm>, b: seq<ScoredFilm>)
    requires NonIncreasing(a) && NonIncreasing(b)
    requires multiset(a) == multiset(b)
    ensures |a| == |b|
    ensures forall k :: 0 <= k < |a| ==> a[k].score == b[k].score
  {
    assert |a| == |multiset(a)| == |multiset(b)| == |b|;
    if a != [] {
      HeadScoresAgree(a, b);
      var j := MatchHead(a, b);
      NonIncreasingRemove(b, j);
      SortedScoresAgree(a[1..], b[..j] + b[j + 1..]);
      ScoresAfterRemoval(a, b, j);
    }
  }
}
