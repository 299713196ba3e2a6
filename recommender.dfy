/** The two core steps of the script chained together: score the films
    against the user's genre ratings, then select and rank the target cluster.
    The cluster labels, which the script obtains from a K-Means fit, are a
    parameter.
 */
module Recommender {
  import opened Movies
  import opened Scoring
  import opened ClusterSelection

  /** `x` shows the title, rating, vote count and affinity score of some film
      of `films` whose label is `t`. */
  predicate ShowsLabelledFilm(films: seq<Film>, prefs: Preferences, labels: seq<nat>, t: nat, x: Recommendation)
    requires |labels| == |films|
  {
    exists i :: 0 <= i < |films| && labels[i] == t &&
      x == Recommendation(films[i].title, films[i].voteAverage, films[i].voteCount,
                          Affinity(films[i].genreIds, prefs))
  }

  /** Scores `films` and recommends from the scored table. Every entry of the
      result is, in its title, rating, vote count and score, one of the input
      films carrying the target label, scored by its affinity. */
  method RecommendFilms(films: seq<Film>, prefs: Preferences, labels: seq<nat>)
    returns (table: seq<ScoredFilm>, recs: seq<Recommendation>)
    requires |films| > 0 && |labels| == |films|
    ensures |table| == |films|
    ensures forall i :: 0 <= i < |films| ==>
      CopiesFilm(table[i], films[i]) && table[i].score == Affinity(films[i].genreIds, prefs)
    ensures recs == Recommend(table, labels) && |recs| > 0
    ensures forall k :: 0 <= k < |recs| ==>
      ShowsLabelledFilm(films, prefs, labels, Target(table, labels), recs[k])
    ensures ValidPreferences(prefs) ==> forall k :: 0 <= k < |recs| ==> recs[k].score >= 0
  {
    table := PrepareForRecommendation(films, prefs);
    recs := Recommend(table, labels);
    forall k | 0 <= k < |recs|
      ensures ShowsLabelledFilm(films, prefs, labels, Target(table, labels), recs[k])
      ensures ValidPreferences(prefs) ==> recs[k].score >= 0
    {
      assert ProjectsLabelled(table, labels, Target(table, labels), recs[k]);
      var i :| 0 <= i < |table| && labels[i] == Target(table, labels) && recs[k] == Project(table[i]);
      assert CopiesFilm(table[i], films[i]) && table[i].score == Affinity(films[i].genreIds, prefs);
    }
  }

  /** Two films, "A" in genre 1 with 500 votes and "B" in genre 2 with 100
      votes, and a user who rates genre 1 with 10 and genre 2 with 0: A
      scores 10 and B scores 0. */
  lemma TwoFilmScores()
    ensures Affinity([1], map[1 := 10, 2 := 0]) == 10
    ensures Affinity([2], map[1 := 10, 2 := 0]) == 0
  {
    var prefs := map[1 := 10, 2 := 0];
    assert [1][1..] == [] && [2][1..] == [];
    assert GenreRating(prefs, 1) == 10 && GenreRating(prefs, 2) == 0;
  }

  /** Two films each in a cluster of its own: the one with the higher score
      forms the cluster with the higher mean, which is the target. */
  lemma TwoClusterTarget(a: ScoredFilm, b: ScoredFilm)
    requires a.score > b.score
    ensures Target([a, b], [0, 1]) == 0
  {
    var rows := AssignClusters([a, b], [0, 1]);
    assert rows == [ClusteredFilm(a, 0), ClusteredFilm(b, 1)];
    assert Clusters(rows) == {0, 1} by {
      assert rows[0] in rows && rows[1] in rows;
    }
    assert rows[1..] == [ClusteredFilm(b, 1)] && rows[1..][1..] == [];
    assert ClusterSum(rows[1..], 0) == 0 && ClusterSum(rows[1..], 1) == b.score;
    assert ClusterSize(rows, 0) == 1 && ClusterSum(rows, 0) == a.score;
    assert ClusterSize(rows, 1) == 1 && ClusterSum(rows, 1) == b.score;
    assert ClusterMean(rows, 0) == a.score as real;
    assert ClusterMean(rows, 1) == b.score as real;
  }

  /** With the target cluster holding the higher-scoring film alone, the
      recommendation is that film alone. */
  lemma TwoClusterRecommendation(a: ScoredFilm, b: ScoredFilm)
    requires a.score > b.score
    ensures Recommend([a, b], [0, 1]) == [Project(a)]
  {
    var table := [a, b];
    var labels: seq<nat> := [0, 1];
    TwoClusterTarget(a, b);
    var rows := AssignClusters(table, labels);
    assert rows == [ClusteredFilm(a, 0), ClusteredFilm(b, 1)];
    assert rows[1..] == [ClusteredFilm(b, 1)] && rows[1..][1..] == [];
    assert ClusterSize(rows, 0) == 1;
    var recs := Recommend(table, labels);
    assert |recs| == 1;
    assert ProjectsLabelled(table, labels, 0, recs[0]);
    assert recs[0] == Project(a);
  }

  /** The two films "A" (genre 1) and "B" (genre 2), for a user who rates
      genre 1 with 10 and genre 2 with 0, in clusters 0 and 1: the
      recommendation is A alone, with score 10. */
  lemma TwoFilmRecommendation()
    ensures Recommend([ScoredFilm(1, "A", [1], 8.0, 500, Affinity([1], map[1 := 10, 2 := 0])),
                       ScoredFilm(2, "B", [2], 7.5, 100, Affinity([2], map[1 := 10, 2 := 0]))], [0, 1])
      == [Recommendation("A", 8.0, 500, 10)]
  {
    TwoFilmScores();
    TwoClusterRecommendation(ScoredFilm(1, "A", [1], 8.0, 500, 10), ScoredFilm(2, "B", [2], 7.5, 100, 0));
  }
}
