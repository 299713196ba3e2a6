# Genre-affinity film recommender — Dafny model

The script `ProjetoIa.py` recommends popular films to a user in three stages:

1. It asks the user to rate each film genre from 0 to 10.
2. It scores every candidate film. A film's score (`pontuacao_usuario`) is the sum of the user's ratings of the film's genres. A genre the user did not rate counts 0.
3. It clusters the films by that score with K-Means. It then recommends every film of the cluster whose mean score is highest, sorted by score from highest to lowest. Each recommendation shows only the title, the community rating, the vote count and the score.

This project models stage 2 and the selection part of stage 3, and proves the properties they promise.

- `movies.dfy` (module `Movies`): the records that flow through the engine.
  - A film as the metadata provider returns it.
  - A row of the scored table.
  - A row of the recommendation list, with its four projected columns.
- `scoring.dfy` (module `Scoring`): the affinity score and the loop that builds the scored table. The loop is an imperative method with invariants, as in the source.
- `cluster_selection.dfy` (module `ClusterSelection`): how the target cluster is selected and ranked.
  - The cluster labels come in as a parameter.
  - The mean score of each cluster is computed.
  - The target is the label with the largest mean (`idxmax`). Among equal means the lowest label wins, because the group-by lists its groups by ascending label.
  - The rows of the target cluster are filtered, sorted by non-increasing score, and projected onto the four shown columns.
- `recommender.dfy` (module `Recommender`): the two stages chained, as the script's main sequence does. It also has a worked two-film example.
- `seq_facts.dfy` (module `SeqFacts`): two generic multiset facts about sequences, used by the permutation proofs.

The sort is specified by what it promises: the result is non-increasing by score and is a permutation of its input. The source's sort is not stable, so the model promises nothing about the order of films with equal scores. `ClusterSelection.SortedScoresAgree` proves that the score column of the result is still fully determined.

## Model

| member | source | states |
|---|---|---|
| `Scoring.CollectedRatingsValid` | ProjetoIa.py:46-60 | The collector starts from no ratings and stores a rating only after the 0..10 check, so every map it builds satisfies `ValidPreferences`: every rating lies in 0..10. |
| `Scoring.GenreRating` | ProjetoIa.py:78 | The rating looked up for one genre, 0 when absent: a non-zero value only comes from a rated genre, and with valid ratings it lies in 0..10. |
| `Scoring.Affinity` | ProjetoIa.py:78 | With every rating in 0..10, a film's score lies between 0 and 10 times its number of genres. |
| `Scoring.AffinityNoPreferences` | ProjetoIa.py:78 | With no ratings at all, every film scores 0. |
| `Scoring.AffinityUnratedIsZero` | ProjetoIa.py:78 | An unrated genre contributes exactly 0: rating it 0 explicitly changes no score. |
| `Scoring.AffinityConcat` | ProjetoIa.py:78 | The score of a concatenated genre list is the sum of the two scores: the sum is additive over the list. |
| `Scoring.AffinityDropUnrated` | ProjetoIa.py:78 | Removing an unrated genre from a film's genre list leaves its score unchanged. |
| `Scoring.AffinityPermutation` | ProjetoIa.py:78 | The score depends only on the multiset of genres, not on their order. |
| `Scoring.PrepareForRecommendation` | ProjetoIa.py:62-82 | The table has one row per film, in input order. Each row copies id, title, genres, rating and vote count, and its score is the film's affinity. With ratings in 0..10 every score lies in 0..10·#genres. With no ratings every score is 0. |
| `ClusterSelection.AssignClusters` | ProjetoIa.py:90-95 | The working copy has one row per film, in order, pairing the film with its label. The input table is left as it was. |
| `ClusterSelection.ClusterSum` | ProjetoIa.py:98 | The total score of a group; a label no row carries totals 0. |
| `ClusterSelection.ClusterSize` | ProjetoIa.py:98 | A cluster's size is at most the number of rows, and it is positive exactly when the label occurs. |
| `ClusterSelection.ClusterSumBounds` | ProjetoIa.py:98 | If every member of a cluster scores within lo..hi, the cluster's total lies between lo and hi times its size. |
| `ClusterSelection.ClusterMeanBounds` | ProjetoIa.py:98 | If every member of a cluster scores within lo..hi, so does the cluster's mean. |
| `ClusterSelection.MaxLabel` | ProjetoIa.py:98 | Every label that occurs is at most this bound, so the group-by has finitely many groups to scan. |
| `ClusterSelection.MinLabel` | ProjetoIa.py:98 | The smallest label that occurs: the first group in the group-by's ascending order. |
| `ClusterSelection.IdxMax` | ProjetoIa.py:99 | The scan over labels up to the bound ends with a label that occurs, has the largest mean, and beats every lower label strictly. |
| `ClusterSelection.TargetCluster` | ProjetoIa.py:98-99 | The target label occurs. Its mean is at least every cluster's mean. Every lower label has a strictly smaller mean, so the first maximum wins ties. |
| `ClusterSelection.Target` | ProjetoIa.py:98-99 | The target label computed from the table and its labels is one that some film carries. |
| `ClusterSelection.TargetClusterUnique` | ProjetoIa.py:98-99 | Any label with those three properties is the target: the target is fully characterised. |
| `ClusterSelection.InCluster` | ProjetoIa.py:102 | The filter keeps each film of the target cluster as often as it occurs there, and nothing else. |
| `ClusterSelection.InsertByScore` | ProjetoIa.py:103 | Inserting into a list sorted by non-increasing score keeps it sorted and adds exactly that one row. |
| `ClusterSelection.SortByScore` | ProjetoIa.py:103 | The sort returns a permutation of its input, ordered by non-increasing score. |
| `ClusterSelection.SortedScoresAgree` | ProjetoIa.py:103 | Any two sorted permutations of the same rows have the same score column, so the unstable sort still fixes the score order. |
| `ClusterSelection.RankedSelection` | ProjetoIa.py:98-103 | The ranked selection is non-empty and a permutation of the filtered target cluster. It holds each target-cluster film exactly as often as it occurs there, sorted by non-increasing score. |
| `ClusterSelection.ProjectAllPermutation` | ProjetoIa.py:105 | Projecting two permutations of the same rows gives two permutations of the same recommendations, so projection keeps every row's multiplicity. |
| `ClusterSelection.Recommend` | ProjetoIa.py:84-105 | The result is non-empty and as long as the target cluster. It is sorted by non-increasing score. Every entry projects a film with the target label, and every such film appears. It is a permutation of the projected filter result, so each target film appears exactly as often as it occurs in the table. |
| `ClusterSelection.SingleClusterKeepsAll` | ProjetoIa.py:95-103 | When all films share one label, that label is the target and the ranking is a permutation of the whole table. |
| `Recommender.RecommendFilms` | ProjetoIa.py:116-120 | The main sequence: the table is the scored films, and the recommendation is selected from it. Every entry shows an input film with the target label, scored by its affinity. With ratings in 0..10 no shown score is negative. |
| `Recommender.TwoFilmScores` | ProjetoIa.py:78 | With genre 1 rated 10 and genre 2 rated 0, a genre-1 film scores 10 and a genre-2 film scores 0. |
| `Recommender.TwoClusterTarget` | ProjetoIa.py:98-99 | With labels 0 and 1 supplied for two films, the higher scorer's cluster is the target. |
| `Recommender.TwoClusterRecommendation` | ProjetoIa.py:98-105 | With labels 0 and 1 supplied for two films, the recommendation is the higher scorer alone. |
| `Recommender.TwoFilmRecommendation` | ProjetoIa.py:98-105 | With labels 0 and 1 supplied, the concrete two-film example (scores from line 78: 10 and 0) ends with film A alone, at score 10. The K-Means step itself would refuse two films. |

## Left out

- Fetching genres and popular films from the metadata web service (lines 9-39) is network I/O. Films arrive as a parameter.
- The prompting and input parsing of the rating collector (lines 41-60) are console I/O. What it guarantees about the map it returns is kept as `ValidPreferences` (every rating lies in 0..10), with `Scoring.CollectedRatingsValid` showing that its updates preserve it. The score bounds are stated under that assumption.
- The K-Means fit (lines 94-95, three clusters, `random_state=0`) is a numerical optimisation on floating point, and this model does not include it. The labels it produces are a parameter with one label per film.
  - The model accepts any labels, not only 0..2. That covers whatever K-Means returns.
  - On an empty film list the table has no `pontuacao_usuario` column, so line 95 raises; the fit also raises on fewer films than clusters. The model excludes only the empty table, with `requires |table| > 0`.
- The renaming of columns for display and the printing (lines 122-132) are presentation only.
- Making the column names strings (line 91) changes no data and is not modelled.
- `voteAverage` is a floating-point value in the source. Here it is a `real` that the model only copies, and no property depends on rounding.
- Cluster means are exact `real` quotients. The source computes them in floating point, so two means that differ only after rounding could compare differently there.
- `ClusterSelection.SortByScore`: the model promises only order and permutation. It does not pin down the order of equal scores, because the source's sort is not stable.
- `ProjetoIa.py` has no score normalisation, combined final score, result cap, configurable sort key or tie-break chain, and none is modelled.
