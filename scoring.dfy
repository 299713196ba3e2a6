/** Genre-affinity scoring: each film's score is the sum, over its list of
    genres, of the rating the user gave that genre, an unrated genre counting 0.
 */
module Scoring {
  import opened Movies
  import opened SeqFacts

  /** The user's ratings, genre identifier to rating. */
  type Preferences = map<int, int>

  /** Every rating lies in 0..10, the range the interactive collector accepts. */
  predicate ValidPreferences(prefs: Preferences)
  {
    forall g :: g in prefs ==> 0 <= prefs[g] <= 10
  }

  /** The collector starts from no ratings and stores a rating only once it
      passes the 0..10 check, so the ratings it returns are valid. */
  lemma CollectedRatingsValid(prefs: Preferences, g: int, rating: int)
    requires ValidPreferences(prefs) && 0 <= rating <= 10
    ensures ValidPreferences(map[])
    ensures ValidPreferences(prefs[g := rating])
  {
  }

  /** The rating of genre `g`, or 0 when the user did not rate it: only a
      rated genre can contribute, and with valid ratings it contributes 0..10. */
  function GenreRating(prefs: Preferences, g: int): (r: int)
    ensures r != 0 ==> g in prefs && r == prefs[g]
    ensures ValidPreferences(prefs) ==> 0 <= r <= 10
  {
    if g in prefs then prefs[g] else 0
  }

  /** The affinity of a film with genres `genres`: the sum of their ratings,
      taken left to right over the list. With ratings in 0..10 each genre adds
      at most 10, so the score lies between 0 and 10 times the number of genres. */
  function Affinity(genres: seq<int>, prefs: Preferences): (r: int)
    ensures ValidPreferences(prefs) ==> 0 <= r <= 10 * |genres|
  {
    if genres == [] then 0 else GenreRating(prefs, genres[0]) + Affinity(genres[1..], prefs)
  }

  /** With no ratings at all every film scores 0. */
  lemma {:induction false} AffinityNoPreferences(genres: seq<int>)
    ensures Affinity(genres, map[]) == 0
  {
    if genres != [] {
      AffinityNoPreferences(genres[1..]);
    }
  }

  /** The score of a concatenation is the sum of the scores. */
  lemma {:induction false} AffinityConcat(a: seq<int>, b: seq<int>, prefs: Preferences)
    ensures Affinity(a + b, prefs) == Affinity(a, prefs) + Affinity(b, prefs)
  {
    if a == [] {
      assert a + b == b;
    } else {
      assert (a + b)[1..] == a[1..] + b;
      AffinityConcat(a[1..], b, prefs);
    }
  }

  /** An unrated genre contributes exactly 0: rating it 0 explicitly changes no score. */
  lemma {:induction false} AffinityUnratedIsZero(genres: seq<int>, prefs: Preferences, g: int)
    requires g !in prefs
    ensures Affinity(genres, prefs) == Affinity(genres, prefs[g := 0])
  {
    if genres != [] {
      AffinityUnratedIsZero(genres[1..], prefs, g);
    }
  }

  /** Removing an unrated genre from a film's genre list does not change its score. */
  lemma AffinityDropUnrated(a: seq<int>, b: seq<int>, prefs: Preferences, g: int)
    requires g !in prefs
    ensures Affinity(a + [g] + b, prefs) == Affinity(a + b, prefs)
  {
    AffinityConcat(a + [g], b, prefs);
    AffinityConcat(a, [g], prefs);
    AffinityConcat(a, b, prefs);
  }

  /** Taking one genre out of the list lowers the score by that genre's rating. */
  lemma AffinityRemoveAt(b: seq<int>, i: nat, prefs: Preferences)
    requires i < |b|
    ensures Affinity(b, prefs) == GenreRating(prefs, b[i]) + Affinity(b[..i] + b[i + 1..], prefs)
  {
    assert b == b[..i] + [b[i]] + b[i + 1..];
    AffinityConcat(b[..i] + [b[i]], b[i + 1..], prefs);
    AffinityConcat(b[..i], [b[i]], prefs);
    AffinityConcat(b[..i], b[i + 1..], prefs);
  }

  /** The score depends only on which genres occur how often, not on their order. */
  lemma {:induction false} AffinityPermutation(a: seq<int>, b: seq<int>, prefs: Preferences)
    requires multiset(a) == multiset(b)
    ensures Affinity(a, prefs) == Affinity(b, prefs)
  {
    if a == [] {
      assert |b| == |multiset(b)| == 0;
    } else {
      var i := MatchHead(a, b);
      AffinityPermutation(a[1..], b[..i] + b[i + 1..], prefs);
      AffinityRemoveAt(b, i, prefs);
    }
  }

  /** Builds the scored table: one row per film, in input order, each row
      copying the film's fields and adding its affinity score. */
  method PrepareForRecommendation(films: seq<Film>, prefs: Preferences) returns (detailed: seq<ScoredFilm>)
    ensures |detailed| == |films|
    ensures forall i :: 0 <= i < |films| ==>
      CopiesFilm(detailed[i], films[i]) && detailed[i].score == Affinity(films[i].genreIds, prefs)
    ensures ValidPreferences(prefs) ==> forall i :: 0 <= i < |films| ==>
      0 <= detailed[i].score <= 10 * |films[i].genreIds|
    ensures prefs == map[] ==> forall i :: 0 <= i < |films| ==> detailed[i].score == 0
  {
    detailed := [];
    for k := 0 to |films|
      invariant |detailed| == k
      invariant forall i :: 0 <= i < k ==>
        CopiesFilm(detailed[i], films[i]) && detailed[i].score == Affinity(films[i].genreIds, prefs)
    {
      var film := films[k];
      var score := Affinity(film.genreIds, prefs);
      var details := ScoredFilm(film.id, film.title, film.genreIds, film.voteAverage, film.voteCount, score);
      detailed := detailed + [details];
    }
    if prefs == map[] {
      forall i | 0 <= i < |films|
        ensures detailed[i].score == 0
      {
        AffinityNoPreferences(films[i].genreIds);
      }
    }
  }
}
