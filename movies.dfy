/** Records that flow through the recommendation engine.

    A film as the metadata provider returns it, the detailed record the
    scoring step builds for it (one row of the scored table), and the row of
    the final recommendation list. The community rating (`voteAverage`) is a
    floating-point value in the source; here it is a `real` that the engine
    only copies and never computes on.
 */
module Movies {

  /** A candidate film: identifier, title, the genres it belongs to (a list,
      possibly with repetitions), the community rating and the number of votes. */
  datatype Film = Film(
    id: int,
    title: string,
    genreIds: seq<int>,
    voteAverage: real,
    voteCount: int)

  /** One row of the scored table: the film's own fields plus the user's
      genre-affinity score (`pontuacao_usuario`). */
  datatype ScoredFilm = ScoredFilm(
    id: int,
    title: string,
    genreIds: seq<int>,
    voteAverage: real,
    voteCount: int,
    score: int)

  /** One row of the recommendation list: only the four projected columns. */
  datatype Recommendation = Recommendation(
    title: string,
    voteAverage: real,
    voteCount: int,
    score: int)

  /** `d` carries the film's identifier, title, genres, rating and vote count unchanged. */
  predicate CopiesFilm(d: ScoredFilm, f: Film)
  {
    && d.id == f.id
    && d.title == f.title
    && d.genreIds == f.genreIds
    && d.voteAverage == f.voteAverage
    && d.voteCount == f.voteCount
  }

  /** The projection of a scored row onto the columns the recommendation
      shows: title, rating, vote count and score carry over, while the
      identifier and the genres are dropped. */
  function Project(d: ScoredFilm): Recommendation
  {
    Recommendation(d.title, d.voteAverage, d.voteCount, d.score)
  }
}
