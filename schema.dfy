/**
 * Record shapes of the application: the two storage tables (`movies`,
 * `user_likes`), the insert shapes their store accepts (the row without `id`,
 * with every column that may be null or has a default left optional), and the
 * catalog shapes `Genre` and `TmdbMovie`.
 */
module Schema {
  import opened Wrappers

  /** A row of the `movies` table. */
  datatype Movie = Movie(
    id: nat,
    tmdbId: int,
    title: string,
    overview: string,
    posterPath: Option<string>,
    backdropPath: Option<string>,
    releaseDate: Option<string>,
    voteAverage: Option<string>,
    genres: Option<seq<string>>)

  /** What `saveMovie` is given: a `movies` row without its `id`. */
  datatype InsertMovie = InsertMovie(
    tmdbId: int,
    title: string,
    overview: string,
    posterPath: Option<string>,
    backdropPath: Option<string>,
    releaseDate: Option<string>,
    voteAverage: Option<string>,
    genres: Option<seq<string>>)

  /** A row of the `user_likes` table. */
  datatype UserLike = UserLike(id: nat, tmdbId: int, username: string, liked: bool)

  /** What `saveLike` is given; `liked` has a column default and may be left out. */
  datatype InsertUserLike = InsertUserLike(tmdbId: int, username: string, liked: Option<bool>)

  /** A catalog genre. */
  datatype Genre = Genre(id: int, name: string)

  /**
   * A catalog movie in summary form (`genreIds`) or detail form (`genres`).
   * `voteAverage` is a JSON number; it is kept as the exact decimal written.
   */
  datatype TmdbMovie = TmdbMovie(
    id: int,
    title: string,
    overview: string,
    posterPath: Option<string>,
    backdropPath: Option<string>,
    releaseDate: Option<string>,
    voteAverage: real,
    genreIds: Option<seq<int>>,
    genres: Option<seq<Genre>>)
}
