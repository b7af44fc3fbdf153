/** The catalog tables the movie routes read and the seed script writes. */
module Catalog {
  import opened Wrappers

  /**
   * A row of the movie table. Dates are instants on one integer time line
   * (milliseconds); `genreIds` is the movie's side of the movie-genre
   * relation.
   */
  datatype Movie = Movie(
    id: int,
    title: Option<string>,
    overview: string,
    posterPath: Option<string>,
    backdropPath: Option<string>,
    releaseDate: Option<int>,
    voteAverage: real,
    voteCount: int,
    popularity: real,
    adult: bool,
    originalLanguage: Option<string>,
    genreIds: set<int>)

  /** A row of the genre table. */
  datatype Genre = Genre(id: int, name: string)
}
