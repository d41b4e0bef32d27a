/**
  The movie record and the catalog it lives in: an ordered, immutable
  sequence of records whose identifiers are positive and unique.
 */
module Movies {

  /** One catalog entry; the floating-point rating is not modelled. */
  datatype Movie = Movie(
    id: int,
    movieName: string,
    director: string,
    year: int,
    genre: string,
    description: string,
    duration: int)

  /** Every identifier is positive and no two records share one. */
  predicate ValidCatalog(catalog: seq<Movie>)
  {
    (forall i :: 0 <= i < |catalog| ==> catalog[i].id > 0) &&
    (forall i, j :: 0 <= i < j < |catalog| ==> catalog[i].id != catalog[j].id)
  }

  /** The three records of the controller tests' mock service, in load order. */
  const Fixture: seq<Movie> := [
    Movie(1, "The Prison Escape", "John Director", 1994, "Drama", "Test description", 142),
    Movie(2, "The Family Boss", "Michael Filmmaker", 1972, "Crime/Drama", "Test description", 175),
    Movie(3, "The Masked Hero", "Chris Moviemaker", 2008, "Action/Crime", "Test description", 152)
  ]

  /** The genre list the mock service answers with. */
  const FixtureGenres: seq<string> := ["Action/Crime", "Crime/Drama", "Drama"]

  lemma FixtureIsValid()
    ensures ValidCatalog(Fixture)
  {
  }
}
