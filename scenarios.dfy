/**
  The repository's JUnit scenarios, restated over the three-record fixture of
  the controller tests' mock service. The service tests were written against
  the full twelve-record catalog, which is not part of this model; here they
  are stated as lemmas about the fixture, whose records they also describe.
 */
module Scenarios {
  import opened Wrappers
  import opened Text
  import opened Movies
  import opened MovieService
  import opened MoviesController

  // ---- case folding and trimming on literals

  /** The fixture's titles, folded to lower case. */
  lemma FixtureTitlesFolded()
    ensures ToLower(Fixture[0].movieName) == "the prison escape"
    ensures ToLower(Fixture[1].movieName) == "the family boss"
    ensures ToLower(Fixture[2].movieName) == "the masked hero"
  {
    assert Fixture[0].movieName == "The Prison Escape" && Fixture[1].movieName == "The Family Boss" &&
           Fixture[2].movieName == "The Masked Hero";
    assert ToLower("The Prison Escape") == "the prison escape";
    assert ToLower("The Family Boss") == "the family boss";
    assert ToLower("The Masked Hero") == "the masked hero";
  }

  /** The fixture's genres, folded to lower case. */
  lemma FixtureGenresFolded()
    ensures ToLower(Fixture[0].genre) == "drama"
    ensures ToLower(Fixture[1].genre) == "crime/drama"
    ensures ToLower(Fixture[2].genre) == "action/crime"
  {
    assert ToLower("Drama") == "drama";
    assert ToLower("Crime/Drama") == "crime/drama";
    assert ToLower("Action/Crime") == "action/crime";
  }

  /** The records of the fixture, folded to lower case. */
  lemma FixtureFolded()
    ensures ToLower(Fixture[0].movieName) == "the prison escape"
    ensures ToLower(Fixture[1].movieName) == "the family boss"
    ensures ToLower(Fixture[2].movieName) == "the masked hero"
    ensures ToLower(Fixture[0].genre) == "drama"
    ensures ToLower(Fixture[1].genre) == "crime/drama"
    ensures ToLower(Fixture[2].genre) == "action/crime"
  {
    FixtureTitlesFolded();
    FixtureGenresFolded();
  }

  // The search keys of the tests: folded to lower case, with nothing to trim.

  lemma NeedlePrison()
    ensures Needle("Prison") == "prison"
  {
    assert ToLower("Prison") == "prison";
    TrimOfTrimmed("prison");
  }

  lemma NeedleDrama()
    ensures Needle("Drama") == "drama"
  {
    assert ToLower("Drama") == "drama";
    TrimOfTrimmed("drama");
  }

  lemma NeedleFamily()
    ensures Needle("Family") == "family"
  {
    assert ToLower("Family") == "family";
    TrimOfTrimmed("family");
  }

  lemma NeedleCrime()
    ensures Needle("Crime") == "crime"
  {
    assert ToLower("Crime") == "crime";
    TrimOfTrimmed("crime");
  }

  lemma NeedleNonExistentMovie()
    ensures Needle("NonExistentMovie") == "nonexistentmovie"
  {
    assert ToLower("NonExistentMovie") == "nonexistentmovie";
    TrimOfTrimmed("nonexistentmovie");
  }

  /** A filter stage over a three-record list, written out record by record. */
  lemma SelectThree(c: Criteria, a: Movie, b: Movie, d: Movie)
    ensures Select([a, b, d], c) ==
      (if Matches(c, a) then [a] else []) + ((if Matches(c, b) then [b] else []) + (if Matches(c, d) then [d] else []))
  {
    SelectCons(d, [], c);
    assert [d] + [] == [d];
    SelectCons(b, [d], c);
    assert [b] + [d] == [b, d];
    SelectCons(a, [b, d], c);
    assert [a] + [b, d] == [a, b, d];
  }

  lemma BlankQueries()
    ensures !TextGiven(Some("")) && !TextGiven(Some("   ")) && !TextGiven(None)
  {
  }

  // ---- MovieServiceTest, over the fixture

  lemma GetMovieByValidId()
    ensures GetMovieById(Fixture, Some(1)) == Some(Fixture[0])
    ensures Fixture[0].movieName == "The Prison Escape" && Fixture[0].director == "John Director"
  {
  }

  lemma GetMovieByInvalidIds()
    ensures GetMovieById(Fixture, Some(999)) == None
    ensures GetMovieById(Fixture, None) == None
    ensures GetMovieById(Fixture, Some(-1)) == None
    ensures GetMovieById(Fixture, Some(0)) == None
  {
    FixtureIsValid();
    GetMovieByIdRejectsInvalid(Fixture, Some(-1));
    GetMovieByIdRejectsInvalid(Fixture, Some(0));
  }

  // Where the folded queries occur in the folded fixture strings.

  lemma PrisonOccurrences()
    ensures Contains("the prison escape", "prison")
    ensures !Contains("the family boss", "prison") && !Contains("the masked hero", "prison")
  {
    assert OccursAt("the prison escape", "prison", 4);
    assert "prison"[0] !in "the family boss";
    assert "prison"[0] !in "the masked hero";
  }

  lemma DramaOccurrences()
    ensures Contains("drama", "drama") && Contains("crime/drama", "drama")
    ensures !Contains("action/crime", "drama")
  {
    assert OccursAt("drama", "drama", 0);
    assert OccursAt("crime/drama", "drama", 6);
    assert "drama"[0] !in "action/crime";
  }

  lemma FamilyCrimeOccurrences()
    ensures Contains("the family boss", "family") && Contains("crime/drama", "crime")
    ensures !Contains("the prison escape", "family") && !Contains("the masked hero", "family")
  {
    assert OccursAt("the family boss", "family", 4);
    assert OccursAt("crime/drama", "crime", 0);
    assert "family"[0] !in "the prison escape";
    assert "family"[0] !in "the masked hero";
  }

  lemma NonExistentOccurrences()
    ensures !Contains("the prison escape", "nonexistentmovie")
    ensures !Contains("the family boss", "nonexistentmovie")
    ensures !Contains("the masked hero", "nonexistentmovie")
  {
    assert "nonexistentmovie"[4] !in "the prison escape";
    assert "nonexistentmovie"[4] !in "the family boss";
    assert "nonexistentmovie"[4] !in "the masked hero";
  }

  // Which fixture records each test's effective criteria keep.

  lemma PrisonMatches()
    ensures Matches(Criteria(None, Some("prison"), None), Fixture[0])
    ensures !Matches(Criteria(None, Some("prison"), None), Fixture[1])
    ensures !Matches(Criteria(None, Some("prison"), None), Fixture[2])
  {
    FixtureFolded();
    PrisonOccurrences();
  }

  lemma DramaMatches()
    ensures Matches(Criteria(None, None, Some("drama")), Fixture[0])
    ensures Matches(Criteria(None, None, Some("drama")), Fixture[1])
    ensures !Matches(Criteria(None, None, Some("drama")), Fixture[2])
  {
    FixtureGenresFolded();
    DramaOccurrences();
  }

  lemma FamilyCrimeMatches()
    ensures !Matches(Criteria(None, Some("family"), Some("crime")), Fixture[0])
    ensures Matches(Criteria(None, Some("family"), Some("crime")), Fixture[1])
    ensures !Matches(Criteria(None, Some("family"), Some("crime")), Fixture[2])
  {
    FixtureFolded();
    FamilyCrimeOccurrences();
  }

  lemma NonExistentMatches()
    ensures !Matches(Criteria(None, Some("nonexistentmovie"), None), Fixture[0])
    ensures !Matches(Criteria(None, Some("nonexistentmovie"), None), Fixture[1])
    ensures !Matches(Criteria(None, Some("nonexistentmovie"), None), Fixture[2])
  {
    FixtureFolded();
    NonExistentOccurrences();
  }

  lemma SearchByName()
    ensures Search(Fixture, Some("Prison"), None, None) == [Fixture[0]]
  {
    var c := Criteria(None, Some("prison"), None);
    NeedlePrison();
    assert Effective(Some("Prison"), None, None) == c;
    PrisonMatches();
    SelectThree(c, Fixture[0], Fixture[1], Fixture[2]);
  }

  /** "prison" finds what "Prison" finds. */
  lemma SearchByNameCaseInsensitive()
    ensures Search(Fixture, Some("prison"), None, None) == [Fixture[0]]
  {
    assert ToLower("Prison") == "prison" && ToLower("prison") == "prison";
    assert SameFolded(Some("Prison"), Some("prison"));
    SearchIgnoresCase(Fixture, Some("Prison"), Some("prison"), None, None, None);
    SearchByName();
  }

  lemma SearchById()
    ensures Search(Fixture, None, Some(2), None) == [Fixture[1]]
  {
    FixtureIsValid();
    SearchByIdIsLookup(Fixture, 2);
  }

  lemma DramaSelected()
    ensures Select(Fixture, Criteria(None, None, Some("drama"))) == [Fixture[0], Fixture[1]]
  {
    var c := Criteria(None, None, Some("drama"));
    DramaMatches();
    SelectThree(c, Fixture[0], Fixture[1], Fixture[2]);
    assert Fixture == [Fixture[0], Fixture[1], Fixture[2]];
  }

  /** A genre query matches inside composite labels: "Drama" finds "Drama" and "Crime/Drama". */
  lemma SearchByGenre()
    ensures Search(Fixture, None, None, Some("Drama")) == [Fixture[0], Fixture[1]]
  {
    NeedleDrama();
    assert Effective(None, None, Some("Drama")) == Criteria(None, None, Some("drama"));
    DramaSelected();
  }

  lemma SearchWithMultipleCriteria()
    ensures Search(Fixture, Some("Family"), None, Some("Crime")) == [Fixture[1]]
  {
    var c := Criteria(None, Some("family"), Some("crime"));
    NeedleFamily();
    NeedleCrime();
    assert Effective(Some("Family"), None, Some("Crime")) == c;
    FamilyCrimeMatches();
    SelectThree(c, Fixture[0], Fixture[1], Fixture[2]);
  }

  lemma SearchNoResults()
    ensures Search(Fixture, Some("NonExistentMovie"), None, None) == []
  {
    var c := Criteria(None, Some("nonexistentmovie"), None);
    NeedleNonExistentMovie();
    assert Effective(Some("NonExistentMovie"), None, None) == c;
    NonExistentMatches();
    SelectThree(c, Fixture[0], Fixture[1], Fixture[2]);
  }

  /** No criteria, empty strings, whitespace, zero and negative identifiers: the whole catalog. */
  lemma SearchWithoutConstraints()
    ensures Search(Fixture, None, None, None) == Fixture
    ensures Search(Fixture, Some(""), None, Some("")) == Fixture
    ensures Search(Fixture, Some("   "), None, Some("   ")) == Fixture
    ensures Search(Fixture, None, Some(0), None) == Fixture
    ensures Search(Fixture, None, Some(-5), None) == Fixture
  {
    BlankQueries();
    SearchWithoutCriteria(Fixture, None, None, None);
    SearchWithoutCriteria(Fixture, Some(""), None, Some(""));
    SearchWithoutCriteria(Fixture, Some("   "), None, Some("   "));
    SearchWithoutCriteria(Fixture, None, Some(0), None);
    SearchWithoutCriteria(Fixture, None, Some(-5), None);
  }

  /** Every result of a genre search contains the folded query, as the partial-match test checks. */
  lemma GenreResultsContainQuery(catalog: seq<Movie>, genre: string)
    requires TextGiven(Some(genre))
    ensures forall m :: m in Search(catalog, None, None, Some(genre)) ==>
      Contains(ToLower(m.genre), Needle(genre))
  {
  }

  lemma AllGenresThree(a: Movie, b: Movie, d: Movie)
    ensures AllGenres([a, b, d]) == InsertGenre(InsertGenre(InsertGenre([], d.genre), b.genre), a.genre)
  {
    assert [d][1..] == [];
    assert AllGenres([d]) == InsertGenre([], d.genre);
    assert [b, d][1..] == [d];
    assert AllGenres([b, d]) == InsertGenre(AllGenres([d]), b.genre);
    assert [a, b, d][1..] == [b, d];
    assert AllGenres([a, b, d]) == InsertGenre(AllGenres([b, d]), a.genre);
  }

  /** The fixture's genres in code unit order: they already differ in their first letters. */
  lemma FixtureGenreOrder()
    ensures Less("Action/Crime", "Crime/Drama") && Less("Crime/Drama", "Drama") && Less("Action/Crime", "Drama")
  {
    assert UnitRank('A') < UnitRank('C') < UnitRank('D');
  }

  lemma InsertFixtureGenres()
    ensures InsertGenre(InsertGenre(InsertGenre([], "Action/Crime"), "Crime/Drama"), "Drama") == FixtureGenres
  {
    FixtureGenreOrder();
    LessIrreflexive("Drama");
    assert InsertGenre([], "Action/Crime") == ["Action/Crime"];
    assert InsertGenre(["Action/Crime"], "Crime/Drama") == ["Action/Crime", "Crime/Drama"];
    assert InsertGenre(["Crime/Drama"], "Drama") == ["Crime/Drama", "Drama"];
    assert ["Action/Crime", "Crime/Drama"][1..] == ["Crime/Drama"];
  }

  /** The distinct sorted genres of the fixture are the mock's constant list. */
  lemma AllGenresOfFixture()
    ensures AllGenres(Fixture) == FixtureGenres
    ensures "Drama" in AllGenres(Fixture)
  {
    AllGenresThree(Fixture[0], Fixture[1], Fixture[2]);
    InsertFixtureGenres();
  }

  /**
    Java compares code units, so U+10000 (stored as U+D800 U+DC00) comes
    before U+FFFF, and compareTo answers the difference of the first units.
   */
  lemma SurrogatePairOrder()
    ensures CompareTo("\U{10000}", "\U{FFFF}") == 0xD800 - 0xFFFF
    ensures Less("\U{10000}", "\U{FFFF}") && !Less("\U{FFFF}", "\U{10000}")
  {
    var a, b := "\U{10000}", "\U{FFFF}";
    assert CodeUnits(a[0]) == [0xD800, 0xDC00];
    assert Utf16(a) == [0xD800, 0xDC00] by {
      assert a[1..] == [];
    }
    assert Utf16(b) == [0xFFFF] by {
      assert b[1..] == [];
    }
  }

  // ---- MoviesControllerTest

  lemma GetMoviesNoSearch()
    ensures GetMovies(Fixture, None, None, None).view == "movies"
    ensures !GetMovies(Fixture, None, None, None).searchPerformed
    ensures |GetMovies(Fixture, None, None, None).movies| == 3
  {
  }

  lemma GetMoviesSearchByName()
    ensures GetMovies(Fixture, Some("Prison"), None, None).view == "movies"
    ensures GetMovies(Fixture, Some("Prison"), None, None).searchPerformed
    ensures GetMovies(Fixture, Some("Prison"), None, None).echo.value.name == Some("Prison")
    ensures GetMovies(Fixture, Some("Prison"), None, None).movies == [Fixture[0]]
    ensures GetMovies(Fixture, Some("Prison"), None, None).movies[0].movieName == "The Prison Escape"
  {
    SearchByName();
  }

  lemma GetMovieDetailsFound()
    ensures GetMovieDetails(Fixture, Some(1)).view == "movie-details"
    ensures GetMovieDetails(Fixture, Some(1)).movie.value.movieName == "The Prison Escape"
  {
    GetMovieByValidId();
  }

  lemma GetMovieDetailsNotFound()
    ensures GetMovieDetails(Fixture, Some(999)).view == "error"
    ensures GetMovieDetails(Fixture, Some(999)).title == Some("Movie Not Found")
    ensures GetMovieDetails(Fixture, Some(999)).message == NotFound(Some(999))
  {
    GetMovieByInvalidIds();
  }

  lemma SearchMoviesApiSuccess()
    ensures SearchMoviesApi(Fixture, Some("Prison"), None, None).status == 200
    ensures SearchMoviesApi(Fixture, Some("Prison"), None, None).success
    ensures SearchMoviesApi(Fixture, Some("Prison"), None, None).totalResults == Some(1)
    ensures SearchMoviesApi(Fixture, Some("Prison"), None, None).remark == PirateCheer
  {
    SearchByName();
  }

  lemma SearchMoviesApiNoParameters()
    ensures SearchMoviesApi(Fixture, None, None, None).status == 400
    ensures !SearchMoviesApi(Fixture, None, None, None).success
    ensures SearchMoviesApi(Fixture, None, None, None).remark == PirateWisdom
  {
  }
}
