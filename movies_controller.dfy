/**
  The decisions the web controller takes in front of the query engine: whether
  a request is a search, whether the JSON API rejects it, and which view and
  flags each endpoint answers with. Spring's Model and ResponseEntity become
  the result records below; the service is the catalog functions of MovieService.
 */
module MoviesController {
  import opened Wrappers
  import opened Text
  import opened Movies
  import opened MovieService

  /** getMovies' test: some name, identifier or genre criterion constrains the listing. */
  function IsSearch(name: Option<string>, id: Option<int>, genre: Option<string>): (b: bool)
    ensures b <==> Effective(name, id, genre) != NoCriteria
  {
    (name.Some? && Trim(name.value) != []) ||
    (id.Some? && id.value > 0) ||
    (genre.Some? && Trim(genre.value) != [])
  }

  /** searchMoviesApi's validation: every criterion is null, blank or non-positive. */
  function RejectsApiRequest(name: Option<string>, id: Option<int>, genre: Option<string>): (b: bool)
    ensures b <==> !IsSearch(name, id, genre)
    ensures b <==> Effective(name, id, genre) == NoCriteria
  {
    (name.None? || Trim(name.value) == []) &&
    (id.None? || id.value <= 0) &&
    (genre.None? || Trim(genre.value) == [])
  }

  // ---- GET /movies

  /** The raw criteria echoed back as searchName, searchId and searchGenre. */
  datatype SearchEcho = SearchEcho(name: Option<string>, id: Option<int>, genre: Option<string>)

  /**
    What getMovies leaves in the model and the view it returns. The noResults
    flag stands for the noResults and pirateMessage attributes, which are
    only added on an empty search.
   */
  datatype MoviesPage = MoviesPage(
    view: string,
    searchPerformed: bool,
    echo: Option<SearchEcho>,
    noResults: bool,
    movies: seq<Movie>,
    allGenres: seq<string>)

  function GetMovies(catalog: seq<Movie>, name: Option<string>, id: Option<int>, genre: Option<string>): (p: MoviesPage)
    ensures p.view == "movies"
    ensures p.allGenres == AllGenres(catalog)
    ensures p.searchPerformed <==> Effective(name, id, genre) != NoCriteria
    ensures !p.searchPerformed ==> p.movies == catalog && p.echo == None && !p.noResults
    ensures p.searchPerformed ==> p.echo == Some(SearchEcho(name, id, genre))
    ensures p.movies == Search(catalog, name, id, genre)
    ensures p.noResults <==> p.searchPerformed && p.movies == []
  {
    if IsSearch(name, id, genre) then
      var movies := Search(catalog, name, id, genre);
      MoviesPage("movies", true, Some(SearchEcho(name, id, genre)), movies == [], movies, AllGenres(catalog))
    else
      SearchWithoutCriteria(catalog, name, id, genre);
      MoviesPage("movies", false, None, false, catalog, AllGenres(catalog))
  }

  // ---- GET /movies/search

  const StatusOk := 200
  const StatusBadRequest := 400

  /** Which message variant the body carries. */
  datatype Message = MissingCriteria | NoMatches | Found(count: nat)

  /** Which of pirateWisdom, pirateAdvice and pirateCheer the body carries. */
  datatype Remark = PirateWisdom | PirateAdvice | PirateCheer

  /**
    The searchCriteria map: absent text becomes "". A null identifier is put
    in the map as "" too, which the None of `id` stands for here.
   */
  datatype EchoedCriteria = EchoedCriteria(name: string, id: Option<int>, genre: string)

  datatype ApiResponse = ApiResponse(
    status: int,
    success: bool,
    movies: Option<seq<Movie>>,
    totalResults: Option<nat>,
    criteria: Option<EchoedCriteria>,
    message: Message,
    remark: Remark)

  function SearchMoviesApi(catalog: seq<Movie>, name: Option<string>, id: Option<int>, genre: Option<string>): (r: ApiResponse)
    ensures r.status == StatusBadRequest || r.status == StatusOk
    ensures r.status == StatusBadRequest <==> Effective(name, id, genre) == NoCriteria
    ensures r.success <==> r.status == StatusOk
    ensures !r.success ==>
      r.movies == None && r.totalResults == None && r.criteria == None &&
      r.message == MissingCriteria && r.remark == PirateWisdom
    ensures r.success ==>
      r.movies == Some(Search(catalog, name, id, genre)) &&
      r.totalResults == Some(|Search(catalog, name, id, genre)|)
    ensures r.success ==> (r.remark == PirateAdvice <==> Search(catalog, name, id, genre) == [])
    ensures r.success ==> (r.remark == PirateCheer <==> Search(catalog, name, id, genre) != [])
    ensures r.success ==> (r.message == NoMatches <==> Search(catalog, name, id, genre) == [])
    ensures r.success && Search(catalog, name, id, genre) != [] ==>
      r.message == Found(|Search(catalog, name, id, genre)|)
    ensures r.success ==>
      r.criteria == Some(EchoedCriteria(
        if name.Some? then name.value else "", id, if genre.Some? then genre.value else ""))
  {
    if RejectsApiRequest(name, id, genre) then
      ApiResponse(StatusBadRequest, false, None, None, None, MissingCriteria, PirateWisdom)
    else
      var results := Search(catalog, name, id, genre);
      var criteria := EchoedCriteria(
        if name.Some? then name.value else "",
        id,
        if genre.Some? then genre.value else "");
      if results == [] then
        ApiResponse(StatusOk, true, Some(results), Some(|results|), Some(criteria), NoMatches, PirateAdvice)
      else
        ApiResponse(StatusOk, true, Some(results), Some(|results|), Some(criteria), Found(|results|), PirateCheer)
  }

  // ---- GET /movies/{id}/details

  /** The error page's message: absent, or the "was not found" text naming the requested identifier. */
  datatype DetailsMessage = NoMessage | NotFound(id: Option<int>)

  /** The view getMovieDetails returns, with its title and message (error page) or its movie. */
  datatype DetailsPage = DetailsPage(view: string, title: Option<string>, message: DetailsMessage, movie: Option<Movie>)

  function GetMovieDetails(catalog: seq<Movie>, movieId: Option<int>): (p: DetailsPage)
    ensures p.view == "error" || p.view == "movie-details"
    ensures p.view == "error" <==> GetMovieById(catalog, movieId) == None
    ensures p.view == "error" ==>
      p.title == Some("Movie Not Found") && p.message == NotFound(movieId) && p.movie == None
    ensures p.view == "movie-details" ==>
      p.title == None && p.message == NoMessage && p.movie == GetMovieById(catalog, movieId) &&
      p.movie.value in catalog && p.movie.value.id == movieId.value
  {
    match GetMovieById(catalog, movieId)
    case None => DetailsPage("error", Some("Movie Not Found"), NotFound(movieId), None)
    case Some(movie) => DetailsPage("movie-details", None, NoMessage, Some(movie))
  }

  /** In a valid catalog the details page of a listed identifier shows exactly that record. */
  lemma DetailsOfListedMovie(catalog: seq<Movie>, i: int)
    requires ValidCatalog(catalog) && 0 <= i < |catalog|
    ensures GetMovieDetails(catalog, Some(catalog[i].id)) == DetailsPage("movie-details", None, NoMessage, Some(catalog[i]))
  {
    var r := GetMovieById(catalog, Some(catalog[i].id));
    var j :| 0 <= j < |catalog| && catalog[j] == r.value && r.value.id == catalog[i].id &&
             forall k :: 0 <= k < j ==> catalog[k].id != catalog[i].id;
    assert j == i;
  }
}
