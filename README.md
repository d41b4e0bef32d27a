# Movie catalog query engine

A Dafny model of the movie catalog of the "qdev movies" web application and of
the decisions its controller takes in front of it.

The catalog is an ordered, immutable sequence of movie records whose
identifiers are positive and unique (`Movies`). The query engine
(`MovieService`) answers four questions about it:

- the searchable view: records matching every criterion that is given (an
  exact positive identifier, a case-insensitive substring of the title, a
  case-insensitive substring of the genre), in catalog order;
- lookup by identifier: the first record with that identifier, or nothing;
- the distinct genres, sorted by `String.compareTo`;
- the full listing, which is the catalog itself.

A criterion is given when it is present and not blank after trimming (text)
or present and positive (identifier). Absent, blank and non-positive
criteria impose no constraint. The search is modelled twice. `Search` is a
function. `SearchMovies` is a method that narrows a local result list one
filter stage at a time, in the order id, name, genre, and is proved equal to
`Search`.

`Text` models the parts of `java.lang.String` the engine uses: `trim`
(strips every character at or below U+0020 at both ends), `toLowerCase`
(ASCII letters), `contains` and `compareTo`. A Dafny string is a sequence of
Unicode scalar values, while Java stores UTF-16 code units, so a character
above U+FFFF is one Dafny character but two Java units. For trimming,
folding and containment the two views agree. `compareTo` is defined on the
UTF-16 code units of both strings (`Text.Utf16`), exactly as Java computes
it: the difference of the first differing units, or else of the unit lengths.

`MoviesController` models the three endpoints as functions from the request to
a record standing for Spring's model attributes or response body:

- `GET /movies`: the listing or the search page;
- `GET /movies/search`: the JSON search API, which answers 400 when no
  criterion is given;
- `GET /movies/{id}/details`: the details page or the error page.

`Scenarios` restates the unit tests as lemmas about the three-record fixture
of the controller tests' mock service.

The query engine's own implementation class is not part of this model. Its
behaviour is taken from the mock service in the controller tests, which
implements the same contract, and from the service's unit tests.

## Model

| member | source | states |
|---|---|---|
| Text.TrimStart | src/test/java/com/amazonaws/samples/qdevmovies/movies/MoviesControllerTest.java:64 | trim's first scan stops at the first character above U+0020, everything it skips being at or below it |
| Text.TrimEnd | src/test/java/com/amazonaws/samples/qdevmovies/movies/MoviesControllerTest.java:64 | trim's second scan stops after the last character above U+0020, not before the first scan's index, everything it skips being at or below U+0020 |
| Text.Trim | src/test/java/com/amazonaws/samples/qdevmovies/movies/MoviesControllerTest.java:63-64 | the result is empty iff every character is at or below U+0020; otherwise it starts and ends above U+0020; it is the substring between a blank prefix and a blank suffix of the input |
| Text.LowerChar | src/test/java/com/amazonaws/samples/qdevmovies/movies/MoviesControllerTest.java:64-66 | a folded character is never an upper-case ASCII letter; it is either the character itself or its lower-case letter; blanks stay blank and non-blanks stay non-blank |
| Text.ToLower | src/test/java/com/amazonaws/samples/qdevmovies/movies/MoviesControllerTest.java:64-66 | the result has the input's length and each character is the input's character case-folded |
| Text.Contains | src/test/java/com/amazonaws/samples/qdevmovies/movies/MoviesControllerTest.java:66-73 | a contained string is no longer than its container, and each of its characters occurs in the container |
| Text.CodeUnits | src/test/java/com/amazonaws/samples/qdevmovies/movies/MovieServiceTest.java:190-193 | one code unit below U+10000, otherwise a high surrogate and a low surrogate from which the character is recovered |
| Text.Utf16 | src/test/java/com/amazonaws/samples/qdevmovies/movies/MovieServiceTest.java:190-193 | a string has at least as many code units as characters, each a 16-bit value |
| Text.CompareUnits | src/test/java/com/amazonaws/samples/qdevmovies/movies/MovieServiceTest.java:190-193 | Java's comparison of code unit sequences: negative, zero or positive exactly when the first is lexicographically before, equal to or after the second |
| Text.UnitRank | src/test/java/com/amazonaws/samples/qdevmovies/movies/MovieServiceTest.java:190-193 | characters below U+D800 and above U+FFFF keep their value; U+E000-U+FFFF rank above every other character, as their single unit is above every high surrogate |
| Text.CompareTo | src/test/java/com/amazonaws/samples/qdevmovies/movies/MovieServiceTest.java:190-193 | the code unit comparison of the two strings is negative, zero or positive exactly when the first string is before, equal to or after the second in the character order `Less` |
| Text.TrimLower | src/test/java/com/amazonaws/samples/qdevmovies/movies/MoviesControllerTest.java:63-66 | trimming then folding gives the same string as folding then trimming |
| Text.LessIsUnitOrder | src/test/java/com/amazonaws/samples/qdevmovies/movies/MovieServiceTest.java:190-193 | the character order `Less` is exactly the lexicographic order of the strings' UTF-16 code units |
| Text.LessIrreflexive | src/test/java/com/amazonaws/samples/qdevmovies/movies/MovieServiceTest.java:190-193 | in the code unit order no string comes before itself |
| Text.LessTransitive | src/test/java/com/amazonaws/samples/qdevmovies/movies/MovieServiceTest.java:190-193 | the code unit order on strings is transitive |
| Text.LessTotal | src/test/java/com/amazonaws/samples/qdevmovies/movies/MovieServiceTest.java:190-193 | of two different strings, one comes before the other in the code unit order |
| Movies.FixtureIsValid | src/test/java/com/amazonaws/samples/qdevmovies/movies/MoviesControllerTest.java:34-38 | the fixture `Movies.Fixture` (the mock's three records) has positive, distinct identifiers |
| MovieService.TextGiven | src/test/java/com/amazonaws/samples/qdevmovies/movies/MoviesControllerTest.java:63-70 | a text criterion is given iff it is present and has a character above U+0020 |
| MovieService.Needle | src/test/java/com/amazonaws/samples/qdevmovies/movies/MoviesControllerTest.java:64-71 | the search key is no longer than the criterion, empty iff the criterion is blank, has no upper-case ASCII letter, and occurs in the folded criterion; it equals the criterion folded then trimmed (`Trim(ToLower(text))`), the same as trimmed then folded |
| MovieService.Effective | src/test/java/com/amazonaws/samples/qdevmovies/movies/MoviesControllerTest.java:57-75 | each effective criterion is present iff its raw parameter is given (an identifier when it is present and positive, a text when `TextGiven` holds), holding the identifier or the trimmed folded text; no criterion is effective iff none is given |
| MovieService.Matches | src/test/java/com/amazonaws/samples/qdevmovies/movies/MoviesControllerTest.java:59-73 | the empty criteria match every record; a matched identifier criterion is the record's identifier |
| MovieService.Select | src/test/java/com/amazonaws/samples/qdevmovies/movies/MoviesControllerTest.java:58-60 | one filter stage: keeps exactly the records that match, in their original order, each as many times as it occurs, and never grows the list |
| MovieService.SelectAllMatching | src/test/java/com/amazonaws/samples/qdevmovies/movies/MoviesControllerTest.java:55-77 | a stage whose criterion every record meets changes nothing |
| MovieService.SelectNoneMatching | src/test/java/com/amazonaws/samples/qdevmovies/movies/MoviesControllerTest.java:55-77 | a stage whose criterion no record meets leaves nothing |
| MovieService.SelectConjunction | src/test/java/com/amazonaws/samples/qdevmovies/movies/MoviesControllerTest.java:55-77 | two stages in a row are one stage with the conjunction of their criteria |
| MovieService.StageOrderIrrelevant | src/test/java/com/amazonaws/samples/qdevmovies/movies/MoviesControllerTest.java:55-77 | the order of two stages does not change the result |
| MovieService.Search | src/test/java/com/amazonaws/samples/qdevmovies/movies/MoviesControllerTest.java:54-78 | the result is an order-preserving subsequence of the catalog; a record is in it iff it meets every given criterion (identifier equal, trimmed lower-cased name in the lower-cased title, trimmed lower-cased genre in the lower-cased genre), as many times as it occurs in the catalog |
| MovieService.SearchMovies | src/test/java/com/amazonaws/samples/qdevmovies/movies/MoviesControllerTest.java:54-78 | the method's stage-by-stage narrowing of the result list ends with exactly `Search`'s result |
| MovieService.AddNameStage | src/test/java/com/amazonaws/samples/qdevmovies/movies/MoviesControllerTest.java:63-68 | the name stage after the id stage equals one stage with both criteria |
| MovieService.AddGenreStage | src/test/java/com/amazonaws/samples/qdevmovies/movies/MoviesControllerTest.java:70-75 | the genre stage after the id and name stages equals one stage with all three criteria |
| MovieService.SearchWithoutCriteria | src/test/java/com/amazonaws/samples/qdevmovies/movies/MovieServiceTest.java:151-179 | with every criterion absent, blank or non-positive the search returns the whole catalog in order |
| MovieService.SearchUnknownIdIsEmpty | src/test/java/com/amazonaws/samples/qdevmovies/movies/MoviesControllerTest.java:57-61 | a positive identifier no record carries makes the result empty, whatever the text criteria |
| MovieService.SameFoldedSameEffect | src/test/java/com/amazonaws/samples/qdevmovies/movies/MoviesControllerTest.java:63-64 | two criteria that agree after case folding are both given or both not, with the same search needle |
| MovieService.SearchIgnoresCase | src/test/java/com/amazonaws/samples/qdevmovies/movies/MovieServiceTest.java:81-89 | criteria that differ only in letter case give the same result |
| MovieService.FirstIndexWithId | src/test/java/com/amazonaws/samples/qdevmovies/movies/MoviesControllerTest.java:48-50 | the position of the first record with the identifier (or the length when there is none) |
| MovieService.GetMovieById | src/test/java/com/amazonaws/samples/qdevmovies/movies/MoviesControllerTest.java:47-51 | present iff an identifier is given and some record has it; the record returned is the first with that identifier |
| MovieService.GetMovieByIdRejectsInvalid | src/test/java/com/amazonaws/samples/qdevmovies/movies/MovieServiceTest.java:55-69 | in a valid catalog, a null, zero or negative identifier finds nothing |
| MovieService.SearchByIdIsLookup | src/test/java/com/amazonaws/samples/qdevmovies/movies/MovieServiceTest.java:91-99 | in a valid catalog, searching by a positive identifier alone gives the lookup's record as a one-element list, or the empty list |
| MovieService.InsertGenre | src/test/java/com/amazonaws/samples/qdevmovies/movies/MovieServiceTest.java:189-193 | inserting into a strictly ascending list keeps it strictly ascending and adds exactly the new genre |
| MovieService.AllGenres | src/test/java/com/amazonaws/samples/qdevmovies/movies/MovieServiceTest.java:181-198 | the genre list is strictly ascending under `compareTo` (so sorted and unique) and holds exactly the catalog's genres |
| MovieService.AscendingUnique | src/test/java/com/amazonaws/samples/qdevmovies/movies/MovieServiceTest.java:189-193 | two strictly ascending lists with the same elements are equal |
| MovieService.GenresIndependentOfOrder | src/test/java/com/amazonaws/samples/qdevmovies/movies/MovieServiceTest.java:181-198 | the genre list does not depend on the order of the catalog |
| MoviesController.IsSearch | src/main/java/com/amazonaws/samples/qdevmovies/movies/MoviesController.java:37-39 | the page's search test holds iff some criterion is given |
| MoviesController.RejectsApiRequest | src/main/java/com/amazonaws/samples/qdevmovies/movies/MoviesController.java:79-81 | the API's validation rejects iff the page's search test fails, that is iff no criterion is given |
| MoviesController.GetMovies | src/main/java/com/amazonaws/samples/qdevmovies/movies/MoviesController.java:36-59 | view "movies"; all genres listed; a search iff some criterion is given, when it echoes the criteria; the movies are the search result, which is the whole catalog when no search; the no-results flag iff a search found nothing |
| MoviesController.SearchMoviesApi | src/main/java/com/amazonaws/samples/qdevmovies/movies/MoviesController.java:75-108 | status 400 iff no criterion is given, with no movies, no totals, the missing-criteria message and the wisdom remark; otherwise 200 with the search result, its size and the echoed criteria (absent text as ""), the advice remark and no-matches message iff the result is empty, and the cheer remark and a `Found` message with the count otherwise |
| MoviesController.GetMovieDetails | src/main/java/com/amazonaws/samples/qdevmovies/movies/MoviesController.java:124-137 | view "error" with title "Movie Not Found" and the "not found" message naming the requested identifier iff the lookup finds nothing; otherwise "movie-details" with the record, which is in the catalog and has the requested identifier |
| MoviesController.DetailsOfListedMovie | src/main/java/com/amazonaws/samples/qdevmovies/movies/MoviesController.java:124-137 | in a valid catalog the details page for a listed identifier shows exactly that record |
| Scenarios.FixtureFolded | src/test/java/com/amazonaws/samples/qdevmovies/movies/MoviesControllerTest.java:34-38 | the fixture's titles and genres case-fold to the expected lower-case strings |
| Scenarios.BlankQueries | src/test/java/com/amazonaws/samples/qdevmovies/movies/MovieServiceTest.java:161-179 | null, empty and all-space text criteria are not given |
| Scenarios.GetMovieByValidId | src/test/java/com/amazonaws/samples/qdevmovies/movies/MovieServiceTest.java:37-45 | identifier 1 finds "The Prison Escape" by "John Director" |
| Scenarios.GetMovieByInvalidIds | src/test/java/com/amazonaws/samples/qdevmovies/movies/MovieServiceTest.java:47-69 | identifiers 999, null, -1 and 0 find nothing |
| Scenarios.SearchByName | src/test/java/com/amazonaws/samples/qdevmovies/movies/MovieServiceTest.java:71-79 | "Prison" finds exactly "The Prison Escape" |
| Scenarios.SearchByNameCaseInsensitive | src/test/java/com/amazonaws/samples/qdevmovies/movies/MovieServiceTest.java:81-89 | "prison" finds exactly "The Prison Escape" |
| Scenarios.SearchById | src/test/java/com/amazonaws/samples/qdevmovies/movies/MovieServiceTest.java:91-99 | identifier 2 finds exactly "The Family Boss" |
| Scenarios.SearchByGenre | src/test/java/com/amazonaws/samples/qdevmovies/movies/MovieServiceTest.java:101-114 | "Drama" finds the two drama records in catalog order |
| Scenarios.GenreResultsContainQuery | src/test/java/com/amazonaws/samples/qdevmovies/movies/MovieServiceTest.java:109-113 | every record a genre search returns has the folded query in its folded genre |
| Scenarios.SearchWithMultipleCriteria | src/test/java/com/amazonaws/samples/qdevmovies/movies/MovieServiceTest.java:131-140 | "Family" with "Crime" finds exactly "The Family Boss" |
| Scenarios.SearchNoResults | src/test/java/com/amazonaws/samples/qdevmovies/movies/MovieServiceTest.java:142-149 | "NonExistentMovie" finds nothing |
| Scenarios.SearchWithoutConstraints | src/test/java/com/amazonaws/samples/qdevmovies/movies/MovieServiceTest.java:151-217 | null, empty and all-space text, and identifiers 0 and -5, return the whole catalog |
| Scenarios.AllGenresOfFixture | src/test/java/com/amazonaws/samples/qdevmovies/movies/MoviesControllerTest.java:80-83 | the fixture's genre list is the mock's constant list `Movies.FixtureGenres` (`Action/Crime, Crime/Drama, Drama`) and contains "Drama" |
| Scenarios.SurrogatePairOrder | src/test/java/com/amazonaws/samples/qdevmovies/movies/MovieServiceTest.java:190-193 | U+10000 compares before U+FFFF, by 0xD800 - 0xFFFF, because its first code unit is a high surrogate |
| Scenarios.GetMoviesNoSearch | src/test/java/com/amazonaws/samples/qdevmovies/movies/MoviesControllerTest.java:116-127 | no parameters: view "movies", no search, three movies |
| Scenarios.GetMoviesSearchByName | src/test/java/com/amazonaws/samples/qdevmovies/movies/MoviesControllerTest.java:129-142 | "Prison": a search, echoed name "Prison", exactly "The Prison Escape" |
| Scenarios.GetMovieDetailsFound | src/test/java/com/amazonaws/samples/qdevmovies/movies/MoviesControllerTest.java:144-154 | identifier 1 gives "movie-details" showing "The Prison Escape" |
| Scenarios.GetMovieDetailsNotFound | src/test/java/com/amazonaws/samples/qdevmovies/movies/MoviesControllerTest.java:156-164 | identifier 999 gives "error" titled "Movie Not Found", with a message naming identifier 999 |
| Scenarios.SearchMoviesApiSuccess | src/test/java/com/amazonaws/samples/qdevmovies/movies/MoviesControllerTest.java:166-180 | "Prison" gives 200, success, one result and the cheer remark |
| Scenarios.SearchMoviesApiNoParameters | src/test/java/com/amazonaws/samples/qdevmovies/movies/MoviesControllerTest.java:182-194 | no parameters gives 400, no success and the wisdom remark |

## Left out

- The exception handler of `searchMoviesApi` (status 500): the modelled engine raises no exception.
- Logging, and the wording of every message, pirate remark and page attribute text: the model keeps which variant is chosen, plus the result count `Found(n)`.
- The movie-icon and review lookups on the details page: helpers outside this model.
- Spring's `Model`, `ResponseEntity` and request binding become plain records and `Option` parameters.
- The order in which attributes are added to the model has no effect on the page, so it is not modelled.
- The injection of the mock services by reflection is test plumbing.
- Loading `movies.json` is not part of this model; the catalog is a parameter.
- The tests that need the real data set (twelve movies, the "Action/Sci-Fi" genre, the "Sci" genre search) cannot be stated about the fixture.
- `getAllMovies` is the catalog itself and gets no member of its own.
- The floating-point rating is not part of the record: no operation reads it.
- Strings holding an unpaired surrogate, which Java allows, cannot be written as Dafny strings; every other string is modelled with its exact code units.
- Text.ToLower: folds ASCII letters only, not the whole of Unicode as `String.toLowerCase` does.
- `Long` identifiers are unbounded integers; 64-bit overflow never arises in these comparisons.
- The identifier comparison `movie.getId() == id` is read as a comparison of values. That is Java's meaning when the record's getter returns a primitive `long`. The record class is not part of this model.
- MovieService.GetMovieById: a null identifier gives an empty result, as the service's tests demand. The controller tests' mock would instead fail unboxing null; the model follows the service's contract, not the mock.
- MovieService.AllGenres: the real service's genre code is not part of this model, so the genre list is defined by its promise (unique, sorted by `compareTo`, exactly the catalog's genres). The mock's constant list is the value of that definition on the fixture (`Scenarios.AllGenresOfFixture`).
