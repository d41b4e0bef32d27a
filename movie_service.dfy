/**
  The catalog query engine: lookup by identifier, the three-criteria search
  and the distinct, sorted genre list. Every operation is a read of the
  immutable catalog, which is passed in explicitly.
 */
module MovieService {
  import opened Wrappers
  import opened Text
  import opened Movies

  // ---- criteria and their normalisation

  /** A text criterion constrains only when `text != null && !text.trim().isEmpty()`. */
  predicate TextGiven(text: Option<string>)
    ensures TextGiven(text) <==> text.Some? && exists k :: 0 <= k < |text.value| && text.value[k] > ' '
  {
    text.Some? && Trim(text.value) != []
  }

  /** The identifier criterion constrains only when `id != null && id > 0`. */
  predicate IdGiven(id: Option<int>)
  {
    id.Some? && id.value > 0
  }

  /** The key a text criterion is matched with: `text.trim().toLowerCase()`. */
  function Needle(text: string): (n: string)
    ensures |n| <= |text|
    ensures n == [] <==> Blank(text)
    ensures forall k :: 0 <= k < |n| ==> !('A' <= n[k] <= 'Z')
    ensures Contains(ToLower(text), n)
    ensures n == Trim(ToLower(text))
  {
    var t := Trim(text);
    var n := ToLower(t);
    TrimLower(text);
    assert Contains(ToLower(text), Trim(ToLower(text)));
    n
  }

  /** The effective criteria of one search; None means "no constraint on this field". */
  datatype Criteria = Criteria(id: Option<int>, name: Option<string>, genre: Option<string>)

  const NoCriteria := Criteria(None, None, None)

  /** Normalises the raw request parameters into effective criteria. */
  function Effective(name: Option<string>, id: Option<int>, genre: Option<string>): (c: Criteria)
    ensures c.id.Some? <==> IdGiven(id)
    ensures c.name.Some? <==> TextGiven(name)
    ensures c.genre.Some? <==> TextGiven(genre)
    ensures c.id.Some? ==> c.id == id
    ensures c.name.Some? ==> c.name.value == Needle(name.value)
    ensures c.genre.Some? ==> c.genre.value == Needle(genre.value)
    ensures c == NoCriteria <==> !IdGiven(id) && !TextGiven(name) && !TextGiven(genre)
  {
    Criteria(
      if IdGiven(id) then Some(id.value) else None,
      if TextGiven(name) then Some(Needle(name.value)) else None,
      if TextGiven(genre) then Some(Needle(genre.value)) else None)
  }

  /** Exact identifier, case-folded name substring, case-folded raw genre substring. */
  predicate Matches(c: Criteria, m: Movie)
    ensures c == NoCriteria ==> Matches(c, m)
    ensures Matches(c, m) && c.id.Some? ==> m.id == c.id.value
  {
    (c.id.None? || m.id == c.id.value) &&
    (c.name.None? || Contains(ToLower(m.movieName), c.name.value)) &&
    (c.genre.None? || Contains(ToLower(m.genre), c.genre.value))
  }

  /** a can be obtained from b by deleting elements: b's order is kept and nothing is added. */
  ghost predicate IsSubsequence<T>(a: seq<T>, b: seq<T>)
    decreases |b|
  {
    a == [] ||
    (b != [] && ((a[0] == b[0] && IsSubsequence(a[1..], b[1..])) || IsSubsequence(a, b[1..])))
  }

  // ---- filtering

  /** One `stream().filter(...).collect(toList())` stage over the records. */
  function Select(s: seq<Movie>, c: Criteria): (r: seq<Movie>)
    ensures |r| <= |s|
    ensures IsSubsequence(r, s)
    ensures forall m :: m in r <==> m in s && Matches(c, m)
    ensures forall m :: multiset(r)[m] == if Matches(c, m) then multiset(s)[m] else 0
  {
    assert s != [] ==> s == [s[0]] + s[1..];
    if s == [] then []
    else if Matches(c, s[0]) then
      var r := [s[0]] + Select(s[1..], c);
      assert r[1..] == Select(s[1..], c);
      r
    else Select(s[1..], c)
  }

  /** A stage over a record followed by a list: the record, when it matches, then the stage over the list. */
  lemma SelectCons(x: Movie, s: seq<Movie>, c: Criteria)
    ensures Select([x] + s, c) == (if Matches(c, x) then [x] else []) + Select(s, c)
  {
    assert ([x] + s)[0] == x && ([x] + s)[1..] == s;
  }

  /** A stage every record passes leaves the list as it is. */
  lemma {:induction false} SelectAllMatching(s: seq<Movie>, c: Criteria)
    requires forall m :: m in s ==> Matches(c, m)
    ensures Select(s, c) == s
  {
    if s != [] {
      SelectAllMatching(s[1..], c);
    }
  }

  /** A stage no record passes leaves nothing. */
  lemma {:induction false} SelectNoneMatching(s: seq<Movie>, c: Criteria)
    requires forall m :: m in s ==> !Matches(c, m)
    ensures Select(s, c) == []
  {
    if s != [] {
      SelectNoneMatching(s[1..], c);
    }
  }

  /** Two successive stages are one stage with the conjunction of their criteria. */
  lemma {:induction false} SelectConjunction(s: seq<Movie>, a: Criteria, b: Criteria, c: Criteria)
    requires forall m :: Matches(c, m) <==> Matches(a, m) && Matches(b, m)
    ensures Select(Select(s, a), b) == Select(s, c)
  {
    if s != [] {
      SelectConjunction(s[1..], a, b, c);
    }
  }

  /** The order in which two stages are applied does not change the result. */
  lemma {:induction false} StageOrderIrrelevant(s: seq<Movie>, a: Criteria, b: Criteria)
    ensures Select(Select(s, a), b) == Select(Select(s, b), a)
  {
    if s != [] {
      StageOrderIrrelevant(s[1..], a, b);
    }
  }

  // ---- search

  /**
    searchMovies(name, id, genre): the records of the catalog that satisfy every
    effective criterion, in catalog order.
   */
  function Search(catalog: seq<Movie>, name: Option<string>, id: Option<int>, genre: Option<string>): (r: seq<Movie>)
    ensures IsSubsequence(r, catalog)
    ensures forall m :: m in r <==>
      m in catalog &&
      (IdGiven(id) ==> m.id == id.value) &&
      (TextGiven(name) ==> Contains(ToLower(m.movieName), Needle(name.value))) &&
      (TextGiven(genre) ==> Contains(ToLower(m.genre), Needle(genre.value)))
    ensures forall m :: multiset(r)[m] == if Matches(Effective(name, id, genre), m) then multiset(catalog)[m] else 0
  {
    Select(catalog, Effective(name, id, genre))
  }

  /** With no effective criterion the search answers the whole catalog in catalog order. */
  lemma SearchWithoutCriteria(catalog: seq<Movie>, name: Option<string>, id: Option<int>, genre: Option<string>)
    requires !TextGiven(name) && !IdGiven(id) && !TextGiven(genre)
    ensures Search(catalog, name, id, genre) == catalog
  {
    SelectAllMatching(catalog, NoCriteria);
  }

  /**
    The stage-by-stage search of the mock service: copy the catalog, then narrow
    the list by identifier, by name and by genre, each stage only when its
    criterion is effective.
   */
  method SearchMovies(catalog: seq<Movie>, name: Option<string>, id: Option<int>, genre: Option<string>)
    returns (results: seq<Movie>)
    ensures results == Search(catalog, name, id, genre)
  {
    var c := Effective(name, id, genre);
    results := catalog;
    SelectAllMatching(catalog, NoCriteria);

    if IdGiven(id) {
      SelectConjunction(catalog, NoCriteria, Criteria(Some(id.value), None, None), Criteria(c.id, None, None));
      results := Select(results, Criteria(Some(id.value), None, None));
    }
    assert results == Select(catalog, Criteria(c.id, None, None));

    if TextGiven(name) {
      var searchName := Needle(name.value);
      AddNameStage(catalog, c.id, searchName);
      results := Select(results, Criteria(None, Some(searchName), None));
    }
    assert results == Select(catalog, Criteria(c.id, c.name, None));

    if TextGiven(genre) {
      var searchGenre := Needle(genre.value);
      AddGenreStage(catalog, c.id, c.name, searchGenre);
      results := Select(results, Criteria(None, None, Some(searchGenre)));
    }
  }

  lemma AddNameStage(s: seq<Movie>, id: Option<int>, searchName: string)
    ensures Select(Select(s, Criteria(id, None, None)), Criteria(None, Some(searchName), None))
         == Select(s, Criteria(id, Some(searchName), None))
  {
    SelectConjunction(s, Criteria(id, None, None), Criteria(None, Some(searchName), None),
                      Criteria(id, Some(searchName), None));
  }

  lemma AddGenreStage(s: seq<Movie>, id: Option<int>, name: Option<string>, searchGenre: string)
    ensures Select(Select(s, Criteria(id, name, None)), Criteria(None, None, Some(searchGenre)))
         == Select(s, Criteria(id, name, Some(searchGenre)))
  {
    SelectConjunction(s, Criteria(id, name, None), Criteria(None, None, Some(searchGenre)),
                      Criteria(id, name, Some(searchGenre)));
  }

  /** An identifier no record carries empties the result, whatever the other criteria say. */
  lemma SearchUnknownIdIsEmpty(catalog: seq<Movie>, name: Option<string>, k: int, genre: Option<string>)
    requires k > 0
    requires forall i :: 0 <= i < |catalog| ==> catalog[i].id != k
    ensures Search(catalog, name, Some(k), genre) == []
  {
    SelectNoneMatching(catalog, Effective(name, Some(k), genre));
  }

  /** Two text criteria that fold to the same string (or are both absent) are interchangeable. */
  predicate SameFolded(a: Option<string>, b: Option<string>)
  {
    a.Some? == b.Some? && (a.Some? ==> ToLower(a.value) == ToLower(b.value))
  }

  lemma SameFoldedSameEffect(a: Option<string>, b: Option<string>)
    requires SameFolded(a, b)
    ensures TextGiven(a) == TextGiven(b)
    ensures TextGiven(a) ==> Needle(a.value) == Needle(b.value)
  {
    if a.Some? {
      TrimLower(a.value);
      TrimLower(b.value);
      assert |Trim(a.value)| == |Trim(ToLower(a.value))| == |Trim(b.value)|;
    }
  }

  /** Name and genre search are case-insensitive: "Prison" and "prison" find the same records. */
  lemma SearchIgnoresCase(catalog: seq<Movie>, name1: Option<string>, name2: Option<string>,
                          id: Option<int>, genre1: Option<string>, genre2: Option<string>)
    requires SameFolded(name1, name2) && SameFolded(genre1, genre2)
    ensures Search(catalog, name1, id, genre1) == Search(catalog, name2, id, genre2)
  {
    SameFoldedSameEffect(name1, name2);
    SameFoldedSameEffect(genre1, genre2);
  }

  // ---- lookup by identifier

  /** The index of the first record with this identifier, or |ms| when there is none. */
  function FirstIndexWithId(ms: seq<Movie>, id: int): (k: nat)
    ensures k <= |ms|
    ensures k < |ms| ==> ms[k].id == id
    ensures forall j :: 0 <= j < k ==> ms[j].id != id
  {
    if ms == [] then 0
    else if ms[0].id == id then 0
    else 1 + FirstIndexWithId(ms[1..], id)
  }

  /**
    getMovieById(id): absent for a null identifier; otherwise the first record
    whose identifier equals it (`filter(...).findFirst()`), absent when none does.
   */
  function GetMovieById(catalog: seq<Movie>, id: Option<int>): (r: Option<Movie>)
    ensures r.Some? <==> id.Some? && exists i :: 0 <= i < |catalog| && catalog[i].id == id.value
    ensures r.Some? ==> exists i :: 0 <= i < |catalog| && catalog[i] == r.value && r.value.id == id.value &&
                                   forall j :: 0 <= j < i ==> catalog[j].id != id.value
  {
    if id.None? then None
    else
      var k := FirstIndexWithId(catalog, id.value);
      if k < |catalog| then Some(catalog[k]) else None
  }

  /** Null, zero and negative identifiers find nothing in a valid catalog. */
  lemma GetMovieByIdRejectsInvalid(catalog: seq<Movie>, id: Option<int>)
    requires ValidCatalog(catalog)
    requires !IdGiven(id)
    ensures GetMovieById(catalog, id) == None
  {
  }

  /** In a valid catalog searching by identifier alone answers the lookup's record, or nothing. */
  lemma {:induction false} SearchByIdIsLookup(catalog: seq<Movie>, k: int)
    requires ValidCatalog(catalog) && k > 0
    ensures Search(catalog, None, Some(k), None) ==
      match GetMovieById(catalog, Some(k)) case None => [] case Some(m) => [m]
  {
    var c := Criteria(Some(k), None, None);
    assert Effective(None, Some(k), None) == c;
    if catalog != [] {
      assert ValidCatalog(catalog[1..]);
      SearchByIdIsLookup(catalog[1..], k);
      if catalog[0].id == k {
        assert forall m :: m in catalog[1..] ==> m.id != k;
        assert Select(catalog[1..], c) == [];
      } else {
        assert GetMovieById(catalog, Some(k)) == GetMovieById(catalog[1..], Some(k));
      }
    }
  }

  // ---- genres

  /** Strictly increasing under String.compareTo: sorted and free of duplicates. */
  predicate StrictlyAscending(gs: seq<string>)
  {
    forall i, j :: 0 <= i < j < |gs| ==> Less(gs[i], gs[j])
  }

  /** The genre strings of the records, each composite label taken as one string. */
  ghost function GenresOf(catalog: seq<Movie>): set<string>
  {
    set m | m in catalog :: m.genre
  }

  lemma BelowHeadBelowAll(g: string, gs: seq<string>)
    requires StrictlyAscending(gs) && gs != [] && Less(g, gs[0])
    ensures forall j :: 0 <= j < |gs| ==> Less(g, gs[j])
  {
    forall j | 0 < j < |gs| ensures Less(g, gs[j]) {
      LessTransitive(g, gs[0], gs[j]);
    }
  }

  /** Adds one genre to a strictly ascending list, keeping it strictly ascending. */
  function InsertGenre(gs: seq<string>, g: string): (r: seq<string>)
    requires StrictlyAscending(gs)
    ensures StrictlyAscending(r)
    ensures forall x :: x in r <==> x in gs || x == g
  {
    if gs == [] then [g]
    else if g == gs[0] then gs
    else if Less(g, gs[0]) then
      BelowHeadBelowAll(g, gs);
      [g] + gs
    else
      LessTotal(g, gs[0]);
      var rest := InsertGenre(gs[1..], g);
      assert forall x :: x in rest ==> Less(gs[0], x);
      [gs[0]] + rest
  }

  /** getAllGenres(): the distinct genre strings of the catalog in ascending code unit order. */
  function AllGenres(catalog: seq<Movie>): (r: seq<string>)
    ensures StrictlyAscending(r)
    ensures forall x :: x in r <==> x in GenresOf(catalog)
    ensures forall i :: 0 < i < |r| ==> CompareTo(r[i], r[i - 1]) > 0
  {
    if catalog == [] then []
    else
      var rest := AllGenres(catalog[1..]);
      assert forall m :: m in catalog <==> m == catalog[0] || m in catalog[1..];
      assert GenresOf(catalog) == {catalog[0].genre} + GenresOf(catalog[1..]);
      InsertGenre(rest, catalog[0].genre)
  }

  /** Two strictly ascending lists with the same elements are the same list. */
  lemma {:induction false} AscendingUnique(a: seq<string>, b: seq<string>)
    requires StrictlyAscending(a) && StrictlyAscending(b)
    requires forall x :: x in a <==> x in b
    ensures a == b
    decreases |a|
  {
    if a != [] {
      assert a[0] in a;
    }
    if b != [] {
      assert b[0] in b;
    }
    if a != [] && b != [] {
      if a[0] != b[0] {
        var i :| 0 <= i < |a| && a[i] == b[0];
        var j :| 0 <= j < |b| && b[j] == a[0];
        assert Less(a[0], a[i]) && Less(b[0], b[j]);
        LessTransitive(a[0], b[0], a[0]);
        LessIrreflexive(a[0]);
      }
      forall x ensures x in a[1..] <==> x in b[1..] {
        TailElement(a, x);
        TailElement(b, x);
      }
      AscendingUnique(a[1..], b[1..]);
    }
  }

  /** In a strictly ascending list the tail holds exactly the elements other than the head. */
  lemma TailElement(a: seq<string>, x: string)
    requires StrictlyAscending(a) && a != []
    ensures x in a[1..] <==> x in a && x != a[0]
  {
    if x in a[1..] {
      var j :| 0 <= j < |a[1..]| && a[1..][j] == x;
      assert Less(a[0], a[j + 1]);
      LessIrreflexive(x);
    }
    if x in a && x != a[0] {
      var j :| 0 <= j < |a| && a[j] == x;
      assert a[1..][j - 1] == x;
    }
  }

  /** The genre list does not depend on the order the catalog was loaded in. */
  lemma GenresIndependentOfOrder(c1: seq<Movie>, c2: seq<Movie>)
    requires multiset(c1) == multiset(c2)
    ensures AllGenres(c1) == AllGenres(c2)
  {
    assert forall m :: m in c1 <==> m in c2 by {
      forall m ensures m in c1 <==> m in c2 {
        assert m in c1 <==> m in multiset(c1);
        assert m in c2 <==> m in multiset(c2);
      }
    }
    assert GenresOf(c1) == GenresOf(c2);
    AscendingUnique(AllGenres(c1), AllGenres(c2));
  }
}
