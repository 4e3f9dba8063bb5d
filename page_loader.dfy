/** The `load` function of src/routes/+page.ts: URL parameters become
    `getFilms` options, the films page, the total, the regions and the page
    count are gathered, and any failure gives a fixed fallback page. The
    database is an input: its rows, or None when it cannot be opened. */
module PageLoader {
  import opened Outcomes
  import opened Sqlite
  import opened FilmDatabase

  /** The query parameters `load` reads. `page` and `limit` are given already
      parsed as integers. */
  datatype UrlParams = UrlParams(
    page: Option<int>,
    limit: Option<int>,
    q: Option<string>,
    region: Option<string>,
    status: Option<string>)

  /** A JavaScript number as `Math.ceil` of an integer quotient can give it. */
  datatype JsNumber = Finite(n: int) | PosInfinity | NegInfinity | NaN

  /** What `load` returns; `page` and `totalPages` are its `pagination`. */
  datatype PageData = PageData(
    films: seq<Film>,
    totalFilms: int,
    filters: GetFilmsOptions,
    regions: seq<RegionWithCount>,
    page: int,
    totalPages: JsNumber,
    error: Option<string>)

  const ErrorMessage: string := "Could not connect to the database. Please check your connection and try again."

  /** The filters reported with the fallback page. */
  const ErrorFilters: GetFilmsOptions := GetFilmsOptions(1, 20, None, None, None, Some(Orphan))

  /** The page `load` returns when anything fails. */
  const FallbackPage: PageData := PageData([], 0, ErrorFilters, [], 1, Finite(1), Some(ErrorMessage))

  /** `statusParam === 'adopted' ? 'adopted' : 'orphan'` */
  function StatusFromParam(param: Option<string>): (s: Status)
    ensures s == Adopted <==> param == Some("adopted")
    ensures s != Abandoned
  {
    if param == Some("adopted") then Adopted else Orphan
  }

  /** `Math.ceil(a / b)`: the least integer at or above the quotient, and the
      infinities or NaN of a division by zero. */
  function CeilQuotient(a: int, b: int): (r: JsNumber)
    ensures b > 0 ==> r.Finite? && (r.n - 1) * b < a <= r.n * b
    ensures b < 0 ==> r.Finite? && r.n * b <= a < (r.n - 1) * b
    ensures b == 0 ==> r == (if a > 0 then PosInfinity else if a < 0 then NegInfinity else NaN)
  {
    if b > 0 then
      var q := (-a) / b;
      assert -a == q * b + (-a) % b;
      assert (-q - 1) * b == -q * b - b;
      Finite(-q)
    else if b < 0 then
      var q := a / (-b);
      assert a == q * (-b) + a % (-b);
      assert (-q) * b == q * (-b);
      assert (-q - 1) * b == q * (-b) - b;
      Finite(-q)
    else if a > 0 then PosInfinity
    else if a < 0 then NegInfinity
    else NaN
  }

  /** For a count and a positive limit this is the page count of the
      catalog's pagination. */
  lemma CeilQuotientIsPageCount(total: nat, limit: nat)
    requires limit > 0
    ensures CeilQuotient(total, limit) == Finite(CeilDiv(total, limit))
  {
    var c := CeilDiv(total, limit);
    var n := CeilQuotient(total, limit).n;
    var rem := (total + limit - 1) % limit;
    assert total + limit - 1 == c * limit + rem && 0 <= rem < limit;
    assert (c - 1) * limit == c * limit - limit;
    if n < c {
      MulMonotone(n, c - 1, limit);
    } else if n > c {
      MulMonotone(c, n - 1, limit);
    }
  }

  /** The options `load` builds: missing `page` and `limit` default to 1 and
      20, missing `q` and `region` stay unset, and the status parameter
      becomes the key `status`, which `getFilms` does not read. */
  function ParseFilters(url: UrlParams): (o: GetFilmsOptions)
    ensures o.page == (if url.page.Some? then url.page.value else 1)
    ensures o.limit == (if url.limit.Some? then url.limit.value else 20)
    ensures o.searchTerm == url.q && o.region == url.region
    ensures o.status == Some(StatusFromParam(url.status)) && o.statuses.None?
  {
    var page := if url.page.Some? then url.page.value else 1;
    var limit := if url.limit.Some? then url.limit.value else 20;
    GetFilmsOptions(page, limit, url.q, None, url.region, Some(StatusFromParam(url.status)))
  }

  /** The page gathered for `filters` when the database answers. */
  function Gathered(table: seq<Film>, filters: GetFilmsOptions): PageData {
    var result := GetFilmsSpec(table, filters);
    PageData(result.films, result.totalFilms, filters, RegionsWithFilmCount(table), filters.page,
             CeilQuotient(result.totalFilms, filters.limit), None)
  }

  /** `load(url)` as written: the films page and total of `getFilms`, the
      regions, the page number and page count, and no error; the fallback
      page when the database cannot be opened. */
  function Load(url: UrlParams, catalog: Option<seq<Film>>): (r: PageData)
    ensures catalog.None? ==> r == FallbackPage
    ensures catalog.Some? ==>
      && r.error.None?
      && r.filters == ParseFilters(url)
      && r.films == GetFilmsSpec(catalog.value, r.filters).films
      && r.totalFilms == GetFilmsSpec(catalog.value, r.filters).totalFilms
      && r.regions == RegionsWithFilmCount(catalog.value)
      && r.page == r.filters.page
      && r.totalPages == CeilQuotient(r.totalFilms, r.filters.limit)
  {
    if catalog.None? then FallbackPage else Gathered(catalog.value, ParseFilters(url))
  }

  /** Every error page is the same: page 1 of 1, orphan filters, nothing
      listed, and a message. */
  lemma ErrorPageIsFixed(url: UrlParams, catalog: Option<seq<Film>>)
    requires Load(url, catalog).error.Some?
    ensures var r := Load(url, catalog);
      && r.films == [] && r.totalFilms == 0 && r.regions == []
      && r.page == 1 && r.totalPages == Finite(1)
      && r.filters == ErrorFilters
      && r.error == Some(ErrorMessage)
  {
  }

  /** On a loaded page with a positive limit, the page number is within the
      page count exactly when the page lists films, and it lists at most
      `limit` of them. */
  lemma LoadedPageWithinCount(url: UrlParams, table: seq<Film>)
    requires ParseFilters(url).page >= 1 && ParseFilters(url).limit > 0
    ensures var r := Load(url, Some(table));
      && r.totalPages.Finite?
      && |r.films| <= r.filters.limit
      && (|r.films| > 0 <==> r.page <= r.totalPages.n)
  {
    var o := ParseFilters(url);
    PagesMatchTotal(table, o);
    CeilQuotientIsPageCount(GetFilmsSpec(table, o).totalFilms, o.limit);
  }

  // ---------------------------------------------------------------------
  // The status parameter
  // ---------------------------------------------------------------------

  /** As written, the status parameter does not change the films listed. */
  lemma StatusParamIgnored(url: UrlParams, other: Option<string>, table: seq<Film>)
    ensures Load(url, Some(table)).films == Load(url.(status := other), Some(table)).films
    ensures Load(url, Some(table)).totalFilms == Load(url.(status := other), Some(table)).totalFilms
  {
    var o1 := ParseFilters(url);
    var o2 := ParseFilters(url.(status := other));
    FilterAgrees(table, (f: Film) => Matches(f, o1), (f: Film) => Matches(f, o2));
  }

  /** An instance: asking for adopted films lists an orphaned one. */
  lemma AdoptedRequestListsOrphan()
    ensures var film := Film(1, "Ugetsu", None, None, None, None, None, Orphan, None, None);
      var r := Load(UrlParams(None, None, None, None, Some("adopted")), Some([film]));
      && r.filters.status == Some(Adopted)
      && r.films == [film]
      && r.films[0].status != Adopted
  {
    var film := Film(1, "Ugetsu", None, None, None, None, None, Orphan, None, None);
    var o := ParseFilters(UrlParams(None, None, None, None, Some("adopted")));
    FilterKeepsAll([film], (f: Film) => Matches(f, o));
  }

  /** The options with the status parameter passed as the one listed
      status, which `getFilms` does read. */
  function ParseFiltersFilteringStatus(url: UrlParams): (o: GetFilmsOptions)
    ensures o.statuses == Some([StatusFromParam(url.status)])
    ensures o.(statuses := None) == ParseFilters(url)
  {
    ParseFilters(url).(statuses := Some([StatusFromParam(url.status)]))
  }

  /** `load` with the status parameter passed as a listed status. */
  function LoadFilteringStatus(url: UrlParams, catalog: Option<seq<Film>>): (r: PageData)
    ensures catalog.None? ==> r == FallbackPage
    ensures catalog.Some? ==> r.error.None? && r.filters == ParseFiltersFilteringStatus(url)
  {
    if catalog.None? then FallbackPage else Gathered(catalog.value, ParseFiltersFilteringStatus(url))
  }

  /** With the status passed through, every film listed has the requested
      status, and the total counts only such films. */
  lemma FilteredLoadHonoursStatus(url: UrlParams, table: seq<Film>)
    ensures var r := LoadFilteringStatus(url, Some(table));
      && (forall f :: f in r.films ==> f in table && f.status == StatusFromParam(url.status))
      && r.totalFilms == |Filter(table, (f: Film) => Matches(f, ParseFiltersFilteringStatus(url)))|
      && r.totalFilms <= |Filter(table, (f: Film) => f.status == StatusFromParam(url.status))|
  {
    var o := ParseFiltersFilteringStatus(url);
    var wanted := StatusFromParam(url.status);
    var matching := MatchingFilms(table, o);
    FilterSubset(table, (f: Film) => Matches(f, o), (f: Film) => f.status == wanted);
  }
}
