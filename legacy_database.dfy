/** The older catalog access of src/lib/database.ts: a connection cached
    without a promise, and two fixed queries, a plain page of all films and
    a title search. Both are read against the same engine semantics as the
    current catalog access, and both agree with `GetFilmsSpec`. */
module LegacyDatabase {
  import opened Outcomes
  import opened Sqlite
  import opened FilmDatabase

  /** The page query of `getPaginatedFilms`: no WHERE, `LIMIT $1 OFFSET $2`. */
  function PaginatedFilmsQuery(page: int, limit: int): (q: FilmsQuery)
    ensures q.where == []
    ensures Bind(q.params, q.limitAt) == Int(limit)
    ensures Bind(q.params, q.offsetAt) == Int((page - 1) * limit)
  {
    FilmsQuery([], 1, 2, [Int(limit), Int(Offset(page, limit))])
  }

  /** `SELECT COUNT(*) as count FROM films` */
  const CountAllQuery: CountQuery := CountQuery([], [])

  /** `%searchTerm%`, bound as it is: wildcards in the term stay wildcards. */
  function LikeTerm(searchTerm: string): Value {
    Text("%" + searchTerm + "%")
  }

  /** The page query of `searchFilms`: `WHERE films.title LIKE $1 ... LIMIT $2
      OFFSET $3`. */
  function SearchFilmsQuery(searchTerm: string, page: int, limit: int): (q: FilmsQuery)
    ensures q.where == [TitleLike(1)] && Bind(q.params, 1) == Text("%" + searchTerm + "%")
    ensures Bind(q.params, q.limitAt) == Int(limit)
    ensures Bind(q.params, q.offsetAt) == Int((page - 1) * limit)
  {
    FilmsQuery([TitleLike(1)], 2, 3, [LikeTerm(searchTerm), Int(limit), Int(Offset(page, limit))])
  }

  /** The count query of `searchFilms`: `WHERE title LIKE $1`. */
  function SearchCountQuery(searchTerm: string): (q: CountQuery)
    ensures q.where == [TitleLike(1)] && Bind(q.params, 1) == Text("%" + searchTerm + "%")
  {
    CountQuery([TitleLike(1)], [LikeTerm(searchTerm)])
  }

  /** The options of the current `getFilms` that ask for the same search:
      only a search term. */
  function SearchOptions(searchTerm: string, page: int, limit: int): GetFilmsOptions {
    GetFilmsOptions(page, limit, Some(searchTerm), None, None, None)
  }

  /** The plain page is the table's window and the count is the whole
      table. */
  lemma PaginatedQueriesMean(table: seq<Film>, page: int, limit: int)
    ensures SelectFilms(table, PaginatedFilmsQuery(page, limit)) == Window(table, limit, Offset(page, limit))
    ensures TotalFilms(SelectCount(table, CountAllQuery)) == |table|
  {
    FilterKeepsAll(table, (f: Film) => AllHold(f, [], []));
    FilterKeepsAll(table, (f: Film) => AllHold(f, [], PaginatedFilmsQuery(page, limit).params));
  }

  /** `%term%` matches every title when the term is empty. */
  lemma EmptyTermMatchesAll(title: string)
    ensures Like(title, "%" + "" + "%")
  {
    assert OccursAt(title, "", 0);
    SubstringPattern(title, "");
  }

  /** The search's page and count are those `getFilms` gives for the search
      term alone: the page of titles LIKE `%term%` and their number. */
  lemma SearchQueriesMean(table: seq<Film>, searchTerm: string, page: int, limit: int)
    ensures SelectFilms(table, SearchFilmsQuery(searchTerm, page, limit))
         == GetFilmsSpec(table, SearchOptions(searchTerm, page, limit)).films
    ensures TotalFilms(SelectCount(table, SearchCountQuery(searchTerm)))
         == GetFilmsSpec(table, SearchOptions(searchTerm, page, limit)).totalFilms
  {
    var o := SearchOptions(searchTerm, page, limit);
    var q := SearchFilmsQuery(searchTerm, page, limit);
    var c := SearchCountQuery(searchTerm);
    forall f: Film | f in table
      ensures AllHold(f, q.where, q.params) == Matches(f, o)
      ensures AllHold(f, c.where, c.params) == Matches(f, o)
    {
      if searchTerm == "" {
        EmptyTermMatchesAll(f.title);
      }
      assert Holds(f, q.where[0], q.params) <==> Like(f.title, "%" + searchTerm + "%");
      assert Holds(f, c.where[0], c.params) <==> Like(f.title, "%" + searchTerm + "%");
    }
    FilterAgrees(table, (f: Film) => AllHold(f, q.where, q.params), (f: Film) => Matches(f, o));
    FilterAgrees(table, (f: Film) => AllHold(f, c.where, c.params), (f: Film) => Matches(f, o));
  }

  /** Searching for the empty term is the plain page of all films. */
  lemma EmptySearchIsPaginated(table: seq<Film>, page: int, limit: int)
    ensures SelectFilms(table, SearchFilmsQuery("", page, limit)) == SelectFilms(table, PaginatedFilmsQuery(page, limit))
    ensures TotalFilms(SelectCount(table, SearchCountQuery(""))) == TotalFilms(SelectCount(table, CountAllQuery))
  {
    SearchQueriesMean(table, "", page, limit);
    PaginatedQueriesMean(table, page, limit);
    FilterKeepsAll(table, (f: Film) => Matches(f, SearchOptions("", page, limit)));
  }

  /** The module's cached connection: `db` is set by the first load that
      succeeds and never cleared; a load that throws leaves it unset, so the
      next call loads again. */
  class Connection {
    var db: Option<Handle>
    var loads: nat

    constructor ()
      ensures db == None && loads == 0
    {
      db := None;
      loads := 0;
    }

    /** `getDb`. `load` is what `Database.load` yields if it is called now
        (None when it throws). */
    method GetDb(load: Option<Handle>) returns (r: Result<Handle, DbError>)
      modifies this
      ensures old(db).Some? ==> r == Success(old(db).value) && unchanged(this)
      ensures old(db).None? ==> loads == old(loads) + 1 && db == load
      ensures old(db).None? ==> r == if load.Some? then Success(load.value) else Failure(LoadFailed)
    {
      if db.Some? {
        return Success(db.value);
      }
      loads := loads + 1;
      if load.None? {
        return Failure(LoadFailed);
      }
      db := load;
      return Success(load.value);
    }

    /** `getPaginatedFilms(page, limit)` over the rows `table` of the opened
        database (in title order): the window of all films and their number. */
    method GetPaginatedFilms(page: int, limit: int, load: Option<Handle>, table: seq<Film>, selectFails: bool)
      returns (r: Result<PaginatedFilmsResult, DbError>)
      modifies this
      ensures r.Failure? <==> selectFails || (old(db).None? && load.None?)
      ensures r.Success? ==> r.value.films == Window(table, limit, Offset(page, limit)) && r.value.totalFilms == |table|
      ensures old(db).Some? ==> unchanged(this)
      ensures old(db).None? ==> db == load && loads == old(loads) + 1
    {
      var handle := GetDb(load);
      if handle.Failure? {
        return Failure(handle.error);
      }
      if selectFails {
        return Failure(QueryFailed);
      }
      var films := SelectFilms(table, PaginatedFilmsQuery(page, limit));
      var totalFilms := TotalFilms(SelectCount(table, CountAllQuery));
      PaginatedQueriesMean(table, page, limit);
      return Success(PaginatedFilmsResult(films, totalFilms));
    }

    /** `searchFilms(searchTerm, page, limit)`: the same page and total as
        `getFilms` with only that search term. */
    method SearchFilms(searchTerm: string, page: int, limit: int, load: Option<Handle>, table: seq<Film>, selectFails: bool)
      returns (r: Result<PaginatedFilmsResult, DbError>)
      modifies this
      ensures r.Failure? <==> selectFails || (old(db).None? && load.None?)
      ensures r.Success? ==> r.value == GetFilmsSpec(table, SearchOptions(searchTerm, page, limit))
      ensures old(db).Some? ==> unchanged(this)
      ensures old(db).None? ==> db == load && loads == old(loads) + 1
    {
      var handle := GetDb(load);
      if handle.Failure? {
        return Failure(handle.error);
      }
      if selectFails {
        return Failure(QueryFailed);
      }
      var films := SelectFilms(table, SearchFilmsQuery(searchTerm, page, limit));
      var totalFilms := TotalFilms(SelectCount(table, SearchCountQuery(searchTerm)));
      SearchQueriesMean(table, searchTerm, page, limit);
      return Success(PaginatedFilmsResult(films, totalFilms));
    }
  }
}
