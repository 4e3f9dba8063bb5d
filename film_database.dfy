/** The catalog query layer of src/lib/services/database.ts: the film record,
    the options of `getFilms`, the WHERE clauses and bound parameters it
    assembles, what its two queries return over a table of films, the
    distinct-region aggregate, and the module-level connection cache. */
module FilmDatabase {
  import opened Outcomes
  import opened Sqlite

  datatype Status = Orphan | Adopted | Abandoned

  /** The text stored in `films.status`. */
  function StatusName(s: Status): string {
    match s
    case Orphan => "orphan"
    case Adopted => "adopted"
    case Abandoned => "abandoned"
  }

  /** One row of `films` joined with its guardian's name. */
  datatype Film = Film(
    id: int,
    title: string,
    year: Option<int>,
    plot: Option<string>,
    posterUrl: Option<string>,
    region: Option<string>,
    guardianId: Option<string>,
    status: Status,
    updatedAt: Option<string>,
    guardianName: Option<string>)

  /** The object handed to `getFilms`. Its `status` member is not part of the
      declared options: the page loader and the state store put a single
      `status` on the object, and `getFilms` never reads it. */
  datatype GetFilmsOptions = GetFilmsOptions(
    page: int,
    limit: int,
    searchTerm: Option<string>,
    statuses: Option<seq<Status>>,
    region: Option<string>,
    status: Option<Status>)

  datatype PaginatedFilmsResult = PaginatedFilmsResult(films: seq<Film>, totalFilms: int)

  datatype RegionWithCount = RegionWithCount(region: string, filmCount: int)

  /** JavaScript truthiness of an optional string: present and not empty. */
  predicate Truthy(s: Option<string>) {
    s.Some? && s.value != ""
  }

  /** `statuses && statuses.length > 0` */
  predicate HasStatuses(o: GetFilmsOptions) {
    o.statuses.Some? && |o.statuses.value| > 0
  }

  /** What the options ask of one film, independently of any SQL text: the
      title is LIKE `%term%` when a term is given, the status is one of the
      listed ones when some are listed, the region is the given one when one
      is given. Absent or empty criteria impose nothing. */
  predicate Matches(f: Film, o: GetFilmsOptions) {
    && (Truthy(o.searchTerm) ==> Like(f.title, "%" + o.searchTerm.value + "%"))
    && (HasStatuses(o) ==> f.status in o.statuses.value)
    && (Truthy(o.region) ==> f.region == o.region)
  }

  /** The films of `table` that match, in table order. */
  function MatchingFilms(table: seq<Film>, o: GetFilmsOptions): seq<Film> {
    Filter(table, (f: Film) => Matches(f, o))
  }

  /** Offset of a page: `(page - 1) * limit`. */
  function Offset(page: int, limit: int): (r: int)
    ensures page == 1 ==> r == 0
    ensures page >= 1 && limit >= 0 ==> r >= 0
    ensures r + limit == page * limit
  {
    (page - 1) * limit
  }

  /** What `getFilms` means over a table whose rows are in title order: the
      page of matching films and the number of all matching films. */
  function GetFilmsSpec(table: seq<Film>, o: GetFilmsOptions): PaginatedFilmsResult {
    var matching := MatchingFilms(table, o);
    PaginatedFilmsResult(Window(matching, o.limit, Offset(o.page, o.limit)), |matching|)
  }

  // ---------------------------------------------------------------------
  // The WHERE clause and its parameters
  // ---------------------------------------------------------------------

  /** One entry of `whereClauses`, with the numbers of its placeholders:
      `films.title LIKE $n`, `films.status IN ($n, ...)`, `films.region = $n`. */
  datatype Clause = TitleLike(at: nat) | StatusIn(ats: seq<nat>) | RegionIs(at: nat)

  /** The placeholder numbers of a clause list, in the order they appear. */
  function Placeholders(where: seq<Clause>): seq<nat> {
    if where == [] then [] else ClausePlaceholders(where[0]) + Placeholders(where[1..])
  }

  /** The placeholder numbers of one clause. */
  function ClausePlaceholders(c: Clause): seq<nat> {
    match c
    case TitleLike(n) => [n]
    case StatusIn(ns) => ns
    case RegionIs(n) => [n]
  }

  /** The numbers `lo`, `lo + 1`, ..., `hi - 1`. */
  function Range(lo: nat, hi: nat): (r: seq<nat>)
    requires lo <= hi
    ensures |r| == hi - lo
    ensures forall i :: 0 <= i < |r| ==> r[i] == lo + i
    decreases hi - lo
  {
    if lo == hi then [] else [lo] + Range(lo + 1, hi)
  }

  lemma {:induction false} RangeSplit(a: nat, b: nat, c: nat)
    requires a <= b <= c
    ensures Range(a, b) + Range(b, c) == Range(a, c)
  {
    assert |Range(a, b) + Range(b, c)| == |Range(a, c)|;
    forall i | 0 <= i < c - a
      ensures (Range(a, b) + Range(b, c))[i] == Range(a, c)[i]
    {
      if i < b - a {
        assert (Range(a, b) + Range(b, c))[i] == Range(a, b)[i];
      } else {
        assert (Range(a, b) + Range(b, c))[i] == Range(b, c)[i - (b - a)];
      }
    }
  }

  function StatusValues(statuses: seq<Status>): seq<Value> {
    seq(|statuses|, i requires 0 <= i < |statuses| => Text(StatusName(statuses[i])))
  }

  function SearchParams(o: GetFilmsOptions): seq<Value> {
    if Truthy(o.searchTerm) then [Text("%" + o.searchTerm.value + "%")] else []
  }

  function StatusParams(o: GetFilmsOptions): seq<Value> {
    if HasStatuses(o) then StatusValues(o.statuses.value) else []
  }

  function RegionParams(o: GetFilmsOptions): seq<Value> {
    if Truthy(o.region) then [Text(o.region.value)] else []
  }

  /** The parameters of the WHERE clause: the LIKE pattern, then the statuses
      in their given order, then the region, each only when asked for. */
  function BoundParams(o: GetFilmsOptions): seq<Value> {
    SearchParams(o) + StatusParams(o) + RegionParams(o)
  }

  /** The clauses of the WHERE clause, in the order search, statuses, region;
      each clause's placeholders name the positions of its own parameters in
      `BoundParams(o)`. */
  function WhereClauses(o: GetFilmsOptions): seq<Clause> {
    var a := |SearchParams(o)|;
    var b := a + |StatusParams(o)|;
    (if Truthy(o.searchTerm) then [TitleLike(1)] else [])
    + (if HasStatuses(o) then [StatusIn(Range(a + 1, b + 1))] else [])
    + (if Truthy(o.region) then [RegionIs(b + 1)] else [])
  }

  /** `SELECT films.*, guardians.name ... <where> ORDER BY films.title ASC
      LIMIT $limitAt OFFSET $offsetAt` with its parameter array. */
  datatype FilmsQuery = FilmsQuery(where: seq<Clause>, limitAt: nat, offsetAt: nat, params: seq<Value>)

  /** `SELECT COUNT(*) as count FROM films <where>` with its parameter array. */
  datatype CountQuery = CountQuery(where: seq<Clause>, params: seq<Value>)

  /** The query text of one clause. */
  function RenderClause(c: Clause): string {
    match c
    case TitleLike(n) => "films.title LIKE " + Placeholder(n)
    case StatusIn(ns) => "films.status IN (" + JoinPlaceholders(ns) + ")"
    case RegionIs(n) => "films.region = " + Placeholder(n)
  }

  function Placeholder(n: nat): string {
    "$" + Decimal(n)
  }

  /** `${n}` for a placeholder number: its decimal digits, most significant
      first. */
  function Decimal(n: nat): (r: string)
    ensures 1 <= |r|
    ensures forall i :: 0 <= i < |r| ==> '0' <= r[i] <= '9'
    decreases n
  {
    var digit := ('0' as int + n % 10) as char;
    if n < 10 then [digit] else Decimal(n / 10) + [digit]
  }

  /** The number a string of decimal digits denotes. */
  function DecimalValue(s: string): int
    decreases |s|
  {
    if s == [] then 0 else DecimalValue(s[..|s| - 1]) * 10 + (s[|s| - 1] as int - '0' as int)
  }

  /** Reading the digits back gives the number: `Decimal` is `n`'s decimal
      form. */
  lemma {:induction false} DecimalRoundTrip(n: nat)
    ensures DecimalValue(Decimal(n)) == n
    decreases n
  {
    var r := Decimal(n);
    var digit := ('0' as int + n % 10) as char;
    if n < 10 {
      assert r == [digit] && r[..0] == [];
    } else {
      DecimalRoundTrip(n / 10);
      assert r == Decimal(n / 10) + [digit];
      assert r[..|r| - 1] == Decimal(n / 10);
    }
  }

  /** Distinct placeholder numbers are written as distinct placeholders. */
  lemma PlaceholderInjective(m: nat, n: nat)
    requires Placeholder(m) == Placeholder(n)
    ensures m == n
  {
    assert Decimal(m) == Placeholder(m)[1..];
    assert Decimal(n) == Placeholder(n)[1..];
    DecimalRoundTrip(m);
    DecimalRoundTrip(n);
  }

  function JoinPlaceholders(ns: seq<nat>): string {
    if ns == [] then ""
    else if |ns| == 1 then Placeholder(ns[0])
    else Placeholder(ns[0]) + ", " + JoinPlaceholders(ns[1..])
  }

  function JoinAnd(cs: seq<Clause>): string {
    if cs == [] then ""
    else if |cs| == 1 then RenderClause(cs[0])
    else RenderClause(cs[0]) + " AND " + JoinAnd(cs[1..])
  }

  /** `whereString`: empty without clauses, otherwise `WHERE` and the clauses
      joined with ` AND `. */
  function WhereString(where: seq<Clause>): (r: string)
    ensures r == "" <==> where == []
    ensures where != [] ==> |r| >= 6 && r[..6] == "WHERE "
  {
    if where == [] then "" else "WHERE " + JoinAnd(where)
  }

  /** The query construction of `getFilms`: clauses and parameters pushed
      step by step with a running placeholder counter, then LIMIT and OFFSET
      take the next two numbers; the count query reuses the same clauses and
      parameters. */
  method BuildFilmsQueries(o: GetFilmsOptions) returns (films: FilmsQuery, count: CountQuery)
    ensures count.where == WhereClauses(o) && count.params == BoundParams(o)
    ensures films.where == count.where
    ensures films.params == count.params + [Int(o.limit), Int(Offset(o.page, o.limit))]
    ensures films.limitAt == |count.params| + 1 && films.offsetAt == |count.params| + 2
  {
    var offset := (o.page - 1) * o.limit;
    var whereClauses: seq<Clause> := [];
    var params: seq<Value> := [];
    var paramIndex: nat := 1;

    if Truthy(o.searchTerm) {
      whereClauses := whereClauses + [TitleLike(paramIndex)];
      paramIndex := paramIndex + 1;
      params := params + [Text("%" + o.searchTerm.value + "%")];
    }
    assert whereClauses == (if Truthy(o.searchTerm) then [TitleLike(1)] else []);
    assert params == SearchParams(o) && paramIndex == |params| + 1;

    if HasStatuses(o) {
      var statuses := o.statuses.value;
      var first := paramIndex;
      var placeholders: seq<nat> := [];
      var i := 0;
      while i < |statuses|
        invariant 0 <= i <= |statuses|
        invariant paramIndex == first + i
        invariant |placeholders| == i
        invariant forall k :: 0 <= k < i ==> placeholders[k] == first + k
      {
        placeholders := placeholders + [paramIndex];
        paramIndex := paramIndex + 1;
        i := i + 1;
      }
      assert placeholders == Range(first, paramIndex);
      whereClauses := whereClauses + [StatusIn(placeholders)];
      params := params + StatusValues(statuses);
    }
    assert params == SearchParams(o) + StatusParams(o) && paramIndex == |params| + 1;

    if Truthy(o.region) {
      whereClauses := whereClauses + [RegionIs(paramIndex)];
      paramIndex := paramIndex + 1;
      params := params + [Text(o.region.value)];
    }

    var limitAt := paramIndex;
    paramIndex := paramIndex + 1;
    var offsetAt := paramIndex;
    paramIndex := paramIndex + 1;
    films := FilmsQuery(whereClauses, limitAt, offsetAt, params + [Int(o.limit), Int(offset)]);
    count := CountQuery(whereClauses, params);
  }

  /** The placeholders of the WHERE clause are `$1`, `$2`, ... numbered
      consecutively, one per bound parameter; LIMIT and OFFSET take the two
      numbers after them. */
  lemma PlaceholdersNumbered(o: GetFilmsOptions)
    ensures Placeholders(WhereClauses(o)) == Range(1, |BoundParams(o)| + 1)
  {
    var a := |SearchParams(o)|;
    var b := a + |StatusParams(o)|;
    var n := b + |RegionParams(o)|;
    assert n == |BoundParams(o)|;
    var c1 := if Truthy(o.searchTerm) then [TitleLike(1)] else [];
    var c2 := if HasStatuses(o) then [StatusIn(Range(a + 1, b + 1))] else [];
    var c3 := if Truthy(o.region) then [RegionIs(b + 1)] else [];
    assert WhereClauses(o) == c1 + c2 + c3;
    OptionalClause(Truthy(o.searchTerm), TitleLike(1), 1, a + 1);
    OptionalClause(HasStatuses(o), StatusIn(Range(a + 1, b + 1)), a + 1, b + 1);
    OptionalClause(Truthy(o.region), RegionIs(b + 1), b + 1, n + 1);
    ThreeParts(c1, c2, c3, a, b, n);
  }

  /** An optional clause whose placeholders are `lo .. hi - 1` when present,
      and no numbers are used when it is absent. */
  lemma OptionalClause(present: bool, c: Clause, lo: nat, hi: nat)
    requires lo <= hi
    requires present ==> ClausePlaceholders(c) == Range(lo, hi)
    requires !present ==> lo == hi
    ensures Placeholders(if present then [c] else []) == Range(lo, hi)
  {
    if present {
      assert [c][1..] == [];
    }
  }

  /** Three consecutive runs of placeholders make one run. */
  lemma ThreeParts(c1: seq<Clause>, c2: seq<Clause>, c3: seq<Clause>, a: nat, b: nat, n: nat)
    requires a <= b <= n
    requires Placeholders(c1) == Range(1, a + 1)
    requires Placeholders(c2) == Range(a + 1, b + 1)
    requires Placeholders(c3) == Range(b + 1, n + 1)
    ensures Placeholders(c1 + c2 + c3) == Range(1, n + 1)
  {
    PlaceholdersConcat(c1 + c2, c3);
    PlaceholdersConcat(c1, c2);
    RangeSplit(1, a + 1, b + 1);
    RangeSplit(1, b + 1, n + 1);
  }

  lemma {:induction false} PlaceholdersConcat(x: seq<Clause>, y: seq<Clause>)
    ensures Placeholders(x + y) == Placeholders(x) + Placeholders(y)
  {
    if x == [] {
      assert x + y == y;
    } else {
      assert (x + y)[0] == x[0];
      assert (x + y)[1..] == x[1..] + y;
      PlaceholdersConcat(x[1..], y);
    }
  }

  // ---------------------------------------------------------------------
  // What the queries select
  // ---------------------------------------------------------------------

  /** Whether one clause holds of a film, reading its placeholders from
      `params`. A comparison with NULL (an unbound placeholder, a film
      without region) does not hold. */
  predicate Holds(f: Film, c: Clause, params: seq<Value>) {
    match c
    case TitleLike(n) => Bind(params, n).Text? && Like(f.title, Bind(params, n).s)
    case StatusIn(ns) => exists k :: 0 <= k < |ns| && Bind(params, ns[k]) == Text(StatusName(f.status))
    case RegionIs(n) => f.region.Some? && Bind(params, n) == Text(f.region.value)
  }

  /** The clauses joined with AND. */
  predicate AllHold(f: Film, where: seq<Clause>, params: seq<Value>) {
    forall i :: 0 <= i < |where| ==> Holds(f, where[i], params)
  }

  /** The rows a WHERE clause keeps, in table order. */
  function Selected(table: seq<Film>, where: seq<Clause>, params: seq<Value>): seq<Film> {
    Filter(table, (f: Film) => AllHold(f, where, params))
  }

  /** An integer bound to LIMIT or OFFSET; the queries here always bind one. */
  function IntOr(v: Value, otherwise: int): int {
    if v.Int? then v.i else otherwise
  }

  /** The rows of the page query, over a table whose rows are in title order. */
  function SelectFilms(table: seq<Film>, q: FilmsQuery): seq<Film> {
    Window(Selected(table, q.where, q.params), IntOr(Bind(q.params, q.limitAt), -1), IntOr(Bind(q.params, q.offsetAt), 0))
  }

  /** The rows of the count query: `COUNT(*)` yields one row. */
  function SelectCount(table: seq<Film>, q: CountQuery): seq<int> {
    [|Selected(table, q.where, q.params)|]
  }

  /** `result[0]?.count ?? 0` */
  function TotalFilms(rows: seq<int>): int {
    if rows == [] then 0 else rows[0]
  }

  /** Distinct statuses are bound as distinct names. */
  lemma StatusNameInjective(x: Status, y: Status)
    requires StatusName(x) == StatusName(y)
    ensures x == y
  {
    assert StatusName(x)[0] == StatusName(y)[0];
  }

  /** The StatusIn clause over the placeholders `$a+1` .. `$a+|statuses|`, whose
      parameters are the statuses' names, holds exactly for the listed statuses. */
  lemma StatusClauseMeansMember(f: Film, statuses: seq<Status>, params: seq<Value>, a: nat)
    requires a + |statuses| <= |params|
    requires forall i :: 0 <= i < |statuses| ==> params[a + i] == Text(StatusName(statuses[i]))
    ensures Holds(f, StatusIn(Range(a + 1, a + |statuses| + 1)), params) <==> f.status in statuses
  {
    var ns := Range(a + 1, a + |statuses| + 1);
    var v := Text(StatusName(f.status));
    assert forall k :: 0 <= k < |ns| ==> Bind(params, ns[k]) == Text(StatusName(statuses[k]));
    if Holds(f, StatusIn(ns), params) {
      var k :| 0 <= k < |ns| && Bind(params, ns[k]) == v;
      StatusNameInjective(f.status, statuses[k]);
    }
    if f.status in statuses {
      var k :| 0 <= k < |statuses| && statuses[k] == f.status;
      assert Bind(params, ns[k]) == v;
    }
  }

  /** The built WHERE clause, read with the built parameters (and whatever is
      appended after them), holds of a film exactly when the film matches
      the options. */
  lemma WhereMeansMatches(o: GetFilmsOptions, f: Film, extra: seq<Value>)
    ensures AllHold(f, WhereClauses(o), BoundParams(o) + extra) <==> Matches(f, o)
  {
    var P := BoundParams(o) + extra;
    var a := |SearchParams(o)|;
    var b := a + |StatusParams(o)|;
    var c1 := if Truthy(o.searchTerm) then [TitleLike(1)] else [];
    var c2 := if HasStatuses(o) then [StatusIn(Range(a + 1, b + 1))] else [];
    var c3 := if Truthy(o.region) then [RegionIs(b + 1)] else [];
    assert WhereClauses(o) == c1 + c2 + c3;
    AllHoldSplit(f, c1, c2, c3, P);
    SearchPartMeans(o, f, extra);
    if HasStatuses(o) {
      BoundStatusParams(o, extra);
      StatusPartMeans(o, f, extra);
    }
    RegionPartMeans(o, f, extra);
  }

  /** A conjunction of three clause lists holds exactly when each does. */
  lemma AllHoldSplit(f: Film, c1: seq<Clause>, c2: seq<Clause>, c3: seq<Clause>, P: seq<Value>)
    ensures AllHold(f, c1 + c2 + c3, P) <==> AllHold(f, c1, P) && AllHold(f, c2, P) && AllHold(f, c3, P)
  {
    var w := c1 + c2 + c3;
    if AllHold(f, c1, P) && AllHold(f, c2, P) && AllHold(f, c3, P) {
      forall i | 0 <= i < |w| ensures Holds(f, w[i], P) {
        if i < |c1| {
          assert w[i] == c1[i];
        } else if i < |c1| + |c2| {
          assert w[i] == c2[i - |c1|];
        } else {
          assert w[i] == c3[i - |c1| - |c2|];
        }
      }
    }
    if AllHold(f, w, P) {
      forall i | 0 <= i < |c1| ensures Holds(f, c1[i], P) {
        assert w[i] == c1[i];
      }
      forall i | 0 <= i < |c2| ensures Holds(f, c2[i], P) {
        assert w[|c1| + i] == c2[i];
      }
      forall i | 0 <= i < |c3| ensures Holds(f, c3[i], P) {
        assert w[|c1| + |c2| + i] == c3[i];
      }
    }
  }

  /** A single clause holds as a conjunction exactly when it holds. */
  lemma AllHoldOne(f: Film, c: Clause, P: seq<Value>)
    ensures AllHold(f, [c], P) <==> Holds(f, c, P)
  {
    assert [c][0] == c;
  }

  /** The search clause, when present, is the title LIKE `%term%`. */
  lemma SearchPartMeans(o: GetFilmsOptions, f: Film, extra: seq<Value>)
    ensures (AllHold(f, if Truthy(o.searchTerm) then [TitleLike(1)] else [], BoundParams(o) + extra))
        <==> (Truthy(o.searchTerm) ==> Like(f.title, "%" + o.searchTerm.value + "%"))
  {
    if Truthy(o.searchTerm) {
      var P := BoundParams(o) + extra;
      assert P[0] == SearchParams(o)[0];
      assert Bind(P, 1) == Text("%" + o.searchTerm.value + "%");
      AllHoldOne(f, TitleLike(1), P);
    }
  }

  /** The status clause, when present, is membership in the listed statuses. */
  lemma StatusPartMeans(o: GetFilmsOptions, f: Film, extra: seq<Value>)
    requires HasStatuses(o)
    ensures var a := |SearchParams(o)|;
      var ns := Range(a + 1, a + |o.statuses.value| + 1);
      (AllHold(f, [StatusIn(ns)], BoundParams(o) + extra)) <==> f.status in o.statuses.value
  {
    var P := BoundParams(o) + extra;
    var a := |SearchParams(o)|;
    var statuses := o.statuses.value;
    BoundStatusParams(o, extra);
    StatusClauseMeansMember(f, statuses, P, a);
    AllHoldOne(f, StatusIn(Range(a + 1, a + |statuses| + 1)), P);
  }

  /** The statuses are bound right after the search pattern, in order. */
  lemma BoundStatusParams(o: GetFilmsOptions, extra: seq<Value>)
    requires HasStatuses(o)
    ensures var a := |SearchParams(o)|;
      var statuses := o.statuses.value;
      && |StatusParams(o)| == |statuses|
      && a + |statuses| <= |BoundParams(o) + extra|
      && forall i :: 0 <= i < |statuses| ==> (BoundParams(o) + extra)[a + i] == Text(StatusName(statuses[i]))
  {
    var P := BoundParams(o) + extra;
    var a := |SearchParams(o)|;
    var statuses := o.statuses.value;
    forall i | 0 <= i < |statuses| ensures P[a + i] == Text(StatusName(statuses[i])) {
      assert P[a + i] == StatusParams(o)[i];
    }
  }

  /** The region clause, when present, is equality with the given region. */
  lemma RegionPartMeans(o: GetFilmsOptions, f: Film, extra: seq<Value>)
    ensures var b := |SearchParams(o)| + |StatusParams(o)|;
      (AllHold(f, if Truthy(o.region) then [RegionIs(b + 1)] else [], BoundParams(o) + extra))
        <==> (Truthy(o.region) ==> f.region == o.region)
  {
    if Truthy(o.region) {
      var P := BoundParams(o) + extra;
      var b := |SearchParams(o)| + |StatusParams(o)|;
      assert P[b] == RegionParams(o)[0];
      assert Bind(P, b + 1) == Text(o.region.value);
      AllHoldOne(f, RegionIs(b + 1), P);
    }
  }

  /** The rows the built WHERE clause keeps are the matching films. */
  lemma SelectedAreMatching(table: seq<Film>, o: GetFilmsOptions, extra: seq<Value>)
    ensures Selected(table, WhereClauses(o), BoundParams(o) + extra) == MatchingFilms(table, o)
  {
    forall f | f in table
      ensures AllHold(f, WhereClauses(o), BoundParams(o) + extra) == Matches(f, o)
    {
      WhereMeansMatches(o, f, extra);
    }
    FilterAgrees(table, (f: Film) => AllHold(f, WhereClauses(o), BoundParams(o) + extra), (f: Film) => Matches(f, o));
  }

  /** The page query and the count query built from the options select the
      page and the total that `GetFilmsSpec` describes: both use the same
      predicate, the count is unaffected by LIMIT and OFFSET. */
  lemma BuiltQueriesMeanSpec(table: seq<Film>, o: GetFilmsOptions, films: FilmsQuery, count: CountQuery)
    requires count.where == WhereClauses(o) && count.params == BoundParams(o)
    requires films.where == count.where
    requires films.params == count.params + [Int(o.limit), Int(Offset(o.page, o.limit))]
    requires films.limitAt == |count.params| + 1 && films.offsetAt == |count.params| + 2
    ensures SelectFilms(table, films) == GetFilmsSpec(table, o).films
    ensures TotalFilms(SelectCount(table, count)) == GetFilmsSpec(table, o).totalFilms
  {
    SelectedAreMatching(table, o, [Int(o.limit), Int(Offset(o.page, o.limit))]);
    SelectedAreMatching(table, o, []);
    assert BoundParams(o) + [] == BoundParams(o);
  }

  /** `ceil(n / limit)` for a positive limit. */
  function CeilDiv(n: nat, limit: nat): nat
    requires limit > 0
  {
    (n + limit - 1) / limit
  }

  /** The page starting at `(page - 1) * limit` begins inside `n` rows
      exactly for the pages up to `ceil(n / limit)`. */
  lemma PageStartInside(n: nat, limit: nat, page: nat)
    requires limit > 0 && page >= 1
    ensures (page - 1) * limit < n <==> page <= CeilDiv(n, limit)
  {
    var c := CeilDiv(n, limit);
    var rem := (n + limit - 1) % limit;
    assert n + limit - 1 == c * limit + rem && 0 <= rem < limit;
    if page <= c {
      MulMonotone(page - 1, c - 1, limit);
      assert (c - 1) * limit == c * limit - limit;
    } else {
      MulMonotone(c, page - 1, limit);
    }
  }

  lemma MulMonotone(x: nat, y: nat, k: nat)
    requires x <= y
    ensures x * k <= y * k
  {
    assert y * k == x * k + (y - x) * k;
  }

  /** Pages `1 .. ceil(total / limit)` are exactly the non-empty ones, every
      page holds at most `limit` films, and every film on it matches. */
  lemma PagesMatchTotal(table: seq<Film>, o: GetFilmsOptions)
    requires o.page >= 1 && o.limit > 0
    ensures var r := GetFilmsSpec(table, o);
      && |r.films| <= o.limit
      && (forall f :: f in r.films ==> f in table && Matches(f, o))
      && (|r.films| > 0 <==> o.page <= CeilDiv(r.totalFilms, o.limit))
  {
    var matching := MatchingFilms(table, o);
    PageStartInside(|matching|, o.limit, o.page);
  }

  // ---------------------------------------------------------------------
  // Regions with their film counts
  // ---------------------------------------------------------------------

  predicate Ascending(regions: seq<string>) {
    forall i, j :: 0 <= i < j < |regions| ==> TextBelow(regions[i], regions[j])
  }

  /** The region of a film when it is neither NULL nor empty. */
  predicate HasRegion(f: Film) {
    f.region.Some? && f.region.value != ""
  }

  /** Inserts `x` into an ascending list without duplicating it. */
  function Insert(regions: seq<string>, x: string): (r: seq<string>)
    requires Ascending(regions)
    ensures Ascending(r)
    ensures forall y :: y in r <==> y in regions || y == x
  {
    if regions == [] then [x]
    else if x == regions[0] then regions
    else if TextBelow(x, regions[0]) then
      assert forall j :: 0 <= j < |regions| ==> TextBelow(x, regions[j]) by {
        forall j | 0 <= j < |regions| ensures TextBelow(x, regions[j]) {
          if j > 0 {
            TextBelowTransitive(x, regions[0], regions[j]);
          }
        }
      }
      [x] + regions
    else
      TextBelowTotal(x, regions[0]);
      var rest := Insert(regions[1..], x);
      assert forall y :: y in rest ==> TextBelow(regions[0], y) by {
        forall y | y in rest ensures TextBelow(regions[0], y) {
          if y != x {
            var j :| 0 <= j < |regions[1..]| && regions[1..][j] == y;
            assert regions[j + 1] == y;
          }
        }
      }
      var r := [regions[0]] + rest;
      assert forall i, j :: 0 <= i < j < |r| ==> TextBelow(r[i], r[j]) by {
        forall i, j | 0 <= i < j < |r| ensures TextBelow(r[i], r[j]) {
          if i == 0 {
            assert r[j] in rest;
          } else {
            assert r[i] == rest[i - 1] && r[j] == rest[j - 1];
          }
        }
      }
      r
  }

  /** The distinct non-empty regions of the table, ascending. */
  function RegionKeys(table: seq<Film>): (r: seq<string>)
    ensures Ascending(r)
    ensures forall x :: x in r <==> exists f :: f in table && HasRegion(f) && f.region.value == x
  {
    if table == [] then []
    else
      var rest := RegionKeys(table[1..]);
      assert forall f :: f in table <==> f == table[0] || f in table[1..];
      if HasRegion(table[0]) then Insert(rest, table[0].region.value) else rest
  }

  /** How many films have exactly this region. */
  function RegionCount(table: seq<Film>, region: string): nat {
    |Filter(table, (f: Film) => f.region == Some(region))|
  }

  /** The result of `getRegionsWithFilmCount`: the distinct regions that are
      neither NULL nor empty, in ascending order, each with the number of
      films in it. */
  function RegionsWithFilmCount(table: seq<Film>): (r: seq<RegionWithCount>)
    ensures forall i :: 0 <= i < |r| ==> r[i].region != "" && r[i].filmCount == RegionCount(table, r[i].region) > 0
    ensures forall i, j :: 0 <= i < j < |r| ==> TextBelow(r[i].region, r[j].region)
    ensures forall f :: f in table && HasRegion(f) ==> exists i :: 0 <= i < |r| && r[i].region == f.region.value
  {
    var keys := RegionKeys(table);
    var r := seq(|keys|, i requires 0 <= i < |keys| => RegionWithCount(keys[i], RegionCount(table, keys[i])));
    assert forall i :: 0 <= i < |r| ==> r[i].region == keys[i];
    forall i | 0 <= i < |r|
      ensures r[i].region != "" && r[i].filmCount == RegionCount(table, r[i].region) > 0
    {
      assert keys[i] in keys;
      var f :| f in table && HasRegion(f) && f.region.value == keys[i];
      assert f in Filter(table, (g: Film) => g.region == Some(keys[i]));
    }
    forall f | f in table && HasRegion(f) ensures exists i :: 0 <= i < |r| && r[i].region == f.region.value {
      assert f.region.value in keys;
      var i :| 0 <= i < |keys| && keys[i] == f.region.value;
      assert r[i].region == f.region.value;
    }
    r
  }

  /** Each region appears once in the aggregate. */
  lemma RegionsAreDistinct(table: seq<Film>, i: nat, j: nat)
    requires i < j < |RegionsWithFilmCount(table)|
    ensures RegionsWithFilmCount(table)[i].region != RegionsWithFilmCount(table)[j].region
  {
    var r := RegionsWithFilmCount(table);
    TextBelowIrreflexive(r[i].region);
  }

  // ---------------------------------------------------------------------
  // The connection cache
  // ---------------------------------------------------------------------

  /** An open database handle. */
  datatype Handle = Handle(id: nat)

  /** Why a catalog call rejects: the database could not be opened, or a
      query on the open handle failed (no `films` table, say). */
  datatype DbError = LoadFailed | QueryFailed

  /** `initializationPromise`: none, settled with a handle, or rejected. */
  datatype Initialization = NoPromise | Resolved(handle: Handle) | Rejected

  /** The module-level `db` and `initializationPromise` of the catalog
      service, and the number of `Database.load` calls made so far. */
  class Connection {
    var db: Option<Handle>
    var initialization: Initialization
    var loads: nat

    /** `db` is set exactly when the promise has settled with it. */
    predicate Valid()
      reads this
    {
      && (db.Some? <==> initialization.Resolved?)
      && (db.Some? ==> initialization.handle == db.value)
    }

    constructor ()
      ensures Valid()
      ensures db == None && initialization == NoPromise && loads == 0
    {
      db := None;
      initialization := NoPromise;
      loads := 0;
    }

    /** `getDb`. `load` is what `Database.load` yields if it is called now
        (None when it throws). A cached handle is returned as is; a
        rejected promise is returned again without a new load. */
    method GetDb(load: Option<Handle>) returns (r: Result<Handle, DbError>)
      requires Valid()
      modifies this
      ensures Valid()
      ensures old(db).Some? ==> r == Success(old(db).value) && unchanged(this)
      ensures old(db).None? && old(initialization) == Rejected ==> r == Failure(LoadFailed) && unchanged(this)
      ensures old(db).None? && old(initialization) == NoPromise ==>
        && loads == old(loads) + 1
        && (load.Some? ==> r == Success(load.value) && db == load && initialization == Resolved(load.value))
        && (load.None? ==> r == Failure(LoadFailed) && db == None && initialization == Rejected)
    {
      if db.Some? {
        return Success(db.value);
      }
      if initialization.Rejected? {
        return Failure(LoadFailed);
      }
      loads := loads + 1;
      if load.Some? {
        db := load;
        initialization := Resolved(load.value);
        r := Success(load.value);
      } else {
        initialization := Rejected;
        r := Failure(LoadFailed);
      }
    }

    /** `closeDbConnection`: clears both the handle and the promise, but only
        when a handle is open; otherwise nothing changes. */
    method Close()
      requires Valid()
      modifies this
      ensures Valid()
      ensures db == None
      ensures old(db).Some? ==> initialization == NoPromise && loads == old(loads)
      ensures old(db).None? ==> unchanged(this)
    {
      if db.Some? {
        db := None;
        initialization := NoPromise;
      }
    }

    /** `getFilms` over the rows `table` of the opened database (in title
        order). It fails when no handle can be had, or when one of its two
        selects rejects (`selectFails`); otherwise it returns the page and
        total of `GetFilmsSpec`. */
    method GetFilms(o: GetFilmsOptions, load: Option<Handle>, table: seq<Film>, selectFails: bool)
      returns (r: Result<PaginatedFilmsResult, DbError>)
      requires Valid()
      modifies this
      ensures Valid()
      ensures r.Failure? <==> selectFails || (old(db).None? && (old(initialization) == Rejected || load.None?))
      ensures r.Failure? && !(old(db).None? && (old(initialization) == Rejected || load.None?)) ==> r.error == QueryFailed
      ensures r.Success? ==> r.value == GetFilmsSpec(table, o)
      ensures old(db).Some? ==> unchanged(this)
      ensures old(db).None? && old(initialization) == Rejected ==> unchanged(this)
      ensures old(db).None? && old(initialization) == NoPromise ==>
        && loads == old(loads) + 1
        && db == load
        && initialization == (if load.Some? then Resolved(load.value) else Rejected)
    {
      var handle := GetDb(load);
      if handle.Failure? {
        return Failure(handle.error);
      }
      var filmsQuery, countQuery := BuildFilmsQueries(o);
      if selectFails {
        return Failure(QueryFailed);
      }
      var films := SelectFilms(table, filmsQuery);
      var counted := SelectCount(table, countQuery);
      var totalFilms := TotalFilms(counted);
      BuiltQueriesMeanSpec(table, o, filmsQuery, countQuery);
      r := Success(PaginatedFilmsResult(films, totalFilms));
    }

    /** `getRegionsWithFilmCount` over the rows `table` of the opened
        database; `selectFails` is a rejected select. */
    method GetRegionsWithFilmCount(load: Option<Handle>, table: seq<Film>, selectFails: bool)
      returns (r: Result<seq<RegionWithCount>, DbError>)
      requires Valid()
      modifies this
      ensures Valid()
      ensures r.Failure? <==> selectFails || (old(db).None? && (old(initialization) == Rejected || load.None?))
      ensures r.Failure? && !(old(db).None? && (old(initialization) == Rejected || load.None?)) ==> r.error == QueryFailed
      ensures r.Success? ==> r.value == RegionsWithFilmCount(table)
      ensures old(db).Some? ==> unchanged(this)
      ensures old(db).None? && old(initialization) == Rejected ==> unchanged(this)
      ensures old(db).None? && old(initialization) == NoPromise ==>
        && loads == old(loads) + 1
        && db == load
        && initialization == (if load.Some? then Resolved(load.value) else Rejected)
    {
      var handle := GetDb(load);
      if handle.Failure? {
        return Failure(handle.error);
      }
      if selectFails {
        return Failure(QueryFailed);
      }
      r := Success(RegionsWithFilmCount(table));
    }
  }
}
