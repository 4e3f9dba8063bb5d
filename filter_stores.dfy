/** The filter state of src/lib/utils/stores.ts and what is derived from it:
    the initial and reset value, the "show all" flag, and the filter object
    handed to `getFilms` without page and limit. */
module FilterStores {
  import opened Outcomes
  import opened Sqlite
  import opened FilmDatabase

  /** `initialFilters`: the first page of twenty orphaned films. */
  const InitialFilters: GetFilmsOptions := GetFilmsOptions(1, 20, None, Some([Orphan]), None, None)

  /** `filtersStore.reset()`: the store's value becomes a copy of
      `initialFilters`, whatever it was. */
  function Reset(current: GetFilmsOptions): (o: GetFilmsOptions)
    ensures o.page == 1 && o.limit == 20
    ensures o.statuses == Some([Orphan])
    ensures o.searchTerm.None? && o.region.None?
  {
    InitialFilters
  }

  /** `isShowAllState`: no search term, no region and no status is selected. */
  predicate IsShowAllState(filters: GetFilmsOptions) {
    !Truthy(filters.searchTerm) && !Truthy(filters.region) && !HasStatuses(filters)
  }

  /** The value of `activeFiltersForApi`: the options without `page` and
      `limit`, each criterion present only when it is set. */
  datatype ActiveFilters = ActiveFilters(searchTerm: Option<string>, statuses: Option<seq<Status>>, region: Option<string>)

  /** The object with no keys. */
  const NoKeys: ActiveFilters := ActiveFilters(None, None, None)

  /** `activeFiltersForApi`: each of search term, statuses and region is
      copied exactly when it is truthy or non-empty, and copied unchanged. */
  function ActiveFiltersForApi(filters: GetFilmsOptions): (active: ActiveFilters)
    ensures active.searchTerm.Some? <==> Truthy(filters.searchTerm)
    ensures active.searchTerm.Some? ==> active.searchTerm == filters.searchTerm
    ensures active.statuses.Some? <==> HasStatuses(filters)
    ensures active.statuses.Some? ==> active.statuses == filters.statuses
    ensures active.region.Some? <==> Truthy(filters.region)
    ensures active.region.Some? ==> active.region == filters.region
  {
    var active := NoKeys;
    var active := if Truthy(filters.searchTerm) then active.(searchTerm := filters.searchTerm) else active;
    var active := if HasStatuses(filters) then active.(statuses := filters.statuses) else active;
    if Truthy(filters.region) then active.(region := filters.region) else active
  }

  /** The options a caller passes to `getFilms` when it spreads the active
      filters next to a page and a limit. */
  function WithPage(active: ActiveFilters, page: int, limit: int): GetFilmsOptions {
    GetFilmsOptions(page, limit, active.searchTerm, active.statuses, active.region, None)
  }

  /** "Show all" holds exactly when the API filter object has no keys. */
  lemma ShowAllIffNoKeys(filters: GetFilmsOptions)
    ensures IsShowAllState(filters) <==> ActiveFiltersForApi(filters) == NoKeys
  {
  }

  /** Right after a reset the view is not "show all": orphans are selected. */
  lemma ResetIsNotShowAll(current: GetFilmsOptions)
    ensures !IsShowAllState(Reset(current))
  {
  }

  /** After a reset `getFilms` selects exactly the orphaned films. */
  lemma ResetSelectsOrphans(current: GetFilmsOptions, table: seq<Film>)
    ensures MatchingFilms(table, Reset(current)) == Filter(table, (f: Film) => f.status == Orphan)
  {
    FilterAgrees(table, (f: Film) => Matches(f, Reset(current)), (f: Film) => f.status == Orphan);
  }

  /** In the "show all" state `getFilms` selects every film. */
  lemma ShowAllSelectsEverything(filters: GetFilmsOptions, table: seq<Film>)
    requires IsShowAllState(filters)
    ensures MatchingFilms(table, filters) == table
  {
    FilterKeepsAll(table, (f: Film) => Matches(f, filters));
  }

  /** Dropping the unset criteria changes nothing: the active filters with
      the same page and limit ask `getFilms` for the same page and total. */
  lemma ActiveFiltersKeepMeaning(filters: GetFilmsOptions, table: seq<Film>)
    ensures GetFilmsSpec(table, WithPage(ActiveFiltersForApi(filters), filters.page, filters.limit))
         == GetFilmsSpec(table, filters)
  {
    var o := WithPage(ActiveFiltersForApi(filters), filters.page, filters.limit);
    FilterAgrees(table, (f: Film) => Matches(f, o), (f: Film) => Matches(f, filters));
  }
}
