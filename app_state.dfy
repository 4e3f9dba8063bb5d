/** The authentication store of src/lib/utils/state.ts, and the filters
    store declared beside it. The store's value is `state`; the API key kept
    in the settings file is `storedKey`. The answer of the auth endpoint is an
    input. */
module AppState {
  import opened Outcomes
  import opened Sqlite
  import opened FilmDatabase

  datatype Tier = Lover | Keeper | Savior

  datatype Guardian = Guardian(id: string, name: string, email: string, tier: Tier)

  datatype AuthStatus = Pending | Authenticated | Unauthenticated

  datatype AuthState = AuthState(status: AuthStatus, guardian: Option<Guardian>, apiKey: Option<string>)

  /** What the auth endpoint gives for a key: an ok response with the
      guardian, a response that is not ok, or a thrown error. */
  datatype AuthResponse = Accepted(guardian: Guardian) | Refused(status: int) | Threw

  /** The value the store starts with. */
  const PendingState: AuthState := AuthState(Pending, None, None)

  /** The value every failed or abandoned authentication sets. */
  const SignedOut: AuthState := AuthState(Unauthenticated, None, None)

  /** A state is authenticated exactly when it carries both a guardian and a
      key; otherwise it carries neither. */
  predicate Coherent(s: AuthState) {
    && (s.status == Authenticated <==> s.guardian.Some? && s.apiKey.Some?)
    && (s.status != Authenticated ==> s.guardian.None? && s.apiKey.None?)
  }

  /** The new store value, stored key and result of one step. */
  datatype AuthStep = AuthStep(state: AuthState, storedKey: Option<string>, ok: bool)

  /** `authenticate(apiKey)` when the stored key is `storedKey` and the
      endpoint answers `response`. */
  function AuthenticateStep(storedKey: Option<string>, apiKey: string, response: AuthResponse): (r: AuthStep)
    ensures Coherent(r.state) && r.state.status != Pending
    ensures r.ok <==> apiKey != "" && response.Accepted?
    ensures r.ok ==> r.state == AuthState(Authenticated, Some(response.guardian), Some(apiKey)) && r.storedKey == Some(apiKey)
    ensures !r.ok ==> r.state == SignedOut
    ensures apiKey != "" && response.Refused? ==> r.storedKey == None
    ensures apiKey == "" || response.Threw? ==> r.storedKey == storedKey
  {
    if apiKey == "" then AuthStep(SignedOut, storedKey, false)
    else
      match response
      case Refused(_) => AuthStep(SignedOut, None, false)
      case Accepted(guardian) => AuthStep(AuthState(Authenticated, Some(guardian), Some(apiKey)), Some(apiKey), true)
      case Threw => AuthStep(SignedOut, storedKey, false)
  }

  /** `initialize()`: authenticate with the stored key when it is truthy,
      otherwise sign out without asking the endpoint. */
  function InitializeStep(storedKey: Option<string>, response: AuthResponse): (r: AuthStep)
    ensures Coherent(r.state) && r.state.status != Pending
    ensures !Truthy(storedKey) ==> r.state == SignedOut && r.storedKey == storedKey
    ensures Truthy(storedKey) ==> r == AuthenticateStep(storedKey, storedKey.value, response)
  {
    if Truthy(storedKey) then AuthenticateStep(storedKey, storedKey.value, response)
    else AuthStep(SignedOut, storedKey, false)
  }

  /** Without a stored key, `initialize` does not depend on the endpoint:
      it never asks it. */
  lemma InitializeWithoutKeyAsksNothing(storedKey: Option<string>, r1: AuthResponse, r2: AuthResponse)
    requires !Truthy(storedKey)
    ensures InitializeStep(storedKey, r1) == InitializeStep(storedKey, r2)
  {
  }

  /** A key the endpoint refused is forgotten: the next start signs out
      without asking again. */
  lemma RefusedKeyIsForgotten(key: string, status: int, later: AuthResponse)
    requires key != ""
    ensures var first := InitializeStep(Some(key), Refused(status));
      && first.storedKey == None
      && InitializeStep(first.storedKey, later).state == SignedOut
  {
  }

  /** A key the endpoint accepted is kept: the next start authenticates with
      the same key, and ends as the first when the endpoint accepts it again. */
  lemma AcceptedKeyIsKept(storedKey: Option<string>, key: string, guardian: Guardian)
    requires key != ""
    ensures var first := AuthenticateStep(storedKey, key, Accepted(guardian));
      && first.storedKey == Some(key)
      && InitializeStep(first.storedKey, Accepted(guardian)) == first
  {
  }

  /** `createAuthStore()` */
  class AuthStore {
    var state: AuthState
    var storedKey: Option<string>

    /** The value is coherent, and an authenticated value's key is the
        stored one. */
    predicate Valid()
      reads this
    {
      && Coherent(state)
      && (state.status == Authenticated ==> storedKey == state.apiKey)
    }

    /** The store starts pending; the settings file holds `storedKey`. */
    constructor (storedKey: Option<string>)
      ensures Valid()
      ensures state == PendingState && this.storedKey == storedKey
    {
      state := PendingState;
      this.storedKey := storedKey;
    }

    /** `authenticate(apiKey)` */
    method Authenticate(apiKey: string, response: AuthResponse) returns (ok: bool)
      modifies this
      ensures Valid()
      ensures var step := AuthenticateStep(old(storedKey), apiKey, response);
        state == step.state && storedKey == step.storedKey && ok == step.ok
    {
      if apiKey == "" {
        state := SignedOut;
        return false;
      }
      if response.Threw? {
        state := SignedOut;
        return false;
      }
      if response.Refused? {
        storedKey := None;
        state := SignedOut;
        return false;
      }
      var guardianData := response.guardian;
      storedKey := Some(apiKey);
      state := AuthState(Authenticated, Some(guardianData), Some(apiKey));
      return true;
    }

    /** `initialize()`, with the stored key read from the settings file. */
    method Initialize(response: AuthResponse)
      modifies this
      ensures Valid()
      ensures var step := InitializeStep(old(storedKey), response);
        state == step.state && storedKey == step.storedKey
    {
      var apiKey := storedKey;
      if Truthy(apiKey) {
        var _ := Authenticate(apiKey.value, response);
      } else {
        state := SignedOut;
      }
    }

    /** `logout()`: forget the key, then sign out. */
    method Logout()
      modifies this
      ensures Valid()
      ensures state == SignedOut && storedKey == None
    {
      storedKey := None;
      state := SignedOut;
    }
  }

  // ---------------------------------------------------------------------
  // The filters store of this file
  // ---------------------------------------------------------------------

  /** The `initialFilters` of this file: page 1, twenty films, and the single
      key `status`, which `getFilms` does not read. */
  const StatusShapedFilters: GetFilmsOptions := GetFilmsOptions(1, 20, None, None, None, Some(Orphan))

  /** `filtersStore.reset()` of this file. */
  function ResetFilters(current: GetFilmsOptions): (o: GetFilmsOptions)
    ensures o.page == 1 && o.limit == 20 && o.status == Some(Orphan)
    ensures o.searchTerm.None? && o.statuses.None? && o.region.None?
  {
    StatusShapedFilters
  }

  /** The reset value of this store asks `getFilms` for no filtering at all:
      its `status` key is not a criterion `getFilms` reads, so films of every
      status are returned. */
  lemma ResetFiltersSelectAll(current: GetFilmsOptions, table: seq<Film>)
    ensures MatchingFilms(table, ResetFilters(current)) == table
  {
    FilterKeepsAll(table, (f: Film) => Matches(f, ResetFilters(current)));
  }
}
