/** What the two member pages share: the member as they read it, the
    conditions both apply the same way, the store actions they request and
    the selections their fetch effect depends on. */
module Members {
  import opened Common
  import opened Text
  import opened Models
  import opened FilterStore

  /** A member as the pages read it: an id, the signup timestamp, the
      categorical fields, an optional tier and the tiers of the voyages.
      Gender, country code and role are always strings here: a null one,
      on which the pages' `toLowerCase()` throws, is not modelled. */
  datatype Member = Member(
    id: int,
    timestamp: string,
    gender: string,
    countryCode: string,
    role: string,
    soloProjectTier: Option<int>,
    voyageTiers: seq<string>)

  /** `new Date(timestamp).getFullYear().toString()`, which depends on the
      local time zone, is supplied by the caller. */
  type YearOf = string -> string

  /** An empty gender matches every member, otherwise equality up to case. */
  predicate GenderOk(m: Member, st: FilterState) {
    st.gender == "" || EqualsIgnoreCase(m.gender, st.gender)
  }

  predicate CountryOk(m: Member, st: FilterState) {
    st.countryCode == "" || EqualsIgnoreCase(m.countryCode, st.countryCode)
  }

  /** A chosen tier must equal the member's; a member without a tier fails it. */
  predicate TierOk(m: Member, st: FilterState) {
    st.soloProjectTier.None? || m.soloProjectTier == st.soloProjectTier
  }

  /** A chosen voyage tier must be among the member's voyage tiers. */
  predicate VoyageTierOk(m: Member, st: FilterState) {
    st.voyageTier == "" || st.voyageTier in m.voyageTiers
  }

  predicate YearOk(m: Member, st: FilterState, yearOf: YearOf) {
    st.yearJoined == "" || yearOf(m.timestamp) == st.yearJoined
  }

  /** What a page's effects do: navigate back to the search page, or call
      one of the members store's actions. */
  datatype PageAction =
    | NavigateToSearch(redirectedFrom: string)
    | ResetMembers
    | ResetOffset
    | FetchMembers(filters: Entries)
    | FetchAllMembers(filters: Entries)

  /** The selections the pages' fetch effect lists as its dependencies. */
  datatype Deps = Deps(gender: string, countryCode: string, role: string, soloProjectTier: Option<int>)

  function DepsOf(st: FilterState): Deps {
    Deps(st.gender, st.countryCode, st.role, st.soloProjectTier)
  }

  /** The redirect effect, keyed on `hasFilters`: it runs on the first render
      and whenever `hasFilters` changes, and navigates away when no filter
      is active. */
  function RedirectActions(seen: Option<bool>, hasFilters: bool, page: string): seq<PageAction> {
    if seen != Some(hasFilters) && !hasFilters then [NavigateToSearch(page)] else []
  }

  /** A page is only left for the search page when no filter is active, and
      only when that differs from the previous render. */
  lemma RedirectOnlyWithoutFilters(seen: Option<bool>, hasFilters: bool, page: string)
    ensures |RedirectActions(seen, hasFilters, page)| <= 1
    ensures RedirectActions(seen, hasFilters, page) != [] <==> !hasFilters && seen != Some(false)
  {
  }

  /** The effect reruns exactly when one of the four server-side selections
      changes: the voyage, voyage tier and year, filtered on the client, never
      rerun it. */
  lemma DepsChange(st: FilterState, st': FilterState)
    ensures DepsOf(st) == DepsOf(st') <==>
              st.gender == st'.gender && st.countryCode == st'.countryCode && st.role == st'.role
              && st.soloProjectTier == st'.soloProjectTier
  {
  }
}
