/** The list page: the members matching the selections, revealed twenty at a
    time, with a new fetch when the revealed window passes the members loaded. */
module ListPage {
  import opened Common
  import opened Text
  import opened Models
  import opened FilterStore
  import opened BuildFilters
  import opened Members

  /** A non-blank role keeps a member whose role, up to case, occurs in the
      selected role. */
  predicate RoleOk(m: Member, st: FilterState) {
    JsTrim(st.role) == "" || Contains(ToLower(st.role), ToLower(m.role))
  }

  /** The predicate of `filteredMembers`: every active condition holds. */
  predicate Matches(m: Member, st: FilterState, yearOf: YearOf) {
    GenderOk(m, st) && CountryOk(m, st) && RoleOk(m, st) && TierOk(m, st) && VoyageTierOk(m, st)
    && YearOk(m, st, yearOf)
  }

  function FilteredMembers(members: seq<Member>, st: FilterState, yearOf: YearOf): seq<Member> {
    Filter(members, m => Matches(m, st, yearOf))
  }

  /** `filteredMembers` keeps, in order, exactly the members that match, each
      as often as it occurs. */
  lemma FilteredMembersSpec(members: seq<Member>, st: FilterState, yearOf: YearOf)
    ensures IsSubsequence(FilteredMembers(members, st, yearOf), members)
    ensures forall m :: m in FilteredMembers(members, st, yearOf) <==> m in members && Matches(m, st, yearOf)
    ensures forall m :: Matches(m, st, yearOf) ==>
              multiset(FilteredMembers(members, st, yearOf))[m] == multiset(members)[m]
  {
    FilterIsSubsequence(members, m => Matches(m, st, yearOf));
    forall m | Matches(m, st, yearOf)
      ensures multiset(FilteredMembers(members, st, yearOf))[m] == multiset(members)[m]
    {
      FilterCount(members, m => Matches(m, st, yearOf), m);
    }
  }

  /** With no selection every member is kept. */
  lemma NoSelectionKeepsAll(members: seq<Member>, yearOf: YearOf)
    ensures FilteredMembers(members, Initial(), yearOf) == members
  {
    StripEmpty("", IsJsSpace);
    FilterKeepsAll(members, m => Matches(m, Initial(), yearOf));
  }

  /** The role test is a substring test in one direction: a member with an
      empty role passes every role selection. */
  lemma EmptyRolePasses(m: Member, st: FilterState)
    requires m.role == ""
    ensures RoleOk(m, st)
  {
    assert OccursAt(ToLower(st.role), ToLower(m.role), 0);
  }

  /** `visibleMembers`: `filteredMembers.slice(0, visibleCount)`. */
  function VisibleMembers(filtered: seq<Member>, visibleCount: nat): seq<Member> {
    filtered[..if visibleCount < |filtered| then visibleCount else |filtered|]
  }

  /** `hasMore`. */
  predicate HasMore(filtered: seq<Member>, visibleCount: nat) {
    |VisibleMembers(filtered, visibleCount)| < |filtered|
  }

  /** The visible members are the first min(visibleCount, |filtered|) filtered
      members, and more remain exactly when the count is below |filtered|. */
  lemma VisibleWindow(filtered: seq<Member>, visibleCount: nat)
    ensures var v := VisibleMembers(filtered, visibleCount);
            |v| == (if visibleCount < |filtered| then visibleCount else |filtered|)
            && v <= filtered
    ensures HasMore(filtered, visibleCount) <==> visibleCount < |filtered|
  {
  }

  /** Loading more extends the visible members, and strictly when more remained. */
  lemma LoadMoreExtends(filtered: seq<Member>, visibleCount: nat)
    ensures VisibleMembers(filtered, visibleCount) <= VisibleMembers(filtered, visibleCount + 20)
    ensures HasMore(filtered, visibleCount) ==>
              |VisibleMembers(filtered, visibleCount + 20)| > |VisibleMembers(filtered, visibleCount)|
  {
  }

  /** The fetch effect, keyed on the four server-side selections: on the
      first render and whenever one of them changes it clears the members
      and the offset and fetches with the current include dictionary. */
  function FetchActions(deps: Option<Deps>, st: FilterState): seq<PageAction> {
    if deps != Some(DepsOf(st)) then
      [ResetMembers, ResetOffset, FetchMembers(IncludeFor(st.gender, st.countryCode, st.role, st.soloProjectTier))]
    else []
  }

  /** Changing only the selections filtered on the client (voyage, voyage
      tier, year) requests nothing; changing a server-side one clears the
      members and the offset and fetches with the dictionary of the new
      selections. */
  lemma FetchOnlyOnServerSelections(st: FilterState, voyage: string, voyageTier: string, yearJoined: string)
    ensures FetchActions(Some(DepsOf(st)), st.(voyage := voyage, voyageTier := voyageTier, yearJoined := yearJoined)) == []
    ensures forall st' :: DepsOf(st') != DepsOf(st) ==>
              FetchActions(Some(DepsOf(st)), st') ==
              [ResetMembers, ResetOffset, FetchMembers(IncludeFor(st'.gender, st'.countryCode, st'.role, st'.soloProjectTier))]
  {
  }

  /** What the two effects of a render request, given the values they last
      ran with: the redirect when `hasFilters` changed to false, then the
      reset and fetch when a server-side selection changed. */
  method EffectActions(seen: Option<bool>, deps: Option<Deps>, st: FilterState)
    returns (hasFilters: bool, actions: seq<PageAction>)
    ensures hasFilters == HasFilters(st)
    ensures actions == RedirectActions(seen, HasFilters(st), "/list") + FetchActions(deps, st)
  {
    hasFilters := HasFilters(st);
    var redirect: seq<PageAction> := [];
    if seen != Some(hasFilters) && !hasFilters {
      redirect := [NavigateToSearch("/list")];
    }
    var filters := BuildFilters.BuildFilters(st.gender, st.countryCode, st.role, st.soloProjectTier);
    var fetch: seq<PageAction> := [];
    if deps != Some(DepsOf(st)) {
      fetch := [ResetMembers, ResetOffset, FetchMembers(filters)];
    }
    actions := redirect + fetch;
  }

  /** What `loadMore` requests once the window is `nextCount`: a fetch with
      the include dictionary when the window passes the `loaded` members. */
  method LoadMoreActions(nextCount: nat, loaded: nat, st: FilterState) returns (fetch: seq<PageAction>)
    ensures fetch == if nextCount > loaded then
                       [FetchMembers(IncludeFor(st.gender, st.countryCode, st.role, st.soloProjectTier))]
                     else []
  {
    var filters := BuildFilters.BuildFilters(st.gender, st.countryCode, st.role, st.soloProjectTier);
    fetch := if nextCount > loaded then [FetchMembers(filters)] else [];
  }

  /** The page's state: the values the two effects last ran with, the size
      of the visible window and the actions taken so far. */
  class Page {
    var seenHasFilters: Option<bool>
    var deps: Option<Deps>
    var visibleCount: nat
    var log: seq<PageAction>
    /** The number of pages of twenty the window holds. */
    ghost var pages: nat

    /** The window is a positive number of whole pages of twenty. */
    ghost predicate Valid()
      reads this
    {
      pages >= 1 && visibleCount == 20 * pages
    }

    constructor()
      ensures Valid() && seenHasFilters == None && deps == None && visibleCount == 20 && log == []
      ensures pages == 1
    {
      seenHasFilters, deps, visibleCount, log := None, None, 20, [];
      pages := 1;
    }

    /** A render with the store's current selections: the redirect effect
        runs, then the fetch effect, each only when its dependencies changed;
        a fetch also resets the window to twenty. */
    method Render(st: FilterState)
      modifies this
      requires Valid()
      ensures Valid()
      ensures seenHasFilters == Some(HasFilters(st)) && deps == Some(DepsOf(st))
      ensures visibleCount == if old(deps) != Some(DepsOf(st)) then 20 else old(visibleCount)
      ensures pages == if old(deps) != Some(DepsOf(st)) then 1 else old(pages)
      ensures log == old(log) + (RedirectActions(old(seenHasFilters), HasFilters(st), "/list")
                                 + FetchActions(old(deps), st))
    {
      var hasFilters, actions := EffectActions(seenHasFilters, deps, st);
      if deps != Some(DepsOf(st)) {
        visibleCount := 20;
        pages := 1;
      }
      seenHasFilters, deps := Some(hasFilters), Some(DepsOf(st));
      log := log + actions;
    }

    /** `visibleMembers` for the current window: since the window is a
        positive number of pages of twenty, the page shows whole pages of twenty
        filtered members, or all of them. */
    function Visible(filtered: seq<Member>): (r: seq<Member>)
      reads this
      requires Valid()
      ensures r <= filtered
      ensures r == filtered || (|r| % 20 == 0 && |r| >= 20)
    {
      VisibleMembers(filtered, visibleCount)
    }

    /** `loadMore`: the window grows by twenty, and a fetch is requested when
        it now passes the number of members loaded. */
    method LoadMore(st: FilterState, members: seq<Member>)
      modifies this
      requires Valid()
      ensures Valid()
      ensures visibleCount == old(visibleCount) + 20 && pages == old(pages) + 1
      ensures deps == old(deps) && seenHasFilters == old(seenHasFilters)
      ensures log == old(log) + if old(visibleCount) + 20 > |members| then
                                  [FetchMembers(IncludeFor(st.gender, st.countryCode, st.role, st.soloProjectTier))]
                                else []
    {
      var nextCount := visibleCount + 20;
      var fetch := LoadMoreActions(nextCount, |members|, st);
      visibleCount, log := nextCount, log + fetch;
      pages := pages + 1;
    }
  }
}
