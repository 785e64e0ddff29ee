/** The map page: the members matching the selections, all fetched at once,
    shown as one marker per member whose country has known coordinates. */
module MapPage {
  import opened Common
  import opened Text
  import opened Models
  import opened FilterStore
  import opened BuildFilters
  import opened Members
  import ListPage

  /** Unlike the list page, a non-empty role must equal the member's role up
      to case. */
  predicate RoleOk(m: Member, st: FilterState) {
    st.role == "" || EqualsIgnoreCase(m.role, st.role)
  }

  predicate Matches(m: Member, st: FilterState, yearOf: YearOf) {
    GenderOk(m, st) && CountryOk(m, st) && RoleOk(m, st) && TierOk(m, st) && VoyageTierOk(m, st)
    && YearOk(m, st, yearOf)
  }

  function FilteredMembers(members: seq<Member>, st: FilterState, yearOf: YearOf): seq<Member> {
    Filter(members, m => Matches(m, st, yearOf))
  }

  /** The map keeps, in order, exactly the members that match. */
  lemma FilteredMembersSpec(members: seq<Member>, st: FilterState, yearOf: YearOf)
    ensures IsSubsequence(FilteredMembers(members, st, yearOf), members)
    ensures forall m :: m in FilteredMembers(members, st, yearOf) <==> m in members && Matches(m, st, yearOf)
  {
    FilterIsSubsequence(members, m => Matches(m, st, yearOf));
  }

  /** Every member the map shows, the list shows too. */
  lemma MapMatchImpliesListMatch(m: Member, st: FilterState, yearOf: YearOf)
    ensures Matches(m, st, yearOf) ==> ListPage.Matches(m, st, yearOf)
  {
    if st.role != "" && EqualsIgnoreCase(m.role, st.role) {
      assert OccursAt(ToLower(st.role), ToLower(m.role), 0);
    }
  }

  /** The converse fails: a member without a role passes the list page's
      role test for any role, but not the map page's. */
  lemma ListMatchNotMapMatch()
    ensures var m := Member(0, "", "", "", "", None, []);
            var st := Initial().(role := "Dev");
            ListPage.Matches(m, st, t => "") && !Matches(m, st, t => "")
  {
    var m := Member(0, "", "", "", "", None, []);
    var st := Initial().(role := "Dev");
    ListPage.EmptyRolePasses(m, st);
    assert |ToLower(st.role)| != |ToLower(m.role)|;
  }

  // ---------------------------------------------------------------------------
  // Markers

  /** One entry of the bundled country list. */
  datatype Country = Country(country: string, latitude: real, longitude: real, name: string)

  /** The value `countryLookup` keeps for a country code. */
  datatype Place = Place(lat: real, lng: real, name: string)

  /** `countryLookup`: country code to coordinates and name. */
  function CountryLookup(countries: seq<Country>): map<string, Place> {
    FromEntries(MapSeq(countries, (c: Country) => (c.country, Place(c.latitude, c.longitude, c.name))))
  }

  /** The lookup knows exactly the listed codes, and a code listed more than
      once keeps its last entry. */
  lemma CountryLookupSpec(countries: seq<Country>)
    ensures forall code :: code in CountryLookup(countries) <==> exists c :: c in countries && c.country == code
    ensures forall i :: 0 <= i < |countries| && (forall j :: i < j < |countries| ==> countries[j].country != countries[i].country) ==>
              var c := countries[i];
              CountryLookup(countries)[c.country] == Place(c.latitude, c.longitude, c.name)
  {
    var entries := MapSeq(countries, (c: Country) => (c.country, Place(c.latitude, c.longitude, c.name)));
    forall code | code in CountryLookup(countries)
      ensures exists c :: c in countries && c.country == code
    {
      var i :| 0 <= i < |entries| && entries[i].0 == code;
      assert countries[i] in countries;
    }
    forall code | exists c :: c in countries && c.country == code
      ensures code in CountryLookup(countries)
    {
      var c :| c in countries && c.country == code;
      var i :| 0 <= i < |countries| && countries[i] == c;
      assert entries[i].0 == code;
    }
    forall i | 0 <= i < |countries| && (forall j :: i < j < |countries| ==> countries[j].country != countries[i].country)
      ensures var c := countries[i];
              CountryLookup(countries)[c.country] == Place(c.latitude, c.longitude, c.name)
    {
      FromEntriesLastWins(entries, i);
    }
  }

  /** One marker: the position, the popup text and the member's id. */
  datatype MarkerData = MarkerData(position: (real, real), popupText: string, id: int)

  function MarkerAt(m: Member, p: Place): MarkerData {
    MarkerData((p.lat, p.lng), "Chingu_" + IntToString(m.id), m.id)
  }

  /** A member's marker, or nothing when the lookup lacks its country. */
  function MarkerOf(m: Member, lookup: map<string, Place>): Option<MarkerData> {
    if m.countryCode in lookup then Some(MarkerAt(m, lookup[m.countryCode])) else None
  }

  /** `markers`: each member's marker, the missing ones dropped
      (`.filter(Boolean)`). */
  function Markers(filtered: seq<Member>, lookup: map<string, Place>): seq<MarkerData> {
    Present(MapSeq(filtered, m => MarkerOf(m, lookup)))
  }

  predicate Located(m: Member, lookup: map<string, Place>) { m.countryCode in lookup }

  /** The filtered members whose country the lookup knows, in order. */
  function LocatedMembers(filtered: seq<Member>, lookup: map<string, Place>): seq<Member> {
    Filter(filtered, m => Located(m, lookup))
  }

  /** The first member contributes its marker, and its place among the
      located members, exactly when its country is known. */
  lemma MarkersStep(filtered: seq<Member>, lookup: map<string, Place>)
    requires filtered != []
    ensures Markers(filtered, lookup)
              == (if Located(filtered[0], lookup) then [MarkerAt(filtered[0], lookup[filtered[0].countryCode])] else [])
                 + Markers(filtered[1..], lookup)
    ensures LocatedMembers(filtered, lookup)
              == (if Located(filtered[0], lookup) then [filtered[0]] else []) + LocatedMembers(filtered[1..], lookup)
  {
    var f := m => MarkerOf(m, lookup);
    assert MapSeq(filtered, f)[1..] == MapSeq(filtered[1..], f);
  }

  /** The markers are, in order, one per filtered member whose country the
      lookup knows, placed at that country's coordinates. */
  lemma {:induction false} MarkersSpec(filtered: seq<Member>, lookup: map<string, Place>)
    ensures var located := LocatedMembers(filtered, lookup);
            |Markers(filtered, lookup)| == |located|
            && forall i :: 0 <= i < |located| ==>
                 located[i].countryCode in lookup
                 && Markers(filtered, lookup)[i] == MarkerAt(located[i], lookup[located[i].countryCode])
  {
    if filtered != [] {
      var rest := filtered[1..];
      MarkersSpec(rest, lookup);
      MarkersStep(filtered, lookup);
      var markers, markersRest := Markers(filtered, lookup), Markers(rest, lookup);
      var located, locatedRest := LocatedMembers(filtered, lookup), LocatedMembers(rest, lookup);
      if Located(filtered[0], lookup) {
        forall i | 1 <= i < |located|
          ensures located[i] == locatedRest[i - 1] && markers[i] == markersRest[i - 1]
        {
        }
      }
    }
  }

  /** There are never more markers than filtered members, and a member's
      popup text is `Chingu_` followed by its id, which reads back from it. */
  lemma MarkerBoundsAndText(filtered: seq<Member>, lookup: map<string, Place>)
    ensures |Markers(filtered, lookup)| <= |filtered|
    ensures forall k :: 0 <= k < |Markers(filtered, lookup)| ==>
              var mk := Markers(filtered, lookup)[k];
              StartsWith(mk.popupText, "Chingu_")
              && (mk.id >= 0 ==> AllDigits(mk.popupText[7..]) && ParseDigits(mk.popupText[7..]) == mk.id)
  {
    MarkersSpec(filtered, lookup);
    var located := LocatedMembers(filtered, lookup);
    forall k | 0 <= k < |Markers(filtered, lookup)|
      ensures var mk := Markers(filtered, lookup)[k];
              StartsWith(mk.popupText, "Chingu_")
              && (mk.id >= 0 ==> AllDigits(mk.popupText[7..]) && ParseDigits(mk.popupText[7..]) == mk.id)
    {
      var mk := Markers(filtered, lookup)[k];
      assert mk.popupText == "Chingu_" + IntToString(located[k].id);
      if mk.id >= 0 {
        assert mk.popupText[7..] == NatToString(mk.id);
        ParseNatToString(mk.id);
      }
    }
  }

  /** The fetch effect, keyed on the four server-side selections: it clears
      the members and the offset and fetches every matching member. */
  function FetchActions(deps: Option<Deps>, st: FilterState): seq<PageAction> {
    if deps != Some(DepsOf(st)) then
      [ResetMembers, ResetOffset, FetchAllMembers(IncludeFor(st.gender, st.countryCode, st.role, st.soloProjectTier))]
    else []
  }

  /** Changing only the selections filtered on the client (voyage, voyage
      tier, year) requests nothing; changing a server-side one clears the
      members and the offset and fetches every member matching the new
      selections. */
  lemma FetchOnlyOnServerSelections(st: FilterState, voyage: string, voyageTier: string, yearJoined: string)
    ensures FetchActions(Some(DepsOf(st)), st.(voyage := voyage, voyageTier := voyageTier, yearJoined := yearJoined)) == []
    ensures forall st' :: DepsOf(st') != DepsOf(st) ==>
              FetchActions(Some(DepsOf(st)), st') ==
              [ResetMembers, ResetOffset, FetchAllMembers(IncludeFor(st'.gender, st'.countryCode, st'.role, st'.soloProjectTier))]
  {
  }

  /** The page's state: the values its two effects last ran with and the
      actions taken so far. */
  class Page {
    var seenHasFilters: Option<bool>
    var deps: Option<Deps>
    var log: seq<PageAction>

    constructor()
      ensures seenHasFilters == None && deps == None && log == []
    {
      seenHasFilters, deps, log := None, None, [];
    }

    /** A render with the store's current selections: the redirect effect
        runs, then the fetch effect, each only when its dependencies changed. */
    method Render(st: FilterState)
      modifies this
      ensures seenHasFilters == Some(HasFilters(st)) && deps == Some(DepsOf(st))
      ensures log == old(log) + RedirectActions(old(seenHasFilters), HasFilters(st), "/map")
                     + FetchActions(old(deps), st)
    {
      var hasFilters := HasFilters(st);
      var redirect: seq<PageAction> := [];
      if seenHasFilters != Some(hasFilters) && !hasFilters {
        redirect := [NavigateToSearch("/map")];
      }
      seenHasFilters := Some(hasFilters);
      var filters := BuildFilters.BuildFilters(st.gender, st.countryCode, st.role, st.soloProjectTier);
      var fetch: seq<PageAction> := [];
      if deps != Some(DepsOf(st)) {
        fetch := [ResetMembers, ResetOffset, FetchAllMembers(filters)];
      }
      deps := Some(DepsOf(st));
      log := log + redirect + fetch;
    }
  }
}
