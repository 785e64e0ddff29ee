/** The client's filter store: seven selections of the search form, a setter
    per selection, a reset, and the test of whether any filter is active. */
module FilterStore {
  import opened Common

  /** The selections; an empty string, or no tier, stands for "any". */
  datatype FilterState = FilterState(
    countryCode: string,
    gender: string,
    role: string,
    soloProjectTier: Option<int>,
    voyage: string,
    voyageTier: string,
    yearJoined: string)

  /** The state the store starts in and returns to on reset. */
  function Initial(): FilterState {
    FilterState("", "", "", None, "", "", "")
  }

  /** One value in the list `useHasFilters` inspects: a string or a tier. */
  datatype Selection = Text(s: string) | Tier(t: Option<int>)

  /** `value != null && value !== ""`. */
  predicate Active(v: Selection) {
    match v
    case Text(s) => s != ""
    case Tier(t) => t.Some?
  }

  /** The values `useHasFilters` inspects; the country is not among them. */
  function InspectedSelections(st: FilterState): seq<Selection> {
    [Text(st.gender), Text(st.role), Tier(st.soloProjectTier), Text(st.voyage), Text(st.voyageTier),
     Text(st.yearJoined)]
  }

  /** `useHasFilters`: some inspected value is active. */
  predicate HasFilters(st: FilterState) {
    exists v :: v in InspectedSelections(st) && Active(v)
  }

  /** A filter is active exactly when one of the six selections other than the
      country is set. */
  lemma HasFiltersIff(st: FilterState)
    ensures HasFilters(st) <==>
              st.gender != "" || st.role != "" || st.soloProjectTier.Some? || st.voyage != ""
              || st.voyageTier != "" || st.yearJoined != ""
  {
    var sel := InspectedSelections(st);
    if st.gender != "" { assert Active(sel[0]); }
    if st.role != "" { assert Active(sel[1]); }
    if st.soloProjectTier.Some? { assert Active(sel[2]); }
    if st.voyage != "" { assert Active(sel[3]); }
    if st.voyageTier != "" { assert Active(sel[4]); }
    if st.yearJoined != "" { assert Active(sel[5]); }
  }

  /** The country never decides whether a filter is active: choosing only a
      country leaves the search without filters. */
  lemma CountryNeverCounts(st: FilterState, countryCode: string)
    ensures HasFilters(st.(countryCode := countryCode)) == HasFilters(st)
    ensures !HasFilters(Initial().(countryCode := countryCode))
  {
    HasFiltersIff(Initial().(countryCode := countryCode));
  }

  /** The initial state, and so the state after a reset, has no filter. */
  lemma InitialHasNoFilters()
    ensures !HasFilters(Initial())
  {
    HasFiltersIff(Initial());
  }

  /** The store: the selections are overwritten by its actions. */
  class Store {
    var countryCode: string
    var gender: string
    var role: string
    var soloProjectTier: Option<int>
    var voyage: string
    var voyageTier: string
    var yearJoined: string

    function State(): FilterState
      reads this
    {
      FilterState(countryCode, gender, role, soloProjectTier, voyage, voyageTier, yearJoined)
    }

    constructor()
      ensures State() == Initial()
    {
      countryCode, gender, role, soloProjectTier := "", "", "", None;
      voyage, voyageTier, yearJoined := "", "", "";
    }

    method SetCountryCode(countryCode: string)
      modifies this
      ensures State() == old(State()).(countryCode := countryCode)
    {
      this.countryCode := countryCode;
    }

    method SetGender(gender: string)
      modifies this
      ensures State() == old(State()).(gender := gender)
    {
      this.gender := gender;
    }

    method SetRole(role: string)
      modifies this
      ensures State() == old(State()).(role := role)
    {
      this.role := role;
    }

    method SetSoloProjectTier(soloProjectTier: Option<int>)
      modifies this
      ensures State() == old(State()).(soloProjectTier := soloProjectTier)
    {
      this.soloProjectTier := soloProjectTier;
    }

    method SetVoyage(voyage: string)
      modifies this
      ensures State() == old(State()).(voyage := voyage)
    {
      this.voyage := voyage;
    }

    method SetVoyageTier(voyageTier: string)
      modifies this
      ensures State() == old(State()).(voyageTier := voyageTier)
    {
      this.voyageTier := voyageTier;
    }

    method SetYearJoined(yearJoined: string)
      modifies this
      ensures State() == old(State()).(yearJoined := yearJoined)
    {
      this.yearJoined := yearJoined;
    }

    /** Every selection back to "any", whatever the state before: a second
        reset changes nothing, and no filter is left active. */
    method ResetFilters()
      modifies this
      ensures State() == Initial()
      ensures !HasFilters(State())
    {
      countryCode, gender, role, soloProjectTier := "", "", "", None;
      voyage, voyageTier, yearJoined := "", "", "";
      InitialHasNoFilters();
    }
  }
}
