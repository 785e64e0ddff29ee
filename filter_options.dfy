/** The options of the filter bar: the country list built from the codes the
    server returns, the code-to-name map, and the fixed option lists. */
module FilterOptions {
  import opened Common

  /** One country option. */
  datatype CountryOption = CountryOption(code: string, name: string)

  /** `getName` of the country-list package: the English name of an ISO
      3166-1 alpha-2 code, when it knows the code. */
  type NameOf = string -> Option<string>

  /** `localeCompare(a, b) <= 0`, supplied by the caller. */
  type NameOrder = (string, string) -> bool

  /** What the sort needs of the comparison: any two names are ordered one
      way or the other. */
  ghost predicate Total(le: NameOrder) {
    forall a, b :: le(a, b) || le(b, a)
  }

  ghost predicate SortedByName(s: seq<CountryOption>, le: NameOrder) {
    forall i :: 0 <= i < |s| - 1 ==> le(s[i].name, s[i + 1].name)
  }

  /** `getName(code) ?? ""`. */
  function NameOr(o: Option<string>): string {
    if o.Some? then o.value else ""
  }

  /** The options before sorting: the present codes, each with its name,
      those without a name dropped. */
  function Labelled(codes: seq<Option<string>>, getName: NameOf): seq<CountryOption> {
    Filter(MapSeq(Present(codes), code => CountryOption(code, NameOr(getName(code)))),
           (item: CountryOption) => item.name != "")
  }

  /** Places `x` before the first option it does not follow. */
  function Insert(x: CountryOption, s: seq<CountryOption>, le: NameOrder): (r: seq<CountryOption>)
    ensures multiset(r) == multiset(s) + multiset{x}
    ensures |r| == |s| + 1
  {
    if s == [] then [x]
    else if le(x.name, s[0].name) then [x] + s
    else
      assert s == [s[0]] + s[1..];
      [s[0]] + Insert(x, s[1..], le)
  }

  /** `.sort((a, b) => a.name.localeCompare(b.name))`, as an insertion sort. */
  function SortByName(s: seq<CountryOption>, le: NameOrder): (r: seq<CountryOption>)
    ensures multiset(r) == multiset(s)
  {
    if s == [] then []
    else
      assert s == [s[0]] + s[1..];
      Insert(s[0], SortByName(s[1..], le), le)
  }

  /** `countries`. */
  function Countries(codes: seq<Option<string>>, getName: NameOf, le: NameOrder): seq<CountryOption> {
    SortByName(Labelled(codes, getName), le)
  }

  lemma {:induction false} InsertSorted(x: CountryOption, s: seq<CountryOption>, le: NameOrder)
    requires Total(le) && SortedByName(s, le)
    ensures SortedByName(Insert(x, s, le), le)
    ensures Insert(x, s, le) != [] &&
            (Insert(x, s, le)[0] == x || (s != [] && Insert(x, s, le)[0] == s[0]))
  {
    if s != [] && !le(x.name, s[0].name) {
      InsertSorted(x, s[1..], le);
      assert le(s[0].name, x.name);
    }
  }

  lemma {:induction false} SortByNameSorted(s: seq<CountryOption>, le: NameOrder)
    requires Total(le)
    ensures SortedByName(SortByName(s, le), le)
  {
    if s != [] {
      SortByNameSorted(s[1..], le);
      InsertSorted(s[0], SortByName(s[1..], le), le);
    }
  }

  /** `countries` is sorted by name and holds exactly the labelled options,
      each as often as before. */
  lemma CountriesSortedPermutation(codes: seq<Option<string>>, getName: NameOf, le: NameOrder)
    requires Total(le)
    ensures SortedByName(Countries(codes, getName, le), le)
    ensures multiset(Countries(codes, getName, le)) == multiset(Labelled(codes, getName))
  {
    SortByNameSorted(Labelled(codes, getName), le);
  }

  /** An option is listed exactly when its code was returned (not null) and
      `getName` knows that code by a non-empty name, the option's name. */
  lemma CountriesMembers(codes: seq<Option<string>>, getName: NameOf, le: NameOrder)
    ensures forall o :: o in Countries(codes, getName, le) <==>
              Some(o.code) in codes && getName(o.code) == Some(o.name) && o.name != ""
  {
    CountriesSameOptions(codes, getName, le);
    LabelledMembers(codes, getName);
  }

  /** Sorting keeps the options of the labelled list. */
  lemma CountriesSameOptions(codes: seq<Option<string>>, getName: NameOf, le: NameOrder)
    ensures forall o :: o in Countries(codes, getName, le) <==> o in Labelled(codes, getName)
  {
    forall o ensures o in Countries(codes, getName, le) <==> o in Labelled(codes, getName) {
      assert o in multiset(Countries(codes, getName, le)) <==> o in multiset(Labelled(codes, getName));
    }
  }

  /** The labelled list holds the present codes `getName` names. */
  lemma LabelledMembers(codes: seq<Option<string>>, getName: NameOf)
    ensures forall o :: o in Labelled(codes, getName) <==>
              Some(o.code) in codes && getName(o.code) == Some(o.name) && o.name != ""
  {
    var present := Present(codes);
    PresentSpec(codes);
    var labelled := MapSeq(present, code => CountryOption(code, NameOr(getName(code))));
    forall o ensures o in labelled <==> o.code in present && o.name == NameOr(getName(o.code)) {
      if o in labelled {
        var i :| 0 <= i < |labelled| && labelled[i] == o;
        assert present[i] == o.code;
      }
      if o.code in present && o.name == NameOr(getName(o.code)) {
        var i :| 0 <= i < |present| && present[i] == o.code;
        assert labelled[i] == o;
      }
    }
  }

  /** `countryNameMap`. */
  function CountryNameMap(countries: seq<CountryOption>): map<string, string> {
    FromEntries(MapSeq(countries, (item: CountryOption) => (item.code, item.name)))
  }

  /** The name map knows exactly the listed codes, and gives each the name
      `getName` gives it. */
  lemma CountryNameMapSpec(codes: seq<Option<string>>, getName: NameOf, le: NameOrder)
    ensures var countries := Countries(codes, getName, le);
            var names := CountryNameMap(countries);
            (forall code :: code in names <==> exists o :: o in countries && o.code == code)
            && forall code :: code in names ==> getName(code) == Some(names[code]) && names[code] != ""
  {
    var countries := Countries(codes, getName, le);
    var entries := MapSeq(countries, (item: CountryOption) => (item.code, item.name));
    var names := CountryNameMap(countries);
    CountriesMembers(codes, getName, le);
    forall code ensures code in names <==> exists o :: o in countries && o.code == code {
      if code in names {
        var i :| 0 <= i < |entries| && entries[i].0 == code;
        assert countries[i] in countries;
      }
      if exists o :: o in countries && o.code == code {
        var o :| o in countries && o.code == code;
        var i :| 0 <= i < |countries| && countries[i] == o;
        assert entries[i].0 == code;
      }
    }
    forall code | code in names ensures getName(code) == Some(names[code]) && names[code] != "" {
      FromEntriesValue(entries, code);
      var i :| 0 <= i < |entries| && entries[i] == (code, names[code]);
      assert countries[i] in countries;
    }
  }

  // ---------------------------------------------------------------------------
  // Fixed option lists

  const Genders: seq<string> := ["", "Male", "Female", "Non-Binary", "Transgender", "Prefer Not To Say"]

  const Roles: seq<string> :=
    ["", "Data Scientist", "Product Owner", "Python Developer", "Scrum Master", "Web Developer", "UI/UX Designer"]

  const SoloProjectTiers: seq<Option<int>> := [None, Some(1), Some(2), Some(3)]

  const VoyageTiers: seq<string> := ["", "Tier 1", "Tier 2", "Tier 3"]

  /** Each list opens with its "any" value, the one the filter store starts
      from, and no other entry equals it. */
  lemma OptionListsStartWithAny()
    ensures Genders[0] == "" && forall i :: 1 <= i < |Genders| ==> Genders[i] != ""
    ensures Roles[0] == "" && forall i :: 1 <= i < |Roles| ==> Roles[i] != ""
    ensures VoyageTiers[0] == "" && forall i :: 1 <= i < |VoyageTiers| ==> VoyageTiers[i] != ""
    ensures SoloProjectTiers[0] == None &&
            forall i :: 1 <= i < |SoloProjectTiers| ==> SoloProjectTiers[i] == Some(i)
  {
  }
}
