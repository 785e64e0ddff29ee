/** The request and response models of the members API: the two attribute
    enumerations, the combined `Attribute` enumeration built from them, the
    filter body of the filtered endpoints and the count response. */
module Models {
  import opened Common

  /** Attributes permitted in aggregation and unique-value queries; each member
      has a Python name and a column name (its value). */
  datatype CategoricalAttribute =
    | Gender | CountryCode | CountryName | Timezone | GmtOffset | Goal | Source
    | SoloProjectTier | Role
  {
    function Name(): string {
      match this
      case Gender => "GENDER"
      case CountryCode => "COUNTRY_CODE"
      case CountryName => "COUNTRY_NAME"
      case Timezone => "TIMEZONE"
      case GmtOffset => "GMT_OFFSET"
      case Goal => "GOAL"
      case Source => "SOURCE"
      case SoloProjectTier => "SOLO_PROJECT_TIER"
      case Role => "ROLE"
    }

    function Value(): string {
      match this
      case Gender => "Gender"
      case CountryCode => "Country_Code"
      case CountryName => "Country_Name"
      case Timezone => "Timezone"
      case GmtOffset => "GMT_Offset"
      case Goal => "Goal"
      case Source => "Source"
      case SoloProjectTier => "Solo_Project_Tier"
      case Role => "Role"
    }
  }

  /** The array-valued attributes about the voyages a member signed up for. */
  datatype AttributeList = VoyageSignupIds | VoyageTiers
  {
    function Name(): string {
      match this
      case VoyageSignupIds => "VOYAGE_SIGNUP_IDS"
      case VoyageTiers => "VOYAGE_TIERS"
    }

    function Value(): string {
      match this
      case VoyageSignupIds => "Voyage_Signup_ids"
      case VoyageTiers => "Voyage_Tiers"
    }
  }

  /** A key of a filter body or a member of the combined enumeration. */
  datatype Attribute = Categorical(c: CategoricalAttribute) | Listed(l: AttributeList)
  {
    function Name(): string {
      match this
      case Categorical(c) => c.Name()
      case Listed(l) => l.Name()
    }

    function Value(): string {
      match this
      case Categorical(c) => c.Value()
      case Listed(l) => l.Value()
    }
  }

  /** The members of each enumeration in declaration order. */
  const CategoricalMembers: seq<CategoricalAttribute> :=
    [Gender, CountryCode, CountryName, Timezone, GmtOffset, Goal, Source, SoloProjectTier, Role]
  const ListMembers: seq<AttributeList> := [VoyageSignupIds, VoyageTiers]

  lemma CategoricalMembersComplete(c: CategoricalAttribute)
    ensures c in CategoricalMembers
  {
  }

  /** `{e.name: e.value for e in ...}` as the insertion-ordered list of its pairs. */
  function CategoricalEntries(): (r: seq<(string, string)>)
    ensures |r| == |CategoricalMembers|
    ensures forall i :: 0 <= i < |r| ==> r[i] == (CategoricalMembers[i].Name(), CategoricalMembers[i].Value())
  {
    MapSeq(CategoricalMembers, (c: CategoricalAttribute) => (c.Name(), c.Value()))
  }

  function ListEntries(): (r: seq<(string, string)>)
    ensures |r| == |ListMembers|
    ensures forall i :: 0 <= i < |r| ==> r[i] == (ListMembers[i].Name(), ListMembers[i].Value())
  {
    MapSeq(ListMembers, (l: AttributeList) => (l.Name(), l.Value()))
  }

  /** The position of key `k` in an insertion-ordered dictionary, if present. */
  function IndexOfKey<K(==), V>(d: seq<(K, V)>, k: K): (r: Option<nat>)
    ensures r.Some? ==> r.value < |d| && d[r.value].0 == k
    ensures r.Some? ==> forall j :: 0 <= j < r.value ==> d[j].0 != k
    ensures r.None? ==> forall j :: 0 <= j < |d| ==> d[j].0 != k
  {
    if d == [] then None
    else if d[0].0 == k then Some(0)
    else
      match IndexOfKey(d[1..], k)
      case None => None
      case Some(i) => Some(i + 1)
  }

  /** `d.update(e)` on insertion-ordered dictionaries: a key already present
      keeps its position and takes the new value, a new key is appended. */
  function DictUpdate<K(==), V>(d: seq<(K, V)>, e: seq<(K, V)>): seq<(K, V)>
    decreases |e|
  {
    if e == [] then d
    else
      var (k, v) := e[0];
      var d' := match IndexOfKey(d, k)
        case None => d + [(k, v)]
        case Some(i) => d[i := (k, v)];
      DictUpdate(d', e[1..])
  }

  /** Updating with pairs whose keys are all new appends them in order. */
  lemma {:induction false} DictUpdateFresh<K, V>(d: seq<(K, V)>, e: seq<(K, V)>)
    requires forall i, j :: 0 <= i < |d| && 0 <= j < |e| ==> d[i].0 != e[j].0
    requires forall i, j :: 0 <= i < j < |e| ==> e[i].0 != e[j].0
    ensures DictUpdate(d, e) == d + e
    decreases |e|
  {
    if e != [] {
      var d' := d + [e[0]];
      assert IndexOfKey(d, e[0].0).None?;
      assert forall i, j :: 0 <= i < |d'| && 0 <= j < |e[1..]| ==> d'[i].0 != e[1..][j].0 by {
        forall i, j | 0 <= i < |d'| && 0 <= j < |e[1..]|
          ensures d'[i].0 != e[1..][j].0
        {
          assert e[1..][j] == e[j + 1];
        }
      }
      DictUpdateFresh(d', e[1..]);
      assert d' + e[1..] == d + e;
    }
  }

  /** `make_attribute_enum`: the members of `Attribute`, name and value, in
      the enumeration's order. */
  function MakeAttributeEnum(): seq<(string, string)> {
    DictUpdate(CategoricalEntries(), ListEntries())
  }

  /** The combined enumeration, as attributes, in its order. */
  function Attributes(): (r: seq<Attribute>)
    ensures |r| == |CategoricalMembers| + |ListMembers|
  {
    MapSeq(CategoricalMembers, (c: CategoricalAttribute) => Categorical(c))
      + MapSeq(ListMembers, (l: AttributeList) => Listed(l))
  }

  /** `Attribute` holds the nine categorical members followed by the two list
      members, each under its own name and value: the update adds the list
      members because no name is shared. */
  lemma MakeAttributeEnumMembers()
    ensures MakeAttributeEnum() == CategoricalEntries() + ListEntries()
    ensures |MakeAttributeEnum()| == 11
    ensures forall i :: 0 <= i < 11 ==>
              MakeAttributeEnum()[i] == (Attributes()[i].Name(), Attributes()[i].Value())
  {
    var c, l := CategoricalEntries(), ListEntries();
    EntryNamesFresh();
    DictUpdateFresh(c, l);
    var r, attrs := c + l, Attributes();
    forall i | 0 <= i < 11
      ensures r[i] == (attrs[i].Name(), attrs[i].Value())
    {
      if i < 9 {
        assert r[i] == c[i] && attrs[i] == Categorical(CategoricalMembers[i]);
      } else {
        assert r[i] == l[i - 9] && attrs[i] == Listed(ListMembers[i - 9]);
      }
    }
  }

  /** The list members' names are new to the categorical members and to each other. */
  lemma EntryNamesFresh()
    ensures forall i, j :: 0 <= i < |CategoricalEntries()| && 0 <= j < |ListEntries()| ==>
              CategoricalEntries()[i].0 != ListEntries()[j].0
    ensures forall i, j :: 0 <= i < j < |ListEntries()| ==> ListEntries()[i].0 != ListEntries()[j].0
  {
    var c, l := CategoricalEntries(), ListEntries();
    forall i, j | 0 <= i < |c| && 0 <= j < |l|
      ensures c[i].0 != l[j].0
    {
      assert c[i].0 == CategoricalMembers[i].Name();
      assert l[j].0 == ListMembers[j].Name();
    }
    assert l[0].0 != l[1].0;
  }

  /** Every attribute occurs in the combined enumeration exactly once. */
  lemma AttributesDistinct()
    ensures forall a: Attribute :: a in Attributes()
    ensures forall i, j :: 0 <= i < j < |Attributes()| ==> Attributes()[i] != Attributes()[j]
  {
    var r := Attributes();
    forall a: Attribute
      ensures a in r
    {
      match a
      case Categorical(c) =>
        CategoricalMembersComplete(c);
        var i :| 0 <= i < |CategoricalMembers| && CategoricalMembers[i] == c;
        assert r[i] == a;
      case Listed(l) =>
        assert r[9 + (if l == VoyageSignupIds then 0 else 1)] == a;
    }
  }

  /** No two attributes share a column name. */
  lemma AttributeValuesDistinct(a: Attribute, b: Attribute)
    requires a != b
    ensures a.Value() != b.Value()
  {
  }

  /** A value submitted in a filter list: a string or an integer. */
  datatype FilterValue = Str(s: string) | Int(i: int)

  /** A filter dictionary, as the list of its pairs in insertion order. */
  type Entries = seq<(Attribute, seq<FilterValue>)>

  /** The keys of a filter dictionary. */
  function Keys(e: Entries): (r: set<Attribute>)
    ensures forall a :: a in r <==> exists i :: 0 <= i < |e| && e[i].0 == a
  {
    set i | 0 <= i < |e| :: e[i].0
  }

  /** `d.get(a)`: the values filed under attribute `a`, if it is a key. */
  function Lookup(e: Entries, a: Attribute): (r: Option<seq<FilterValue>>)
    ensures r.Some? <==> a in Keys(e)
    ensures r.Some? ==> exists i :: 0 <= i < |e| && e[i] == (a, r.value) && forall j :: 0 <= j < i ==> e[j].0 != a
  {
    match IndexOfKey(e, a)
    case Some(i) => Some(e[i].1)
    case None => None
  }

  /** Looking up in a concatenation finds the key in the first part when it
      is there, and in the second part otherwise. */
  lemma {:induction false} LookupAppend(x: Entries, y: Entries, a: Attribute)
    ensures Lookup(x + y, a) == if Lookup(x, a).Some? then Lookup(x, a) else Lookup(y, a)
  {
    if x == [] {
      assert x + y == y;
    } else if x[0].0 != a {
      assert (x + y)[1..] == x[1..] + y;
      LookupAppend(x[1..], y, a);
      match IndexOfKey(x[1..] + y, a)
      case None =>
      case Some(i) => assert (x + y)[i + 1] == (x[1..] + y)[i];
      match IndexOfKey(x[1..], a)
      case None =>
      case Some(i) => assert x[i + 1] == x[1..][i];
    }
  }

  /** A dictionary never holds a key twice. */
  predicate DistinctKeys(e: Entries) {
    forall i, j :: 0 <= i < j < |e| ==> e[i].0 != e[j].0
  }

  /** The body of the filtered endpoints: allowed values and forbidden values,
      per attribute; both default to the empty dictionary. */
  datatype FilterBody = FilterBody(included: Entries, excluded: Entries)

  function DefaultFilterBody(): (f: FilterBody)
    ensures f.included == [] && f.excluded == []
  {
    FilterBody([], [])
  }

  /** The response of the count endpoints; `day_count` is present only when a
      date range was given. */
  datatype CountResponse<Row> = CountResponse(
    rowCount: int, responseSchema: seq<string>, dayCount: Option<int>, response: seq<Row>)
}
