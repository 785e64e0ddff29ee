/** `buildFilters`: the include dictionary the client sends to the filtered
    endpoints, built from four of the store's selections. */
module BuildFilters {
  import opened Common
  import opened Text
  import opened Models

  /** The one entry `(a, values)` when `present`, else nothing. */
  function EntryIf(present: bool, a: Attribute, values: seq<FilterValue>): Entries {
    if present then [(a, values)] else []
  }

  /** The dictionary `buildFilters` returns: a key for each non-blank string
      selection and for a chosen tier, in this order, each holding a
      one-element list; the gender is sent upper-cased. */
  function IncludeFor(gender: string, countryCode: string, role: string, soloProjectTier: Option<int>)
    : Entries
  {
    EntryIf(JsTrim(gender) != "", Categorical(Gender), [Str(ToUpper(gender))])
    + EntryIf(JsTrim(countryCode) != "", Categorical(CountryCode), [Str(countryCode)])
    + EntryIf(JsTrim(role) != "", Categorical(Role), [Str(role)])
    + EntryIf(soloProjectTier.Some?, Categorical(SoloProjectTier),
              [Int(if soloProjectTier.Some? then soloProjectTier.value else 0)])
  }

  /** `buildFilters`: each selection that is set adds its key to the record. */
  method BuildFilters(gender: string, countryCode: string, role: string, soloProjectTier: Option<int>)
    returns (filters: Entries)
    ensures filters == IncludeFor(gender, countryCode, role, soloProjectTier)
  {
    filters := [];
    if JsTrim(gender) != "" {
      filters := filters + [(Categorical(Gender), [Str(ToUpper(gender))])];
    }
    assert filters == EntryIf(JsTrim(gender) != "", Categorical(Gender), [Str(ToUpper(gender))]);
    ghost var upToGender := filters;
    if JsTrim(countryCode) != "" {
      filters := filters + [(Categorical(CountryCode), [Str(countryCode)])];
    }
    assert filters == upToGender + EntryIf(JsTrim(countryCode) != "", Categorical(CountryCode), [Str(countryCode)]);
    ghost var upToCountry := filters;
    if JsTrim(role) != "" {
      filters := filters + [(Categorical(Role), [Str(role)])];
    }
    assert filters == upToCountry + EntryIf(JsTrim(role) != "", Categorical(Role), [Str(role)]);
    if soloProjectTier.Some? {
      filters := filters + [(Categorical(SoloProjectTier), [Int(soloProjectTier.value)])];
    }
  }

  /** An optional entry holds its key exactly when it is present. */
  lemma LookupEntryIf(present: bool, a: Attribute, values: seq<FilterValue>, b: Attribute)
    ensures Lookup(EntryIf(present, a, values), b) == if present && a == b then Some(values) else None
  {
  }

  /** Looking up in four concatenated parts finds the key in the first part
      that holds it. */
  lemma LookupFour(w: Entries, x: Entries, y: Entries, z: Entries, a: Attribute)
    ensures Lookup(w + x + y + z, a) ==
              if Lookup(w, a).Some? then Lookup(w, a)
              else if Lookup(x, a).Some? then Lookup(x, a)
              else if Lookup(y, a).Some? then Lookup(y, a)
              else Lookup(z, a)
  {
    LookupAppend(w + x + y, z, a);
    LookupAppend(w + x, y, a);
    LookupAppend(w, x, a);
  }

  /** The lookup of `key` in four optional entries under distinct keys. */
  lemma LookupOneOfFour(a: Attribute, b: Attribute, c: Attribute, d: Attribute,
                        pa: bool, pb: bool, pc: bool, pd: bool,
                        va: seq<FilterValue>, vb: seq<FilterValue>, vc: seq<FilterValue>, vd: seq<FilterValue>,
                        key: Attribute)
    ensures var r := EntryIf(pa, a, va) + EntryIf(pb, b, vb) + EntryIf(pc, c, vc) + EntryIf(pd, d, vd);
            Lookup(r, key) ==
              if pa && key == a then Some(va)
              else if pb && key == b then Some(vb)
              else if pc && key == c then Some(vc)
              else if pd && key == d then Some(vd)
              else None
  {
    LookupFour(EntryIf(pa, a, va), EntryIf(pb, b, vb), EntryIf(pc, c, vc), EntryIf(pd, d, vd), key);
    LookupEntryIf(pa, a, va, key);
    LookupEntryIf(pb, b, vb, key);
    LookupEntryIf(pc, c, vc, key);
    LookupEntryIf(pd, d, vd, key);
  }

  /** Four optional entries under four distinct keys: each key is found
      exactly when its entry is present. */
  lemma FourEntriesLookup(a: Attribute, b: Attribute, c: Attribute, d: Attribute,
                          pa: bool, pb: bool, pc: bool, pd: bool,
                          va: seq<FilterValue>, vb: seq<FilterValue>, vc: seq<FilterValue>, vd: seq<FilterValue>)
    requires a != b && a != c && a != d && b != c && b != d && c != d
    ensures var r := EntryIf(pa, a, va) + EntryIf(pb, b, vb) + EntryIf(pc, c, vc) + EntryIf(pd, d, vd);
            Lookup(r, a) == (if pa then Some(va) else None)
            && Lookup(r, b) == (if pb then Some(vb) else None)
            && Lookup(r, c) == (if pc then Some(vc) else None)
            && Lookup(r, d) == (if pd then Some(vd) else None)
  {
    LookupOneOfFour(a, b, c, d, pa, pb, pc, pd, va, vb, vc, vd, a);
    LookupOneOfFour(a, b, c, d, pa, pb, pc, pd, va, vb, vc, vd, b);
    LookupOneOfFour(a, b, c, d, pa, pb, pc, pd, va, vb, vc, vd, c);
    LookupOneOfFour(a, b, c, d, pa, pb, pc, pd, va, vb, vc, vd, d);
  }

  /** Four optional entries under four distinct keys never hold a key twice. */
  lemma FourEntriesDistinct(a: Attribute, b: Attribute, c: Attribute, d: Attribute,
                            pa: bool, pb: bool, pc: bool, pd: bool,
                            va: seq<FilterValue>, vb: seq<FilterValue>, vc: seq<FilterValue>, vd: seq<FilterValue>)
    requires a != b && a != c && a != d && b != c && b != d && c != d
    ensures DistinctKeys(EntryIf(pa, a, va) + EntryIf(pb, b, vb) + EntryIf(pc, c, vc) + EntryIf(pd, d, vd))
  {
  }

  /** Four optional entries of one-element lists hold no other key and only
      one-element lists, and nothing at all when no entry is present. */
  lemma FourEntriesContents(a: Attribute, b: Attribute, c: Attribute, d: Attribute,
                            pa: bool, pb: bool, pc: bool, pd: bool,
                            va: seq<FilterValue>, vb: seq<FilterValue>, vc: seq<FilterValue>, vd: seq<FilterValue>)
    requires |va| == 1 && |vb| == 1 && |vc| == 1 && |vd| == 1
    ensures var r := EntryIf(pa, a, va) + EntryIf(pb, b, vb) + EntryIf(pc, c, vc) + EntryIf(pd, d, vd);
            (forall i :: 0 <= i < |r| ==> |r[i].1| == 1)
            && (forall x :: x in Keys(r) ==> x == a || x == b || x == c || x == d)
            && (!pa && !pb && !pc && !pd ==> r == [])
  {
    var r := EntryIf(pa, a, va) + EntryIf(pb, b, vb) + EntryIf(pc, c, vc) + EntryIf(pd, d, vd);
    forall i | 0 <= i < |r|
      ensures r[i] == (a, va) || r[i] == (b, vb) || r[i] == (c, vc) || r[i] == (d, vd)
    {
      assert r[i] in r;
    }
  }

  /** Each key is present exactly when its selection is set; the gender is
      sent upper-cased, the country and role untrimmed, the tier as given. */
  lemma IncludeForKeys(gender: string, countryCode: string, role: string, soloProjectTier: Option<int>)
    ensures var r := IncludeFor(gender, countryCode, role, soloProjectTier);
            Lookup(r, Categorical(Gender)) == (if JsTrim(gender) != "" then Some([Str(ToUpper(gender))]) else None)
            && Lookup(r, Categorical(CountryCode)) == (if JsTrim(countryCode) != "" then Some([Str(countryCode)]) else None)
            && Lookup(r, Categorical(Role)) == (if JsTrim(role) != "" then Some([Str(role)]) else None)
            && Lookup(r, Categorical(SoloProjectTier))
                 == (if soloProjectTier.Some? then Some([Int(soloProjectTier.value)]) else None)
  {
    FourEntriesLookup(Categorical(Gender), Categorical(CountryCode), Categorical(Role), Categorical(SoloProjectTier),
      JsTrim(gender) != "", JsTrim(countryCode) != "", JsTrim(role) != "", soloProjectTier.Some?,
      [Str(ToUpper(gender))], [Str(countryCode)], [Str(role)],
      [Int(if soloProjectTier.Some? then soloProjectTier.value else 0)]);
  }

  /** No other key appears, no key twice, and every value is a one-element
      list; with nothing selected the dictionary is empty. */
  lemma IncludeForShape(gender: string, countryCode: string, role: string, soloProjectTier: Option<int>)
    ensures var r := IncludeFor(gender, countryCode, role, soloProjectTier);
            DistinctKeys(r)
            && (forall i :: 0 <= i < |r| ==> |r[i].1| == 1)
            && (forall a :: a in Keys(r) ==>
                  a == Categorical(Gender) || a == Categorical(CountryCode) || a == Categorical(Role)
                  || a == Categorical(SoloProjectTier))
    ensures JsTrim(gender) == "" && JsTrim(countryCode) == "" && JsTrim(role) == "" && soloProjectTier.None? ==>
              IncludeFor(gender, countryCode, role, soloProjectTier) == []
  {
    var pg, pc, pr, pt := JsTrim(gender) != "", JsTrim(countryCode) != "", JsTrim(role) != "", soloProjectTier.Some?;
    var vg, vc, vr := [Str(ToUpper(gender))], [Str(countryCode)], [Str(role)];
    var vt := [Int(if soloProjectTier.Some? then soloProjectTier.value else 0)];
    var g, c, ro, t := Categorical(Gender), Categorical(CountryCode), Categorical(Role), Categorical(SoloProjectTier);
    var r := IncludeFor(gender, countryCode, role, soloProjectTier);
    assert r == EntryIf(pg, g, vg) + EntryIf(pc, c, vc) + EntryIf(pr, ro, vr) + EntryIf(pt, t, vt);
    FourEntriesDistinct(g, c, ro, t, pg, pc, pr, pt, vg, vc, vr, vt);
    FourEntriesContents(g, c, ro, t, pg, pc, pr, pt, vg, vc, vr, vt);
  }
}
