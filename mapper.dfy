/** `mapper`: the client's decoder from a raw row of the members API to its
    `Member` record, a field-by-field rename. */
module Mapper {
  import opened Common

  /** A raw row: column name to JSON value, of any type `V`; a column the row
      lacks is absent. */
  type RawRecord<V> = map<string, V>

  /** The `Member` record of the client's type declaration; a field whose raw
      column is missing stays undefined. `mapper` copies each value as it is,
      so a field holds whatever JSON value its column held. */
  datatype MemberRecord<V> = MemberRecord(
    email: Option<V>,
    timestamp: Option<V>,
    gender: Option<V>,
    countryCode: Option<V>,
    goal: Option<V>,
    goalOther: Option<V>,
    source: Option<V>,
    sourceOther: Option<V>,
    countryName: Option<V>,
    soloProjectTier: Option<V>,
    roleType: Option<V>,
    role: Option<V>,
    voyage: Option<V>,
    voyageTier: Option<V>)

  /** `mapper(raw)`. */
  function Map<V>(raw: RawRecord<V>): MemberRecord<V> {
    MemberRecord(
      Get(raw, "Email"),
      Get(raw, "Timestamp"),
      Get(raw, "Gender"),
      Get(raw, "Country_Code"),
      Get(raw, "Goal"),
      Get(raw, "Goal_Other"),
      Get(raw, "Source"),
      Get(raw, "Source_Other"),
      Get(raw, "Country_name_from_Country"),
      Get(raw, "Solo_Project_Tier"),
      Get(raw, "Role_Type"),
      Get(raw, "Role"),
      Get(raw, "Voyage_from_Voyage_Signups"),
      Get(raw, "Voyage_Tier"))
  }

  /** The raw column each field of `MemberRecord` is read from, in field order. */
  const RawColumns: seq<string> := [
    "Email", "Timestamp", "Gender", "Country_Code", "Goal", "Goal_Other", "Source", "Source_Other",
    "Country_name_from_Country", "Solo_Project_Tier", "Role_Type", "Role", "Voyage_from_Voyage_Signups",
    "Voyage_Tier"]

  /** The fields of a record, in declaration order. */
  function Fields<V>(m: MemberRecord<V>): (r: seq<Option<V>>)
    ensures |r| == |RawColumns|
  {
    [m.email, m.timestamp, m.gender, m.countryCode, m.goal, m.goalOther, m.source, m.sourceOther,
     m.countryName, m.soloProjectTier, m.roleType, m.role, m.voyage, m.voyageTier]
  }

  /** The row a record was decoded from, restricted to the columns read. */
  function Unmap<V>(m: MemberRecord<V>): RawRecord<V> {
    map i | 0 <= i < |RawColumns| && Fields(m)[i].Some? :: RawColumns[i] := Fields(m)[i].value
  }

  /** No raw column feeds two fields. */
  lemma RawColumnsDistinct()
    ensures forall i, j :: 0 <= i < j < |RawColumns| ==> RawColumns[i] != RawColumns[j]
  {
  }

  /** Every field is the value of exactly its own raw column, unchanged, and
      undefined exactly when that column is missing. */
  lemma MapCopiesColumns<V>(raw: RawRecord<V>)
    ensures forall i :: 0 <= i < |RawColumns| ==> Fields(Map(raw))[i] == Get(raw, RawColumns[i])
  {
    forall i | 0 <= i < |RawColumns|
      ensures Fields(Map(raw))[i] == Get(raw, RawColumns[i])
    {
      if i == 0 {
        assert RawColumns[i] == "Email";
      } else if i == 1 {
        assert RawColumns[i] == "Timestamp";
      } else if i == 2 {
        assert RawColumns[i] == "Gender";
      } else if i == 3 {
        assert RawColumns[i] == "Country_Code";
      } else if i == 4 {
        assert RawColumns[i] == "Goal";
      } else if i == 5 {
        assert RawColumns[i] == "Goal_Other";
      } else if i == 6 {
        assert RawColumns[i] == "Source";
      } else if i == 7 {
        assert RawColumns[i] == "Source_Other";
      } else if i == 8 {
        assert RawColumns[i] == "Country_name_from_Country";
      } else if i == 9 {
        assert RawColumns[i] == "Solo_Project_Tier";
      } else if i == 10 {
        assert RawColumns[i] == "Role_Type";
      } else if i == 11 {
        assert RawColumns[i] == "Role";
      } else if i == 12 {
        assert RawColumns[i] == "Voyage_from_Voyage_Signups";
      } else if i == 13 {
        assert RawColumns[i] == "Voyage_Tier";
      }
    }
  }

  /** The row of a record holds each defined field under its raw column. */
  lemma UnmapAt<V>(m: MemberRecord<V>, i: nat)
    requires i < |RawColumns|
    ensures Get(Unmap(m), RawColumns[i]) == Fields(m)[i]
  {
    RawColumnsDistinct();
  }

  /** Decoding the row of a record gives the record back. */
  lemma MapUnmap<V>(m: MemberRecord<V>)
    ensures Map(Unmap(m)) == m
  {
    MapCopiesColumns(Unmap(m));
    forall i | 0 <= i < |RawColumns|
      ensures Fields(Map(Unmap(m)))[i] == Fields(m)[i]
    {
      UnmapAt(m, i);
    }
    assert Fields(Map(Unmap(m))) == Fields(m);
  }

  /** Encoding a decoded row gives the row back, less the columns not read. */
  lemma UnmapMap<V>(raw: RawRecord<V>)
    ensures Unmap(Map(raw)) == map k | k in raw && k in RawColumns :: raw[k]
  {
    var m := Map(raw);
    MapCopiesColumns(raw);
    forall k | k in RawColumns
      ensures Get(Unmap(m), k) == Get(raw, k)
    {
      var i :| 0 <= i < |RawColumns| && RawColumns[i] == k;
      UnmapAt(m, i);
    }
    forall k | k in Unmap(m)
      ensures k in RawColumns
    {
    }
  }

  /** Columns other than the fourteen read do not affect the record. */
  lemma MapReadsOnlyColumns<V>(raw: RawRecord<V>, raw': RawRecord<V>)
    requires forall k :: k in RawColumns ==> Get(raw, k) == Get(raw', k)
    ensures Map(raw) == Map(raw')
  {
    MapCopiesColumns(raw);
    MapCopiesColumns(raw');
    assert Fields(Map(raw)) == Fields(Map(raw'));
  }
}
