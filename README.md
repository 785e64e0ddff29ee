# Chingu member map: a verified model of its data logic

The Chingu member map shows where the members of the Chingu community live and
lets a visitor filter them by gender, country, role, solo-project tier, voyage
tier and year of joining. It has three parts, and this project models the
deterministic logic in each of them:

- **The cleaning notebook** prepares the raw member export for BigQuery. The
  model covers its per-value transforms:
  - `coerce_gmt_offset` folds an hour offset into -11..12;
  - `normalize_gmt` turns free-form time zones into canonical `GMT±n` text;
  - the numeric `GMT_Offset` column is read back from that text;
  - the solo-project tier digit, the voyage signup ids, the voyage-tier list
    and the combined `Role` column are extracted;
  - column names are sanitised.
- **The members API** is a FastAPI service over BigQuery. The model covers:
  - the attribute enumerations and the filter body;
  - the validation of a filter body against the cache of allowed values
    (502 for a cold cache, 400 for a value the table does not hold);
  - the overlap check between included and excluded attributes;
  - the parameterised SQL and parameter list the two filtered routes build;
  - the date rules and `day_count` of the count route;
  - the query choice of the unique-values route.
  
  Each route is modelled up to the job it would submit, or the HTTP error it
  raises first.
- **The React client.** The model covers:
  - the filter store: seven selections, their setters, the reset and the
    "has filters" test;
  - `buildFilters`, which turns four selections into the include dictionary;
  - `mapper`, which decodes a raw row into a `Member`;
  - the country option list and the code-to-name map;
  - the list page: its member filter, the window revealed twenty at a time,
    `loadMore` and its effects;
  - the map page: its member filter, the country lookup, the markers and its
    effects.

Each source file is one module:

| module | file |
|---|---|
| `Cleaning` | `cleaning.dfy` |
| `Models` | `models.dfy` |
| `ChinguMembers` | `chingu_members.dfy` |
| `FilterStore` | `filter_store.dfy` |
| `BuildFilters` | `build_filters.dfy` |
| `Mapper` | `mapper.dfy` |
| `FilterOptions` | `filter_options.dfy` |
| `ListPage` | `list_page.dfy` |
| `MapPage` | `map_page.dfy` |

Three modules hold shared pieces:

- `Members` (`members.dfy`) holds the `Member` record the pages read, the
  conditions both pages apply in the same way, and the store actions the pages
  request.
- `Common` (`common.dfy`) holds `Option`, `Result`, `filter`, `map` and
  `fromEntries`.
- `Text` (`text.dfy`) holds characters and strings: white-space sets, ASCII
  case mapping, strip and trim, substring search, `split` and `join`, and
  number rendering.

**Pure code becomes functions, and state becomes classes and methods:**

- The notebook's transforms, the enumerations, `mapper` and the option lists
  are functions, with lemmas about them.
- The filter store is a class whose setters overwrite its fields.
- `buildFilters` is a method. It adds keys one `if` at a time, and is proved
  equal to the function `IncludeFor`.
- Validation is a method with two loops that return early. The SQL builders
  are methods whose nested loops append clauses and parameters. Each is proved
  equal to a function, and the routes' promises are proved about those
  functions.
- Each page is a class:
  - its effects run on `Render` and append the store actions they request to
    a log;
  - `visibleCount` is a field that `Render` and `LoadMore` update.

**Representation choices:**

- Python dictionaries whose order matters (the include and exclude
  dictionaries, the enumeration map) are insertion-ordered lists of pairs.
- Dates are day numbers.
- The year of a timestamp, `getName` and `localeCompare` are parameters.

## Model

| member | source | states |
|---|---|---|
| Cleaning.CoerceGmtOffset | data_cleaning/cleaning_chingu_demographics.py:213-220 | the folded offset lies in -11..12 and is congruent to the input modulo 24 |
| Cleaning.CoerceGmtOffsetUnique | data_cleaning/cleaning_chingu_demographics.py:213-220 | the folded offset is the only value of -11..12 congruent to the input modulo 24, so an in-range offset is returned unchanged |
| Cleaning.CoerceGmtOffsetElifDead | data_cleaning/cleaning_chingu_demographics.py:213-220 | after `offset % 24` the offset is never below -11, so the `elif` branch is never taken and the fold is `%` followed by the `> 12` correction alone |
| Cleaning.CoerceGmtOffsetTable | data_cleaning/cleaning_chingu_demographics.py:222-227 | every offset of the notebook's table folds to its expected value (25→1, 13→-11, -12→12, -20→4, -25→-1, ...) |
| Cleaning.FormatGmt | data_cleaning/cleaning_chingu_demographics.py:253 | both f-string branches give `GMT`, an ASCII sign (`+` for a non-negative offset) and the digits of the magnitude |
| Cleaning.NormalizeGmt | data_cleaning/cleaning_chingu_demographics.py:240-254 | `normalize_gmt`; NormalizeGmtSpec gives the accepted texts in both directions and the value, NormalizeGmtIdempotent and NormalizeGmtTable the notebook's expectations |
| Cleaning.MatchGmt | data_cleaning/cleaning_chingu_demographics.py:247 | `re.match(r"GMT\s*([+-]?\d+)")`; MatchGmtOfShape and ShapeOfMatchGmt say it matches exactly the texts of that shape, as their signed number |
| Cleaning.MatchGmtOfShape | data_cleaning/cleaning_chingu_demographics.py:247 | `GMT` in either case, any white space, an optional sign and digits (leading zeros allowed) not followed by a digit match as the signed value of the digits |
| Cleaning.ShapeOfMatchGmt | data_cleaning/cleaning_chingu_demographics.py:247 | conversely every text the pattern matches splits into that shape |
| Cleaning.NormalizeGmtSpec | data_cleaning/cleaning_chingu_demographics.py:240-254 | a cell normalises exactly when it is present and its text, with U+2212 read as `-`, splits as `GMT` in either case, white space, an optional `+` or `-`, a run of digits and a rest that does not start with a digit; for every such split the result is `GMT±n` of the folded signed number |
| Cleaning.NormalizeGmtLooseForm | data_cleaning/cleaning_chingu_demographics.py:240-254 | lower case, white space after `GMT`, no sign and a leading zero are accepted: `gmt  05` gives `GMT+5` |
| Cleaning.SignedDigitsOf | data_cleaning/cleaning_chingu_demographics.py:247 | `[+-]?\d+` on a sign, digits and a non-digit tail captures the signed value of the digits |
| Cleaning.MatchGmtAfterPrefix | data_cleaning/cleaning_chingu_demographics.py:247 | after `GMT` directly followed by a sign, the match is that of the signed number |
| Cleaning.MatchGmtSigned | data_cleaning/cleaning_chingu_demographics.py:247 | `GMT`, a sign, digits and a non-digit tail match as the signed value, with or without `re.IGNORECASE` |
| Cleaning.MatchFormatGmt | data_cleaning/cleaning_chingu_demographics.py:247-253 | the canonical text of any offset, followed by text not starting with a digit, matches as exactly that offset |
| Cleaning.NormalizeDashesAbsent | data_cleaning/cleaning_chingu_demographics.py:245 | text without U+2212 is left unchanged by the dash replacement |
| Cleaning.NormalizeDashesSigned | data_cleaning/cleaning_chingu_demographics.py:245 | in `GMT`, a sign and digits the replacement changes only a U+2212 sign, into `-` |
| Cleaning.NormalizeDashesFormat | data_cleaning/cleaning_chingu_demographics.py:245-253 | the canonical text holds no U+2212, so the replacement only touches what follows it |
| Cleaning.NormalizeParsed | data_cleaning/cleaning_chingu_demographics.py:241-253 | a non-empty cell whose offset parses normalises as the canonical text of the folded offset |
| Cleaning.SearchGmt | data_cleaning/cleaning_chingu_demographics.py:288-291 | `str.extract` of the same pattern, searched anywhere and case-sensitive; GmtOffsetRoundTrip reads the normalised offset back through it |
| Cleaning.GmtOffsetColumn | data_cleaning/cleaning_chingu_demographics.py:288-291 | the `GMT_Offset` column, null for a null time zone; GmtOffsetRoundTrip states its value on every normalised time zone |
| Cleaning.GmtOffsetRoundTrip | data_cleaning/cleaning_chingu_demographics.py:290-293 | the `GMT_Offset` extracted from a normalised time zone is the folded value of the offset `normalize_gmt` parsed |
| Cleaning.NormalizeGmtIdempotent | data_cleaning/cleaning_chingu_demographics.py:240-254 | normalising a normalised time zone leaves it unchanged |
| Cleaning.NormalizeGmtIgnoresTrailingText | data_cleaning/cleaning_chingu_demographics.py:247-253 | `GMT±n` followed by text not starting with a digit normalises as `GMT±n` alone, folded |
| Cleaning.NormalizeGmtDashes | data_cleaning/cleaning_chingu_demographics.py:245 | U+2212 is read exactly like `-` |
| Cleaning.NormalizeCanonical | data_cleaning/cleaning_chingu_demographics.py:247-253 | the canonical text of any offset normalises as the canonical text of its folded value |
| Cleaning.NormalizeSignedNumber | data_cleaning/cleaning_chingu_demographics.py:245-253 | `GMT`, a sign `+`, `-` or U+2212 and a number normalise as the folded signed number; `GMT-0` gives `GMT+0` |
| Cleaning.NormalizeNotGmt | data_cleaning/cleaning_chingu_demographics.py:247-249 | text that does not start with `G` or `g` (such as `#N/A`) normalises as None |
| Cleaning.NormalizeSignWithoutDigits | data_cleaning/cleaning_chingu_demographics.py:247-249 | `GMT` and a sign followed by a non-digit (such as `GMT+)`) normalises as None |
| Cleaning.DescribedRowNormalizes | data_cleaning/cleaning_chingu_demographics.py:240-254 | each shape of test row (missing, signed number, trailing text, not GMT, sign without digits) normalises to the value it describes |
| Cleaning.NormalizeGmtTable | data_cleaning/cleaning_chingu_demographics.py:256-265 | `normalize_gmt` maps each of the 34 raw time zones of the notebook's test to its expected value |
| Cleaning.TimezoneTestAsWrittenAcceptsAnything | data_cleaning/cleaning_chingu_demographics.py:266-268 | the test loop as written holds for every normaliser, even one that always returns None, which the intended test refuses |
| Cleaning.SoloTier | data_cleaning/cleaning_chingu_demographics.py:154-157 | an extracted tier is a single digit, 0..9 |
| Cleaning.SoloTierOf | data_cleaning/cleaning_chingu_demographics.py:155 | `Tier`, at least one white-space character and a digit, followed by anything, yield that digit |
| Cleaning.SoloTierShape | data_cleaning/cleaning_chingu_demographics.py:155 | conversely a tier is found only in a cell that starts with `Tier`, white space and that digit |
| Cleaning.VoyageIds | data_cleaning/cleaning_chingu_demographics.py:444 | `extractall(r"V(\d+)")` read as integers; VoyageIdsEmpty and VoyageIdsOfText give when it finds nothing and what it finds |
| Cleaning.VoyageSignupIds | data_cleaning/cleaning_chingu_demographics.py:444-449 | a missing cell (the text `None` after `astype(str)`) gives the empty list; a present cell gives no id exactly when no `V` in it is directly followed by a digit |
| Cleaning.VoyageIdsEmpty | data_cleaning/cleaning_chingu_demographics.py:444 | no id is found exactly when no `V` is directly followed by a digit |
| Cleaning.VoyageIdsOfText | data_cleaning/cleaning_chingu_demographics.py:444-449 | round trip: `V<n>` entries after any leading text without a match, separated by any texts without a match that do not start with a digit (`V12, V3`, `Voyage V4 (tier 2)`), give exactly those numbers, left to right |
| Cleaning.VoyageIdsAfterDigits | data_cleaning/cleaning_chingu_demographics.py:444 | `V` and a run of digits contribute that number, and the scan goes on after the digits |
| Cleaning.VoyageIdsOfCons | data_cleaning/cleaning_chingu_demographics.py:444-449 | the ids of `V<a>,V<b>,...` are `a` followed by the ids of the rest |
| Cleaning.VoyageIdsOfList | data_cleaning/cleaning_chingu_demographics.py:444-449 | round trip: the ids of a comma-separated list of `V<n>` are exactly those numbers, in order |
| Cleaning.VoyageTierList | data_cleaning/cleaning_chingu_demographics.py:467-469 | a missing cell gives the empty list; otherwise the pieces hold no comma and joined with commas give the cell back |
| Cleaning.CombineRole | data_cleaning/cleaning_chingu_demographics.py:407-408 | a combined role is non-empty and starts and ends with a non-space; CombineRoleNone, CombineRoleOnlyVoyage, CombineRoleOnlyType and CombineRoleTwo give its value for every combination of parts |
| Cleaning.CombineRoleNone | data_cleaning/cleaning_chingu_demographics.py:407-408 | the role is None exactly when both parts are missing or blank |
| Cleaning.CombineRoleBoth | data_cleaning/cleaning_chingu_demographics.py:407 | two present, trimmed parts are joined by one space |
| Cleaning.CombineRoleOnlyVoyage | data_cleaning/cleaning_chingu_demographics.py:407-408 | a missing role type counts as empty: the role is the voyage role stripped of white space at both ends, or None when nothing is left |
| Cleaning.CombineRoleOnlyType | data_cleaning/cleaning_chingu_demographics.py:407-408 | a missing voyage role counts as empty: the role is the role type stripped of white space at both ends, or None when nothing is left |
| Cleaning.CombineRoleTwo | data_cleaning/cleaning_chingu_demographics.py:407-408 | two parts that are not blank: the white space before the role type and after the voyage role is removed, and everything else, the joining space included, is kept |
| Cleaning.CollapseNonAlnum | data_cleaning/cleaning_chingu_demographics.py:169 | the result holds only `[A-Za-z0-9_]`, never two `_` in a row, is no longer than the input, and starts with `_` exactly when the input starts with a character outside `[A-Za-z0-9]`; its content is fixed by the three lemmas below |
| Cleaning.CollapseKeepsAlnum | data_cleaning/cleaning_chingu_demographics.py:169 | the letters and digits of the input survive, in order, and no others appear |
| Cleaning.CollapseRun | data_cleaning/cleaning_chingu_demographics.py:169 | a non-empty run of characters outside `[A-Za-z0-9]` becomes exactly one `_` |
| Cleaning.CollapseAppend | data_cleaning/cleaning_chingu_demographics.py:169 | collapsing works piece by piece when the cut does not split such a run; with CollapseClean and CollapseRun this fixes the result on every input |
| Cleaning.CollapseClean | data_cleaning/cleaning_chingu_demographics.py:169 | a name already made of `[A-Za-z0-9_]` without a double `_` is left unchanged |
| Cleaning.StripKeepsClean | data_cleaning/cleaning_chingu_demographics.py:170 | stripping `_` from both ends keeps a clean name clean |
| Cleaning.StripKeepsAlnum | data_cleaning/cleaning_chingu_demographics.py:170 | stripping `_` from both ends removes no letter or digit |
| Cleaning.SanitizeColumnName | data_cleaning/cleaning_chingu_demographics.py:168-170 | a sanitised column name is clean, neither starts nor ends with `_`, and holds exactly the letters and digits of the renamed name, in order |
| Cleaning.SanitizeKeepsAlnum | data_cleaning/cleaning_chingu_demographics.py:168-170 | a name without a space is not renamed, so the sanitised name holds exactly its letters and digits, in order |
| Cleaning.SanitizeColumnNameIdempotent | data_cleaning/cleaning_chingu_demographics.py:168-170 | sanitising a sanitised name leaves it unchanged |
| Cleaning.SanitizeCountryNameColumn | data_cleaning/cleaning_chingu_demographics.py:168-170 | `Country name (from Country)` becomes `Country_name` |
| Models.CategoricalMembersComplete | database-access-API/app/models.py:6-16 | the list of categorical attributes holds every member of the enumeration |
| Models.IndexOfKey | database-access-API/app/models.py:25 | the position found holds the key and no earlier position does; no position means the key is absent |
| Models.DictUpdateFresh | database-access-API/app/models.py:25 | `update` with keys all new appends the new pairs in order |
| Models.Attributes | database-access-API/app/models.py:28 | the combined enumeration has as many members as both enumerations together |
| Models.MakeAttributeEnumMembers | database-access-API/app/models.py:23-28 | `Attribute` is the nine categorical name/value pairs followed by the two list pairs, eleven in all |
| Models.EntryNamesFresh | database-access-API/app/models.py:23-25 | the list members' names are new to the categorical members and to each other, so the update adds and replaces nothing |
| Models.AttributesDistinct | database-access-API/app/models.py:23-28 | every attribute occurs in the combined enumeration, and exactly once |
| Models.AttributeValuesDistinct | database-access-API/app/models.py:6-21 | no two attributes share a column name |
| Models.Lookup | database-access-API/app/models.py:38-39 | a lookup finds a value exactly when the attribute is a key, and the value found is the one stored with the first occurrence of that key |
| Models.LookupAppend | database-access-API/app/models.py:38-39 | a lookup in a concatenation finds the key in the first part that holds it |
| Models.DefaultFilterBody | database-access-API/app/models.py:37-39 | both dictionaries of the default filter body are empty |
| ChinguMembers.CategoricalColumnsOfEnum | database-access-API/app/api/routes/chingu_members.py:24 | the listed columns are the eleven values of `make_attribute_enum`, in its order |
| ChinguMembers.CategoricalColumnsDistinct | database-access-API/app/api/routes/chingu_members.py:21-24 | every attribute's column is listed, and none twice |
| ChinguMembers.PrefillCache | database-access-API/app/api/routes/chingu_members.py:84-93 | a failed warm-up leaves the cache empty; a successful one maps every attribute's column to the set of its distinct values |
| ChinguMembers.ValidationError | database-access-API/app/api/routes/chingu_members.py:28-41 | `validate_FilterBody`; ValidationPasses, ValidationErrorShape and ColdCacheRefusesAll give when it passes and which error it raises |
| ChinguMembers.FirstInvalid | database-access-API/app/api/routes/chingu_members.py:33-41 | the position found holds an invalid entry and every earlier entry is valid; no position means every entry is valid |
| ChinguMembers.ValidateFilterBody | database-access-API/app/api/routes/chingu_members.py:28-41 | the loops with early returns raise exactly the error the specification function gives |
| ChinguMembers.FirstInvalidAt | database-access-API/app/api/routes/chingu_members.py:33-41 | the first entry that is not valid is the one the scan reports |
| ChinguMembers.ValidEntriesAllowed | database-access-API/app/api/routes/chingu_members.py:34-35 | every entry has an empty invalid set exactly when every submitted value is allowed for its column |
| ChinguMembers.ValidationPasses | database-access-API/app/api/routes/chingu_members.py:28-41 | a body passes exactly when the cache is not empty and every included and excluded value is allowed; a column missing from the cache allows nothing |
| ChinguMembers.ValidationErrorShape | database-access-API/app/api/routes/chingu_members.py:28-41 | an empty cache gives 502 before any value is examined; otherwise a failure is a 400 naming an attribute of the body and a non-empty set of disallowed values, an exclude error only once every include value is allowed |
| ChinguMembers.ColdCacheRefusesAll | database-access-API/app/api/routes/chingu_members.py:30-31 | after a failed warm-up every body is refused with 502, even the empty one |
| ChinguMembers.UniqueValuesQuery | database-access-API/app/api/routes/chingu_members.py:53-63 | a list attribute's query unnests its column; a categorical one selects the column's distinct values |
| ChinguMembers.UniqueCountJob | database-access-API/app/api/routes/chingu_members.py:120-146 | the unique-count route up to its job; UniqueCountDates gives when it succeeds and what it binds |
| ChinguMembers.UniqueCountResponse | database-access-API/app/api/routes/chingu_members.py:140-149 | the response counts and carries the rows and the schema, and has a `day_count` exactly when both dates are given |
| ChinguMembers.UniqueCountDates | database-access-API/app/api/routes/chingu_members.py:120-146 | a count request succeeds exactly when it gives both dates in order or neither; with a range the job binds both dates and `day_count` is end − start + 1 ≥ 1; without one there are no parameters and no `day_count` |
| ChinguMembers.AppendEntries | database-access-API/app/api/routes/chingu_members.py:204-217 | the inner loop appends the clauses and the parameters of the dictionary's entries, in order |
| ChinguMembers.AppendFilters | database-access-API/app/api/routes/chingu_members.py:203-217 | the outer loop over `[include, exclude]` appends the include clauses and parameters, then the exclude ones |
| ChinguMembers.AppendWindow | database-access-API/app/api/routes/chingu_members.py:219-228 | the window appends the ordering, the limit and the optional offset, with their parameters |
| ChinguMembers.QueryFilteredTable | database-access-API/app/api/routes/chingu_members.py:183-232 | the route raises the validation error, then the overlap error, or submits the job of the specification function |
| ChinguMembers.FilterCountryCodeCount | database-access-API/app/api/routes/chingu_members.py:271-312 | the route raises the validation error, then the overlap error, or submits the job of the specification function |
| ChinguMembers.FilteredTableJob | database-access-API/app/api/routes/chingu_members.py:183-232 | the filtered-table route up to its job; FilteredTableOutcome, FilteredTableParams and FilteredTableSql give its errors, its parameters and its text |
| ChinguMembers.CountryCountJob | database-access-API/app/api/routes/chingu_members.py:271-312 | the country-count route up to its job; FilteredRoutesAgree and CountryCountSql give its errors, its parameters and its text |
| ChinguMembers.FilteredTableOutcome | database-access-API/app/api/routes/chingu_members.py:183-198 | a job is built exactly when the cache is warm, every value is allowed and no attribute is both included and excluded; validation errors come first, and the overlap error names the shared attributes |
| ChinguMembers.FilteredRoutesAgree | database-access-API/app/api/routes/chingu_members.py:271-309 | the country count fails exactly when the filtered table fails, with the same error; on success the table's parameters are the count's followed by the window parameters |
| ChinguMembers.BqTypeInt | database-access-API/app/api/routes/chingu_members.py:205 | a parameter is INT64 exactly for the solo-project tier, the GMT offset and the voyage signup ids, STRING otherwise |
| ChinguMembers.FilteredTableParams | database-access-API/app/api/routes/chingu_members.py:203-228 | one array parameter `<column>_filter` per include entry, then per exclude entry, each with its entry's values; then the limit; then the offset exactly when one is given |
| ChinguMembers.FilteredTableDefaultLimit | database-access-API/app/api/routes/chingu_members.py:179 | a request without `limit` binds the default 200 as the limit parameter |
| ChinguMembers.ParamNameInjective | database-access-API/app/api/routes/chingu_members.py:217 | a filter parameter's name determines its attribute |
| ChinguMembers.ParamNameNotWindow | database-access-API/app/api/routes/chingu_members.py:217-228 | no filter parameter is named like a window parameter |
| ChinguMembers.FilteredTableOkDisjoint | database-access-API/app/api/routes/chingu_members.py:196-198 | a job is only built when no attribute is both included and excluded |
| ChinguMembers.FilterParamNames | database-access-API/app/api/routes/chingu_members.py:203-217 | there is one filter parameter per entry, named after the entry's attribute, include entries first |
| ChinguMembers.FilterParamNamesDistinct | database-access-API/app/api/routes/chingu_members.py:196-217 | with distinct keys in each dictionary and no overlap, no two filter parameters share a name |
| ChinguMembers.JobParamNamesDistinct | database-access-API/app/api/routes/chingu_members.py:203-228 | the filter parameters followed by the window parameters never repeat a name |
| ChinguMembers.FilteredTableParamNamesDistinct | database-access-API/app/api/routes/chingu_members.py:196-230 | no two parameters of a built filtered-table job share a name |
| ChinguMembers.CategoricalClauseForm | database-access-API/app/api/routes/chingu_members.py:208 | a categorical clause opens with ` AND ` and the quoted column and ends with `IN UNNEST(` the parameter `)` |
| ChinguMembers.ListClauseForm | database-access-API/app/api/routes/chingu_members.py:215 | a list clause holds the `EXISTS` test over the unnested column and names the parameter |
| ChinguMembers.CategoricalClauseNegates | database-access-API/app/api/routes/chingu_members.py:206-208 | the excluding categorical clause is the including one with `NOT` inserted before `IN` |
| ChinguMembers.ListClauseNegates | database-access-API/app/api/routes/chingu_members.py:206-215 | the excluding list clause is the including one with `NOT` inserted before `EXISTS` |
| ChinguMembers.FilterClauseForm | database-access-API/app/api/routes/chingu_members.py:205-215 | a clause refers to its own attribute's parameter, with `IN UNNEST` for a categorical attribute and `EXISTS … UNNEST` for a list attribute |
| ChinguMembers.ExcludeClauseNegates | database-access-API/app/api/routes/chingu_members.py:206-215 | an exclude clause is the include clause of the same attribute with `NOT` inserted |
| ChinguMembers.ClausesOfMention | database-access-API/app/api/routes/chingu_members.py:203-217 | the clauses of a dictionary refer to the parameter of each of its entries |
| ChinguMembers.FilterSqlMentions | database-access-API/app/api/routes/chingu_members.py:203-217 | the clauses of a body refer to the parameter of every included and excluded attribute |
| ChinguMembers.FilterSqlMentionsParams | database-access-API/app/api/routes/chingu_members.py:203-217 | the clauses refer to every filter parameter |
| ChinguMembers.WindowSqlText | database-access-API/app/api/routes/chingu_members.py:220-232 | the statement ends with `ORDER BY` the id, `LIMIT @window_limit`, `OFFSET @window_offset` exactly when an offset is given, and `;` |
| ChinguMembers.WindowSqlWithOffset | database-access-API/app/api/routes/chingu_members.py:220-232 | the window with an offset, as text |
| ChinguMembers.WindowSqlWithoutOffset | database-access-API/app/api/routes/chingu_members.py:220-232 | the window without an offset, as text |
| ChinguMembers.WindowSqlMentions | database-access-API/app/api/routes/chingu_members.py:223-228 | the window refers to each window parameter |
| ChinguMembers.FilteredTableSql | database-access-API/app/api/routes/chingu_members.py:185-232 | a built job's text ends with `ORDER BY` the id, `LIMIT @window_limit`, `OFFSET @window_offset` exactly when an offset is given, and `;`, and refers to every one of its parameters |
| ChinguMembers.ClausesOfKeys | database-access-API/app/api/routes/chingu_members.py:203-217 | the clauses depend only on the keys of the dictionary, in order, not on the values |
| ChinguMembers.FilteredTableSqlIgnoresValues | database-access-API/app/api/routes/chingu_members.py:203-232 | the SQL text of both filtered routes depends only on the filtered attributes and whether an offset is given; values, limit and offset travel only as parameters |
| ChinguMembers.FilterParamsShape | database-access-API/app/api/routes/chingu_members.py:291-305 | every filter parameter is an array parameter named in the clauses, one per entry |
| ChinguMembers.CountryCountTailText | database-access-API/app/api/routes/chingu_members.py:307-312 | the count statement ends with ` GROUP BY` the country-code column and `;` |
| ChinguMembers.CountryCountSql | database-access-API/app/api/routes/chingu_members.py:273-312 | a built country-count job ends with ` GROUP BY` the country code and `;`, binds only array parameters, one per entry (so no window), and refers to every one of them |
| FilterStore.HasFilters | client/src/stores/filterStore.ts:73-86 | `hasFilters`; HasFiltersIff, CountryNeverCounts and InitialHasNoFilters say which selections count |
| FilterStore.HasFiltersIff | client/src/stores/filterStore.ts:73-86 | a filter is active exactly when the gender, role, tier, voyage, voyage tier or year is set |
| FilterStore.CountryNeverCounts | client/src/stores/filterStore.ts:74-84 | the country never changes whether a filter is active; choosing only a country leaves none |
| FilterStore.InitialHasNoFilters | client/src/stores/filterStore.ts:25-32 | the initial state has no active filter |
| FilterStore.Store.constructor | client/src/stores/filterStore.ts:25-32 | the store starts with every string empty and no tier |
| FilterStore.Store.SetCountryCode | client/src/stores/filterStore.ts:34 | the country changes, every other selection stays |
| FilterStore.Store.SetGender | client/src/stores/filterStore.ts:35 | the gender changes, every other selection stays |
| FilterStore.Store.SetRole | client/src/stores/filterStore.ts:36 | the role changes, every other selection stays |
| FilterStore.Store.SetSoloProjectTier | client/src/stores/filterStore.ts:37-38 | the tier changes, every other selection stays |
| FilterStore.Store.SetVoyage | client/src/stores/filterStore.ts:39 | the voyage changes, every other selection stays |
| FilterStore.Store.SetVoyageTier | client/src/stores/filterStore.ts:40 | the voyage tier changes, every other selection stays |
| FilterStore.Store.SetYearJoined | client/src/stores/filterStore.ts:41 | the year changes, every other selection stays |
| FilterStore.Store.ResetFilters | client/src/stores/filterStore.ts:42-51 | every selection returns to its initial value, whatever the state before (so a second reset changes nothing), and no filter is active |
| BuildFilters.IncludeFor | client/src/utils/buildFilters.ts:7-25 | the `include` record as a value; IncludeForKeys and IncludeForShape give each key's presence and value and that nothing else appears |
| BuildFilters.BuildFilters | client/src/utils/buildFilters.ts:7-25 | the record built key by key is the dictionary `IncludeFor` describes |
| BuildFilters.IncludeForKeys | client/src/utils/buildFilters.ts:9-23 | `Gender` is present exactly when the trimmed gender is non-empty, with the upper-cased gender; `Country_Code` and `Role` likewise, untrimmed; `Solo_Project_Tier` exactly when a tier is chosen |
| BuildFilters.IncludeForShape | client/src/utils/buildFilters.ts:7-25 | no other key appears, none twice, every value is a one-element list, and blank selections give the empty dictionary |
| Mapper.Map | client/src/utils/mapper.ts:3-19 | `mapper`, generic in the JSON value type; MapCopiesColumns, MapUnmap and UnmapMap give its fields and its inverse |
| Mapper.RawColumnsDistinct | client/src/utils/mapper.ts:5-18 | no raw column feeds two fields |
| Mapper.MapCopiesColumns | client/src/utils/mapper.ts:3-19 | each of the fourteen fields is its own raw column's value, unchanged, and undefined exactly when that column is missing |
| Mapper.MapUnmap | client/src/utils/mapper.ts:3-19 | decoding the row of a record gives the record back |
| Mapper.UnmapMap | client/src/utils/mapper.ts:3-19 | re-encoding a decoded row gives the row back, restricted to the fourteen columns read |
| Mapper.MapReadsOnlyColumns | client/src/utils/mapper.ts:3-19 | columns other than the fourteen read do not affect the record |
| FilterOptions.Labelled | client/src/constants/filterOptions.ts:15-20 | the non-null codes with a non-empty `getName` name, as options; CountriesMembers states which appear |
| FilterOptions.Countries | client/src/constants/filterOptions.ts:13-22 | the sorted option list; CountriesSortedPermutation and CountriesMembers give its order and its members |
| FilterOptions.CountryNameMap | client/src/constants/filterOptions.ts:24-26 | the code-to-name map; CountryNameMapSpec gives its keys and values |
| FilterOptions.Insert | client/src/constants/filterOptions.ts:21 | inserting adds the option once and keeps every other option |
| FilterOptions.SortByName | client/src/constants/filterOptions.ts:21 | the sort is a permutation of its input |
| FilterOptions.InsertSorted | client/src/constants/filterOptions.ts:21 | insertion into a sorted list keeps it sorted |
| FilterOptions.SortByNameSorted | client/src/constants/filterOptions.ts:21 | the sorted options are in ascending name order for any total comparison |
| FilterOptions.CountriesSortedPermutation | client/src/constants/filterOptions.ts:13-22 | the countries are sorted by name and are exactly the labelled options, each as often as before |
| FilterOptions.CountriesMembers | client/src/constants/filterOptions.ts:15-20 | an option is listed exactly when its code was returned (not null) and `getName` gives that code a non-empty name, the option's name |
| FilterOptions.CountryNameMapSpec | client/src/constants/filterOptions.ts:24-26 | the name map knows exactly the listed codes and gives each its non-empty `getName` name |
| FilterOptions.OptionListsStartWithAny | client/src/constants/filterOptions.ts:4-40 | each option list opens with its "any" value (`""`, or null for the tiers), and no other entry equals it |
| Members.RedirectOnlyWithoutFilters | client/src/pages/ListPage.tsx:32-37 | a page navigates to the search page at most once per render, exactly when no filter is active and that differs from the previous render |
| Members.DepsChange | client/src/pages/ListPage.tsx:75-80 | the fetch effect reruns exactly when the gender, country, role or tier changes |
| ListPage.Matches | client/src/pages/ListPage.tsx:39-71 | the page's filter test, case-insensitive equality for gender and country and one-way containment for the role; FilteredMembersSpec, NoSelectionKeepsAll and EmptyRolePasses state what it keeps |
| ListPage.FilteredMembers | client/src/pages/ListPage.tsx:39-71 | `members.filter`; FilteredMembersSpec states it keeps exactly the matching members, in order |
| ListPage.VisibleMembers | client/src/pages/ListPage.tsx:93 | the first `visibleCount` filtered members; VisibleWindow and LoadMoreExtends give its length and growth |
| ListPage.HasMore | client/src/pages/ListPage.tsx:95 | whether filtered members remain hidden; VisibleWindow states it holds exactly when `visibleCount` is below the filtered count |
| ListPage.FetchActions | client/src/pages/ListPage.tsx:73-80 | the fetch effect's actions; FetchOnlyOnServerSelections states when it runs and what it requests |
| ListPage.FilteredMembersSpec | client/src/pages/ListPage.tsx:39-71 | the kept members are an order-preserving subsequence holding exactly the matching members, each as often as before |
| ListPage.NoSelectionKeepsAll | client/src/pages/ListPage.tsx:39-71 | with no selection every member is kept |
| ListPage.EmptyRolePasses | client/src/pages/ListPage.tsx:49-54 | the role test is one-way containment: a member whose role is the empty string passes every role |
| ListPage.VisibleWindow | client/src/pages/ListPage.tsx:93-95 | the visible members are the first min(visibleCount, filtered) filtered members, and more remain exactly when visibleCount is below the filtered count |
| ListPage.LoadMoreExtends | client/src/pages/ListPage.tsx:84-95 | loading more extends the visible members, strictly when more remained |
| ListPage.FetchOnlyOnServerSelections | client/src/pages/ListPage.tsx:73-80 | changing only the voyage, voyage tier or year requests nothing; changing a server-side selection clears the members and the offset and fetches with the new include dictionary |
| ListPage.EffectActions | client/src/pages/ListPage.tsx:32-80 | the actions of one render's two effects are the redirect actions of `hasFilters` followed by the fetch actions of the four server-side selections, as RedirectOnlyWithoutFilters and FetchOnlyOnServerSelections describe them |
| ListPage.LoadMoreActions | client/src/pages/ListPage.tsx:84-91 | `loadMore` requests one fetch with the include dictionary exactly when the new window exceeds the members loaded, and nothing otherwise |
| ListPage.Page.constructor | client/src/pages/ListPage.tsx:82 | the window starts at one page of twenty and no effect has run |
| ListPage.Page.Render | client/src/pages/ListPage.tsx:32-80 | the redirect effect, then the fetch effect, each acting only when its dependencies changed; a fetch clears the members and offset and resets the window to one page of twenty |
| ListPage.Page.Visible | client/src/pages/ListPage.tsx:82-95 | the visible members are a prefix of the filtered ones made of whole pages of twenty, unless they are all the filtered members |
| ListPage.Page.LoadMore | client/src/pages/ListPage.tsx:84-91 | the window grows by exactly one page of twenty, so after k loads since the last fetch it holds k + 1 pages, and one fetch is requested exactly when it now exceeds the number of members loaded |
| MapPage.Matches | client/src/pages/MapPage.tsx:106-135 | the map's filter test, with case-insensitive equality for the role; FilteredMembersSpec, MapMatchImpliesListMatch and ListMatchNotMapMatch relate it to the list page's |
| MapPage.FilteredMembersSpec | client/src/pages/MapPage.tsx:106-135 | the kept members are an order-preserving subsequence holding exactly the matching members |
| MapPage.MapMatchImpliesListMatch | client/src/pages/MapPage.tsx:116 | every member the map shows, the list shows too |
| MapPage.ListMatchNotMapMatch | client/src/pages/MapPage.tsx:116 | the converse fails: a member whose role is the empty string passes the list page's role test but not the map page's |
| MapPage.CountryLookup | client/src/pages/MapPage.tsx:137-142 | `Object.fromEntries` of the countries; CountryLookupSpec gives its keys and which entry wins |
| MapPage.CountryLookupSpec | client/src/pages/MapPage.tsx:137-142 | the lookup knows exactly the listed codes, and a code's last entry gives its place |
| MapPage.Markers | client/src/pages/MapPage.tsx:144-156 | the markers of the located members; MarkersSpec and MarkerBoundsAndText give their order, positions and popups |
| MapPage.MarkersSpec | client/src/pages/MapPage.tsx:144-156 | one marker per filtered member whose country is known, in order, at that country's coordinates |
| MapPage.MarkerBoundsAndText | client/src/pages/MapPage.tsx:144-156 | there are no more markers than filtered members, and each popup text is `Chingu_` followed by the member's id, which reads back from it |
| MapPage.FetchActions | client/src/pages/MapPage.tsx:98-104 | the fetch-all effect's actions; FetchOnlyOnServerSelections states when it runs and what it requests |
| MapPage.FetchOnlyOnServerSelections | client/src/pages/MapPage.tsx:98-104 | changing only the voyage, voyage tier or year requests nothing; changing a server-side selection clears the members and the offset and fetches every member matching the new include dictionary |
| MapPage.Page.Render | client/src/pages/MapPage.tsx:92-104 | the redirect effect, then the fetch effect, each acting only when its dependencies changed; a fetch clears the members and offset and fetches every matching member |

## Left out

- Running BigQuery jobs, their errors (502/500 on a query failure) and the rows they return are not modelled. Each route is modelled up to the job it submits, and a response is built from rows given as a parameter.
- The startup warm-up is not modelled: its concurrent `gather` of the unique-value queries and the global reassignment of the cache. The cache is an input, and `PrefillCache` gives its value after a failed or successful warm-up.
- A filter body whose `include` or `exclude` is explicitly null is not modelled (the route would fail on `.items()`); both dictionaries are always present.
- The HTTP proxy, the client's HTTP services and the top-level `await` of the fetched country codes are not modelled. The codes are a parameter of `Countries`.
- Notebook I/O is not modelled: the download, the file reads and writes, `to_json`, the DataFrame itself and its column-by-column application of the transforms.
- Also not modelled in the notebook: the country converter (`country_converter`), the manual country fixes, `pd.to_datetime`, `df.replace('', None)` and the sequential `id`. These are foreign calls or whole-frame operations.
- Cleaning.NormalizeGmt: `\d` is ASCII digits only, while Python's `re` also matches other Unicode decimal digits.
- Cleaning.SoloTier: `\d` is ASCII digits only, as in `NormalizeGmt`.
- Cleaning.VoyageSignupIds: `\d` is ASCII digits only, as in `NormalizeGmt`.
- Cleaning.VoyageSignupIds: the 64-bit width of `astype(int)` (line 446) is not modelled. A number above 2^63 - 1 raises an OverflowError in the notebook; the model's `nat` returns the number.
- Text.ToUpper: case mapping is ASCII only; JavaScript's `toUpperCase`/`toLowerCase` also map other scripts.
- The year of a timestamp (`new Date(...).getFullYear()`, which depends on the local time zone) is a parameter of the page filters.
- `getName` of the country-list package is a parameter of the option list.
- `localeCompare` is a parameter whose only assumed property is totality.
- FilterOptions.SortByNameSorted: proves ascending order and permutation but not the stability of JavaScript's sort.
- The members store's `fetchMembers`, `fetchAllMembers`, `resetMembers` and `resetOffset` are not modelled; the pages append them to an action log. Their paging behaviour is not defined in the store shown.
- ChinguMembers.QueryFilteredTable: FastAPI's request validation is not modelled. `Query(ge=0)` answers a negative `offset` or `limit` with 422, and so does a body key outside the attribute enumeration or a value that is neither a string nor an integer. The model types `offset` and `limit` as `nat` and the body as attribute-keyed entries of strings and integers, so these requests never reach `QueryFilteredTable` or `FilteredTableJob`.
- The `Member` record the pages read has an integer `id`, an optional integer tier and a list of voyage tiers. The client's `Member` type and `mapper` have neither `id` nor `voyageTiers`, and type the tier as a string. `Mapper.MemberRecord` follows `mapper`, `Members.Member` follows the pages, and no conversion between them is modelled.
- Null `role`, `gender` and `countryCode` values in fetched rows are not modelled: `Members.Member` types them as strings. The notebook writes a null role when both parts are blank (`Cleaning.CombineRoleNone`) and a null country code when the converter finds none, and the pages' `toLowerCase()` calls (ListPage.tsx:40-51, MapPage.tsx:107-116) throw a TypeError on them. This can happen on the render after a selection changes, before the fetch effect clears the members.
- Marker coordinates are `real` values that are only copied.
- Leaflet rendering, the presentational components, `nanoid` keys and the `navigate` call itself are not modelled; navigation is recorded as an action.
- The API configuration and app wiring are not modelled.

## Findings

| source | as written | input that shows it | evidently intended | confidence | as-written member | corrected member |
|---|---|---|---|---|---|---|
| data_cleaning/cleaning_chingu_demographics.py:266-268 | the time-zone test loop asserts `processed_offset==answer`, the variables left over from the preceding offset test, so it never compares `normalize_gmt`'s result with the expected value | a normaliser that returns None for every input passes the loop as written | assert that `normalize_gmt(rough_tz) == answer_tz` for each of the 34 rows | not executed | Cleaning.TimezoneTestAsWrittenAcceptsAnything | Cleaning.NormalizeGmtTable |
