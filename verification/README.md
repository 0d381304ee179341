# Country Factbook data pipeline and listing search, in Dafny

This project models the logic of the Country Factbook site that is not I/O or rendering:

- **The registry restore script** (`scripts/build-data.ts`). It joins two REST Countries field-group responses by `cca3`, keeps the UN members, and turns each member into a flat detail record. It emits three aligned outputs: the detail files keyed by upper-cased code, the ordered code index, and the lightweight listing.
- **The older flat build script** (`build-data.ts`). It maps every provider entry to a flat record with defaults. That includes a population density that is never computed from a zero or negative area. It then sorts the records by common name.
- **The two listing filters.** One is the query filter of `components/HomeClient.tsx`. The other is the region and name filter of `app/page.tsx`.

Modules follow the program:

| module | file | models |
|---|---|---|
| `Wrappers` | wrappers.dfy | `Option` for fields that may be `undefined`, `Result` for code paths that throw |
| `JsText` | jstext.dfy | `trim`, `toLowerCase`, `toUpperCase`, `includes`, `join`, the string `\|\|` fallback |
| `Seqs` | seqs.dfy | `Array.prototype.filter` and the comparator `sort` (stable) |
| `Registry` | registry.dfy | provider entries; the flag link and currency line both scripts build |
| `RegistryJoin` | registry_join.dfy | the `Map` join of the two field groups and the UN-member filter |
| `Restore` | restore.dfy | per-country records and the index, listing and detail outputs |
| `Flat` | flat.dfy | the older map-and-sort transform |
| `Search` | search.dfy | the two listing filters |

Fields that the scripts read with `||`, `??` or `?.` are `Option`s, so every fallback is an explicit case.

A JavaScript `Map` keeps each key at the position of its first insertion. A later `set` on the same key replaces the value but does not move it. So when a code repeats in the first group, the joined registry has that code once: at the position of its first entry, with the fields of its last entry.

Each detail file is modelled as an entry of a map from code to record. A later write to the same code replaces the earlier one. The contracts describe the content of each file in terms of the last write to it.

## Model

| member | source | states |
|---|---|---|
| `RegistryJoin.Upsert` | scripts/build-data.ts:21 | `Map.set`: a known code is replaced in place and the length is kept; a new code is appended at the end |
| `RegistryJoin.Keyed` | scripts/build-data.ts:21-30 | the values of the `Map` built from group 1: distinct codes; each entry is the last group-1 entry with its code; every group-1 code is present; codes are in order of first appearance |
| `RegistryJoin.ApplyExtras` | scripts/build-data.ts:22-27 | one `forEach` step: length and every code are kept; an entry with another code is unchanged; the entry with the same code takes the group-2 currencies and languages and keeps every other field |
| `RegistryJoin.Overlay` | scripts/build-data.ts:22-28 | after the whole group-2 loop: same length and order; each entry keeps its own fields and takes currencies and languages from the last group-2 entry with its code; group-2 entries with no match add nothing |
| `RegistryJoin.KeyedStep` | scripts/build-data.ts:21 | adding one more group-1 entry to the `Map` keeps all of the `Keyed` properties above |
| `RegistryJoin.Joined` | scripts/build-data.ts:23-27 | joining an entry with group 2 changes only its currencies and languages; code, names, flags, UN flag and every other field are kept |
| `RegistryJoin.MemberSources` | scripts/build-data.ts:30-31 | each member is the joined form of one entry of the keyed registry, and the members keep the registry's order |
| `RegistryJoin.MembersAreJoinedUnMembers` | scripts/build-data.ts:30-31 | everything that reaches the per-country loop has `unMember === true` and is the last group-1 entry of its code, joined with group 2; an entry with `unMember` false or missing never gets through |
| `RegistryJoin.MembersAreComplete` | scripts/build-data.ts:30-31 | every code whose last group-1 entry is a UN member reaches the loop |
| `RegistryJoin.MembersAreOrdered` | scripts/build-data.ts:30-31 | the members have distinct codes, in the order in which the codes first appear in group 1 |
| `Restore.CapitalOf` | scripts/build-data.ts:45 | a list gives its first element, or no capital when the list is empty (no `N/A`); a non-empty string gives itself; an empty or missing one gives `N/A` |
| `Registry.FlagUrl` | scripts/build-data.ts:53 | the SVG link when it is non-empty, else the PNG link, else `''`; the result is empty exactly when neither link is non-empty |
| `Restore.NonEmpty` | scripts/build-data.ts:47 | `subregion \|\| null`: null exactly when the subregion is missing or empty; otherwise the subregion |
| `Restore.NonZero` | scripts/build-data.ts:48 | `area \|\| null`: null exactly when the area is missing or zero; otherwise the area |
| `Registry.CurrencyLabelEndsWithParen` | scripts/build-data.ts:51 | a trimmed `"name (symbol)"` label always ends with `)`, whatever the name and symbol |
| `Registry.CurrencyLineFallback` | scripts/build-data.ts:51 | the currency line is the fallback exactly when there are no currencies (a missing object counts as none); otherwise it is the `", "`-join of the labels |
| `Restore.MakeRecordFields` | scripts/build-data.ts:39-65 | the record's code is the upper-cased `cca3` and holds no lower-case letter; the common and official names and the region are copied; the flag link follows `FlagUrl`; the flag text is the non-empty `alt`, else `Flag of <common name>`; the capital follows `CapitalOf` (a list capital reads `N/A` only when its first element is `N/A`); subregion and area follow `NonEmpty` and `NonZero`, so they are null exactly when falsy and otherwise the given value; `landlocked` is true exactly when the entry says `true`; timezones and languages are copied (`[]` when missing); the currency is `N/A` exactly when there are none, otherwise the `", "`-join of the labels; literacy, life expectancy, independence, GDP and rank are null, the government type is `—` and agriculture is `[]` |
| `Restore.LastWriteStep` | scripts/build-data.ts:67 | one more `writeFile` keeps every earlier last write in place and makes the new record the content of its file |
| `Restore.WriteAll` | scripts/build-data.ts:67-75 | index and listing have one element per record; `listing[i]` is the projection of record `i`; `index[i]` is its code; the set of detail files is exactly the set of codes in the index; each file holds the record of the last write to it; each listing entry carries its index code and, for a last write, agrees with the detail file |
| `Restore.Emit` | scripts/build-data.ts:38-75 | as `WriteAll`, stated for the members: `index[i]` is the upper-cased `cca3` of member `i`, and `listing[i]` projects member `i`'s record |
| `Restore.Build` | scripts/build-data.ts:21-81 | end to end: index and listing are aligned with the members; every code in the index names a detail file, also after the detail page upper-cases it again; the listing agrees with the detail file of each last write; when group 1's codes are upper-case, the index has no duplicates and every listing entry matches its detail file |
| `Restore.UpperCodesStayDistinct` | scripts/build-data.ts:39 | when group 1's codes are already upper-case, upper-casing the members' codes keeps them pairwise distinct, so no two members write the same detail file |
| `Flat.Density` | build-data.ts:48 | 0 when the area is not positive, so no division happens; otherwise density × area = population |
| `Flat.RegionOf` | build-data.ts:43 | the region holds no upper-case letter; it is `unknown` when the region is missing or empty; otherwise it is the lower-cased region |
| `Flat.FlatCapital` | build-data.ts:45 | a list gives its first element (none when the list is empty); anything that is not a list gives `Unknown` |
| `Flat.DemonymOf` | build-data.ts:50 | the first non-empty English form, masculine before feminine; so an empty masculine form gives way to the feminine one; `Citizen` when neither is non-empty; never empty |
| `Flat.FlatRecord` | build-data.ts:35-57 | code and both names are copied; the flag link follows `FlagUrl`; area and population are the given values, 0 when missing; the density comes from `Density`; region, capital and demonym follow `RegionOf`, `FlatCapital` and `DemonymOf`; the subregion is copied when non-empty, else `Unknown`; languages are copied (`[]` when missing); the currency is `Unknown` exactly when there are no currencies, otherwise the `", "`-join of the labels; GDP and life expectancy are null; the timestamp is the one given |
| `Flat.MapAll` | build-data.ts:34-58 | the map succeeds exactly when every entry has `flags`, and then it returns one record per entry, in order, entry `i` stamped with its own clock reading `stamps[i]`; otherwise it fails on the first entry without `flags` (reading `c.flags.svg` throws) |
| `Flat.ByNameIsPreorder` | build-data.ts:61 | comparing records by common name under a total preorder on names is itself a total preorder |
| `Seqs.Insert` | build-data.ts:61 | inserting into a sorted list keeps it sorted and adds exactly one element |
| `Seqs.Sort` | build-data.ts:61 | the result is sorted under the comparator and is a permutation of the input |
| `Flat.Transform` | build-data.ts:34-61 | succeeds exactly when every entry has `flags`; on success: one record per raw entry, ascending by common name, and a permutation of the mapped records |
| `Seqs.Filter` | scripts/build-data.ts:31 | `Array.prototype.filter`: every kept element is in the input and satisfies the predicate; every input element that satisfies it is kept |
| `Seqs.FilterPicksPositions` | components/HomeClient.tsx:14 | the filter result is the input restricted to exactly the positions that satisfy the predicate, in the original order (an order-preserving embedding) |
| `Seqs.FilterIsIdempotent` | app/page.tsx:12-16 | filtering twice with the same predicate equals filtering once |
| `JsText.TrimStart` | components/HomeClient.tsx:12 | the result is the suffix that starts at the first non-whitespace character; everything dropped is whitespace |
| `JsText.TrimEnd` | components/HomeClient.tsx:12 | the result is the prefix that ends at the last non-whitespace character; everything dropped is whitespace |
| `JsText.TrimIgnoresPadding` | components/HomeClient.tsx:12 | whitespace added on either side of a string does not change its `trim` |
| `JsText.LowerCommutesWithTrim` | components/HomeClient.tsx:12 | trimming and lower-casing can be applied in either order |
| `JsText.IncludesIffOccurs` | components/HomeClient.tsx:15 | `includes` holds exactly when the needle occurs as a contiguous slice at some position |
| `Search.HomeFilter` | components/HomeClient.tsx:11-17 | a blank query (after trimming and lower-casing) returns the input list unchanged |
| `Search.HomeFilterIsPlainFilter` | components/HomeClient.tsx:12-16 | the blank-query shortcut agrees with the plain filter, since every haystack contains the empty string |
| `Search.HomeFilterSpec` | components/HomeClient.tsx:14-15 | the result keeps exactly the positions whose lower-cased `"name code region"` contains the normalised query, in input order (so it is a subsequence, every kept item matches and every matching item is kept, also with duplicates) |
| `Search.HomeFilterIgnoresCaseAndPadding` | components/HomeClient.tsx:12 | queries with the same lower-cased form, or that differ only by surrounding whitespace, give identical results |
| `Search.PageFilterSpec` | app/page.tsx:12-16 | the result keeps exactly the positions whose region matches (or the region is `all`) and whose lower-cased name contains the lower-cased search, in input order |
| `Search.PageFilterAllRegions` | app/page.tsx:13-14 | with region `all`, the result is the name search alone; an empty search with `all` returns every country |
| `Search.PageFilterRegionCase` | app/page.tsx:13 | only the data side is lower-cased: a selected region with an upper-case letter matches nothing; each button value matches a region of any letter case |
| `Search.PageFilterIsIdempotent` | app/page.tsx:12-16 | re-applying the same search and region to the result changes nothing |

## Left out

- Network and file I/O are not modelled. That covers `fetch`, the `res.ok` checks and their errors, `mkdir`, `writeFile` and `writeFileSync`, the console output and `process.exit`. The fetched arrays are inputs, and the written files are returned values (`Restore.Artifacts`, the `Flat.Transform` result).
- The `new Date().toISOString()` timestamp is nondeterministic. `Flat.FlatRecord` takes it as a parameter. The callback reads the clock once per entry, so `Flat.MapAll` and `Flat.Transform` take one reading per raw entry (`stamps[i]` for `raw[i]`) and promise nothing about how the readings relate.
- The JSON text produced by `JSON.stringify` is not modelled. A field that is `undefined` (for example the capital of an empty list) is `None`.
- `Flat.Density`: the two-decimal rounding `Number((pop / area).toFixed(2))` is not modelled. The density is the exact quotient, because floating-point rounding is out of scope.
- `JsText.LowerChar`, `JsText.UpperChar`: only ASCII letters are mapped. Every other character is unchanged. JavaScript's full Unicode case mapping (which can also change a string's length) is out of scope. Strings are sequences of Unicode scalar values rather than UTF-16 code units.
- `Search.HomeFilterIgnoresCaseAndPadding`: its upper-casing clause holds only for the ASCII case mapping of this model. Under full Unicode mapping, `'straße'.toUpperCase()` lower-cases to `'strasse'`. The clause for queries with the same lower-cased form does not depend on which case mapping is used.
- `localeCompare` is not modelled. `Flat.Transform` takes any total preorder on names in its place, because locale collation is out of scope.
- `Flat.Transform`: the contract states sortedness and permutation. It does not state that records with equal names keep their input order, although `Seqs.Sort` is written as a stable insertion sort.
- Area and population are modelled as reals without `NaN` or infinities. `area || null` with a `NaN` area, and `Number(...)` applied to non-numbers, are not modelled.
- Provider fields are modelled with the types the provider documents. An `unMember` that is not a boolean, or a `capital` that is neither a list nor a string, is not modelled.
- A missing `cca3` or `name` is not modelled; the datatypes make both required.
  - In `build-data.ts`, a missing `cca3` only makes `code` undefined (line 39), while a missing `name` throws at line 40.
  - In `scripts/build-data.ts`, every entry without `cca3` shares the `undefined` key of the `Map` (line 21). It throws only if that entry is a UN member, at `rest.cca3.toUpperCase()` (line 39). A UN member without `name` throws at line 43.
- `scripts/build-data.ts` emits the lightweight listing in index order, without sorting it by name, and computes no density. `build-data.ts` rounds the density to two decimals (not modelled, see `Flat.Density`) and gives 0 for a non-positive area. The model follows both.
- Literacy, life expectancy, independence, GDP and its rank, government type and agricultural products are never computed by `scripts/build-data.ts`. Lines 57-64 write fixed placeholders, which `Restore.MakeRecordFields` states.
- React state, rendering and the modal (`app/page.tsx`, `components/HomeClient.tsx` beyond the `filtered` computations) are not modelled. Neither are `components/Seal.tsx`, `components/StatRow.tsx` and `tailwind.config.ts`, which hold no logic.
