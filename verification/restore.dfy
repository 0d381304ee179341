/** Lines 38-81 of scripts/build-data.ts: each UN member becomes a flat
    country record written to `<CODE>.json`, and its code and a lightweight
    projection are appended to the index and listing files. The files are
    returned as values rather than written. */
module Restore {
  import opened Wrappers
  import opened JsText
  import opened Registry
  import opened RegistryJoin

  /** A detail record. The fields from `literacyRate` on are placeholders
      the script always fills with the same value. */
  datatype CountryRecord = CountryRecord(
    code: string,
    nameCommon: string,
    nameOfficial: string,
    capital: Option<string>,
    region: Option<string>,
    subregion: Option<string>,
    areaKm2: Option<real>,
    landlocked: bool,
    timezones: seq<string>,
    currency: string,
    languages: seq<string>,
    flagUrl: string,
    flagAlt: string,
    literacyRate: Option<real>,
    lifeExpectancy: Option<real>,
    independenceFrom: Option<string>,
    independenceYear: Option<int>,
    governmentType: string,
    realGdp: Option<real>,
    realGdpRank: Option<int>,
    agricultureProducts: seq<string>
  )

  /** An element of `all-countries.json`: the `CountrySearchItem` shape. */
  datatype ListEntry = ListEntry(code: string, nameCommon: string, flagUrl: string, region: Option<string>)

  /** The build's output: the detail files by name (without `.json`), the
      index and the listing. */
  datatype Artifacts = Artifacts(files: map<string, CountryRecord>, index: seq<string>, listing: seq<ListEntry>)

  const NotAvailable := "N/A"
  const Dash := "\U{2014}"

  /** `Array.isArray(capital) ? capital[0] : (capital || 'N/A')`: an empty
      list yields no capital at all. */
  function CapitalOf(c: Capital): (r: Option<string>)
    ensures c.CapitalList? ==> (r.Some? <==> |c.names| > 0) && (r.Some? ==> r.value == c.names[0])
    ensures !c.CapitalList? ==> r.Some? && (r.value == NotAvailable <==> c.NoCapital? || c.text == "" || c.text == NotAvailable)
    ensures c.CapitalText? && c.text != "" ==> r == Some(c.text)
  {
    match c
    case CapitalList(names) => if |names| > 0 then Some(names[0]) else None
    case CapitalText(text) => Some(OrElse(Some(text), NotAvailable))
    case NoCapital => Some(OrElse(None, NotAvailable))
  }

  /** `x || null` on a number: zero (falsy) becomes `null`. */
  function NonZero(x: Option<real>): (r: Option<real>)
    ensures r.Some? <==> x.Some? && x.value != 0.0
    ensures r.Some? ==> r.value == x.value
  {
    if x.Some? && x.value != 0.0 then x else None
  }

  /** `x || null` on a string: the empty string becomes `null`. */
  function NonEmpty(x: Option<string>): (r: Option<string>)
    ensures r.Some? <==> x.Some? && x.value != ""
    ensures r.Some? ==> r.value == x.value
  {
    if x.Some? && x.value != "" then x else None
  }

  /** The record written for one registry entry. */
  function MakeRecord(rest: RestCountry): CountryRecord {
    CountryRecord(
      code := Upper(rest.cca3),
      nameCommon := rest.name.common,
      nameOfficial := rest.name.official,
      capital := CapitalOf(rest.capital),
      region := rest.region,
      subregion := NonEmpty(rest.subregion),
      areaKm2 := NonZero(rest.area),
      landlocked := rest.landlocked == Some(true),
      timezones := rest.timezones.GetOr([]),
      currency := CurrencyLine(rest.currencies, NotAvailable),
      languages := rest.languages.GetOr([]),
      flagUrl := FlagUrl(rest.flags),
      flagAlt := OrElse(if rest.flags.Some? then rest.flags.value.alt else None, "Flag of " + rest.name.common),
      literacyRate := None,
      lifeExpectancy := None,
      independenceFrom := None,
      independenceYear := None,
      governmentType := Dash,
      realGdp := None,
      realGdpRank := None,
      agricultureProducts := []
    )
  }

  function Entry(r: CountryRecord): ListEntry {
    ListEntry(r.code, r.nameCommon, r.flagUrl, r.region)
  }

  /** The placeholder fields are the same for every country. */
  predicate HasPlaceholders(r: CountryRecord) {
    && r.literacyRate.None? && r.lifeExpectancy.None?
    && r.independenceFrom.None? && r.independenceYear.None?
    && r.governmentType == Dash
    && r.realGdp.None? && r.realGdpRank.None?
    && r.agricultureProducts == []
  }

  /** What the record says about its registry entry: the upper-cased code,
      the names, the fallbacks for capital, subregion, area and flag, the
      currency line and the constant placeholders. */
  lemma MakeRecordFields(rest: RestCountry)
    ensures var r := MakeRecord(rest);
      && r.code == Upper(rest.cca3)
      && (forall i :: 0 <= i < |r.code| ==> !('a' <= r.code[i] <= 'z'))
      && r.nameCommon == rest.name.common && r.nameOfficial == rest.name.official && r.region == rest.region
      && r.flagUrl == FlagUrl(rest.flags)
      && (if rest.flags.Some? && rest.flags.value.alt.Some? && rest.flags.value.alt.value != ""
          then r.flagAlt == rest.flags.value.alt.value
          else r.flagAlt == "Flag of " + rest.name.common)
      && (r.subregion.None? <==> rest.subregion.None? || rest.subregion.value == "")
      && (r.areaKm2.None? <==> rest.area.None? || rest.area.value == 0.0)
      && (r.currency == NotAvailable <==> rest.currencies.GetOr([]) == [])
      && (rest.capital.CapitalList? ==> r.capital != Some(NotAvailable) || rest.capital.names[0] == NotAvailable)
      && r.capital == CapitalOf(rest.capital)
      && r.subregion == NonEmpty(rest.subregion) && r.areaKm2 == NonZero(rest.area)
      && r.landlocked == (rest.landlocked == Some(true))
      && r.timezones == rest.timezones.GetOr([]) && r.languages == rest.languages.GetOr([])
      && (|rest.currencies.GetOr([])| > 0 ==> r.currency == Join(CurrencyLabels(rest.currencies.value), ", "))
      && HasPlaceholders(r)
  {
    CurrencyLineFallback(rest.currencies, NotAvailable);
  }

  /** `i` is the last position of `index` holding its code: the write that
      decides the content of that detail file. */
  ghost predicate LastWrite(index: seq<string>, i: int)
    requires 0 <= i < |index|
  {
    forall j :: i < j < |index| ==> index[j] != index[i]
  }

  /** Writing `v` under `k` after a series of writes: every last write of
      the longer series is still the content of its file. */
  lemma LastWriteStep<V>(files: map<string, V>, index: seq<string>, written: seq<V>, k: string, v: V)
    requires |written| == |index|
    requires forall i :: 0 <= i < |index| && LastWrite(index, i) ==> index[i] in files && files[index[i]] == written[i]
    ensures forall i :: 0 <= i < |index| + 1 && LastWrite(index + [k], i) ==>
      (index + [k])[i] in files[k := v] && files[k := v][(index + [k])[i]] == (written + [v])[i]
  {
    var index' := index + [k];
    forall i | 0 <= i < |index'| && LastWrite(index', i)
      ensures index'[i] in files[k := v] && files[k := v][index'[i]] == (written + [v])[i]
    {
      if i < |index| {
        assert index'[|index|] != index'[i];
        assert LastWrite(index, i) by {
          forall j | i < j < |index| ensures index[j] != index[i] {
            assert index'[j] == index[j];
          }
        }
      }
    }
  }

  function Records(members: seq<RestCountry>): (r: seq<CountryRecord>)
    ensures |r| == |members| && forall i :: 0 <= i < |members| ==> r[i] == MakeRecord(members[i])
  {
    seq(|members|, i requires 0 <= i < |members| => MakeRecord(members[i]))
  }

  /** The writes of the per-country loop, given the records it builds:
      each record goes to the file named by its code, its code to the index
      and its projection to the listing. */
  method WriteAll(records: seq<CountryRecord>) returns (out: Artifacts)
    ensures |out.index| == |records| && |out.listing| == |records|
    ensures forall i :: 0 <= i < |records| ==> out.index[i] == records[i].code
    ensures forall i :: 0 <= i < |records| ==> out.listing[i] == Entry(records[i])
    ensures forall code :: code in out.files <==> code in out.index
    ensures forall i :: 0 <= i < |records| ==> out.index[i] in out.files
    ensures forall i :: 0 <= i < |records| && LastWrite(out.index, i) ==> out.files[out.index[i]] == records[i]
    ensures forall i :: 0 <= i < |out.index| ==> out.listing[i].code == out.index[i]
    ensures forall i :: 0 <= i < |out.index| && LastWrite(out.index, i) ==> out.listing[i] == Entry(out.files[out.index[i]])
  {
    var files: map<string, CountryRecord> := map[];
    var index: seq<string> := [];
    var listing: seq<ListEntry> := [];
    for n := 0 to |records|
      invariant |index| == n && |listing| == n
      invariant forall i :: 0 <= i < n ==> index[i] == records[i].code
      invariant forall i :: 0 <= i < n ==> listing[i] == Entry(records[i])
      invariant forall code :: code in files <==> code in index
      invariant forall i :: 0 <= i < n && LastWrite(index, i) ==> index[i] in files && files[index[i]] == records[i]
    {
      var country := records[n];
      var code := country.code;
      LastWriteStep(files, index, records[..n], code, country);
      assert records[..n] + [country] == records[..n + 1];
      files := files[code := country];
      index := index + [code];
      listing := listing + [Entry(country)];
    }
    out := Artifacts(files, index, listing);
  }

  /** The `for (const rest of unCountries)` loop: for each member, the
      record is written under its upper-cased code, the code appended to
      the index and the projection to the listing. */
  method Emit(members: seq<RestCountry>) returns (out: Artifacts)
    ensures |out.index| == |members| && |out.listing| == |members|
    ensures forall i :: 0 <= i < |members| ==> out.index[i] == Upper(members[i].cca3)
    ensures forall i :: 0 <= i < |members| ==> out.listing[i] == Entry(MakeRecord(members[i]))
    ensures forall code :: code in out.files <==> code in out.index
    ensures forall i :: 0 <= i < |members| ==> out.index[i] in out.files
    ensures forall i :: 0 <= i < |members| && LastWrite(out.index, i) ==>
      out.files[out.index[i]] == MakeRecord(members[i])
    ensures forall i :: 0 <= i < |out.index| ==> out.listing[i].code == out.index[i]
    ensures forall i :: 0 <= i < |out.index| && LastWrite(out.index, i) ==> out.listing[i] == Entry(out.files[out.index[i]])
  {
    out := WriteAll(Records(members));
  }

  /** `main` without its I/O: fetch results in, files out. Every code in
      the index names a detail file, also after the detail page upper-cases
      it again, and the listing agrees with the detail file of each code's
      last write (with distinct codes, of every code). */
  method Build(group1: seq<RestCountry>, group2: seq<Extras>) returns (out: Artifacts)
    ensures forall code :: code in out.files <==> code in out.index
    ensures forall i :: 0 <= i < |out.index| ==> out.index[i] in out.files && Upper(out.index[i]) in out.files
    ensures |out.listing| == |out.index|
    ensures forall i :: 0 <= i < |out.index| ==> out.listing[i].code == out.index[i]
    ensures forall i :: 0 <= i < |out.index| && LastWrite(out.index, i) ==> out.listing[i] == Entry(out.files[out.index[i]])
    ensures var ms := Members(group1, group2);
      && |out.index| == |ms|
      && (forall i :: 0 <= i < |ms| ==> out.index[i] == Upper(ms[i].cca3))
      && (forall i :: 0 <= i < |ms| ==> out.listing[i] == Entry(MakeRecord(ms[i])))
      && (forall i :: 0 <= i < |ms| && LastWrite(out.index, i) ==> out.files[out.index[i]] == MakeRecord(ms[i]))
    ensures (forall k :: 0 <= k < |group1| ==> Upper(group1[k].cca3) == group1[k].cca3) ==>
      && (forall i, j :: 0 <= i < j < |out.index| ==> out.index[i] != out.index[j])
      && (forall i :: 0 <= i < |out.index| ==> out.listing[i] == Entry(out.files[out.index[i]]))
  {
    var ms := Members(group1, group2);
    out := Emit(ms);
    forall i | 0 <= i < |out.index| ensures Upper(out.index[i]) == out.index[i] {
      UpperIsIdempotent(ms[i].cca3);
    }
    if forall k :: 0 <= k < |group1| ==> Upper(group1[k].cca3) == group1[k].cca3 {
      UpperCodesStayDistinct(group1, group2);
      forall i | 0 <= i < |out.index| ensures LastWrite(out.index, i) {
      }
    }
  }

  /** When the first group's codes are already upper-case, upper-casing
      the members' codes keeps them distinct: no two members share a
      detail file. */
  lemma UpperCodesStayDistinct(group1: seq<RestCountry>, group2: seq<Extras>)
    requires forall k :: 0 <= k < |group1| ==> Upper(group1[k].cca3) == group1[k].cca3
    ensures var ms := Members(group1, group2);
      forall i, j :: 0 <= i < j < |ms| ==> Upper(ms[i].cca3) != Upper(ms[j].cca3)
  {
    var ms := Members(group1, group2);
    MembersAreJoinedUnMembers(group1, group2);
    MembersAreOrdered(group1, group2);
    forall i | 0 <= i < |ms| ensures Upper(ms[i].cca3) == ms[i].cca3 {
      var b := LastWith(group1, ms[i].cca3).value;
      var k :| 0 <= k < |group1| && group1[k] == b;
    }
  }
}
