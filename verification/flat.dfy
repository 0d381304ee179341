/** build-data.ts: the older build script. It maps every provider entry to
    a flat record with defaults, sorts the records by common name with
    `localeCompare` and writes them as one list. The timestamp is a
    parameter; the comparison is any total preorder on names. */
module Flat {
  import opened Wrappers
  import opened JsText
  import opened Seqs
  import opened Registry

  datatype FlatCountry = FlatCountry(
    code: string,
    nameCommon: string,
    nameOfficial: string,
    flagUrl: string,
    region: string,
    subregion: string,
    capital: Option<string>,
    population: real,
    areaKm2: real,
    density: real,
    languages: seq<string>,
    demonym: string,
    currency: string,
    gdpUsdBillions: Option<real>,
    lifeExpectancyYears: Option<real>,
    updatedAt: string
  )

  /** Reading `c.flags.svg` throws a `TypeError` when `flags` is missing,
      which aborts the whole build. */
  datatype TransformError = MissingFlags(code: string)

  const Unknown := "Unknown"

  /** `area > 0 ? pop / area : 0`, without the two-decimal rounding. */
  function Density(pop: real, area: real): (r: real)
    ensures area > 0.0 ==> r * area == pop
    ensures area <= 0.0 ==> r == 0.0
  {
    if area > 0.0 then pop / area else 0.0
  }

  /** `(c.region || 'Unknown').toLowerCase()`: lower-case, and `unknown`
      when the region is missing or empty. */
  function RegionOf(region: Option<string>): (r: string)
    ensures forall i :: 0 <= i < |r| ==> !IsUpperAscii(r[i])
    ensures (region.None? || region.value == "") ==> r == "unknown"
    ensures region.Some? && region.value != "" ==> r == Lower(region.value)
  {
    LowerIsIdempotent(OrElse(region, Unknown));
    assert Lower(Unknown) == "unknown";
    Lower(OrElse(region, Unknown))
  }

  /** `c.demonyms?.eng?.m || c.demonyms?.eng?.f || 'Citizen'`: one of the
      forms the entry offers, the English masculine first, else `Citizen`;
      never empty. */
  function DemonymOf(demonyms: Option<map<string, Demonym>>): (r: string)
    ensures r in DemonymCandidates(demonyms) || r == "Citizen"
    ensures r != ""
    ensures var cs := DemonymCandidates(demonyms);
      forall k :: 0 <= k < |cs| && cs[k] != "" && (forall l :: 0 <= l < k ==> cs[l] == "") ==> r == cs[k]
    ensures var cs := DemonymCandidates(demonyms);
      (forall k :: 0 <= k < |cs| ==> cs[k] == "") ==> r == "Citizen"
  {
    var eng := if demonyms.Some? && "eng" in demonyms.value then Some(demonyms.value["eng"]) else None;
    OrElse(if eng.Some? then eng.value.m else None,
      OrElse(if eng.Some? then eng.value.f else None, "Citizen"))
  }

  /** `Array.isArray(c.capital) ? c.capital[0] : 'Unknown'`: the first listed
      capital, none for an empty list, `Unknown` when it is not a list. */
  function FlatCapital(c: Capital): (r: Option<string>)
    ensures c.CapitalList? ==> (r.Some? <==> |c.names| > 0)
    ensures c.CapitalList? && |c.names| > 0 ==> r == Some(c.names[0])
    ensures !c.CapitalList? ==> r == Some(Unknown)
  {
    match c
    case CapitalList(names) => if |names| > 0 then Some(names[0]) else None
    case _ => Some(Unknown)
  }

  /** The object literal returned by the `rawCountries.map` callback, for an
      entry that has `flags`. Missing area and population read as 0 and the
      density is computed only from a positive area; a missing subregion
      reads `Unknown`; the currency line is `Unknown` exactly when there are
      no currencies; both indicators are always null. */
  function FlatRecord(c: RestCountry, updatedAt: string): (r: FlatCountry)
    requires c.flags.Some?
    ensures r.code == c.cca3 && r.nameCommon == c.name.common && r.updatedAt == updatedAt
    ensures r.nameOfficial == c.name.official && r.flagUrl == FlagUrl(c.flags)
    ensures r.areaKm2 == c.area.GetOr(0.0) && r.population == c.population.GetOr(0.0)
    ensures r.density == Density(r.population, r.areaKm2)
    ensures r.region == RegionOf(c.region) && r.capital == FlatCapital(c.capital) && r.demonym == DemonymOf(c.demonyms)
    ensures (c.subregion.None? || c.subregion.value == "") ==> r.subregion == Unknown
    ensures c.subregion.Some? && c.subregion.value != "" ==> r.subregion == c.subregion.value
    ensures r.languages == c.languages.GetOr([])
    ensures r.currency == Unknown <==> c.currencies.GetOr([]) == []
    ensures |c.currencies.GetOr([])| > 0 ==> r.currency == Join(CurrencyLabels(c.currencies.value), ", ")
    ensures r.gdpUsdBillions.None? && r.lifeExpectancyYears.None?
  {
    var area := c.area.GetOr(0.0);
    var pop := c.population.GetOr(0.0);
    CurrencyLineFallback(c.currencies, Unknown);
    FlatCountry(
      code := c.cca3,
      nameCommon := c.name.common,
      nameOfficial := c.name.official,
      flagUrl := FlagUrl(c.flags),
      region := RegionOf(c.region),
      subregion := OrElse(c.subregion, Unknown),
      capital := FlatCapital(c.capital),
      population := pop,
      areaKm2 := area,
      density := Density(pop, area),
      languages := c.languages.GetOr([]),
      demonym := DemonymOf(c.demonyms),
      currency := CurrencyLine(c.currencies, Unknown),
      gdpUsdBillions := None,
      lifeExpectancyYears := None,
      updatedAt := updatedAt
    )
  }

  /** The demonyms the script would take, in order of preference: the
      English masculine, then the English feminine form. */
  function DemonymCandidates(demonyms: Option<map<string, Demonym>>): (r: seq<string>)
    ensures |r| <= 2
  {
    if demonyms.Some? && "eng" in demonyms.value then
      var eng := demonyms.value["eng"];
      (if eng.m.Some? then [eng.m.value] else []) + (if eng.f.Some? then [eng.f.value] else [])
    else []
  }

  /** The callback, throwing where the source throws. */
  function Flatten(c: RestCountry, updatedAt: string): Result<FlatCountry, TransformError> {
    if c.flags.None? then Failure(MissingFlags(c.cca3)) else Success(FlatRecord(c, updatedAt))
  }

  /** The position of the first entry without `flags`; `|raw|` if none. */
  function FirstWithoutFlags(raw: seq<RestCountry>): (r: nat)
    ensures r <= |raw|
    ensures forall j :: 0 <= j < r ==> raw[j].flags.Some?
    ensures r < |raw| ==> raw[r].flags.None?
    decreases |raw|
  {
    if |raw| == 0 then 0
    else if raw[0].flags.None? then 0
    else 1 + FirstWithoutFlags(raw[1..])
  }

  /** `rawCountries.map(...)`: one record per entry, in order; the first
      entry without `flags` aborts the map. The callback reads the clock
      once per entry: `stamps[i]` is the reading taken for entry `i`. */
  function MapAll(raw: seq<RestCountry>, stamps: seq<string>): (r: Result<seq<FlatCountry>, TransformError>)
    requires |stamps| == |raw|
    ensures r.Success? <==> FirstWithoutFlags(raw) == |raw|
    ensures r.Success? ==> |r.value| == |raw|
    ensures r.Success? ==> forall i :: 0 <= i < |raw| ==> r.value[i] == FlatRecord(raw[i], stamps[i])
    ensures r.Failure? ==> r.error == MissingFlags(raw[FirstWithoutFlags(raw)].cca3)
    decreases |raw|
  {
    if |raw| == 0 then Success([])
    else match Flatten(raw[0], stamps[0])
      case Failure(e) => Failure(e)
      case Success(x) =>
        match MapAll(raw[1..], stamps[1..])
        case Failure(e) =>
          assert raw[1..][FirstWithoutFlags(raw[1..])] == raw[FirstWithoutFlags(raw)];
          Failure(e)
        case Success(xs) =>
          MappedCons((c: RestCountry, t: string) requires c.flags.Some? => FlatRecord(c, t), raw, stamps, xs);
          Success([x] + xs)
  }

  /** The image of the first pair in front of the images of the rest
      is the image of every pair. */
  lemma MappedCons<A, C, B>(f: (A, C) --> B, a: seq<A>, c: seq<C>, xs: seq<B>)
    requires |a| > 0 && |c| == |a| && |xs| == |a| - 1
    requires forall i :: 0 <= i < |a| ==> f.requires(a[i], c[i])
    requires forall i :: 0 <= i < |xs| ==> xs[i] == f(a[1..][i], c[1..][i])
    ensures forall i :: 0 <= i < |a| ==> ([f(a[0], c[0])] + xs)[i] == f(a[i], c[i])
  {
    forall i | 0 < i < |a| ensures xs[i - 1] == f(a[i], c[i]) {
      assert a[1..][i - 1] == a[i] && c[1..][i - 1] == c[i];
    }
  }

  /** The comparator `(a, b) => a.name_common.localeCompare(b.name_common)`
      read as "a may come before b". */
  function ByName(le: (string, string) -> bool): (FlatCountry, FlatCountry) -> bool {
    (a: FlatCountry, b: FlatCountry) => le(a.nameCommon, b.nameCommon)
  }

  lemma ByNameIsPreorder(le: (string, string) -> bool)
    requires TotalPreorder(le)
    ensures TotalPreorder(ByName(le))
  {
    var before := ByName(le);
    forall a, b ensures before(a, b) || before(b, a) {
      assert le(a.nameCommon, b.nameCommon) || le(b.nameCommon, a.nameCommon);
    }
    forall a, b, c | before(a, b) && before(b, c) ensures before(a, c) {
      assert le(a.nameCommon, b.nameCommon) && le(b.nameCommon, c.nameCommon);
    }
  }

  /** The whole script minus I/O: map, then sort by common name;
      `stamps[i]` is the clock reading taken for `raw[i]`. */
  function Transform(raw: seq<RestCountry>, stamps: seq<string>, le: (string, string) -> bool): (r: Result<seq<FlatCountry>, TransformError>)
    requires |stamps| == |raw| && TotalPreorder(le)
    ensures r.Success? <==> forall i :: 0 <= i < |raw| ==> raw[i].flags.Some?
    ensures r.Success? ==> |r.value| == |raw|
    ensures r.Failure? ==> r.error == MissingFlags(raw[FirstWithoutFlags(raw)].cca3)
    ensures r.Success? ==> forall i, j :: 0 <= i < j < |r.value| ==> le(r.value[i].nameCommon, r.value[j].nameCommon)
    ensures r.Success? ==> multiset(r.value) == multiset(MapAll(raw, stamps).value)
  {
    match MapAll(raw, stamps)
    case Failure(e) => Failure(e)
    case Success(xs) =>
      ByNameIsPreorder(le);
      var sorted := Sort(ByName(le), xs);
      assert |sorted| == |multiset(sorted)| == |multiset(xs)| == |xs|;
      Success(sorted)
  }
}
