/** The listing filters of the presentation layer, as pure functions of the
    search text, the selected region and the list read from
    `all-countries.json`. */
module Search {
  import opened JsText
  import opened Seqs

  /** `CountrySearchItem`: one element of the listing. */
  datatype SearchItem = SearchItem(code: string, nameCommon: string, flagUrl: string, region: string)

  // components/HomeClient.tsx

  /** `query.trim().toLowerCase()`. */
  function NormalizeQuery(query: string): string {
    Lower(Trim(query))
  }

  /** `` `${name_common} ${code} ${region}`.toLowerCase() ``. */
  function Haystack(c: SearchItem): string {
    Lower(c.nameCommon + " " + c.code + " " + c.region)
  }

  predicate MatchesQuery(q: string, c: SearchItem) {
    Includes(Haystack(c), q)
  }

  /** The `filtered` memo of `HomeClient`: the whole list for a blank query,
      otherwise the items whose haystack contains the normalised query. */
  function HomeFilter(query: string, countries: seq<SearchItem>): (r: seq<SearchItem>)
    ensures NormalizeQuery(query) == "" ==> r == countries
  {
    var q := NormalizeQuery(query);
    if q == "" then countries
    else Filter(c => MatchesQuery(q, c), countries)
  }

  /** The blank-query shortcut changes nothing: every haystack contains the
      empty string, so the result is always the plain filter. */
  lemma HomeFilterIsPlainFilter(query: string, countries: seq<SearchItem>)
    ensures var q := NormalizeQuery(query);
      HomeFilter(query, countries) == Filter(c => MatchesQuery(q, c), countries)
  {
    var q := NormalizeQuery(query);
    if q == "" {
      forall k | 0 <= k < |countries| ensures MatchesQuery(q, countries[k]) {
        IncludesEmpty(Haystack(countries[k]));
      }
      FilterKeepsAll(c => MatchesQuery(q, c), countries);
    }
  }

  /** Soundness and completeness against the reference reading of
      `includes`: an item is kept exactly when the normalised query occurs
      somewhere in its haystack, and the result is an order-preserving
      subsequence of the input. */
  lemma HomeFilterSpec(query: string, countries: seq<SearchItem>)
    ensures var q := NormalizeQuery(query);
      var r := HomeFilter(query, countries);
      && IsSubsequence(r, countries)
      && (forall k :: 0 <= k < |r| ==> Occurs(Haystack(r[k]), q))
      && (forall k :: 0 <= k < |countries| && Occurs(Haystack(countries[k]), q) ==> countries[k] in r)
      && (exists idx :: Embedding(idx, r, countries)
            && forall j :: 0 <= j < |countries| ==> (Occurs(Haystack(countries[j]), q) <==> j in idx))
  {
    var q := NormalizeQuery(query);
    var p := c => MatchesQuery(q, c);
    HomeFilterIsPlainFilter(query, countries);
    MatchesIffOccurs(q);
    var idx := FilterPicksPositions(p, countries);
    assert Embedding(idx, HomeFilter(query, countries), countries);
  }

  /** The home filter's test is the reference reading of `includes`. */
  lemma MatchesIffOccurs(q: string)
    ensures forall c :: MatchesQuery(q, c) <==> Occurs(Haystack(c), q)
  {
    forall c: SearchItem ensures MatchesQuery(q, c) <==> Occurs(Haystack(c), q) {
      IncludesIffOccurs(Haystack(c), q);
    }
  }

  /** Queries that lower-case to the same string, or differ only in
      surrounding whitespace, give the same result: the query is used only
      through its trimmed lower-case form, and lower-casing never creates
      or removes whitespace. Upper-casing a query is a special case under
      the ASCII case mapping modelled here. */
  lemma HomeFilterIgnoresCaseAndPadding(query: string, other: string, a: string, b: string, countries: seq<SearchItem>)
    requires BlankBetween(a, 0, |a|) && BlankBetween(b, 0, |b|)
    ensures HomeFilter(a + query + b, countries) == HomeFilter(query, countries)
    ensures Lower(other) == Lower(query) ==> HomeFilter(other, countries) == HomeFilter(query, countries)
    ensures HomeFilter(Upper(query), countries) == HomeFilter(query, countries)
  {
    TrimIgnoresPadding(a, query, b);
    LowerCommutesWithTrim(query);
    LowerCommutesWithTrim(other);
    LowerCommutesWithTrim(Upper(query));
    LowerOfUpper(query);
  }

  // app/page.tsx

  /** The region filter buttons. */
  const RegionButtons: seq<string> := ["all", "africa", "americas", "asia", "europe", "oceania"]

  /** `region === 'all' || c.region.toLowerCase() === region`: only the data
      side is lower-cased. */
  predicate RegionMatches(region: string, c: SearchItem) {
    region == "all" || Lower(c.region) == region
  }

  /** `c.name_common.toLowerCase().includes(search.toLowerCase())`. */
  predicate NameMatches(search: string, c: SearchItem) {
    Includes(Lower(c.nameCommon), Lower(search))
  }

  /** The `filtered` list of the home page. */
  function PageFilter(search: string, region: string, countries: seq<SearchItem>): seq<SearchItem> {
    Filter(c => RegionMatches(region, c) && NameMatches(search, c), countries)
  }

  /** An item is kept exactly when its region matches (or the region is
      `all`) and the lower-cased search occurs in its lower-cased name; the
      result is an order-preserving subsequence of the input. */
  lemma PageFilterSpec(search: string, region: string, countries: seq<SearchItem>)
    ensures var r := PageFilter(search, region, countries);
      && IsSubsequence(r, countries)
      && (forall k :: 0 <= k < |r| ==>
            (region == "all" || Lower(r[k].region) == region)
            && Occurs(Lower(r[k].nameCommon), Lower(search)))
      && (forall k :: 0 <= k < |countries| ==>
            (region == "all" || Lower(countries[k].region) == region)
            && Occurs(Lower(countries[k].nameCommon), Lower(search))
            ==> countries[k] in r)
      && (exists idx :: Embedding(idx, r, countries)
            && forall j :: 0 <= j < |countries| ==>
                 ((region == "all" || Lower(countries[j].region) == region)
                  && Occurs(Lower(countries[j].nameCommon), Lower(search))
                  <==> j in idx))
  {
    var p := c => RegionMatches(region, c) && NameMatches(search, c);
    FilterIsSubsequence(p, countries);
    forall c: SearchItem ensures NameMatches(search, c) <==> Occurs(Lower(c.nameCommon), Lower(search)) {
      IncludesIffOccurs(Lower(c.nameCommon), Lower(search));
    }
    var idx := FilterPicksPositions(p, countries);
    assert Embedding(idx, PageFilter(search, region, countries), countries);
  }

  /** With region `all` the region imposes nothing: the result is the name
      search alone, and an empty search on top of that returns every
      country. */
  lemma PageFilterAllRegions(search: string, countries: seq<SearchItem>)
    ensures PageFilter(search, "all", countries) == Filter(c => NameMatches(search, c), countries)
    ensures PageFilter("", "all", countries) == countries
  {
    FilterCongruent(c => RegionMatches("all", c) && NameMatches(search, c), c => NameMatches(search, c), countries);
    forall k | 0 <= k < |countries| ensures RegionMatches("all", countries[k]) && NameMatches("", countries[k]) {
      IncludesEmpty(Lower(countries[k].nameCommon));
    }
    FilterKeepsAll(c => RegionMatches("all", c) && NameMatches("", c), countries);
  }

  /** Only the data side is lower-cased: a selected region with an
      upper-case letter (other than `all`) matches nothing, whereas each
      button value, being lower-case already, matches a region of any
      letter case. */
  lemma PageFilterRegionCase(search: string, region: string, countries: seq<SearchItem>)
    ensures region != "all" && (exists i :: 0 <= i < |region| && IsUpperAscii(region[i])) ==>
      PageFilter(search, region, countries) == []
    ensures forall b, c :: b in RegionButtons && b != "all" ==> (RegionMatches(b, c) <==> Lower(c.region) == Lower(b))
  {
    if region != "all" && (exists i :: 0 <= i < |region| && IsUpperAscii(region[i])) {
      forall k | 0 <= k < |countries| ensures !RegionMatches(region, countries[k]) {
        LowerIsIdempotent(countries[k].region);
      }
      FilterKeepsNone(c => RegionMatches(region, c) && NameMatches(search, c), countries);
    }
    forall b | b in RegionButtons ensures Lower(b) == b {
    }
  }

  /** Applying the page filter to its own result changes nothing. */
  lemma PageFilterIsIdempotent(search: string, region: string, countries: seq<SearchItem>)
    ensures PageFilter(search, region, PageFilter(search, region, countries)) == PageFilter(search, region, countries)
  {
    FilterIsIdempotent(c => RegionMatches(region, c) && NameMatches(search, c), countries);
  }
}
