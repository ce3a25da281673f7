/**
 The keyword search: normalising the keyword, filtering each category of
 the catalog, and the search pipeline that ties them together. The catalog
 the page holds is an explicit parameter.
 */
module Query {
  import opened Strings
  import opened Seqs
  import opened Data

  /** The plural category names the search box accepts, with the keyword
      each one is replaced by. */
  const PluralToSingular: map<string, string> :=
    map["beaches" := "beach", "temples" := "temple", "countries" := "country"]

  /** Replaces a plural category name by its singular; any other keyword
      is kept as it is. */
  function NormalizeKeyword(keyword: string): (r: string)
    ensures keyword == "beaches" ==> r == "beach"
    ensures keyword == "temples" ==> r == "temple"
    ensures keyword == "countries" ==> r == "country"
    ensures r != keyword <==> keyword == "beaches" || keyword == "temples" || keyword == "countries"
  {
    if keyword in PluralToSingular then PluralToSingular[keyword] else keyword
  }

  /** The singular forms are not plural names themselves, so normalising a
      second time changes nothing. */
  lemma {:induction false} NormalizeKeywordIdempotent(keyword: string)
    ensures NormalizeKeyword(NormalizeKeyword(keyword)) == NormalizeKeyword(keyword)
  {
  }

  /** A keyword without upper-case letters or surrounding white space
      stays so when normalised. */
  lemma {:induction false} NormalizeKeywordShape(keyword: string)
    requires NoUpper(keyword)
    requires keyword != [] ==> !IsSpace(keyword[0]) && !IsSpace(keyword[|keyword| - 1])
    ensures NoUpper(NormalizeKeyword(keyword))
    ensures var r := NormalizeKeyword(keyword); r != [] ==> !IsSpace(r[0]) && !IsSpace(r[|r| - 1])
  {
    var r := NormalizeKeyword(keyword);
    if r != keyword {
      assert r == "beach" || r == "temple" || r == "country";
    }
  }

  /** An item matches when its lower-cased name or description includes
      the keyword. */
  predicate Matches(p: Place, keyword: string): (b: bool)
    ensures keyword == [] ==> b
    ensures b ==> |keyword| <= |p.name| || |keyword| <= |p.description|
  {
    Contains(ToLower(p.name), keyword) || Contains(ToLower(p.description), keyword)
  }

  /** `items.filter(...)`: the matching items, in their original order. */
  function FilterMatching(items: seq<Place>, keyword: string): (r: seq<Place>)
    ensures |r| <= |items|
    decreases |items|
  {
    if items == [] then []
    else if Matches(items[0], keyword) then [items[0]] + FilterMatching(items[1..], keyword)
    else FilterMatching(items[1..], keyword)
  }

  /** The filter keeps the items in their original order. */
  lemma {:induction false} FilterMatchingSubsequence(items: seq<Place>, keyword: string)
    ensures IsSubsequence(FilterMatching(items, keyword), items)
    decreases |items|
  {
    if items != [] {
      FilterMatchingSubsequence(items[1..], keyword);
    }
  }

  /** The filter keeps exactly the matching items. */
  lemma {:induction false} FilterMatchingMembers(items: seq<Place>, keyword: string)
    ensures forall p :: p in FilterMatching(items, keyword) <==> p in items && Matches(p, keyword)
    decreases |items|
  {
    if items != [] {
      FilterMatchingMembers(items[1..], keyword);
      assert forall p :: p in items <==> p == items[0] || p in items[1..];
    }
  }

  /** The filter keeps every copy of a matching item and no copy of any
      other item. */
  lemma {:induction false} FilterMatchingCounts(items: seq<Place>, keyword: string)
    ensures forall p :: multiset(FilterMatching(items, keyword))[p] ==
                        (if Matches(p, keyword) then multiset(items)[p] else 0)
    decreases |items|
  {
    if items != [] {
      FilterMatchingCounts(items[1..], keyword);
      assert items == [items[0]] + items[1..];
    }
  }

  /** Items that do not match, from position `lo` up to `hi`, are skipped
      over. */
  lemma {:induction false} FilterMatchingSkips(items: seq<Place>, keyword: string, lo: int, hi: int)
    requires 0 <= lo <= hi <= |items|
    requires forall k :: lo <= k < hi ==> !Matches(items[k], keyword)
    ensures FilterMatching(items[lo..], keyword) == FilterMatching(items[hi..], keyword)
    decreases hi - lo
  {
    if lo < hi {
      assert items[lo..][1..] == items[lo + 1..];
      FilterMatchingSkips(items, keyword, lo + 1, hi);
    }
  }

  /** The empty keyword matches every item. */
  lemma {:induction false} FilterMatchingEverything(items: seq<Place>)
    ensures FilterMatching(items, "") == items
    decreases |items|
  {
    if items != [] {
      assert Matches(items[0], "");
      FilterMatchingEverything(items[1..]);
    }
  }

  /** Filtering for temples and beaches: the matching items, cut off after
      the second. */
  function FilterPlaces(items: seq<Place>, keyword: string): (r: seq<Place>)
    ensures |r| <= 2
    ensures IsSubsequence(r, items)
    ensures forall p :: p in r ==> Matches(p, keyword)
    ensures r == [] <==> forall p :: p in items ==> !Matches(p, keyword)
  {
    var all := FilterMatching(items, keyword);
    FilterMatchingSubsequence(items, keyword);
    FilterMatchingMembers(items, keyword);
    PrefixOfSubsequence(all, items, Min(2, |all|));
    assert all != [] ==> all[0] in all;
    Take(all, 2)
  }

  /** The first match at or after position `lo`, at position `i`, heads
      what the filter keeps from there on. */
  lemma {:induction false} FilterMatchingNext(items: seq<Place>, keyword: string, lo: nat, i: nat)
    requires lo <= i < |items| && Matches(items[i], keyword)
    requires forall k :: lo <= k < i ==> !Matches(items[k], keyword)
    ensures FilterMatching(items[lo..], keyword) == [items[i]] + FilterMatching(items[i + 1..], keyword)
  {
    FilterMatchingSkips(items, keyword, lo, i);
    assert items[i..][1..] == items[i + 1..];
  }

  /** When the first two matches sit at positions `i` and `j`, the filter
      starts with those two items. */
  lemma {:induction false} FilterMatchingFirstTwo(items: seq<Place>, keyword: string, i: nat, j: nat)
    requires i < j < |items|
    requires Matches(items[i], keyword) && Matches(items[j], keyword)
    requires forall k :: 0 <= k < j && k != i ==> !Matches(items[k], keyword)
    ensures FilterMatching(items, keyword) == [items[i], items[j]] + FilterMatching(items[j + 1..], keyword)
  {
    var mid := FilterMatching(items[i + 1..], keyword);
    var rest := FilterMatching(items[j + 1..], keyword);
    assert FilterMatching(items, keyword) == [items[i]] + mid by {
      FilterMatchingNext(items, keyword, 0, i);
      assert items[0..] == items;
    }
    assert mid == [items[j]] + rest by {
      FilterMatchingNext(items, keyword, i + 1, j);
    }
    assert [items[i]] + ([items[j]] + rest) == [items[i], items[j]] + rest;
  }

  /** When two or more items match, the result is exactly the first two
      matches, at positions `i` and `j`. */
  lemma {:induction false} FilterPlacesFirstTwo(items: seq<Place>, keyword: string, i: nat, j: nat)
    requires i < j < |items|
    requires Matches(items[i], keyword) && Matches(items[j], keyword)
    requires forall k :: 0 <= k < j && k != i ==> !Matches(items[k], keyword)
    ensures FilterPlaces(items, keyword) == [items[i], items[j]]
  {
    FilterMatchingFirstTwo(items, keyword, i, j);
    var rest := FilterMatching(items[j + 1..], keyword);
    assert ([items[i], items[j]] + rest)[..2] == [items[i], items[j]];
  }

  /** When exactly one item matches, the result is that item alone. */
  lemma {:induction false} FilterPlacesOnlyOne(items: seq<Place>, keyword: string, i: nat)
    requires i < |items| && Matches(items[i], keyword)
    requires forall k :: 0 <= k < |items| && k != i ==> !Matches(items[k], keyword)
    ensures FilterPlaces(items, keyword) == [items[i]]
  {
    FilterMatchingNext(items, keyword, 0, i);
    FilterMatchingSkips(items, keyword, i + 1, |items|);
    assert items[0..] == items;
    assert items[|items|..] == [];
  }

  /** The empty keyword still caps temples and beaches at two. */
  lemma {:induction false} FilterPlacesEverything(items: seq<Place>)
    ensures FilterPlaces(items, "") == Take(items, 2)
  {
    FilterMatchingEverything(items);
  }

  /** True when at least one city of `c` matches. */
  predicate HasMatchingCity(c: Country, keyword: string): (b: bool)
    ensures b ==> c.cities != []
    ensures keyword == [] ==> (b <==> c.cities != [])
  {
    assert c.cities != [] ==> c.cities[0] in c.cities;
    exists city :: city in c.cities && Matches(city, keyword)
  }

  /** The `{...country, cities: ...}` copy: the country with only its
      matching cities, every other field unchanged. */
  function NarrowCities(c: Country, keyword: string): (r: Country)
    ensures r.name == c.name && r.description == c.description && r.imageUrl == c.imageUrl
    ensures r.cities == FilterMatching(c.cities, keyword)
    ensures forall p :: p in r.cities <==> p in c.cities && Matches(p, keyword)
    ensures r.cities != [] <==> HasMatchingCity(c, keyword)
  {
    var cities := FilterMatching(c.cities, keyword);
    FilterMatchingMembers(c.cities, keyword);
    assert cities != [] ==> cities[0] in cities;
    c.(cities := cities)
  }

  /** `countries.map(...)`: every country narrowed to its matching cities. */
  function NarrowCountries(countries: seq<Country>, keyword: string): (r: seq<Country>)
    ensures |r| == |countries|
    ensures forall i :: 0 <= i < |r| ==> r[i] == NarrowCities(countries[i], keyword)
    decreases |countries|
  {
    if countries == [] then []
    else [NarrowCities(countries[0], keyword)] + NarrowCountries(countries[1..], keyword)
  }

  /** `.filter(country => country.cities.length > 0)`. */
  function DropEmpty(countries: seq<Country>): (r: seq<Country>)
    ensures IsSubsequence(r, countries)
    ensures forall c :: c in r <==> c in countries && c.cities != []
    decreases |countries|
  {
    if countries == [] then []
    else if countries[0].cities != [] then [countries[0]] + DropEmpty(countries[1..])
    else DropEmpty(countries[1..])
  }

  /** Every copy of a country with a city is kept; no copy of a country
      without one is. */
  lemma {:induction false} DropEmptyCounts(countries: seq<Country>)
    ensures forall c :: multiset(DropEmpty(countries))[c] ==
                        (if c.cities != [] then multiset(countries)[c] else 0)
    decreases |countries|
  {
    if countries != [] {
      DropEmptyCounts(countries[1..]);
      assert countries == [countries[0]] + countries[1..];
    }
  }

  lemma {:induction false} DropEmptyKeepsAll(countries: seq<Country>)
    requires forall c :: c in countries ==> c.cities != []
    ensures DropEmpty(countries) == countries
    decreases |countries|
  {
    if countries != [] {
      assert countries[0] in countries;
      assert forall c :: c in countries[1..] ==> c in countries;
      DropEmptyKeepsAll(countries[1..]);
    }
  }

  /** Filtering for countries: each country narrowed to its matching
      cities, and those left without a city dropped. No cap applies. */
  function FilterCountries(countries: seq<Country>, keyword: string): (r: seq<Country>)
    ensures IsSubsequence(r, NarrowCountries(countries, keyword))
    ensures forall c :: c in r ==> c.cities != []
  {
    DropEmpty(NarrowCountries(countries, keyword))
  }

  /** `FilterCountries` walks the countries in order, keeping the narrowed
      copy of exactly those with a matching city; with the empty case this
      determines the result completely. */
  lemma {:induction false} FilterCountriesCons(c: Country, countries: seq<Country>, keyword: string)
    ensures FilterCountries([], keyword) == []
    ensures FilterCountries([c] + countries, keyword) ==
      (if HasMatchingCity(c, keyword) then [NarrowCities(c, keyword)] else []) + FilterCountries(countries, keyword)
  {
    var all := [c] + countries;
    assert all[1..] == countries;
    assert NarrowCountries(all, keyword) == [NarrowCities(c, keyword)] + NarrowCountries(countries, keyword);
    assert NarrowCountries(all, keyword)[1..] == NarrowCountries(countries, keyword);
  }

  /** A country is in the result, narrowed, exactly when one of its cities
      matches. */
  lemma {:induction false} FilterCountriesMembers(countries: seq<Country>, keyword: string)
    ensures forall c :: c in countries && HasMatchingCity(c, keyword) ==>
      NarrowCities(c, keyword) in FilterCountries(countries, keyword)
    ensures forall r :: r in FilterCountries(countries, keyword) ==>
      exists c :: c in countries && HasMatchingCity(c, keyword) && r == NarrowCities(c, keyword)
  {
    var narrowed := NarrowCountries(countries, keyword);
    forall c | c in countries && HasMatchingCity(c, keyword)
      ensures NarrowCities(c, keyword) in FilterCountries(countries, keyword)
    {
      var i :| 0 <= i < |countries| && countries[i] == c;
      assert narrowed[i] == NarrowCities(c, keyword);
    }
    forall r | r in FilterCountries(countries, keyword)
      ensures exists c :: c in countries && HasMatchingCity(c, keyword) && r == NarrowCities(c, keyword)
    {
      var i :| 0 <= i < |narrowed| && narrowed[i] == r;
      assert countries[i] in countries;
    }
  }

  /** No country survives the filter exactly when no city of any country
      matches. */
  lemma {:induction false} FilterCountriesEmptyIff(countries: seq<Country>, keyword: string)
    ensures FilterCountries(countries, keyword) == [] <==>
      forall c :: c in countries ==> !HasMatchingCity(c, keyword)
  {
    FilterCountriesMembers(countries, keyword);
    var r := FilterCountries(countries, keyword);
    if r != [] {
      assert r[0] in r;
    }
  }

  /** With the empty keyword every city matches, yet countries without
      cities are still dropped. */
  lemma {:induction false} FilterCountriesEverything(countries: seq<Country>)
    ensures FilterCountries(countries, "") == DropEmpty(countries)
  {
    assert forall c: Country :: FilterMatching(c.cities, "") == c.cities by {
      forall c: Country { FilterMatchingEverything(c.cities); }
    }
    assert NarrowCountries(countries, "") == countries;
  }

  /** The keyword the search box produces: lower-cased, trimmed, then
      normalised. */
  function SearchKeyword(raw: string): (k: string)
    ensures NoUpper(k)
    ensures k != [] ==> !IsSpace(k[0]) && !IsSpace(k[|k| - 1])
  {
    var lower := ToLower(raw);
    var t := Trim(lower);
    assert NoUpper(t) by {
      forall i | 0 <= i < |t| ensures !IsUpper(t[i]) {
        assert t[i] in lower;
      }
    }
    NormalizeKeywordShape(t);
    NormalizeKeyword(t)
  }

  /** Feeding the search keyword back into the search box gives the same
      keyword: lower-casing, trimming and normalising have all been done. */
  lemma {:induction false} SearchKeywordStable(raw: string)
    ensures SearchKeyword(SearchKeyword(raw)) == SearchKeyword(raw)
  {
    var k := SearchKeyword(raw);
    assert ToLower(k) == k;
    TrimUnpadded(k);
    NormalizeKeywordIdempotent(Trim(ToLower(raw)));
    NormalizeKeywordShape(k);
  }

  /** The filtered, catalog-shaped result of searching `all` for the text
      `raw`. */
  function Search(all: Catalog, raw: string): (r: Catalog)
    ensures |r.beaches| <= 2 && |r.temples| <= 2
    ensures IsSubsequence(r.beaches, all.beaches) && IsSubsequence(r.temples, all.temples)
    ensures forall p :: p in r.beaches + r.temples ==> Matches(p, SearchKeyword(raw))
    ensures forall c :: c in r.countries ==> c.cities != []
    ensures forall c :: c in r.countries ==> forall p :: p in c.cities ==> Matches(p, SearchKeyword(raw))
  {
    var keyword := SearchKeyword(raw);
    FilterCountriesMembers(all.countries, keyword);
    Catalog(
      countries := FilterCountries(all.countries, keyword),
      temples := FilterPlaces(all.temples, keyword),
      beaches := FilterPlaces(all.beaches, keyword))
  }

  /** Upper- and lower-case letters in the search text make no
      difference. */
  lemma {:induction false} SearchIgnoresCase(all: Catalog, a: string, b: string)
    requires |a| == |b|
    requires forall i :: 0 <= i < |a| ==> LowerChar(a[i]) == LowerChar(b[i])
    ensures Search(all, a) == Search(all, b)
  {
    ToLowerIgnoresCase(a, b);
  }

  /** White space around the search text makes no difference. */
  lemma {:induction false} SearchIgnoresPadding(all: Catalog, ws1: string, raw: string, ws2: string)
    requires AllSpace(ws1) && AllSpace(ws2)
    ensures Search(all, ws1 + raw + ws2) == Search(all, raw)
  {
    ToLowerAppend(ws1 + raw, ws2);
    ToLowerAppend(ws1, raw);
    ToLowerKeepsSpace(ws1);
    ToLowerKeepsSpace(ws2);
    TrimPadded(ws1, ToLower(raw), ws2);
  }

  /** Searching for the empty text (or only white space) caps temples and
      beaches at two and drops countries without cities. */
  lemma {:induction false} SearchBlank(all: Catalog, raw: string)
    requires AllSpace(raw)
    ensures Search(all, raw) ==
      Catalog(DropEmpty(all.countries), Take(all.temples, 2), Take(all.beaches, 2))
  {
    SearchIgnoresPadding(all, raw, "", "");
    assert raw + "" + "" == raw;
    assert SearchKeyword("") == "";
    FilterPlacesEverything(all.temples);
    FilterPlacesEverything(all.beaches);
    FilterCountriesEverything(all.countries);
  }

  /** So searching for nothing gives back the whole catalog only when it
      has at most two temples, at most two beaches and no country without
      cities. */
  lemma {:induction false} SearchBlankIsWholeCatalogIff(all: Catalog)
    ensures Search(all, "") == all <==>
      |all.temples| <= 2 && |all.beaches| <= 2 && forall c :: c in all.countries ==> c.cities != []
  {
    SearchBlank(all, "");
    if forall c :: c in all.countries ==> c.cities != [] {
      DropEmptyKeepsAll(all.countries);
    }
  }
}
