/**
 The page's state and its event handlers: the loaded catalog, the search
 box's text and the recommendations container, with loading, searching,
 clearing and displaying as methods that update them in place.
 */
module Page {
  import opened Strings
  import opened Seqs
  import opened Data
  import opened Query
  import opened Render

  /** The outcome of fetching and parsing the catalog file: the parsed
      catalog, or nothing when the request or the parse failed. */
  datatype Option<T> = None | Some(value: T)

  class TravelPage {
    /** The catalog as last loaded. */
    var allRecommendations: Catalog
    /** The text in the search box. */
    var searchInput: string
    /** The elements currently in the recommendations container. */
    var container: seq<Element>

    constructor ()
      ensures allRecommendations == EmptyCatalog && searchInput == "" && container == []
    {
      allRecommendations := EmptyCatalog;
      searchInput := "";
      container := [];
    }

    /** The `forEach` over a list of places (temples, beaches, or one
        country's cities): appends one card per place, in order, and raises
        `found` once a card has been appended. */
    method AppendPlaceCards(places: seq<Place>, found: bool) returns (found': bool)
      modifies this`container
      ensures container == old(container) + PlaceCards(places)
      ensures found' == (found || places != [])
    {
      found' := found;
      ghost var start := container;
      var i := 0;
      while i < |places|
        invariant 0 <= i <= |places|
        invariant container == start + PlaceCards(places[..i])
        invariant found' == (found || i > 0)
      {
        PlaceCardsSnoc(places, i);
        container := container + [PlaceCard(places[i])];
        found' := true;
        i := i + 1;
      }
      assert places[..i] == places;
    }

    /** Appends the cards of one category to the container and raises
        `found` once a card has been appended. For the countries category
        only the cities make cards. */
    method DisplayCategory(recs: Catalog, category: Category, found: bool) returns (found': bool)
      modifies this`container
      ensures container == old(container) + CategoryCards(recs, category)
      ensures found' == (found || CategoryCards(recs, category) != [])
    {
      if category == Countries {
        found' := found;
        ghost var start := container;
        var countries := recs.countries;
        var i := 0;
        while i < |countries|
          invariant 0 <= i <= |countries|
          invariant container == start + CityCards(countries[..i])
          invariant found' == (found || CityCards(countries[..i]) != [])
        {
          CityCardsSnoc(countries, i);
          found' := AppendPlaceCards(countries[i].cities, found');
          i := i + 1;
        }
        assert countries[..i] == countries;
      } else if category == Beaches {
        found' := AppendPlaceCards(recs.beaches, found);
      } else {
        found' := AppendPlaceCards(recs.temples, found);
      }
    }

    /** Replaces the container's contents by the cards for `recs`, beaches
        first, then temples, then cities, or by the "no results" notice. */
    method DisplayRecommendations(recs: Catalog)
      modifies this`container
      ensures container == Rendered(recs)
    {
      container := [];
      var resultsFound := false;
      resultsFound := DisplayCategory(recs, Beaches, resultsFound);
      resultsFound := DisplayCategory(recs, Temples, resultsFound);
      resultsFound := DisplayCategory(recs, Countries, resultsFound);
      if !resultsFound {
        container := container + [Notice(NoResultsMessage)];
      }
    }

    /** The continuation of the catalog fetch: a parsed catalog replaces
        the one held and is displayed in full; a failure is only logged. */
    method FetchRecommendations(response: Option<Catalog>)
      modifies this
      ensures searchInput == old(searchInput)
      ensures response.None? ==> allRecommendations == old(allRecommendations) && container == old(container)
      ensures response.Some? ==> allRecommendations == response.value && container == Rendered(response.value)
    {
      if response.Some? {
        allRecommendations := response.value;
        DisplayRecommendations(allRecommendations);
      }
    }

    /** The search button: filters the held catalog by the search box's
        text and displays the result. */
    method SearchDestinations()
      modifies this`container
      ensures container == Rendered(Search(allRecommendations, searchInput))
    {
      var searchKeyword := Trim(ToLower(searchInput));
      var normalizedSearchKeyword := NormalizeKeyword(searchKeyword);
      var filteredRecommendations := Catalog(
        beaches := FilterPlaces(allRecommendations.beaches, normalizedSearchKeyword),
        temples := FilterPlaces(allRecommendations.temples, normalizedSearchKeyword),
        countries := FilterCountries(allRecommendations.countries, normalizedSearchKeyword));
      DisplayRecommendations(filteredRecommendations);
    }

    /** The clear button: empties the search box and displays the whole
        catalog again, uncapped. */
    method ClearSearch()
      modifies this`searchInput, this`container
      ensures searchInput == ""
      ensures container == Rendered(allRecommendations)
    {
      searchInput := "";
      DisplayRecommendations(allRecommendations);
    }
  }

  /** A search shows the "no results" notice exactly when no beach, no
      temple and no city of the catalog matches the search keyword. */
  lemma {:induction false} SearchShowsNoticeIff(all: Catalog, raw: string)
    ensures var keyword := SearchKeyword(raw);
      Rendered(Search(all, raw)) == [Notice(NoResultsMessage)] <==>
        && (forall p :: p in all.beaches ==> !Matches(p, keyword))
        && (forall p :: p in all.temples ==> !Matches(p, keyword))
        && (forall c :: c in all.countries ==> !HasMatchingCity(c, keyword))
  {
    var keyword := SearchKeyword(raw);
    var found := Search(all, raw);
    RenderedNoticeIff(found);
    assert HasResults(found) <==> found.beaches != [] || found.temples != [] || found.countries != [] by {
      if found.countries != [] {
        assert found.countries[0] in found.countries;
      }
    }
    assert found.countries == FilterCountries(all.countries, keyword);
    FilterCountriesEmptyIff(all.countries, keyword);
  }

  /** Dropping the countries without cities changes nothing on screen:
      such a country makes no card. */
  lemma {:induction false} CityCardsDropEmpty(countries: seq<Country>)
    ensures CityCards(DropEmpty(countries)) == CityCards(countries)
    decreases |countries|
  {
    if countries != [] {
      var c, rest := countries[0], countries[1..];
      var kept := DropEmpty(rest);
      assert CityCards(countries) == PlaceCards(c.cities) + CityCards(rest) by {
        assert countries == [c] + rest;
        CityCardsCons(c, rest);
      }
      assert CityCards(kept) == CityCards(rest) by {
        CityCardsDropEmpty(rest);
      }
      if c.cities != [] {
        assert DropEmpty(countries) == [c] + kept;
        CityCardsCons(c, kept);
      } else {
        assert DropEmpty(countries) == kept;
        assert PlaceCards(c.cities) == [];
      }
    }
  }

  /** A blank search shows what the clear button shows exactly when the
      catalog has at most two temples and at most two beaches; the
      countries without cities it drops were never visible. */
  lemma {:induction false} SearchBlankShowsWholeCatalogIff(all: Catalog, raw: string)
    requires AllSpace(raw)
    ensures Rendered(Search(all, raw)) == Rendered(all) <==> |all.temples| <= 2 && |all.beaches| <= 2
  {
    var found := Search(all, raw);
    SearchBlank(all, raw);
    CityCardsDropEmpty(all.countries);
    var cards, cards' := Cards(all), Cards(found);
    assert cards' == PlaceCards(Take(all.beaches, 2)) + PlaceCards(Take(all.temples, 2)) + CityCards(all.countries);
    assert cards == PlaceCards(all.beaches) + PlaceCards(all.temples) + CityCards(all.countries);
    assert Rendered(found) == Rendered(all) <==> cards' == cards by {
      if cards != [] {
        assert cards[0] in cards;
      }
      if cards' != [] {
        assert cards'[0] in cards';
      }
    }
  }
}
