/**
 What the page shows for a catalog-shaped value: one card per beach, per
 temple and per city, in that order, or a single notice when there is
 nothing to show. Cards are kept as data (name, image, description); the
 markup around them is not modelled.
 */
module Render {
  import opened Data

  /** The text of the notice shown when nothing was found. */
  const NoResultsMessage := "No results found. Please try a different search."

  /** An element appended to the recommendations container. */
  datatype Element =
    | Card(name: string, imageUrl: string, description: string)
    | Notice(text: string)

  /** The three categories, in the order the page displays them. */
  datatype Category = Beaches | Temples | Countries

  function PlaceCard(p: Place): Element
  {
    Card(p.name, p.imageUrl, p.description)
  }

  /** One card per place, in order. */
  function PlaceCards(places: seq<Place>): (r: seq<Element>)
    ensures |r| == |places|
    ensures forall i :: 0 <= i < |places| ==> r[i] == PlaceCard(places[i])
  {
    seq(|places|, i requires 0 <= i < |places| => PlaceCard(places[i]))
  }

  /** The cards for the cities of `countries`, country by country; a
      country contributes its cities' cards and no card of its own. */
  function CityCards(countries: seq<Country>): (r: seq<Element>)
    ensures forall e :: e in r ==> e.Card?
    decreases |countries|
  {
    if countries == [] then []
    else CityCards(countries[..|countries| - 1]) + PlaceCards(countries[|countries| - 1].cities)
  }

  /** The cards one category contributes. */
  function CategoryCards(recs: Catalog, category: Category): (r: seq<Element>)
    ensures forall e :: e in r ==> e.Card?
    ensures category == Beaches ==> |r| == |recs.beaches|
    ensures category == Temples ==> |r| == |recs.temples|
  {
    match category
    case Beaches => PlaceCards(recs.beaches)
    case Temples => PlaceCards(recs.temples)
    case Countries => CityCards(recs.countries)
  }

  /** Every card the page shows for `recs`, in display order. */
  function Cards(recs: Catalog): (r: seq<Element>)
    ensures forall e :: e in r ==> e.Card?
    ensures |r| >= |recs.beaches| + |recs.temples|
  {
    CategoryCards(recs, Beaches) + CategoryCards(recs, Temples) + CategoryCards(recs, Countries)
  }

  /** True when `recs` holds a beach, a temple or a city to show. */
  predicate HasResults(recs: Catalog)
  {
    recs.beaches != [] || recs.temples != [] || exists c :: c in recs.countries && c.cities != []
  }

  /** The container's contents after displaying `recs`: its cards, and the
      notice when there are none. */
  function Rendered(recs: Catalog): (r: seq<Element>)
    ensures r == [Notice(NoResultsMessage)] || forall e :: e in r ==> e.Card?
    ensures |r| >= |recs.beaches| + |recs.temples|
    ensures r != []
  {
    var cards := Cards(recs);
    if cards == [] then [Notice(NoResultsMessage)] else cards
  }

  /** Cards for one more place come after the cards so far. */
  lemma {:induction false} PlaceCardsSnoc(places: seq<Place>, i: nat)
    requires i < |places|
    ensures PlaceCards(places[..i + 1]) == PlaceCards(places[..i]) + [PlaceCard(places[i])]
  {
    var r := PlaceCards(places[..i + 1]);
    assert r[..i] == PlaceCards(places[..i]);
  }

  /** Cards for one more country's cities come after the cards so far. */
  lemma {:induction false} CityCardsSnoc(countries: seq<Country>, i: nat)
    requires i < |countries|
    ensures CityCards(countries[..i + 1]) == CityCards(countries[..i]) + PlaceCards(countries[i].cities)
  {
    assert countries[..i + 1][..i] == countries[..i];
  }

  /** Seen from the front: the first country's city cards come first. */
  lemma {:induction false} CityCardsCons(c: Country, countries: seq<Country>)
    ensures CityCards([c] + countries) == PlaceCards(c.cities) + CityCards(countries)
    decreases |countries|
  {
    var all := [c] + countries;
    if countries != [] {
      var n := |countries| - 1;
      assert all[..|all| - 1] == [c] + countries[..n];
      assert all[|all| - 1] == countries[n];
      CityCardsCons(c, countries[..n]);
    } else {
      assert all[..0] == [];
    }
  }

  /** Cards for cities are made from the cities alone: each one is the card
      of some city of some country. */
  lemma {:induction false} CityCardsFromCities(countries: seq<Country>)
    ensures forall e :: e in CityCards(countries) ==>
      exists c, city :: c in countries && city in c.cities && e == PlaceCard(city)
    decreases |countries|
  {
    if countries != [] {
      var n := |countries| - 1;
      var front := countries[..n];
      CityCardsFromCities(front);
      assert forall c :: c in front ==> c in countries;
      var last := countries[n];
      forall e | e in PlaceCards(last.cities)
        ensures exists c, city :: c in countries && city in c.cities && e == PlaceCard(city)
      {
        var k :| 0 <= k < |last.cities| && PlaceCards(last.cities)[k] == e;
        assert last.cities[k] in last.cities;
      }
    }
  }

  /** There are no city cards exactly when no country has a city. */
  lemma {:induction false} CityCardsEmptyIff(countries: seq<Country>)
    ensures CityCards(countries) == [] <==> forall c :: c in countries ==> c.cities == []
    decreases |countries|
  {
    if countries != [] {
      var n := |countries| - 1;
      CityCardsEmptyIff(countries[..n]);
      assert forall c :: c in countries ==> c in countries[..n] || c == countries[n];
    }
  }

  /** The "no results" notice is shown exactly when there is no beach, no
      temple and no city to show; otherwise the container holds cards
      only. */
  lemma {:induction false} RenderedNoticeIff(recs: Catalog)
    ensures Rendered(recs) == [Notice(NoResultsMessage)] <==> !HasResults(recs)
    ensures HasResults(recs) ==> forall e :: e in Rendered(recs) ==> e.Card?
  {
    CityCardsEmptyIff(recs.countries);
    CityCardsFromCities(recs.countries);
    var cards := Cards(recs);
    assert forall e :: e in cards ==> e.Card? by {
      assert forall e :: e in PlaceCards(recs.beaches) ==> e.Card?;
      assert forall e :: e in PlaceCards(recs.temples) ==> e.Card?;
    }
    if cards != [] {
      assert cards[0] in cards;
    }
  }

  /** The first cards are the beaches', then the temples', then the
      cities'. */
  lemma {:induction false} CardsOrder(recs: Catalog)
    ensures var b, t := |recs.beaches|, |recs.temples|;
      && |Cards(recs)| >= b + t
      && (forall i :: 0 <= i < b ==> Cards(recs)[i] == PlaceCard(recs.beaches[i]))
      && (forall i :: 0 <= i < t ==> Cards(recs)[b + i] == PlaceCard(recs.temples[i]))
      && Cards(recs)[b + t..] == CityCards(recs.countries)
  {
  }
}
