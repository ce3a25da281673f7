/** The catalog of destinations the page loads and searches. */
module Data {

  /** A temple, a beach, or a city inside a country: each is shown as one
      card. */
  datatype Place = Place(name: string, description: string, imageUrl: string)

  /** A country groups its cities; the cities' order is their display
      order. */
  datatype Country = Country(name: string, description: string, imageUrl: string, cities: seq<Place>)

  /** The whole catalog, as loaded, or the catalog-shaped result of a
      search. */
  datatype Catalog = Catalog(countries: seq<Country>, temples: seq<Place>, beaches: seq<Place>)

  /** What the page holds before the catalog has been loaded. */
  const EmptyCatalog := Catalog([], [], [])
}
