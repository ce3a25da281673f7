# TravelBloom keyword search, modelled in Dafny

TravelBloom is a client-side travel recommendation page. It loads a catalog
of destinations (countries with their cities, temples, beaches), shows
them as cards, and lets the visitor search them by keyword. This project
models the page script's search logic and its result accounting:

- `strings.dfy` (module `Strings`): the string primitives the search uses.
  `ToLower` is `toLowerCase` on ASCII letters. `Trim` is `trim`, with the
  exact set of white-space and line-terminator characters JavaScript
  strips. `Contains` is `includes`.
- `seqs.dfy` (module `Seqs`): order-preserving subsequences and `Take`,
  the `slice(0, n)` of a sequence.
- `data.dfy` (module `Data`): the catalog as values. `Place` is a temple,
  a beach or a city. `Country` holds its cities. `Catalog` holds all three
  collections.
- `query.dfy` (module `Query`): `normalizeKeyword`, `filterCategory` and
  the keyword pipeline of `searchDestinations`, as pure functions. The
  global `allRecommendations` that `filterCategory` reads is an explicit
  parameter. `filterCategory` dispatches on the category name; its two
  branches are `FilterCountries` and `FilterPlaces`.
- `render.dfy` (module `Render`): what `displayRecommendations` puts into
  the container, as data. Each card is a record of name, image URL and
  description. The "no results" notice is an element of its own.
- `page.dfy` (module `Page`): the page's module-level state as the class
  `TravelPage`. Its fields are the loaded catalog, the search box's text
  and the container's elements. Its methods are the handlers that update
  them in place. `DisplayCategory` and `DisplayRecommendations` keep the
  source's nested loops, which set the `resultsFound` flag and append
  cards one at a time.

A blank search is not the same as clearing. For an empty or
white-space-only search the code still caps temples and beaches at two,
and it still drops countries without cities. `Query.SearchBlank` states
what a blank search returns. `Query.SearchBlankIsWholeCatalogIff` states
exactly when that is the whole catalog. The clear button (`ClearSearch`)
displays the unfiltered catalog. Dropping countries without cities is
invisible, because such a country makes no card.
`Page.SearchBlankShowsWholeCatalogIff` therefore states that a blank search
shows what clearing shows exactly when there are at most two temples and
at most two beaches. The source comment at
travel_recommendation.js:128 says "at least 2", but `slice(0, 2)` keeps at
most two; the model follows the code.

## Model

| member | source | states |
|---|---|---|
| Strings.ToLower | travel_recommendation.js:84 | keeps the length; ASCII capitals become the small letter 32 code points above; every other character is unchanged; the result has no capitals |
| Strings.ToLowerIdempotent | travel_recommendation.js:84 | lower-casing twice is lower-casing once |
| Strings.ToLowerIgnoresCase | travel_recommendation.js:84 | strings that differ only in the case of their letters lower-case to the same string |
| Strings.Trim | travel_recommendation.js:84 | the result is a piece of the input with only white space around it in the input and no white space at either of its own ends; it holds only the input's characters and is no longer than the input |
| Strings.TrimUnique | travel_recommendation.js:84 | any piece of the input with only white space around it and none at its own ends is the trim, so the contract of `Trim` determines its value |
| Strings.TrimBlank | travel_recommendation.js:84 | an empty or all-white-space text trims to the empty string |
| Strings.TrimPadded | travel_recommendation.js:84 | white space added before or after a string is removed again |
| Strings.TrimUnpadded | travel_recommendation.js:84 | a string without white space at its ends is its own trim |
| Strings.Contains | travel_recommendation.js:122-127 | `includes`: every string includes the empty string, and a string includes only needles no longer than itself |
| Strings.ContainsAt | travel_recommendation.js:122-127 | `includes` holds exactly when the needle occurs at some position of the haystack |
| Seqs.Take | travel_recommendation.js:128 | `slice(0, n)` is the prefix of length min(n, length) |
| Query.NormalizeKeyword | travel_recommendation.js:101-114 | "beaches", "temples" and "countries" become "beach", "temple" and "country"; the keyword changes exactly when it is one of those three, and is returned unchanged otherwise |
| Query.NormalizeKeywordIdempotent | travel_recommendation.js:102-113 | normalising twice is normalising once |
| Query.NormalizeKeywordShape | travel_recommendation.js:101-114 | normalising keeps a keyword lower-case and free of surrounding white space |
| Query.Matches | travel_recommendation.js:122-127 | the `filter` callback: the empty keyword matches every item, and a match needs a name or description at least as long as the keyword |
| Query.FilterMatching | travel_recommendation.js:122-127 | `filter` with that callback: the result is never longer than the input (order, members and counts are stated by the lemmas below) |
| Query.FilterMatchingSubsequence | travel_recommendation.js:126-127 | `filter` keeps the items in their original order: the result is a subsequence of the input |
| Query.FilterMatchingMembers | travel_recommendation.js:126-127 | `filter` keeps exactly the items whose lower-cased name or description includes the keyword |
| Query.FilterMatchingFirstTwo | travel_recommendation.js:126-127 | when the first two matches sit at positions i and j, the filtered list starts with those two items |
| Query.FilterMatchingCounts | travel_recommendation.js:122-127 | `filter` keeps every copy of a matching item and no copy of any other item |
| Query.FilterMatchingEverything | travel_recommendation.js:126-127 | the empty keyword matches every item |
| Query.FilterPlaces | travel_recommendation.js:126-128 | temples and beaches: at most two items, in their original order, all matching; empty exactly when nothing matches |
| Query.FilterPlacesFirstTwo | travel_recommendation.js:126-128 | when two or more items match, the result is exactly the first two matches |
| Query.FilterPlacesOnlyOne | travel_recommendation.js:126-128 | when exactly one item matches, the result is that item alone |
| Query.FilterPlacesEverything | travel_recommendation.js:126-128 | with the empty keyword the result is still cut to the first two items |
| Query.NarrowCities | travel_recommendation.js:119-123 | the copied country keeps name, description and image; its cities are the filtered cities, which are exactly its matching cities; it has a city exactly when one of its cities matches |
| Query.HasMatchingCity | travel_recommendation.js:122-124 | a country has a matching city only when it has a city; with the empty keyword, exactly when it has a city |
| Query.NarrowCountries | travel_recommendation.js:119-123 | the `map` narrows every country, position by position |
| Query.DropEmpty | travel_recommendation.js:124 | keeps, in order, exactly the countries that still have a city |
| Query.DropEmptyKeepsAll | travel_recommendation.js:124 | when every country has a city nothing is dropped |
| Query.DropEmptyCounts | travel_recommendation.js:124 | every copy of a country with a city is kept, and no copy of a country without one |
| Query.FilterCountries | travel_recommendation.js:118-124 | countries: an order-preserving subsequence of the narrowed countries, each with at least one city |
| Query.FilterCountriesCons | travel_recommendation.js:118-124 | countries are taken in order, each kept (narrowed) exactly when one of its cities matches, with no cap; this determines the result |
| Query.FilterCountriesMembers | travel_recommendation.js:119-124 | a country's narrowed copy is in the result exactly when one of its cities matches |
| Query.FilterCountriesEmptyIff | travel_recommendation.js:118-124 | no country is left exactly when no city of any country matches |
| Query.FilterCountriesEverything | travel_recommendation.js:118-124 | with the empty keyword every city matches, but countries without cities are still dropped |
| Query.SearchKeyword | travel_recommendation.js:84-87 | the search keyword has no capitals and no surrounding white space |
| Query.SearchKeywordStable | travel_recommendation.js:84-87 | searching for the search keyword itself gives the same keyword |
| Query.Search | travel_recommendation.js:83-94 | at most two beaches and two temples, each an order-preserving subsequence of the catalog's; every returned beach, temple and city matches the keyword; every returned country has a city |
| Query.SearchIgnoresCase | travel_recommendation.js:84-94 | texts that differ only in letter case give identical results |
| Query.SearchIgnoresPadding | travel_recommendation.js:84-94 | white space before or after the text does not change the result |
| Query.SearchBlank | travel_recommendation.js:84-130 | an empty or blank search returns the first two temples and beaches and the countries that have cities |
| Query.SearchBlankIsWholeCatalogIff | travel_recommendation.js:117-135 | a blank search returns the catalog value unchanged exactly when there are at most two temples, at most two beaches and no country without cities |
| Render.PlaceCards | travel_recommendation.js:55-60 | one card per temple or beach, in order, with its name, image and description |
| Render.CityCards | travel_recommendation.js:42-53 | the countries category produces cards only, never a notice |
| Render.CategoryCards | travel_recommendation.js:31-64 | a category produces cards only; the beaches and temples categories produce one card per item |
| Render.Cards | travel_recommendation.js:66-69 | the three categories together produce cards only, at least one per beach and per temple |
| Render.Rendered | travel_recommendation.js:25-79 | the container is never left empty; it holds either the notice alone or cards only, at least one per beach and per temple |
| Render.CityCardsCons | travel_recommendation.js:42-53 | city cards come country by country, each country's cities in order |
| Render.CityCardsFromCities | travel_recommendation.js:31-53 | every card in the countries category is a city's card; a country never makes one |
| Render.CityCardsEmptyIff | travel_recommendation.js:42-53 | the countries category shows nothing exactly when no country has a city |
| Render.RenderedNoticeIff | travel_recommendation.js:28-79 | the "no results" notice is shown exactly when there is no beach, temple or city; otherwise the container holds cards only |
| Render.CardsOrder | travel_recommendation.js:67-69 | beach cards come first, then temple cards, then the cities' cards |
| Page.TravelPage.constructor | travel_recommendation.js:7-11 | before loading, the catalog is empty |
| Page.TravelPage.AppendPlaceCards | travel_recommendation.js:32-63 | the `forEach` over temples, beaches or one country's cities appends one card per item, in order, and raises the flag exactly when it appended one |
| Page.TravelPage.DisplayCategory | travel_recommendation.js:31-64 | appends the category's cards to the container and raises the flag exactly when it appended one |
| Page.TravelPage.DisplayRecommendations | travel_recommendation.js:25-80 | the container afterwards holds the cards for the catalog, in order, or the notice alone |
| Page.TravelPage.FetchRecommendations | travel_recommendation.js:14-22 | a loaded catalog replaces the held one and is displayed in full; a failed load changes nothing |
| Page.TravelPage.SearchDestinations | travel_recommendation.js:83-98 | the container shows the search result for the search box's text over the held catalog |
| Page.TravelPage.ClearSearch | travel_recommendation.js:133-136 | the search box is emptied and the whole catalog is displayed |
| Page.SearchShowsNoticeIff | travel_recommendation.js:28-98 | a search shows the notice exactly when no beach, no temple and no city of the catalog matches its keyword |
| Page.CityCardsDropEmpty | travel_recommendation.js:42-53 | countries without cities contribute no card, so dropping them leaves the city cards unchanged |
| Page.SearchBlankShowsWholeCatalogIff | travel_recommendation.js:83-136 | a blank search shows what clearing shows exactly when there are at most two temples and at most two beaches |

## Left out

- Strings.ToLower: lower-cases the ASCII letters only; JavaScript's `toLowerCase` also maps the rest of Unicode, which the search does not depend on for its structure.
- The network request and JSON parsing of `fetchRecommendations` (travel_recommendation.js:15-16) are I/O: `FetchRecommendations` takes their outcome as a parameter, and the error log on failure is not modelled.
- The markup of each card (`innerHTML`, `classList`, `createElement`), the `div` built for each country and never appended, and the wrapper `div` of the notice are view details; a card is its name, image URL and description.
- The event listeners (travel_recommendation.js:139-143) and the asynchronous order of loading and clicking are not modelled; each handler is a method that can be called in any order.
- Data.Country has the fields name, description, image URL and cities; other fields of the loaded JSON, which the source copies along unchanged, are not represented.
- The table lookup `pluralToSingular[keyword]` also finds properties inherited by every JavaScript object (a keyword such as "constructor"); the model's table holds the three entries only.
- Records with a missing `name`, `description` or `cities` field make the source throw; the model assumes every record is complete.
