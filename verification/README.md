# Restaurant map page — a Dafny model

This project models the logic of a small React page that shows Hanoi
restaurants on a Leaflet map. The page's logic is a handful of pure rules
and state transitions inside its UI components. Each is written here as a
pure function over an explicit, immutable state record:

- **Search bar** (`SearchBar.js`, module `SearchBar`). The query, the
  effect that recomputes the result list, the select, clear and
  outside-click handlers, and the "result list" and "no results" display
  predicates.
- **Locate-me and directions** (`index.js`, module `MapPage`). The
  `isLocating` guard, the device's success and error callbacks, the
  directions click, and the condition that mounts the route overlay.
  React's asynchronous state updates become sequential transitions. A
  `Session` replays any interleaving of clicks and device answers.
- **Route overlay** (`RouteComponent.js`, module `Route`). The request
  guard, the OSRM request with both ends written longitude first, the
  transposition of GeoJSON positions (longitude, latitude, per section
  3.1.1 of RFC 7946) into Leaflet `[lat, lng]` pairs, the branches that
  keep the previous path, and the polyline predicate.
- **Filter panel** (`FilterMenu.js`, module `FilterMenu`). The
  active-filter counter, the price and rating tables, the star glyphs and
  the checked predicates.

Supporting modules:

- `Text` models JavaScript's `trim`, `toLowerCase` and `includes`.
- `Catalog` holds the restaurant record and the sample data of
  `restaurantData.js`, transcribed as a constant.
- `SearchExamples` states what the search returns on that sample data.
- `Wrappers` provides `Option`, which stands in for `null`.

Coordinates are `real` values that are only carried, compared and
reordered, never computed with. A `[lat, lng]` array is the pair
`(real, real)`, so the source's `end[1], end[0]` is `.1, .0`. A
`{lat, lng}` object is the `LatLng` record.

## Behaviour to note

- Search matches only the name and the `type` field. The address is never
  searched.
- The query is trimmed only to decide whether the search runs. Matching
  uses the query as typed (`SearchExamples.UntrimmedQuery`).
- The location state is the single `isLocating` flag. Without a geolocation
  capability the click does nothing and the flag stays down.
- Route answers carry no request token. Whichever usable answer arrives
  last wins, even if it belongs to an older request
  (`Route.LastArrivalWins`, `Route.StaleAnswerOverwrites`).
- A missing route or a thrown error keeps the previous path. It is not
  cleared.
- Price parsing, the cuisine, price and rating filter predicate, and tag
  toggling are done by a parent component that is not part of this model.

## Model

| member | source | states |
|---|---|---|
| Text.Trim | src/pages/Map/SearchBar.js:23 | `trim` gives a window of the query with no space at either end; it is empty exactly when every character is white space |
| Text.TrimIdempotent | src/pages/Map/SearchBar.js:23 | trimming twice is trimming once |
| Text.Lower | src/pages/Map/SearchBar.js:25-26 | `toLowerCase` keeps the length and maps each character through the per-character case table |
| Text.LowerIdempotent | src/pages/Map/SearchBar.js:25-26 | lower-casing twice is lower-casing once, so an already lower-case query is matched unchanged |
| Text.Contains | src/pages/Map/SearchBar.js:25-26 | `includes` holds exactly when some window of the text equals the needle |
| Text.MissingCharNotContained | src/pages/Map/SearchBar.js:25-26 | a needle with a character the text lacks is not included |
| SearchBar.Matches | src/pages/Map/SearchBar.js:25-26 | a restaurant matches when its lower-cased name, or else its lower-cased type, includes the lower-cased query |
| SearchBar.FilterByTerm | src/pages/Map/SearchBar.js:24-27 | the `filter` over the catalog with `Matches`; its order and contents are stated by `FilterKeepsOrder` and `FilterContents` |
| SearchBar.FilterKeepsOrder | src/pages/Map/SearchBar.js:24-27 | the filtered list is a subsequence of the catalog, in catalog order |
| SearchBar.FilterContents | src/pages/Map/SearchBar.js:24-27 | a restaurant is in the result iff it is in the catalog and its lower-cased name or type contains the lower-cased query, with its catalog multiplicity |
| SearchBar.RunSearch | src/pages/Map/SearchBar.js:22-34 | a blank query gives an empty, hidden list whatever the catalog; any other query shows the list, filtered with the untrimmed query; the query is untouched |
| SearchBar.Type | src/pages/Map/SearchBar.js:22-34 | after typing, the state is settled, the list is shown iff the text is not blank, and it holds exactly the matching catalog entries in order |
| SearchBar.Select | src/pages/Map/SearchBar.js:36-40 | selecting hands exactly that restaurant on, empties the query and hides the list |
| SearchBar.SelectThenSearch | src/pages/Map/SearchBar.js:36-40 | once the effect re-runs after a selection, the state is the initial one and nothing is displayed |
| SearchBar.ClearSearch | src/pages/Map/SearchBar.js:42-45 | clear empties the query and hides the list, leaving the results as they were |
| SearchBar.ClearThenSearch | src/pages/Map/SearchBar.js:42-45 | once the effect re-runs after a clear, the state is the initial one |
| SearchBar.MouseDown | src/pages/Map/SearchBar.js:12-15 | a press outside the mounted box hides the list; the query and results never change |
| SearchBar.MouseDownOutsideHides | src/pages/Map/SearchBar.js:12-15 | after an outside press neither display shows; the state stays settled only for a blank query with no results |
| SearchBar.ShowResultList | src/pages/Map/SearchBar.js:69 | the list renders when it is shown and non-empty; never together with the message (`DisplaysExclusive`) |
| SearchBar.ShowNoResults | src/pages/Map/SearchBar.js:86 | the message renders when the list is shown, the query is non-empty and no restaurant matched |
| SearchBar.ShowClearButton | src/pages/Map/SearchBar.js:59 | the clear button renders exactly while the query is non-empty, blank or not |
| SearchBar.DisplaysExclusive | src/pages/Map/SearchBar.js:69-86 | the result list and the "no results" message never show together |
| SearchBar.SettledDisplay | src/pages/Map/SearchBar.js:69-86 | after the effect, the list shows iff the query is non-blank and some restaurant matches; the message shows iff it is non-blank and none matches |
| SearchExamples.PhoQuery | src/pages/Map/restaurantData.js:1-38 | the query "phở" returns exactly restaurant id 1 and shows the list |
| SearchExamples.UntrimmedQuery | src/pages/Map/SearchBar.js:23-26 | "phở" followed by a no-break space is not blank, but matches nothing, so "no results" shows, although its trimmed form finds id 1 |
| MapPage.InitialView | src/pages/Map/index.js:26-31 | the page starts at the default center and zoom 13, with no location, no selection, no route and the button enabled |
| MapPage.LocationClick | src/pages/Map/index.js:34-39 | a request goes out iff not already locating and geolocation exists, and then only `isLocating` changes; otherwise nothing changes |
| MapPage.PositionCallback | src/pages/Map/index.js:40-53 | success stores the location, centers on it at zoom 16 and drops the flag; an error only drops the flag; the selection and route flag are kept |
| MapPage.DirectionsClick | src/pages/Map/index.js:58-64 | a request goes out iff no location is known (and the guard allows it); the restaurant is selected and the route turned on; the location and view are untouched |
| MapPage.RouteShown | src/pages/Map/index.js:133 | the overlay is mounted when the route flag, a selection and a location are all present; once mounted it stays (`RouteStaysShown`) |
| MapPage.LocateDisabled | src/pages/Map/index.js:86 | the button is disabled while a location request is out; with geolocation this is exactly when a click is ignored (`DisabledExactlyWhenIgnored`) |
| MapPage.UserMarkerShown | src/pages/Map/index.js:109 | the user's marker renders once a location is known |
| MapPage.RouteEnds | src/pages/Map/index.js:133-138 | the overlay is mounted iff the route flag, a selection and a location are all present, with the location as start and the restaurant's position as end |
| MapPage.OverlayRequestsSelectedRoute | src/pages/Map/index.js:133-138 | a mounted overlay always issues a request, whose ends read back as the user's location and the selected restaurant's position |
| MapPage.DisabledExactlyWhenIgnored | src/pages/Map/index.js:86 | with geolocation available, the button is disabled exactly when a click would be ignored |
| MapPage.RetryAfterError | src/pages/Map/index.js:50-53 | after an error the button is enabled and the next click asks again |
| MapPage.DirectionsWithKnownLocation | src/pages/Map/index.js:58-64 | with a known location, directions issue no request and mount the route to the chosen restaurant at once |
| MapPage.DirectionsThenLocated | src/pages/Map/index.js:58-64 | from the initial page, directions then a fix mount the route from the fix to the restaurant, centered on the fix at zoom 16 |
| MapPage.DirectionsThenError | src/pages/Map/index.js:50-53 | from the initial page, directions then an error leave no route, the default view and an enabled button |
| MapPage.AtMostOneInFlight | src/pages/Map/index.js:34-56 | in every interleaving of clicks and answers, the flag is up iff one request is outstanding, so at most one is in flight |
| MapPage.RouteStaysShown | src/pages/Map/index.js:133 | once mounted, the route overlay stays mounted whatever happens next |
| MapPage.ClicksWhileLocating | src/pages/Map/index.js:35 | any number of locate clicks while locating change nothing |
| MapPage.RepeatedTapsOneRequest | src/pages/Map/index.js:34-39 | any number of taps from the initial page issue exactly one position request |
| Route.BuildRequest | src/pages/Map/RouteComponent.js:8-14 | a request exists iff both ends are present; both ends are written longitude first and read back as the given start and end |
| Route.RequestUrl | src/pages/Map/RouteComponent.js:11-14 | the URL is the OSRM driving prefix, then `lng,lat;lng,lat`, then `?overview=full&geometries=geojson` |
| Route.UrlFromEnds | src/pages/Map/RouteComponent.js:8-14 | the URL built from a start `{lat, lng}` and an end `[lat, lng]` is the prefix, `start.lng,start.lat;end[1],end[0]`, then the options |
| Route.UrlReadsBack | src/pages/Map/RouteComponent.js:8-14 | when printed numbers hold no `,` or `;`, splitting the path at its separators gives back the start's longitude and latitude and the end's longitude and latitude, in that order |
| Route.Transpose | src/pages/Map/RouteComponent.js:19 | each `[a, b]` becomes `[b, a]`, with length and order kept |
| Route.TransposeTwice | src/pages/Map/RouteComponent.js:19 | transposing twice is the identity |
| Route.UsablePath | src/pages/Map/RouteComponent.js:18-19 | the first route's geometry when `routes` is present and non-empty; nothing for a thrown error or a missing route list |
| Route.ApplyResponse | src/pages/Map/RouteComponent.js:18-24 | a usable first route replaces the points with its transposed path; with no usable path (a thrown error, a missing or empty route list, or a route without geometry) the previous points stay |
| Route.PolylineShown | src/pages/Map/RouteComponent.js:30 | the polyline renders iff there is at least one point; it disappears only through an empty path (`PolylineStaysShown`) |
| Route.FirstAnswerDraws | src/pages/Map/RouteComponent.js:5-37 | points start empty with no polyline; the first answer draws one iff it has a non-empty usable path |
| Route.LastArrivalWins | src/pages/Map/RouteComponent.js:7-28 | after any answers, the points are the transposed last usable path, or unchanged if there is none |
| Route.PolylineStaysShown | src/pages/Map/RouteComponent.js:18-30 | a drawn polyline disappears only through an answer whose path is empty |
| Route.StaleAnswerOverwrites | src/pages/Map/RouteComponent.js:7-28 | requests to A then B, answered B then A, leave A's path |
| FilterMenu.ActiveFiltersCount | src/pages/Map/FilterMenu.js:28-34 | the count is at most the number of selected types plus two (at most two with "all" selected), and zero exactly when nothing restricts |
| FilterMenu.ClearButtonShown | src/pages/Map/FilterMenu.js:43 | the clear button renders iff the active count is positive; see `ClearButtonWhenRestricted` for when that is |
| FilterMenu.DefaultsInactive | src/pages/Map/FilterMenu.js:28-34 | at `['all']`, `'all'`, `0` the count is 0 and the clear button is hidden |
| FilterMenu.CriteriaIndependent | src/pages/Map/FilterMenu.js:28-34 | the count is the sum of the three criteria's separate contributions; a price bucket other than "all" adds exactly one, and so does a positive minimum rating |
| FilterMenu.AllBoxNeutralizesCuisines | src/pages/Map/FilterMenu.js:30 | with "all" ticked the cuisine list adds nothing; otherwise it adds its length |
| FilterMenu.ClearButtonWhenRestricted | src/pages/Map/FilterMenu.js:43 | the clear button shows iff there is a specific cuisine without "all", a price bucket, or a positive rating |
| FilterMenu.PriceBucketsContiguous | src/pages/Map/FilterMenu.js:14-19 | cheap starts at 0 and ends where medium starts (50000); medium ends where expensive starts (100000); expensive has no upper bound |
| FilterMenu.RatingsIncreasing | src/pages/Map/FilterMenu.js:21-26 | the rating thresholds 0, 3, 4, 4.5 are strictly increasing |
| FilterMenu.StarGlyphs | src/pages/Map/FilterMenu.js:124-128 | a positive value shows floor(value) glyphs, every one a '★'; a zero value shows none |
| FilterMenu.TableStars | src/pages/Map/FilterMenu.js:124-128 | the table shows 0, 3, 4 and 4 stars; 4.5 gives 4 |
| FilterMenu.CuisineChecked | src/pages/Map/FilterMenu.js:69 | a cuisine box is ticked iff its id is among the selected types; "all" can be ticked with others (`AllBoxNeutralizesCuisines`) |
| FilterMenu.PriceChecked | src/pages/Map/FilterMenu.js:94 | a price radio is checked iff its id equals the criterion |
| FilterMenu.RatingChecked | src/pages/Map/FilterMenu.js:118 | a rating radio is checked iff its value equals the criterion |
| FilterMenu.OnePriceChecked | src/pages/Map/FilterMenu.js:94 | some price radio is checked iff the criterion is a table id, and never more than one |
| FilterMenu.OneRatingChecked | src/pages/Map/FilterMenu.js:118 | some rating radio is checked iff the criterion is a table value, and never more than one |

## Left out

- JSX markup, styling and layout are not modelled. This covers `AppLayout.js`,
  `LocationButton.js`, `RestaurantPopup.js` and `App.js`. They hold no logic
  beyond presentation and routing.
- Leaflet is not modelled: `ChangeView`/`map.setView`, the marker-icon patch,
  the tile layer and the markers. It is a foreign rendering library; the model
  keeps the center and zoom that the page hands to it.
- `fetch`, `response.json()` and the OSRM service are not modelled. Their
  outcome is the `RouteResponse` datatype: a body whose `routes` field may be
  absent, or a thrown error.
- Route answers are replayed in arrival order, without their timing. A route
  entry whose geometry is missing stands for the `TypeError` the source
  catches.
- `navigator.geolocation` is a boolean capability plus a `PositionResult`
  event (`Located(lat, lng)` or `PositionError`). The error is logged to the
  console, which is not modelled.
- Registering and removing the `document` listener is not modelled. Only the
  handler's effect is (`MouseDown`); whether the press lands inside the box
  is a parameter.
- Text.LowerChar: lower-cases ASCII, Latin-1 and the Vietnamese letters of
  Latin Extended-A/B and Latin Extended Additional. It is not all of
  JavaScript's Unicode `toLowerCase`. The search properties are stated
  relative to this function.
- Route.RequestUrl: the printing of a coordinate by a JavaScript template
  literal is a parameter. The URL is exact only up to that number-to-string
  conversion.
- Strings are sequences of Unicode scalar values, while JavaScript strings
  are UTF-16 code units. A lone surrogate cannot be represented. Matching
  well-formed text is unaffected.
- Floating point and `Infinity` are not modelled. Coordinates and ratings are
  reals. Prices are integers. The unbounded maximum is `None`.
- Price-text parsing, the cuisine, price and rating filter predicate, tag
  toggling and clear-all are not modelled. They live in a parent component
  that is not part of this model, so there is no code to follow.
- The search bar's `onSelectRestaurant` target is not modelled. Whatever the
  parent does with the chosen restaurant is not part of this model; `Select`
  returns the restaurant it would be handed.
