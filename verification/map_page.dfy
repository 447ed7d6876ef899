/**
 The map page (`index.js`): the locate-me state machine around the device's
 position request, the directions click, and the condition under which the
 route overlay is drawn. React's asynchronous state updates are written as
 sequential transitions; the device answers through `PositionCallback`.
 */
module MapPage {
  import opened Wrappers
  import opened Catalog
  import opened Route

  /** The page's six pieces of React state. */
  datatype MapState = MapState(
    userLocation: Option<LatLng>,
    center: Position,
    zoom: int,
    isLocating: bool,
    selected: Option<Restaurant>,
    showRoute: bool)

  /** Zoom applied when the user's position arrives. */
  const LocatedZoom: int := 16

  /** State at mount: no location, the default view, nothing selected. */
  const Initial: MapState := MapState(None, DefaultCenter, DefaultZoom, false, None, false)

  /** At mount the page shows the default view of Hanoi, no user marker and
      no route, and the locate button is enabled. */
  lemma InitialView()
    ensures Initial.center == (21.0285, 105.8542) && Initial.zoom == 13
    ensures !UserMarkerShown(Initial) && !RouteShown(Initial) && !LocateDisabled(Initial)
    ensures Initial.selected.None?
  {
  }

  /** What `getCurrentPosition` eventually reports. */
  datatype PositionResult = Located(lat: real, lng: real) | PositionError

  /** A click handler's effect: the next state, and whether it asked the
      device for a position. */
  datatype Click = Click(state: MapState, requested: bool)

  /** `handleLocationClick`. Ignored while a request is outstanding; with no
      geolocation capability nothing happens at all; otherwise one request
      goes out and the page enters the locating state. */
  function LocationClick(s: MapState, hasGeolocation: bool): (c: Click)
    ensures c.requested <==> !s.isLocating && hasGeolocation
    ensures c.requested ==> c.state == s.(isLocating := true)
    ensures !c.requested ==> c.state == s
  {
    if s.isLocating then Click(s, false)
    else if hasGeolocation then Click(s.(isLocating := true), true)
    else Click(s, false)
  }

  /** The success and error callbacks of the position request. Success stores
      the location and centres the map on it at zoom 16; an error only clears
      the locating flag. Either way the selection and route flag are kept. */
  function PositionCallback(s: MapState, result: PositionResult): (r: MapState)
    ensures !r.isLocating && r.selected == s.selected && r.showRoute == s.showRoute
    ensures result.Located? ==>
      && r.userLocation == Some(LatLng(result.lat, result.lng))
      && r.center == (result.lat, result.lng)
      && r.zoom == LocatedZoom
    ensures result.PositionError? ==>
      r.userLocation == s.userLocation && r.center == s.center && r.zoom == s.zoom
  {
    match result
    case Located(lat, lng) =>
      s.(userLocation := Some(LatLng(lat, lng)), center := (lat, lng), zoom := LocatedZoom, isLocating := false)
    case PositionError =>
      s.(isLocating := false)
  }

  /** `handleDirectionsClick`: asks for the position only when none is known
      (through the same guarded handler), then selects the restaurant and turns
      the route on. The location and the view are left as they were. */
  function DirectionsClick(s: MapState, restaurant: Restaurant, hasGeolocation: bool): (c: Click)
    ensures c.requested <==> s.userLocation.None? && !s.isLocating && hasGeolocation
    ensures c.state.selected == Some(restaurant) && c.state.showRoute
    ensures c.state.userLocation == s.userLocation
    ensures c.state.center == s.center && c.state.zoom == s.zoom
    ensures c.state.isLocating <==> s.isLocating || c.requested
  {
    var located := if s.userLocation.None? then LocationClick(s, hasGeolocation) else Click(s, false);
    Click(located.state.(selected := Some(restaurant), showRoute := true), located.requested)
  }

  /** The route overlay is mounted. */
  predicate RouteShown(s: MapState) {
    s.showRoute && s.selected.Some? && s.userLocation.Some?
  }

  /** The locate button is disabled. */
  predicate LocateDisabled(s: MapState) {
    s.isLocating
  }

  /** The "your position" marker is drawn. */
  predicate UserMarkerShown(s: MapState) {
    s.userLocation.Some?
  }

  /** The props handed to the route overlay while it is mounted: the user's
      location as the start and the selected restaurant's position as the end. */
  function RouteEnds(s: MapState): (ends: Option<(LatLng, Position)>)
    ensures ends.Some? <==> RouteShown(s)
    ensures ends.Some? ==>
      Some(ends.value.0) == s.userLocation && ends.value.1 == s.selected.value.position
  {
    if RouteShown(s) then Some((s.userLocation.value, s.selected.value.position)) else None
  }

  /** While the overlay is mounted it always has both ends, so it asks the
      routing service for the path from the user's location to the selected
      restaurant, and the ends read back in `[lat, lng]` order are exactly those. */
  lemma OverlayRequestsSelectedRoute(s: MapState)
    requires RouteShown(s)
    ensures var ends := RouteEnds(s).value;
      var req := BuildRequest(Some(ends.0), Some(ends.1));
      && req.Some?
      && ToLatLng(req.value.origin) == (s.userLocation.value.lat, s.userLocation.value.lng)
      && ToLatLng(req.value.destination) == s.selected.value.position
  {
  }

  /** The locate button is disabled exactly while a click on it would be ignored. */
  lemma DisabledExactlyWhenIgnored(s: MapState, hasGeolocation: bool)
    requires hasGeolocation
    ensures LocateDisabled(s) <==> LocationClick(s, hasGeolocation) == Click(s, false)
  {
  }

  /** After a failed attempt the button is enabled again and a new click asks
      the device once more. */
  lemma RetryAfterError(s: MapState)
    ensures !LocateDisabled(PositionCallback(s, PositionError))
    ensures LocationClick(PositionCallback(s, PositionError), true).requested
  {
  }

  /** With the location already known, directions draw the route at once and
      no position request is made. */
  lemma DirectionsWithKnownLocation(s: MapState, r: Restaurant, hasGeolocation: bool)
    requires s.userLocation.Some?
    ensures var c := DirectionsClick(s, r, hasGeolocation);
      !c.requested && RouteShown(c.state) && RouteEnds(c.state) == Some((s.userLocation.value, r.position))
  {
  }

  /** From the initial page, directions to `r` followed by a successful fix
      draw the route from the fix to `r`, with the map centred on the fix. */
  lemma DirectionsThenLocated(r: Restaurant, lat: real, lng: real)
    ensures var c := DirectionsClick(Initial, r, true);
      && c.requested
      && !RouteShown(c.state)
      && var s := PositionCallback(c.state, Located(lat, lng));
         RouteShown(s) && RouteEnds(s) == Some((LatLng(lat, lng), r.position))
         && s.center == (lat, lng) && s.zoom == LocatedZoom
  {
  }

  /** From the initial page, directions followed by a failed fix leave the
      route off and the view at its default. */
  lemma DirectionsThenError(r: Restaurant)
    ensures var s := PositionCallback(DirectionsClick(Initial, r, true).state, PositionError);
      !RouteShown(s) && s.center == DefaultCenter && s.zoom == DefaultZoom && !LocateDisabled(s)
  {
  }

  // ---------------------------------------------------------------------------
  // Sessions: interleavings of user clicks and device answers

  /** Everything that can happen to the page. */
  datatype Event = LocateClicked | DirectionsClicked(restaurant: Restaurant) | PositionArrived(result: PositionResult)

  /** The page plus bookkeeping of position requests: how many are outstanding
      and how many were ever issued. */
  datatype Session = Session(page: MapState, pending: nat, issued: nat)

  const Start: Session := Session(Initial, 0, 0)

  /** One event. A device answer can only arrive for an outstanding request;
      with none outstanding there is no callback to run. */
  function Step(w: Session, e: Event, hasGeolocation: bool): Session {
    match e
    case LocateClicked =>
      var c := LocationClick(w.page, hasGeolocation);
      Session(c.state, w.pending + (if c.requested then 1 else 0), w.issued + (if c.requested then 1 else 0))
    case DirectionsClicked(r) =>
      var c := DirectionsClick(w.page, r, hasGeolocation);
      Session(c.state, w.pending + (if c.requested then 1 else 0), w.issued + (if c.requested then 1 else 0))
    case PositionArrived(result) =>
      if w.pending == 0 then w
      else Session(PositionCallback(w.page, result), w.pending - 1, w.issued)
  }

  /** A sequence of events, first to last. */
  function Run(w: Session, events: seq<Event>, hasGeolocation: bool): Session
    decreases |events|
  {
    if events == [] then w else Run(Step(w, events[0], hasGeolocation), events[1..], hasGeolocation)
  }

  /** The locating flag is up exactly when one request is outstanding. */
  predicate Consistent(w: Session) {
    w.pending == if w.page.isLocating then 1 else 0
  }

  /** Every interleaving keeps the flag and the outstanding requests in step,
      so at most one position request is ever in flight. */
  lemma {:induction false} AtMostOneInFlight(w: Session, events: seq<Event>, hasGeolocation: bool)
    requires Consistent(w)
    ensures Consistent(Run(w, events, hasGeolocation))
    ensures Run(w, events, hasGeolocation).pending <= 1
    decreases |events|
  {
    if events != [] {
      AtMostOneInFlight(Step(w, events[0], hasGeolocation), events[1..], hasGeolocation);
    }
  }

  /** Once the route is shown it stays shown: no event clears the location,
      the selection or the route flag. */
  lemma {:induction false} RouteStaysShown(w: Session, events: seq<Event>, hasGeolocation: bool)
    requires RouteShown(w.page)
    ensures RouteShown(Run(w, events, hasGeolocation).page)
    decreases |events|
  {
    if events != [] {
      RouteStaysShown(Step(w, events[0], hasGeolocation), events[1..], hasGeolocation);
    }
  }

  /** `n` clicks in a row. */
  function Clicks(n: nat): (es: seq<Event>)
    ensures |es| == n && forall i :: 0 <= i < n ==> es[i] == LocateClicked
  {
    if n == 0 then [] else [LocateClicked] + Clicks(n - 1)
  }

  /** Clicks while a request is outstanding change nothing. */
  lemma {:induction false} ClicksWhileLocating(w: Session, n: nat, hasGeolocation: bool)
    requires w.page.isLocating
    ensures Run(w, Clicks(n), hasGeolocation) == w
    decreases n
  {
    if n > 0 {
      assert Clicks(n)[1..] == Clicks(n - 1);
      ClicksWhileLocating(w, n - 1, hasGeolocation);
    }
  }

  /** Any number of rapid taps on locate-me from the initial page issue exactly
      one position request. */
  lemma RepeatedTapsOneRequest(n: nat)
    requires n > 0
    ensures Run(Start, Clicks(n), true).issued == 1
  {
    var first := Step(Start, LocateClicked, true);
    assert Clicks(n)[1..] == Clicks(n - 1);
    ClicksWhileLocating(first, n - 1, true);
  }
}
