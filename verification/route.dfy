/**
 The route overlay (`RouteComponent.js`): the OSRM request built from the two
 end points, the handling of the routing service's answer, and the polyline
 predicate. The HTTP round trip itself is outside the model; its outcome is
 the `RouteResponse` the component receives.
 */
module Route {
  import opened Wrappers
  import opened Catalog

  /** A GeoJSON position, longitude first (section 3.1.1 of RFC 7946). */
  type GeoPosition = (real, real)

  /** Service prefix and query string of the request. */
  const OsrmBase: string := "https://router.project-osrm.org/route/v1/driving/"
  const OsrmOptions: string := "?overview=full&geometries=geojson"

  /** The request the effect issues: origin and destination as GeoJSON positions. */
  datatype RouteRequest = RouteRequest(origin: GeoPosition, destination: GeoPosition)

  /** A GeoJSON position read back as a Leaflet `[lat, lng]` pair. */
  function ToLatLng(p: GeoPosition): (q: Position)
    ensures q.0 == p.1 && q.1 == p.0
  {
    (p.1, p.0)
  }

  /** The effect's guard and request. No request unless both ends are present;
      the origin is the `{lat, lng}` object and the destination the `[lat, lng]`
      array, both written longitude first. */
  function BuildRequest(start: Option<LatLng>, end: Option<Position>): (req: Option<RouteRequest>)
    ensures req.Some? <==> start.Some? && end.Some?
    ensures req.Some? ==>
      && ToLatLng(req.value.origin) == (start.value.lat, start.value.lng)
      && ToLatLng(req.value.destination) == end.value
  {
    if start.Some? && end.Some? then
      Some(RouteRequest((start.value.lng, start.value.lat), (end.value.1, end.value.0)))
    else None
  }

  /** The request URL, given how JavaScript prints a coordinate. */
  function RequestUrl(req: RouteRequest, show: real -> string): (url: string)
    ensures |url| >= |OsrmBase| + |OsrmOptions|
    ensures url[..|OsrmBase|] == OsrmBase
    ensures url[|url| - |OsrmOptions|..] == OsrmOptions
    ensures url[|OsrmBase|..|url| - |OsrmOptions|] ==
      show(req.origin.0) + "," + show(req.origin.1) + ";" + show(req.destination.0) + "," + show(req.destination.1)
  {
    var path := show(req.origin.0) + "," + show(req.origin.1) + ";" + show(req.destination.0) + "," + show(req.destination.1);
    var url := OsrmBase + path + OsrmOptions;
    assert url[..|OsrmBase|] == OsrmBase;
    assert url[|OsrmBase|..|url| - |OsrmOptions|] == path;
    url
  }

  /** The URL of the request for `start` and `end`: the origin's longitude and
      latitude, then the destination array's element 1 and element 0. */
  lemma UrlFromEnds(start: LatLng, end: Position, show: real -> string)
    ensures BuildRequest(Some(start), Some(end)).Some?
    ensures RequestUrl(BuildRequest(Some(start), Some(end)).value, show) ==
      OsrmBase + show(start.lng) + "," + show(start.lat) + ";" + show(end.1) + "," + show(end.0) + OsrmOptions
  {
  }

  /** The text before the first `c`, or all of `s` when there is none. */
  function UpTo(s: string, c: char): string
    decreases |s|
  {
    if s == [] || s[0] == c then [] else [s[0]] + UpTo(s[1..], c)
  }

  /** The text after the first `c`, or nothing when there is none. */
  function After(s: string, c: char): string
    decreases |s|
  {
    if s == [] then [] else if s[0] == c then s[1..] else After(s[1..], c)
  }

  /** Splitting at the first `c` recovers the text on either side when the
      left part holds no `c`. */
  lemma {:induction false} SplitAtFirst(a: string, c: char, b: string)
    requires c !in a
    ensures UpTo(a + [c] + b, c) == a && After(a + [c] + b, c) == b
    decreases |a|
  {
    if a == [] {
      assert a + [c] + b == [c] + b;
    } else {
      assert (a + [c] + b)[1..] == a[1..] + [c] + b;
      SplitAtFirst(a[1..], c, b);
    }
  }

  /** The path segment of a URL, split at `,`, `;` and `,` again. */
  function PathFields(path: string): (string, string, string, string) {
    var rest := After(path, ',');
    var dest := After(rest, ';');
    (UpTo(path, ','), UpTo(rest, ';'), UpTo(dest, ','), After(dest, ','))
  }

  /** When printed coordinates contain no separator, the URL's path reads back
      as the origin's longitude and latitude, then the destination's longitude
      and latitude: each end is sent longitude first. */
  lemma UrlReadsBack(start: LatLng, end: Position, show: real -> string)
    requires forall x :: ',' !in show(x) && ';' !in show(x)
    ensures var url := RequestUrl(BuildRequest(Some(start), Some(end)).value, show);
      PathFields(url[|OsrmBase|..|url| - |OsrmOptions|]) == (show(start.lng), show(start.lat), show(end.1), show(end.0))
  {
    var url := RequestUrl(BuildRequest(Some(start), Some(end)).value, show);
    var a, b, c, d := show(start.lng), show(start.lat), show(end.1), show(end.0);
    var path := url[|OsrmBase|..|url| - |OsrmOptions|];
    assert path == a + "," + b + ";" + c + "," + d;
    var rest := b + ";" + c + "," + d;
    var dest := c + "," + d;
    assert path == a + [','] + rest;
    SplitAtFirst(a, ',', rest);
    assert rest == b + [';'] + dest;
    SplitAtFirst(b, ';', dest);
    assert dest == c + [','] + d;
    SplitAtFirst(c, ',', d);
  }

  /** `coordinates.map(coord => [coord[1], coord[0]])`. */
  function Transpose(coords: seq<GeoPosition>): (points: seq<Position>)
    ensures |points| == |coords|
    ensures forall i :: 0 <= i < |coords| ==> points[i] == ToLatLng(coords[i])
  {
    seq(|coords|, i requires 0 <= i < |coords| => ToLatLng(coords[i]))
  }

  /** Swapping back the transposed points recovers the service's coordinates. */
  lemma TransposeTwice(coords: seq<GeoPosition>)
    ensures Transpose(Transpose(coords)) == coords
  {
  }

  /** The first route of a response: its geometry, or None when the geometry
      is missing (reading `coordinates` then throws). */
  datatype RouteEntry = RouteEntry(geometry: Option<seq<GeoPosition>>)

  /** What the component gets back: a parsed body whose `routes` field may be
      absent, or an exception from `fetch` or `response.json()`. */
  datatype RouteResponse = Body(routes: Option<seq<RouteEntry>>) | Thrown

  /** The path a response carries, if the component can use it. */
  function UsablePath(resp: RouteResponse): Option<seq<GeoPosition>> {
    match resp
    case Thrown => None
    case Body(routes) =>
      if routes.Some? && |routes.value| > 0 then routes.value[0].geometry else None
  }

  /** The route points before any answer: empty, so no polyline. */
  const InitialPoints: seq<Position> := []

  /** Applying one answer. A usable first route replaces the points with its
      transposed coordinates; a missing route list, an empty one, a missing
      geometry or a thrown error leave the previous points in place. */
  function ApplyResponse(points: seq<Position>, resp: RouteResponse): (r: seq<Position>)
    ensures UsablePath(resp).None? ==> r == points
    ensures UsablePath(resp).Some? ==>
      (|r| == |UsablePath(resp).value| && forall i :: 0 <= i < |r| ==> r[i] == ToLatLng(UsablePath(resp).value[i]))
  {
    match resp
    case Thrown => points
    case Body(routes) =>
      if routes.Some? && |routes.value| > 0 then
        match routes.value[0].geometry
        case Some(coords) => Transpose(coords)
        case None => points
      else points
  }

  /** The polyline is rendered. */
  predicate PolylineShown(points: seq<Position>) {
    |points| > 0
  }

  /** A freshly mounted overlay draws nothing, and its first answer draws a
      polyline exactly when that answer carries a non-empty usable path. */
  lemma FirstAnswerDraws(resp: RouteResponse)
    ensures !PolylineShown(InitialPoints)
    ensures PolylineShown(ApplyResponse(InitialPoints, resp)) <==>
      UsablePath(resp).Some? && |UsablePath(resp).value| > 0
  {
  }

  /** Answers applied in the order they arrive. */
  function ApplyAll(points: seq<Position>, arrivals: seq<RouteResponse>): seq<Position>
    decreases |arrivals|
  {
    if arrivals == [] then points else ApplyAll(ApplyResponse(points, arrivals[0]), arrivals[1..])
  }

  /** The last usable path among the answers, looking from the end. */
  function LastUsable(arrivals: seq<RouteResponse>): Option<seq<GeoPosition>>
    decreases |arrivals|
  {
    if arrivals == [] then None
    else
      var last := arrivals[|arrivals| - 1];
      if UsablePath(last).Some? then UsablePath(last) else LastUsable(arrivals[..|arrivals| - 1])
  }

  /** Whatever arrives last with a usable route decides the path; with none,
      the points are untouched. There is no check of which request an answer
      belongs to. */
  lemma {:induction false} LastArrivalWins(points: seq<Position>, arrivals: seq<RouteResponse>)
    ensures ApplyAll(points, arrivals) ==
      match LastUsable(arrivals)
      case Some(coords) => Transpose(coords)
      case None => points
    decreases |arrivals|
  {
    if arrivals != [] {
      var last := arrivals[|arrivals| - 1];
      var init := arrivals[..|arrivals| - 1];
      ApplyAllSplit(points, init, last);
      assert init + [last] == arrivals;
      LastArrivalWins(points, init);
    }
  }

  /** Applying a sequence and then one more answer. */
  lemma {:induction false} ApplyAllSplit(points: seq<Position>, init: seq<RouteResponse>, last: RouteResponse)
    ensures ApplyAll(points, init + [last]) == ApplyResponse(ApplyAll(points, init), last)
    decreases |init|
  {
    if init == [] {
      assert [] + [last] == [last];
    } else {
      assert (init + [last])[1..] == init[1..] + [last];
      ApplyAllSplit(ApplyResponse(points, init[0]), init[1..], last);
    }
  }

  /** An answer without a usable route never clears the points, so a path
      once drawn stays drawn. */
  lemma {:induction false} PolylineStaysShown(points: seq<Position>, arrivals: seq<RouteResponse>)
    requires PolylineShown(points)
    ensures PolylineShown(ApplyAll(points, arrivals)) || exists i :: 0 <= i < |arrivals| && UsablePath(arrivals[i]) == Some([])
    decreases |arrivals|
  {
    if arrivals != [] {
      var next := ApplyResponse(points, arrivals[0]);
      if PolylineShown(next) {
        PolylineStaysShown(next, arrivals[1..]);
        if !PolylineShown(ApplyAll(points, arrivals)) {
          var i :| 0 <= i < |arrivals[1..]| && UsablePath(arrivals[1..][i]) == Some([]);
          assert arrivals[i + 1] == arrivals[1..][i];
        }
      } else {
        assert UsablePath(arrivals[0]) == Some([]);
      }
    }
  }

  /** Two requests in flight, to A and then to B, answered B first: the
      earlier request's late answer overwrites the newer path. */
  lemma StaleAnswerOverwrites(pathA: seq<GeoPosition>, pathB: seq<GeoPosition>)
    ensures ApplyAll(InitialPoints, [Body(Some([RouteEntry(Some(pathB))])), Body(Some([RouteEntry(Some(pathA))]))])
      == Transpose(pathA)
  {
    var answerB := Body(Some([RouteEntry(Some(pathB))]));
    var answerA := Body(Some([RouteEntry(Some(pathA))]));
    var arrivals := [answerB, answerA];
    assert arrivals[1..] == [answerA];
    assert ApplyAll(InitialPoints, arrivals) == ApplyAll(ApplyResponse(InitialPoints, answerB), [answerA]);
  }
}
