/** GPX extraction and emission over an already-parsed element tree, and the
    route-proximity helpers (utils/gpxParser.ts). Text-level XML parsing and
    printing are outside the model; the tree is what the XML library hands
    over or receives. */
module GpxParser {
  import opened Wrappers
  import opened Strings
  import opened Store

  /** Great-circle distance in kilometres from (lat1, lon1) to (lat2, lon2).
      The haversine formula itself is left abstract. */
  type DistFn = (real, real, real, real) -> real

  /** A bare coordinate pair. */
  datatype LatLon = LatLon(lat: real, lon: real)

  // ---------------------------------------------------------------------
  // The parsed element tree (GPX 1.1)
  // ---------------------------------------------------------------------

  /** A `trkpt` or `rtept` element. `lat` and `lon` are its attributes:
      None when absent or empty (the two falsy cases), otherwise the number
      the attribute text denotes. `ele` is the value of the `ele` child, which
      the XML library delivers as a number; `time` is the `time` child. */
  datatype PointElement = PointElement(lat: Option<real>, lon: Option<real>, ele: Option<real>, time: Option<string>)

  /** A `trkseg` element and its `trkpt` children in document order. */
  datatype SegmentElement = SegmentElement(trkpts: seq<PointElement>)

  /** A `trk` element: optional `name` child, `trkseg` children in order. */
  datatype TrackElement = TrackElement(name: Option<string>, trksegs: seq<SegmentElement>)

  /** A `rte` element: optional `name` child, `rtept` children in order. */
  datatype RouteElement = RouteElement(name: Option<string>, rtepts: seq<PointElement>)

  datatype Metadata = Metadata(name: string, time: string)

  /** The `gpx` root: its attributes, `metadata`, and the `trk` and `rte`
      children in document order. */
  datatype GpxElement = GpxElement(
    version: string,
    creator: string,
    xmlns: string,
    xmlnsXsi: string,
    schemaLocation: string,
    metadata: Option<Metadata>,
    trks: seq<TrackElement>,
    rtes: seq<RouteElement>)

  /** A whole document; `gpx` is None when there is no `gpx` root. */
  datatype Document = Document(gpx: Option<GpxElement>)

  /** The chosen track has no `trkseg` child: the source then reads `trkpt`
      of an undefined segment, which throws. */
  datatype ParseError = MissingTrackSegment

  const GpxNamespace: string := "http://www.topografix.com/GPX/1/1"
  const DefaultTrackName: string := "Imported Track"
  const DefaultRouteName: string := "Imported Route"
  const GeneratedRouteName: string := "Refuel Route"

  /** JavaScript truthiness of a numeric value: zero is falsy. */
  predicate EleTruthy(ele: Option<real>) {
    ele.Some? && ele.value != 0.0
  }

  /** JavaScript truthiness of an optional string. */
  predicate TimeTruthy(time: Option<string>) {
    time.Some? && Truthy(time.value)
  }

  /** A point element is read only when it has both coordinates. */
  predicate HasCoordinates(pt: PointElement) {
    pt.lat.Some? && pt.lon.Some?
  }

  /** The point read from a complete point element: elevation only when
      truthy, time only for track points. */
  function ReadPoint(pt: PointElement, withTime: bool): GpxPoint
    requires HasCoordinates(pt)
  {
    GpxPoint(pt.lat.value, pt.lon.value,
             if EleTruthy(pt.ele) then pt.ele else None,
             if withTime then pt.time else None)
  }

  /** The points read from a list of point elements, in order, skipping the
      ones that lack a coordinate. */
  function ReadPoints(pts: seq<PointElement>, withTime: bool): (r: seq<GpxPoint>)
    ensures |r| <= |pts|
    ensures forall q :: q in r ==> q.ele.Some? ==> q.ele.value != 0.0
    ensures !withTime ==> forall q :: q in r ==> q.time.None?
  {
    if |pts| == 0 then []
    else
      var init := ReadPoints(pts[..|pts| - 1], withTime);
      var last := pts[|pts| - 1];
      if HasCoordinates(last) then init + [ReadPoint(last, withTime)] else init
  }

  /** All points of a track, segment after segment. */
  function TrackPoints(segs: seq<SegmentElement>): (r: seq<GpxPoint>)
    ensures forall q :: q in r ==> q.ele.Some? ==> q.ele.value != 0.0
  {
    if |segs| == 0 then []
    else TrackPoints(segs[..|segs| - 1]) + ReadPoints(segs[|segs| - 1].trkpts, true)
  }

  /** `parseGPX` over the element tree. The first `trk` wins over any `rte`;
      with neither, the result is an empty, empty-named route. */
  function ParseGpx(doc: Document): (r: Result<GpxRoute, ParseError>)
    ensures r.Failure? <==>
      doc.gpx.Some? && |doc.gpx.value.trks| > 0 && |doc.gpx.value.trks[0].trksegs| == 0
    ensures r.Success? ==> r.value.name.Some?
    ensures r.Success? ==> forall q :: q in r.value.points ==> q.ele.Some? ==> q.ele.value != 0.0
    ensures doc.gpx.None? || (|doc.gpx.value.trks| == 0 && |doc.gpx.value.rtes| == 0)
      ==> r == Success(GpxRoute(Some(""), []))
    ensures r.Success? && doc.gpx.Some? && |doc.gpx.value.trks| > 0 ==>
      && r.value.name == Some(OptOrElse(doc.gpx.value.trks[0].name, DefaultTrackName))
      && r.value.points == TrackPoints(doc.gpx.value.trks[0].trksegs)
    ensures doc.gpx.Some? && |doc.gpx.value.trks| == 0 && |doc.gpx.value.rtes| > 0 ==>
      && r.Success?
      && r.value.name == Some(OptOrElse(doc.gpx.value.rtes[0].name, DefaultRouteName))
      && r.value.points == ReadPoints(doc.gpx.value.rtes[0].rtepts, false)
      && forall q :: q in r.value.points ==> q.time.None?
  {
    if doc.gpx.Some? && |doc.gpx.value.trks| > 0 then
      var track := doc.gpx.value.trks[0];
      if |track.trksegs| == 0 then Failure(MissingTrackSegment)
      else Success(GpxRoute(Some(OptOrElse(track.name, DefaultTrackName)), TrackPoints(track.trksegs)))
    else if doc.gpx.Some? && |doc.gpx.value.rtes| > 0 then
      var route := doc.gpx.value.rtes[0];
      Success(GpxRoute(Some(OptOrElse(route.name, DefaultRouteName)), ReadPoints(route.rtepts, false)))
    else
      Success(GpxRoute(Some(""), []))
  }

  /** Reading is compositional: the points of `a + b` are those of `a`
      followed by those of `b`. */
  lemma {:induction false} ReadPointsAppend(a: seq<PointElement>, b: seq<PointElement>, withTime: bool)
    ensures ReadPoints(a + b, withTime) == ReadPoints(a, withTime) + ReadPoints(b, withTime)
    decreases |b|
  {
    if |b| > 0 {
      var b' := b[..|b| - 1];
      assert (a + b)[..|a + b| - 1] == a + b';
      assert (a + b)[|a + b| - 1] == b[|b| - 1];
      ReadPointsAppend(a, b', withTime);
    } else {
      assert a + b == a;
    }
  }

  /** A point element missing a coordinate is skipped without error: removing
      it changes nothing. */
  lemma IncompletePointSkipped(a: seq<PointElement>, pt: PointElement, b: seq<PointElement>, withTime: bool)
    requires !HasCoordinates(pt)
    ensures ReadPoints(a + [pt] + b, withTime) == ReadPoints(a + b, withTime)
  {
    ReadPointsAppend(a + [pt], b, withTime);
    ReadPointsAppend(a, [pt], withTime);
    ReadPointsAppend(a, b, withTime);
    assert ReadPoints([pt], withTime) == [] by {
      assert [pt][..0] == [];
    }
  }

  /** When every element has both coordinates, each yields exactly its point. */
  lemma {:induction false} CompletePointsAllRead(pts: seq<PointElement>, withTime: bool)
    requires forall i :: 0 <= i < |pts| ==> HasCoordinates(pts[i])
    ensures |ReadPoints(pts, withTime)| == |pts|
    ensures forall i :: 0 <= i < |pts| ==>
      ReadPoints(pts, withTime)[i] == ReadPoint(pts[i], withTime)
  {
    if |pts| > 0 {
      CompletePointsAllRead(pts[..|pts| - 1], withTime);
    }
  }

  /** Segments are concatenated in document order. */
  lemma {:induction false} TrackPointsAppend(a: seq<SegmentElement>, b: seq<SegmentElement>)
    ensures TrackPoints(a + b) == TrackPoints(a) + TrackPoints(b)
    decreases |b|
  {
    if |b| > 0 {
      var b' := b[..|b| - 1];
      assert (a + b)[..|a + b| - 1] == a + b';
      assert (a + b)[|a + b| - 1] == b[|b| - 1];
      TrackPointsAppend(a, b');
    } else {
      assert a + b == a;
    }
  }

  /** Only the first `trk` is read and any `rte` is then ignored. */
  lemma TrackTakesPrecedence(g: GpxElement, otherTrks: seq<TrackElement>, otherRtes: seq<RouteElement>)
    requires |g.trks| > 0
    ensures ParseGpx(Document(Some(g.(trks := [g.trks[0]] + otherTrks, rtes := otherRtes))))
         == ParseGpx(Document(Some(g)))
  {
  }

  /** Without a `trk`, only the first `rte` is read. */
  lemma FirstRouteOnly(g: GpxElement, otherRtes: seq<RouteElement>)
    requires |g.trks| == 0 && |g.rtes| > 0
    ensures ParseGpx(Document(Some(g.(rtes := [g.rtes[0]] + otherRtes))))
         == ParseGpx(Document(Some(g)))
  {
  }

  /** The element written for one route point. */
  function WritePoint(p: GpxPoint): PointElement {
    PointElement(Some(p.lat), Some(p.lon),
                 if EleTruthy(p.ele) then p.ele else None,
                 if TimeTruthy(p.time) then p.time else None)
  }

  function WritePoints(points: seq<GpxPoint>): (r: seq<PointElement>)
    ensures |r| == |points|
    ensures forall i :: 0 <= i < |points| ==> r[i] == WritePoint(points[i])
  {
    if |points| == 0 then [] else WritePoints(points[..|points| - 1]) + [WritePoint(points[|points| - 1])]
  }

  /** `generateGPX` as a tree: a GPX 1.1 root holding one `trk` with one
      `trkseg` with one `trkpt` per point, in order. `now` is the metadata
      timestamp, which the source takes from the clock. */
  function GenerateGpx(route: GpxRoute, now: string): (doc: Document)
    ensures doc.gpx.Some?
    ensures doc.gpx.value.version == "1.1" && doc.gpx.value.xmlns == GpxNamespace
    ensures |doc.gpx.value.trks| == 1 && |doc.gpx.value.rtes| == 0
    ensures |doc.gpx.value.trks[0].trksegs| == 1
    ensures var pts := doc.gpx.value.trks[0].trksegs[0].trkpts;
      && |pts| == |route.points|
      && forall i :: 0 <= i < |pts| ==>
           && pts[i].lat == Some(route.points[i].lat)
           && pts[i].lon == Some(route.points[i].lon)
           && (pts[i].ele.Some? <==> EleTruthy(route.points[i].ele))
           && (pts[i].time.Some? <==> TimeTruthy(route.points[i].time))
    ensures var pts := doc.gpx.value.trks[0].trksegs[0].trkpts;
      forall i :: 0 <= i < |pts| ==>
        && (pts[i].ele.Some? ==> pts[i].ele == route.points[i].ele)
        && (pts[i].time.Some? ==> pts[i].time == route.points[i].time)
    ensures doc.gpx.value.trks[0].name == Some(OptOrElse(route.name, GeneratedRouteName))
    ensures doc.gpx.value.creator == "Refuel App"
    ensures doc.gpx.value.metadata == Some(Metadata(OptOrElse(route.name, GeneratedRouteName), now))
  {
    var name := OptOrElse(route.name, GeneratedRouteName);
    Document(Some(GpxElement(
      "1.1",
      "Refuel App",
      GpxNamespace,
      "http://www.w3.org/2001/XMLSchema-instance",
      "http://www.topografix.com/GPX/1/1 http://www.topografix.com/GPX/1/1/gpx.xsd",
      Some(Metadata(name, now)),
      [TrackElement(Some(name), [SegmentElement(WritePoints(route.points))])],
      [])))
  }

  /** What survives an emit-and-read cycle of one point: the coordinates, a
      non-zero elevation and a non-empty time. */
  function Normalised(p: GpxPoint): GpxPoint {
    p.(ele := if EleTruthy(p.ele) then p.ele else None,
       time := if TimeTruthy(p.time) then p.time else None)
  }

  lemma {:induction false} WriteReadPoints(points: seq<GpxPoint>)
    ensures |ReadPoints(WritePoints(points), true)| == |points|
    ensures forall i :: 0 <= i < |points| ==>
      ReadPoints(WritePoints(points), true)[i] == Normalised(points[i])
  {
    var w := WritePoints(points);
    CompletePointsAllRead(w, true);
  }

  /** Reading the generated tree back yields the same coordinate sequence,
      with elevation and time kept whenever they were emitted, under the
      name the generator wrote. */
  lemma GenerateThenParse(route: GpxRoute, now: string)
    ensures var r := ParseGpx(GenerateGpx(route, now));
      && r.Success?
      && r.value.name == Some(OptOrElse(route.name, GeneratedRouteName))
      && |r.value.points| == |route.points|
      && forall i :: 0 <= i < |route.points| ==>
           && r.value.points[i].lat == route.points[i].lat
           && r.value.points[i].lon == route.points[i].lon
           && r.value.points[i] == Normalised(route.points[i])
  {
    var w := WritePoints(route.points);
    WriteReadPoints(route.points);
    assert TrackPoints([SegmentElement(w)]) == ReadPoints(w, true) by {
      assert [SegmentElement(w)][..0] == [];
    }
  }

  // ---------------------------------------------------------------------
  // Proximity helpers
  // ---------------------------------------------------------------------

  /** Distance from (lat, lon) to a route point. */
  function DistTo(dist: DistFn, lat: real, lon: real, p: GpxPoint): real {
    dist(lat, lon, p.lat, p.lon)
  }

  /** A distance that may be the `Infinity` the scans start from. */
  datatype Extended = Finite(km: real) | Infinity

  /** `d < m` with `Infinity` above every real. */
  predicate Below(d: real, m: Extended) {
    m.Infinity? || d < m.km
  }

  /** `getMinDistanceToRoute`: the least distance from (lat, lon) to a route
      point, `Infinity` for an empty route. */
  function GetMinDistanceToRoute(dist: DistFn, lat: real, lon: real, route: seq<GpxPoint>): (r: Extended)
    ensures r.Infinity? <==> |route| == 0
    ensures r.Finite? ==> forall i :: 0 <= i < |route| ==> r.km <= DistTo(dist, lat, lon, route[i])
    ensures r.Finite? ==> exists i :: 0 <= i < |route| && r.km == DistTo(dist, lat, lon, route[i])
  {
    if |route| == 0 then Infinity
    else
      var init := route[..|route| - 1];
      var m := GetMinDistanceToRoute(dist, lat, lon, init);
      var d := DistTo(dist, lat, lon, route[|route| - 1]);
      assert forall i :: 0 <= i < |init| ==> route[i] == init[i];
      if Below(d, m) then Finite(d) else m
  }

  /** The route index closest to (lat, lon), scanning left to right and
      replacing the best only on a strictly smaller distance, so the lowest
      index wins ties; 0 for an empty route. */
  function NearestIndex(dist: DistFn, lat: real, lon: real, route: seq<GpxPoint>): (r: nat)
    ensures |route| == 0 ==> r == 0
    ensures |route| > 0 ==> r < |route|
    ensures forall j :: 0 <= j < |route| ==> DistTo(dist, lat, lon, route[r]) <= DistTo(dist, lat, lon, route[j])
    ensures forall j :: 0 <= j < r ==> DistTo(dist, lat, lon, route[r]) < DistTo(dist, lat, lon, route[j])
  {
    if |route| <= 1 then 0
    else
      var init := route[..|route| - 1];
      var b := NearestIndex(dist, lat, lon, init);
      assert forall i :: 0 <= i < |init| ==> route[i] == init[i];
      var last := |route| - 1;
      if DistTo(dist, lat, lon, route[last]) < DistTo(dist, lat, lon, route[b]) then last else b
  }

  /** The nearest index is the only index that is a first minimiser. */
  lemma NearestIndexUnique(dist: DistFn, lat: real, lon: real, route: seq<GpxPoint>, k: nat)
    requires k < |route|
    requires forall j :: 0 <= j < |route| ==> DistTo(dist, lat, lon, route[k]) <= DistTo(dist, lat, lon, route[j])
    requires forall j :: 0 <= j < k ==> DistTo(dist, lat, lon, route[k]) < DistTo(dist, lat, lon, route[j])
    ensures k == NearestIndex(dist, lat, lon, route)
  {
  }

  /** The minimum distance is the distance to the nearest index. */
  lemma MinDistanceAtNearestIndex(dist: DistFn, lat: real, lon: real, route: seq<GpxPoint>)
    requires |route| > 0
    ensures GetMinDistanceToRoute(dist, lat, lon, route)
         == Finite(DistTo(dist, lat, lon, route[NearestIndex(dist, lat, lon, route)]))
  {
  }

  /** Length of a polyline: the sum of the distances between consecutive
      points (`calculateRouteDistance`, and the cumulative sum inside
      `getDistanceAlongRoute`). */
  function PathLength(dist: DistFn, points: seq<GpxPoint>): real
  {
    if |points| < 2 then 0.0
    else
      var a := points[|points| - 2];
      var b := points[|points| - 1];
      PathLength(dist, points[..|points| - 1]) + dist(a.lat, a.lon, b.lat, b.lon)
  }

  /** The along-route position of (lat, lon): the path length from the start
      to its nearest route point. */
  function AlongRoute(dist: DistFn, lat: real, lon: real, route: seq<GpxPoint>): real {
    if |route| == 0 then 0.0
    else PathLength(dist, route[..NearestIndex(dist, lat, lon, route) + 1])
  }

  /** `getDistanceAlongRoute`, with the source's two loops: find the first
      nearest index, then add up the legs before it. */
  method GetDistanceAlongRoute(dist: DistFn, lat: real, lon: real, route: seq<GpxPoint>) returns (r: real)
    ensures r == AlongRoute(dist, lat, lon, route)
    ensures NearestIndex(dist, lat, lon, route) == 0 ==> r == 0.0
  {
    var closest := ClosestIndex(dist, lat, lon, route);
    r := LegsUpTo(dist, route, closest);
  }

  /** The first loop: the lowest index at the smallest distance. */
  method ClosestIndex(dist: DistFn, lat: real, lon: real, route: seq<GpxPoint>) returns (closest: nat)
    ensures closest == NearestIndex(dist, lat, lon, route)
  {
    var minDistance := Infinity;
    closest := 0;
    for i := 0 to |route|
      invariant i == 0 ==> minDistance.Infinity? && closest == 0
      invariant i > 0 ==> closest < i && minDistance == Finite(DistTo(dist, lat, lon, route[closest]))
      invariant forall j :: 0 <= j < i ==> DistTo(dist, lat, lon, route[closest]) <= DistTo(dist, lat, lon, route[j])
      invariant forall j :: 0 <= j < closest ==> DistTo(dist, lat, lon, route[closest]) < DistTo(dist, lat, lon, route[j])
    {
      var d := DistTo(dist, lat, lon, route[i]);
      if Below(d, minDistance) {
        minDistance := Finite(d);
        closest := i;
      }
    }
    if |route| > 0 {
      NearestIndexUnique(dist, lat, lon, route, closest);
    }
  }

  /** The second loop: the legs before index `k`, added in order. */
  method LegsUpTo(dist: DistFn, route: seq<GpxPoint>, k: nat) returns (cumulative: real)
    requires k < |route| || k == 0
    ensures |route| == 0 ==> cumulative == 0.0
    ensures |route| > 0 ==> cumulative == PathLength(dist, route[..k + 1])
  {
    cumulative := 0.0;
    for i := 0 to k
      invariant |route| > 0 ==> cumulative == PathLength(dist, route[..i + 1])
      invariant |route| == 0 ==> cumulative == 0.0
    {
      var a := route[i];
      var b := route[i + 1];
      cumulative := cumulative + dist(a.lat, a.lon, b.lat, b.lon);
      assert route[..i + 2][..i + 1] == route[..i + 1];
    }
  }
}
