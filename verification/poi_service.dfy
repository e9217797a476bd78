/** Points of interest near a route, from OpenStreetMap (utils/poiService.ts).

    The Overpass endpoint is a function parameter from the query text to its
    reply, and the decimal rendering of a coordinate is a parameter too: the
    query text is modelled exactly up to how JavaScript prints a number. */
module PoiService {
  import opened Wrappers
  import opened Strings
  import opened Sorting
  import opened Seqs
  import opened Store
  import opened GpxParser

  /** Kilometres per degree used to pad the bounding box ("rough km to
      degrees"). */
  const KmPerDegree: real := 111.0

  /** Type label of an element no enabled type matches. */
  const UnknownLabel: string := "Unknown"

  const QueryHeader: string := "[out:json][timeout:25];(\n"
  const QueryFooter: string := ");\nout center;"

  /** `poiTypes.filter((t) => t.enabled)`. */
  function EnabledTypes(types: seq<PoiType>): (r: seq<PoiType>)
    ensures |r| <= |types|
    ensures forall t :: t in r <==> t in types && t.enabled
  {
    if |types| == 0 then []
    else
      var init := EnabledTypes(types[..|types| - 1]);
      var last := types[|types| - 1];
      assert types == types[..|types| - 1] + [last];
      if last.enabled then init + [last] else init
  }

  /** `filter` keeps order and multiplicity: it distributes over
      concatenation and keeps a single element exactly when it is enabled. */
  lemma {:induction false} EnabledTypesAppend(a: seq<PoiType>, b: seq<PoiType>)
    ensures EnabledTypes(a + b) == EnabledTypes(a) + EnabledTypes(b)
    ensures |a| == 1 ==> EnabledTypes(a) == (if a[0].enabled then a else [])
    decreases |b|
  {
    if |b| == 0 {
      assert a + b == a;
      assert EnabledTypes(b) == [];
    } else {
      var b', last := b[..|b| - 1], b[|b| - 1];
      EnabledTypesAppend(a, b');
      SplitLast(a, b);
      EnabledTypesStep(a + b', last);
      EnabledTypesStep(b', last);
      AppendAssoc(EnabledTypes(a), EnabledTypes(b'), if last.enabled then [last] else []);
    }
    if |a| == 1 {
      SplitLast([], a);
      EnabledTypesStep(a[..0], a[0]);
    }
  }

  lemma EnabledTypesStep(s: seq<PoiType>, x: PoiType)
    ensures EnabledTypes(s + [x]) == EnabledTypes(s) + (if x.enabled then [x] else [])
  {
    assert (s + [x])[..|s|] == s;
  }

  // ---------------------------------------------------------------------
  // Bounding box
  // ---------------------------------------------------------------------

  /** `Math.min(...xs)` on a non-empty list. */
  function MinOf(xs: seq<real>): (m: real)
    requires |xs| > 0
    ensures m in xs
    ensures forall i :: 0 <= i < |xs| ==> m <= xs[i]
  {
    if |xs| == 1 then xs[0]
    else
      var init := xs[..|xs| - 1];
      var m := MinOf(init);
      assert forall i :: 0 <= i < |init| ==> xs[i] == init[i];
      if xs[|xs| - 1] < m then xs[|xs| - 1] else m
  }

  /** `Math.max(...xs)` on a non-empty list. */
  function MaxOf(xs: seq<real>): (m: real)
    requires |xs| > 0
    ensures m in xs
    ensures forall i :: 0 <= i < |xs| ==> xs[i] <= m
  {
    if |xs| == 1 then xs[0]
    else
      var init := xs[..|xs| - 1];
      var m := MaxOf(init);
      assert forall i :: 0 <= i < |init| ==> xs[i] == init[i];
      if xs[|xs| - 1] > m then xs[|xs| - 1] else m
  }

  function Lats(route: seq<GpxPoint>): (r: seq<real>)
    ensures |r| == |route|
  {
    seq(|route|, i requires 0 <= i < |route| => route[i].lat)
  }

  function Lons(route: seq<GpxPoint>): (r: seq<real>)
    ensures |r| == |route|
  {
    seq(|route|, i requires 0 <= i < |route| => route[i].lon)
  }

  datatype BoundingBox = BoundingBox(minLat: real, minLon: real, maxLat: real, maxLon: real)

  /** The route's extremes widened on every side by the deviation converted
      to degrees. */
  function RouteBox(route: seq<GpxPoint>, maxDeviation: real): BoundingBox
    requires |route| > 0
  {
    var pad := maxDeviation / KmPerDegree;
    BoundingBox(MinOf(Lats(route)) - pad, MinOf(Lons(route)) - pad,
                MaxOf(Lats(route)) + pad, MaxOf(Lons(route)) + pad)
  }

  predicate Inside(b: BoundingBox, lat: real, lon: real) {
    b.minLat <= lat <= b.maxLat && b.minLon <= lon <= b.maxLon
  }

  /** With a non-negative deviation every route point lies in the box, and
      each edge of the box is exactly the padding away from some route
      point. */
  lemma RouteInsideBox(route: seq<GpxPoint>, maxDeviation: real)
    requires |route| > 0 && maxDeviation >= 0.0
    ensures forall i :: 0 <= i < |route| ==> Inside(RouteBox(route, maxDeviation), route[i].lat, route[i].lon)
    ensures var b := RouteBox(route, maxDeviation);
            var pad := maxDeviation / KmPerDegree;
            && (exists i :: 0 <= i < |route| && route[i].lat == b.minLat + pad)
            && (exists i :: 0 <= i < |route| && route[i].lat == b.maxLat - pad)
            && (exists i :: 0 <= i < |route| && route[i].lon == b.minLon + pad)
            && (exists i :: 0 <= i < |route| && route[i].lon == b.maxLon - pad)
  {
    var lats, lons := Lats(route), Lons(route);
    forall i | 0 <= i < |route|
      ensures Inside(RouteBox(route, maxDeviation), route[i].lat, route[i].lon)
    {
      assert lats[i] == route[i].lat && lons[i] == route[i].lon;
    }
    var a :| a in lats && a == MinOf(lats);
    var b :| b in lats && b == MaxOf(lats);
    var c :| c in lons && c == MinOf(lons);
    var d :| d in lons && d == MaxOf(lons);
    var ia :| 0 <= ia < |lats| && lats[ia] == a;
    var ib :| 0 <= ib < |lats| && lats[ib] == b;
    var ic :| 0 <= ic < |lons| && lons[ic] == c;
    var id :| 0 <= id < |lons| && lons[id] == d;
    assert route[ia].lat == a && route[ib].lat == b && route[ic].lon == c && route[id].lon == d;
  }

  // ---------------------------------------------------------------------
  // Query text
  // ---------------------------------------------------------------------

  /** `${minLat},${minLon},${maxLat},${maxLon}`, with `show` rendering one
      number. */
  function BoxText(b: BoundingBox, show: real -> string): string {
    show(b.minLat) + "," + show(b.minLon) + "," + show(b.maxLat) + "," + show(b.maxLon)
  }

  /** The first two pieces of `tag.split('=')`; the value is absent when the
      tag has no '='. */
  datatype TagPair = TagPair(key: string, value: Option<string>)

  function SplitTag(tag: string): (r: TagPair)
    ensures '=' !in r.key && StartsWith(tag, r.key)
    ensures r.value.None? <==> '=' !in tag
    ensures r.value.Some? ==> '=' !in r.value.value && StartsWith(tag, r.key + "=" + r.value.value)
    ensures r.value.None? ==> r.key == tag
    ensures r.value.Some? ==>
      var n := |r.key| + 1 + |r.value.value|;
      n == |tag| || tag[n] == '='
  {
    match IndexOf(tag, '=')
    case None =>
      assert tag[..|tag|] == tag;
      TagPair(tag, None)
    case Some(i) =>
      var rest := tag[i + 1..];
      var value := match IndexOf(rest, '=')
        case None => rest
        case Some(j) => rest[..j];
      assert value == rest[..|value|];
      assert tag[..i + 1 + |value|] == tag[..i] + "=" + value;
      TagPair(tag[..i], Some(value))
  }

  /** A `key=value` tag splits back into its key and value. */
  lemma SplitTagJoin(key: string, value: string)
    requires '=' !in key && '=' !in value
    ensures SplitTag(key + "=" + value) == TagPair(key, Some(value))
  {
    var tag := key + "=" + value;
    assert tag[|key|] == '=';
    assert tag[..|key|] == key;
    var i := IndexOf(tag, '=').value;
    assert tag[i + 1..] == value;
  }

  /** A template literal prints an undefined value as "undefined". */
  function ValueText(v: Option<string>): string {
    if v.Some? then v.value else "undefined"
  }

  /** The two query lines of one tag: a node clause and a way clause. */
  function TagLines(tag: string, box: string): string {
    var t := SplitTag(tag);
    var filter := "[\"" + t.key + "\"=\"" + ValueText(t.value) + "\"](" + box + ");\n";
    "  node" + filter + "  way" + filter
  }

  /** The lines of every tag of a type, in tag order. */
  function TagsLines(tags: seq<string>, box: string): string {
    Flatten(seq(|tags|, k requires 0 <= k < |tags| => TagLines(tags[k], box)))
  }

  /** The lines of every enabled type, in type order. */
  function TypesLines(types: seq<PoiType>, box: string): string {
    Flatten(seq(|types|, i requires 0 <= i < |types| => TagsLines(types[i].osmTags, box)))
  }

  /** The Overpass query for the enabled types. */
  function BuildQuery(enabled: seq<PoiType>, box: string): string {
    QueryHeader + TypesLines(enabled, box) + QueryFooter
  }

  /** The query asks, for every tag of every enabled type, for both the
      nodes and the ways carrying it, inside the box. */
  lemma QueryCoversEveryTag(enabled: seq<PoiType>, box: string, i: nat, k: nat)
    requires i < |enabled| && k < |enabled[i].osmTags|
    ensures Infix(TagLines(enabled[i].osmTags[k], box), BuildQuery(enabled, box))
  {
    var tags := enabled[i].osmTags;
    var perTag := seq(|tags|, k requires 0 <= k < |tags| => TagLines(tags[k], box));
    var perType := seq(|enabled|, i requires 0 <= i < |enabled| => TagsLines(enabled[i].osmTags, box));
    FlattenHasBlock(perTag, k);
    FlattenHasBlock(perType, i);
    InfixTrans(TagLines(tags[k], box), TagsLines(tags, box), TypesLines(enabled, box));
    InfixWiden(TagLines(tags[k], box), TypesLines(enabled, box), QueryHeader, QueryFooter);
  }

  /** Enabled types without tags contribute nothing: the query is just its
      frame. */
  lemma {:induction false} QueryWithoutTags(enabled: seq<PoiType>, box: string)
    requires forall i :: 0 <= i < |enabled| ==> |enabled[i].osmTags| == 0
    ensures BuildQuery(enabled, box) == QueryHeader + QueryFooter
  {
    var perType := seq(|enabled|, i requires 0 <= i < |enabled| => TagsLines(enabled[i].osmTags, box));
    forall i | 0 <= i < |enabled| ensures perType[i] == "" {
      assert perType[i] == Flatten([]);
    }
    FlattenEmpty(perType);
  }

  // ---------------------------------------------------------------------
  // Elements of the Overpass reply
  // ---------------------------------------------------------------------

  /** `element.type === 'node'` with its own coordinates, or any other type. */
  datatype ElementKind = Node(lat: real, lon: real) | NotNode(typeName: string)

  /** One element of the reply: numeric id, kind, optional `center` (ways
      with `out center`) and optional tags. */
  datatype OsmElement = OsmElement(id: nat, kind: ElementKind, center: Option<LatLon>, tags: Option<map<string, string>>)

  /** The reply: a failure (network error, non-OK status, unreadable body)
      or a body whose `elements` list may be missing. */
  datatype OverpassReply = Failed | Answered(elements: Option<seq<OsmElement>>)

  datatype FetchError = OverpassError

  /** The parameters one search works with. */
  datatype Search = Search(dist: DistFn, route: seq<GpxPoint>, enabled: seq<PoiType>, maxDeviation: real)

  /** `element.id.toString()`: the key duplicates are detected on. */
  function IdText(e: OsmElement): string {
    NatToString(e.id)
  }

  /** A node's own position, otherwise the center, otherwise nothing. */
  function Coordinates(e: OsmElement): (r: Option<LatLon>)
    ensures e.kind.Node? ==> r == Some(LatLon(e.kind.lat, e.kind.lon))
    ensures e.kind.NotNode? ==> r == e.center
  {
    match e.kind
    case Node(lat, lon) => Some(LatLon(lat, lon))
    case NotNode(_) => e.center
  }

  /** `element.tags?.[key]`. */
  function TagValue(tags: Option<map<string, string>>, key: string): Option<string> {
    if tags.Some? && key in tags.value then Some(tags.value[key]) else None
  }

  /** `element.tags?.[key] === value`: a tag without '=' matches exactly the
      elements that lack its key. */
  predicate TagMatches(tags: Option<map<string, string>>, tag: string) {
    var t := SplitTag(tag);
    TagValue(tags, t.key) == t.value
  }

  predicate TypeMatches(tags: Option<map<string, string>>, t: PoiType) {
    exists k :: 0 <= k < |t.osmTags| && TagMatches(tags, t.osmTags[k])
  }

  /** The type-label scan: the first matching type gives its label, but a
      type labelled "Unknown" does not end the scan. */
  function ResolveTypeLabel(types: seq<PoiType>, tags: Option<map<string, string>>): string {
    if |types| == 0 then UnknownLabel
    else
      var typeLabel := if TypeMatches(tags, types[0]) then types[0].title else UnknownLabel;
      if typeLabel != UnknownLabel then typeLabel else ResolveTypeLabel(types[1..], tags)
  }

  /** The element matches type `t`, and `t` carries a real label. */
  ghost predicate Labelled(tags: Option<map<string, string>>, t: PoiType) {
    TypeMatches(tags, t) && t.title != UnknownLabel
  }

  /** Type `i` is the first labelled type that matches. */
  ghost predicate FirstLabelled(types: seq<PoiType>, tags: Option<map<string, string>>, i: int) {
    && 0 <= i < |types|
    && Labelled(tags, types[i])
    && forall j :: 0 <= j < i ==> !Labelled(tags, types[j])
  }

  /** The label is "Unknown" exactly when no matching type has another label;
      otherwise it is the label of the first matching type whose label is
      not "Unknown". */
  lemma {:induction false} ResolveTypeLabelSpec(types: seq<PoiType>, tags: Option<map<string, string>>)
    ensures ResolveTypeLabel(types, tags) == UnknownLabel <==>
      forall i :: 0 <= i < |types| ==> !Labelled(tags, types[i])
    ensures ResolveTypeLabel(types, tags) != UnknownLabel ==>
      exists i :: FirstLabelled(types, tags, i) && types[i].title == ResolveTypeLabel(types, tags)
  {
    if |types| > 0 {
      var rest := types[1..];
      ResolveTypeLabelSpec(rest, tags);
      assert forall i :: 0 < i < |types| ==> types[i] == rest[i - 1];
      if Labelled(tags, types[0]) {
        assert FirstLabelled(types, tags, 0);
      } else {
        var r := ResolveTypeLabel(rest, tags);
        assert ResolveTypeLabel(types, tags) == r;
        if r != UnknownLabel {
          var i :| FirstLabelled(rest, tags, i) && rest[i].title == r;
          assert FirstLabelled(types, tags, i + 1);
        }
      }
    }
  }

  /** The tag is present with a non-empty value. */
  predicate TagTruthy(tags: Option<map<string, string>>, key: string) {
    TagValue(tags, key).Some? && Truthy(TagValue(tags, key).value)
  }

  /** `tags.name || tags['name:en'] || tags.operator || "<label> #<id>"`. */
  function PoiName(tags: Option<map<string, string>>, typeLabel: string, id: nat): (r: string)
    ensures Truthy(r)
    ensures TagTruthy(tags, "name") ==> r == TagValue(tags, "name").value
    ensures !TagTruthy(tags, "name") && TagTruthy(tags, "name:en") ==> r == TagValue(tags, "name:en").value
    ensures !TagTruthy(tags, "name") && !TagTruthy(tags, "name:en") && TagTruthy(tags, "operator") ==>
      r == TagValue(tags, "operator").value
    ensures !TagTruthy(tags, "name") && !TagTruthy(tags, "name:en") && !TagTruthy(tags, "operator") ==>
      r == typeLabel + " #" + NatToString(id)
    ensures r == typeLabel + " #" + NatToString(id)
         || (TagValue(tags, "name").Some? && r == TagValue(tags, "name").value)
         || (TagValue(tags, "name:en").Some? && r == TagValue(tags, "name:en").value)
         || (TagValue(tags, "operator").Some? && r == TagValue(tags, "operator").value)
  {
    OptOrElse(TagValue(tags, "name"),
      OptOrElse(TagValue(tags, "name:en"),
        OptOrElse(TagValue(tags, "operator"), typeLabel + " #" + NatToString(id))))
  }

  /** What one element becomes, ignoring duplicates: nothing when it has no
      coordinates or lies farther than the deviation from the route,
      otherwise an unselected POI. */
  function Shape(s: Search, e: OsmElement): (r: Option<Poi>)
    ensures r.Some? <==>
      && Coordinates(e).Some?
      && GetMinDistanceToRoute(s.dist, Coordinates(e).value.lat, Coordinates(e).value.lon, s.route).Finite?
      && GetMinDistanceToRoute(s.dist, Coordinates(e).value.lat, Coordinates(e).value.lon, s.route).km <= s.maxDeviation
    ensures r.Some? ==>
      && r.value.id == IdText(e)
      && !r.value.selected
      && r.value.distanceFromRoute <= s.maxDeviation
      && LatLon(r.value.lat, r.value.lon) == Coordinates(e).value
      && Finite(r.value.distanceFromRoute) == GetMinDistanceToRoute(s.dist, r.value.lat, r.value.lon, s.route)
      && r.value.distanceAlongRoute == AlongRoute(s.dist, r.value.lat, r.value.lon, s.route)
      && r.value.typeLabel == ResolveTypeLabel(s.enabled, e.tags)
      && r.value.name == PoiName(e.tags, r.value.typeLabel, e.id)
  {
    match Coordinates(e)
    case None => None
    case Some(c) =>
      match GetMinDistanceToRoute(s.dist, c.lat, c.lon, s.route)
      case Infinity => None
      case Finite(d) =>
        if d > s.maxDeviation then None
        else
          var typeLabel := ResolveTypeLabel(s.enabled, e.tags);
          Some(Poi(IdText(e), PoiName(e.tags, typeLabel, e.id), typeLabel, c.lat, c.lon, false, d,
                   AlongRoute(s.dist, c.lat, c.lon, s.route)))
  }

  /** No earlier element has the same id text. */
  predicate FirstOccurrence(es: seq<OsmElement>, k: nat)
    requires k < |es|
  {
    forall j :: 0 <= j < k ==> IdText(es[j]) != IdText(es[k])
  }

  /** The POIs, in reply order: each element is considered only on the
      first occurrence of its id, whether or not that first copy is kept. */
  function Collect(s: Search, es: seq<OsmElement>): seq<Poi> {
    if |es| == 0 then []
    else
      var k := |es| - 1;
      Collect(s, es[..k]) + (if FirstOccurrence(es, k) && Shape(s, es[k]).Some? then [Shape(s, es[k]).value] else [])
  }

  /** What element `k` adds: its shape, on the first occurrence of its id. */
  function Emitted(s: Search, es: seq<OsmElement>, k: nat): seq<Poi>
    requires k < |es|
  {
    if FirstOccurrence(es, k) && Shape(s, es[k]).Some? then [Shape(s, es[k]).value] else []
  }

  lemma CollectStep(s: Search, es: seq<OsmElement>, k: nat)
    requires k < |es|
    ensures Collect(s, es[..k + 1]) == Collect(s, es[..k]) + Emitted(s, es, k)
  {
    var p := es[..k + 1];
    assert p[..k] == es[..k];
    assert p[k] == es[k];
    assert FirstOccurrence(p, k) <==> FirstOccurrence(es, k) by {
      assert forall j :: 0 <= j < k ==> p[j] == es[j];
    }
  }

  /** The id texts of the elements before index `k`. */
  ghost function IdsBefore(es: seq<OsmElement>, k: nat): set<string>
    requires k <= |es|
  {
    set j | 0 <= j < k :: IdText(es[j])
  }

  /** The seen-set check is the first-occurrence test, and recording the id
      moves the set one element on. */
  lemma SeenIsEarlier(es: seq<OsmElement>, k: nat)
    requires k < |es|
    ensures IdText(es[k]) in IdsBefore(es, k) <==> !FirstOccurrence(es, k)
    ensures IdsBefore(es, k + 1) == IdsBefore(es, k) + {IdText(es[k])}
  {
    if IdText(es[k]) in IdsBefore(es, k) {
      var j :| 0 <= j < k && IdText(es[j]) == IdText(es[k]);
    }
  }

  /** The element loop: the id is recorded before any check, so a duplicate
      of a skipped element is skipped too. */
  method ProcessElements(s: Search, es: seq<OsmElement>) returns (pois: seq<Poi>)
    ensures pois == Collect(s, es)
  {
    pois := [];
    var processedIds: set<string> := {};
    for k := 0 to |es|
      invariant processedIds == IdsBefore(es, k)
      invariant pois == Collect(s, es[..k])
    {
      var key := IdText(es[k]);
      SeenIsEarlier(es, k);
      CollectStep(s, es, k);
      if key !in processedIds {
        var poi := Shape(s, es[k]);
        if poi.Some? {
          pois := pois + [poi.value];
        }
      }
      processedIds := processedIds + {key};
    }
    assert es[..|es|] == es;
  }

  lemma FirstOccurrencePrefix(es: seq<OsmElement>, n: nat, k: nat)
    requires k < n <= |es|
    ensures FirstOccurrence(es[..n], k) <==> FirstOccurrence(es, k)
  {
    assert forall j :: 0 <= j <= k ==> es[..n][j] == es[j];
  }

  /** Element `k` is the first carrying its id, and its shape is `p`. */
  ghost predicate ShapedAt(s: Search, es: seq<OsmElement>, k: int, p: Poi) {
    0 <= k < |es| && FirstOccurrence(es, k) && Shape(s, es[k]) == Some(p)
  }

  lemma ShapedAtPrefix(s: Search, es: seq<OsmElement>, n: nat, k: nat, p: Poi)
    requires k < n <= |es|
    ensures ShapedAt(s, es[..n], k, p) <==> ShapedAt(s, es, k, p)
  {
    FirstOccurrencePrefix(es, n, k);
    assert es[..n][k] == es[k];
  }

  /** A POI is collected exactly when it is the shape of the first element
      carrying its id. */
  lemma {:induction false} CollectMembers(s: Search, es: seq<OsmElement>, p: Poi)
    ensures p in Collect(s, es) <==> exists k :: ShapedAt(s, es, k, p)
  {
    if |es| > 0 {
      var n := |es| - 1;
      var init := es[..n];
      CollectMembers(s, init, p);
      CollectStep(s, es, n);
      assert es[..n + 1] == es;
      assert Collect(s, es) == Collect(s, init) + Emitted(s, es, n);
      assert p in Emitted(s, es, n) <==> ShapedAt(s, es, n, p);
      if p in Collect(s, init) {
        var k :| ShapedAt(s, init, k, p);
        ShapedAtPrefix(s, es, n, k, p);
      }
      if exists k :: ShapedAt(s, es, k, p) {
        var k :| ShapedAt(s, es, k, p);
        if k < n {
          ShapedAtPrefix(s, es, n, k, p);
        }
      }
    }
  }

  /** Every collected POI comes from an element of the reply. */
  lemma {:induction false} CollectIds(s: Search, es: seq<OsmElement>)
    ensures forall p :: p in Collect(s, es) ==> exists k :: 0 <= k < |es| && p.id == IdText(es[k])
  {
    forall p | p in Collect(s, es) ensures exists k :: 0 <= k < |es| && p.id == IdText(es[k]) {
      CollectMembers(s, es, p);
      var k :| ShapedAt(s, es, k, p);
      assert p.id == IdText(es[k]);
    }
  }

  /** Collected POIs have pairwise different ids. */
  lemma {:induction false} CollectDistinct(s: Search, es: seq<OsmElement>)
    ensures DistinctBy(Collect(s, es), (p: Poi) => p.id)
  {
    if |es| > 0 {
      var n := |es| - 1;
      var init := es[..n];
      CollectDistinct(s, init);
      CollectIds(s, init);
      CollectStep(s, es, n);
      assert es[..n + 1] == es;
      var c, e := Collect(s, init), Emitted(s, es, n);
      if |e| > 0 {
        EmittedFresh(s, es, n);
        forall i | 0 <= i < |c| ensures c[i].id != e[0].id {
          assert c[i] in c;
          var k :| 0 <= k < n && c[i].id == IdText(init[k]);
          assert init[k] == es[k];
        }
      }
    }
  }

  /** What an element adds carries its id text, which no earlier element
      has. */
  lemma EmittedFresh(s: Search, es: seq<OsmElement>, k: nat)
    requires k < |es| && |Emitted(s, es, k)| > 0
    ensures |Emitted(s, es, k)| == 1
    ensures Emitted(s, es, k)[0].id == IdText(es[k])
    ensures forall j :: 0 <= j < k ==> IdText(es[j]) != IdText(es[k])
  {
  }

  /** The source's result: the collected POIs stably sorted by position
      along the route. */
  function Found(s: Search, es: seq<OsmElement>): seq<Poi> {
    SortBy(Collect(s, es), AlongKey)
  }

  /** The returned POIs are ordered along the route, are exactly the
      collected ones, have distinct ids, are unselected and lie within the
      deviation. */
  lemma FoundProperties(s: Search, es: seq<OsmElement>)
    ensures SortedBy(Found(s, es), AlongKey)
    ensures multiset(Found(s, es)) == multiset(Collect(s, es))
    ensures DistinctBy(Found(s, es), (p: Poi) => p.id)
    ensures forall p :: p in Found(s, es) ==> !p.selected && p.distanceFromRoute <= s.maxDeviation
  {
    var c := Collect(s, es);
    SortBySorted(c, AlongKey);
    SortByPermutes(c, AlongKey);
    CollectDistinct(s, es);
    SortKeepsDistinct(c, AlongKey, (p: Poi) => p.id);
    forall p | p in Found(s, es) ensures !p.selected && p.distanceFromRoute <= s.maxDeviation {
      assert p in multiset(Found(s, es));
      CollectMembers(s, es, p);
    }
  }

  /** A repeated id never yields a second POI, even when the first copy was
      dropped for lack of coordinates. */
  lemma FirstCopyDecides(s: Search, way: OsmElement, node: OsmElement)
    requires way.kind.NotNode? && way.center.None? && node.id == way.id
    ensures Collect(s, [way, node]) == []
  {
    var es := [way, node];
    assert Shape(s, es[0]).None?;
    assert IdText(es[0]) == IdText(es[1]);
    CollectStep(s, es, 0);
    CollectStep(s, es, 1);
    assert es[..0] == [] && es[..2] == es;
  }

  /** The list the reply carries; a missing `elements` field is no POI. */
  function ElementsOf(reply: OverpassReply): seq<OsmElement>
    requires reply.Answered?
  {
    if reply.elements.Some? then reply.elements.value else []
  }

  /** `fetchPOIsAlongRoute`. No request is made for an empty route or when
      no type is enabled; otherwise the query built from the enabled types
      and the padded box is sent, a failed reply is an error, and an answer
      yields the found POIs. `sent` is the query text, if any was sent. */
  method FetchPoisAlongRoute(dist: DistFn, show: real -> string, overpass: string -> OverpassReply,
                             route: seq<GpxPoint>, poiTypes: seq<PoiType>, maxDeviation: real)
    returns (sent: Option<string>, r: Result<seq<Poi>, FetchError>)
    ensures sent.None? <==> |route| == 0 || |EnabledTypes(poiTypes)| == 0
    ensures sent.None? ==> r == Success([])
    ensures sent.Some? ==>
      && |route| > 0
      && sent.value == BuildQuery(EnabledTypes(poiTypes), BoxText(RouteBox(route, maxDeviation), show))
      && (r.Failure? <==> overpass(sent.value).Failed?)
      && (r.Success? ==>
            r.value == Found(Search(dist, route, EnabledTypes(poiTypes), maxDeviation), ElementsOf(overpass(sent.value))))
  {
    if |route| == 0 {
      return None, Success([]);
    }
    var enabledTypes := EnabledTypes(poiTypes);
    if |enabledTypes| == 0 {
      return None, Success([]);
    }
    var bbox := BoxText(RouteBox(route, maxDeviation), show);
    var query := BuildQuery(enabledTypes, bbox);
    sent := Some(query);
    var reply := overpass(query);
    if reply.Failed? {
      return sent, Failure(OverpassError);
    }
    var pois := ProcessElements(Search(dist, route, enabledTypes, maxDeviation), ElementsOf(reply));
    r := Success(SortBy(pois, AlongKey));
  }
}
