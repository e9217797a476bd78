/** Route augmentation and route statistics (utils/routeGenerator.ts).

    The directions provider is a function parameter; the sequential awaits of
    the source become a plain left-to-right fold. */
module RouteGenerator {
  import opened Wrappers
  import opened Strings
  import opened Sorting
  import opened Seqs
  import opened Store
  import opened GpxParser

  /** The directions provider: a routed path from `entry` through the POI to
      `exit` (absent at the last original point). None stands for every way
      the source ends up without geometry: no access token, an HTTP error, a
      thrown exception, a response without coordinates. */
  type Directions = (GpxPoint, Poi, Option<GpxPoint>) -> Option<seq<LatLon>>

  /** Coordinate tolerance, in degrees, for recognising a seam point. */
  const Tolerance: real := 0.000001

  const DefaultBaseName: string := "Route"
  const ModifiedSuffix: string := " (Modified)"

  function Abs(x: real): real {
    if x < 0.0 then -x else x
  }

  /** `pointsAreEqual`: both coordinates strictly within the tolerance;
      elevation and time play no part. */
  function PointsAreEqual(a: GpxPoint, b: GpxPoint): (r: bool)
    ensures r <==>
      && a.lat - Tolerance < b.lat < a.lat + Tolerance
      && a.lon - Tolerance < b.lon < a.lon + Tolerance
  {
    Abs(a.lat - b.lat) < Tolerance && Abs(a.lon - b.lon) < Tolerance
  }

  /** `pois.filter((poi) => poi.selected)`. */
  function SelectedPois(pois: seq<Poi>): (r: seq<Poi>)
    ensures |r| <= |pois|
    ensures forall p :: p in r <==> p in pois && p.selected
  {
    if |pois| == 0 then []
    else
      var init := SelectedPois(pois[..|pois| - 1]);
      var last := pois[|pois| - 1];
      assert pois == pois[..|pois| - 1] + [last];
      if last.selected then init + [last] else init
  }

  /** `filter` keeps order and multiplicity: it distributes over
      concatenation and keeps a single element exactly when it is selected. */
  lemma {:induction false} SelectedPoisAppend(a: seq<Poi>, b: seq<Poi>)
    ensures SelectedPois(a + b) == SelectedPois(a) + SelectedPois(b)
    ensures |a| == 1 ==> SelectedPois(a) == (if a[0].selected then a else [])
    decreases |b|
  {
    if |b| == 0 {
      assert a + b == a;
      assert SelectedPois(b) == [];
    } else {
      var b', last := b[..|b| - 1], b[|b| - 1];
      SelectedPoisAppend(a, b');
      SplitLast(a, b);
      SelectedPoisStep(a + b', last);
      SelectedPoisStep(b', last);
      AppendAssoc(SelectedPois(a), SelectedPois(b'), if last.selected then [last] else []);
    }
    if |a| == 1 {
      SplitLast([], a);
      SelectedPoisStep(a[..0], a[0]);
    }
  }

  lemma SelectedPoisStep(s: seq<Poi>, x: Poi)
    ensures SelectedPois(s + [x]) == SelectedPois(s) + (if x.selected then [x] else [])
  {
    assert (s + [x])[..|s|] == s;
  }

  /** Name of an augmented route: the original name, or "Route" when it is
      missing or empty, followed by " (Modified)". */
  function ModifiedName(name: Option<string>): string {
    OptOrElse(name, DefaultBaseName) + ModifiedSuffix
  }

  // ---------------------------------------------------------------------
  // findBestInsertionPoint
  // ---------------------------------------------------------------------

  /** Distance from a POI to a route point. */
  function PoiDist(dist: DistFn, poi: Poi, p: GpxPoint): real {
    DistTo(dist, poi.lat, poi.lon, p)
  }

  /** The index of the original point nearest the POI. */
  function BestIndex(dist: DistFn, points: seq<GpxPoint>, poi: Poi): nat {
    NearestIndex(dist, poi.lat, poi.lon, points)
  }

  /** `findBestInsertionPoint`: an in-range index no farther from the POI
      than any other, and strictly nearer than every lower index, so the
      first index wins ties; 0 for an empty route. */
  method FindBestInsertionPoint(dist: DistFn, poi: Poi, route: seq<GpxPoint>) returns (best: nat)
    ensures |route| == 0 ==> best == 0
    ensures |route| > 0 ==> best < |route|
    ensures forall j :: 0 <= j < |route| ==> PoiDist(dist, poi, route[best]) <= PoiDist(dist, poi, route[j])
    ensures forall j :: 0 <= j < best ==> PoiDist(dist, poi, route[best]) < PoiDist(dist, poi, route[j])
    ensures best == BestIndex(dist, route, poi)
  {
    var minDistance := Infinity;
    best := 0;
    for i := 0 to |route|
      invariant i == 0 ==> minDistance.Infinity? && best == 0
      invariant i > 0 ==> best < i && minDistance == Finite(PoiDist(dist, poi, route[best]))
      invariant forall j :: 0 <= j < i ==> PoiDist(dist, poi, route[best]) <= PoiDist(dist, poi, route[j])
      invariant forall j :: 0 <= j < best ==> PoiDist(dist, poi, route[best]) < PoiDist(dist, poi, route[j])
    {
      var d := PoiDist(dist, poi, route[i]);
      if Below(d, minDistance) {
        minDistance := Finite(d);
        best := i;
      }
    }
    if |route| > 0 {
      NearestIndexUnique(dist, poi.lat, poi.lon, route, best);
    }
  }

  // ---------------------------------------------------------------------
  // Reference definition of the augmented point sequence
  // ---------------------------------------------------------------------

  /** The inputs one augmentation works on. */
  datatype Plan = Plan(dist: DistFn, directions: Directions, points: seq<GpxPoint>, selected: seq<Poi>)

  /** The POIs of `sel` whose insertion index is `i`, in selection order. */
  function Group(dist: DistFn, points: seq<GpxPoint>, sel: seq<Poi>, i: nat): seq<Poi>
  {
    if |sel| == 0 then []
    else
      var last := sel[|sel| - 1];
      Group(dist, points, sel[..|sel| - 1], i) + (if BestIndex(dist, points, last) == i then [last] else [])
  }

  /** A group holds exactly the selected POIs whose insertion index is `i`. */
  lemma {:induction false} GroupMembers(dist: DistFn, points: seq<GpxPoint>, sel: seq<Poi>, i: nat, p: Poi)
    ensures p in Group(dist, points, sel, i) <==> p in sel && BestIndex(dist, points, p) == i
  {
    if |sel| > 0 {
      var last := sel[|sel| - 1];
      assert sel == sel[..|sel| - 1] + [last];
      GroupMembers(dist, points, sel[..|sel| - 1], i, p);
    }
  }

  /** The group at index `i` in emission order: stably sorted by position
      along the route. */
  function OrderedGroup(plan: Plan, i: nat): seq<Poi> {
    SortBy(Group(plan.dist, plan.points, plan.selected, i), AlongKey)
  }

  /** The original point after index `i`, if any. */
  function Next(points: seq<GpxPoint>, i: nat): Option<GpxPoint> {
    if i + 1 < |points| then Some(points[i + 1]) else None
  }

  /** A provider coordinate as a route point (no elevation, no time). */
  function FromLatLon(c: LatLon): GpxPoint {
    GpxPoint(c.lat, c.lon, None, None)
  }

  function AsGpxPoints(cs: seq<LatLon>): (r: seq<GpxPoint>)
    ensures |r| == |cs|
    ensures forall k :: 0 <= k < |cs| ==> r[k] == FromLatLon(cs[k])
  {
    if |cs| == 0 then [] else AsGpxPoints(cs[..|cs| - 1]) + [FromLatLon(cs[|cs| - 1])]
  }

  /** The straight-line fallback: the POI itself as one point. */
  function PoiPoint(p: Poi): GpxPoint {
    GpxPoint(p.lat, p.lon, None, None)
  }

  /** Routed point `k` is a seam point: the first one when it coincides with
      the entry point, or the last one when it coincides with the exit. */
  predicate SeamDropped(routed: seq<GpxPoint>, k: nat, entry: GpxPoint, exit: Option<GpxPoint>)
    requires k < |routed|
  {
    || (k == 0 && PointsAreEqual(routed[k], entry))
    || (exit.Some? && k == |routed| - 1 && PointsAreEqual(routed[k], exit.value))
  }

  /** The first `n` routed points with seam points dropped, one index at a
      time as the source's `forEach` does. */
  function TrimmedPrefix(routed: seq<GpxPoint>, entry: GpxPoint, exit: Option<GpxPoint>, n: nat): seq<GpxPoint>
    requires n <= |routed|
  {
    if n == 0 then []
    else
      TrimmedPrefix(routed, entry, exit, n - 1)
      + (if SeamDropped(routed, n - 1, entry, exit) then [] else [routed[n - 1]])
  }

  function TrimSeam(routed: seq<GpxPoint>, entry: GpxPoint, exit: Option<GpxPoint>): seq<GpxPoint> {
    TrimmedPrefix(routed, entry, exit, |routed|)
  }

  /** What one POI contributes after its entry point: the trimmed routed
      path, or the POI itself when the provider gives nothing. */
  function Detour(directions: Directions, entry: GpxPoint, exit: Option<GpxPoint>, poi: Poi): seq<GpxPoint> {
    var routed := directions(entry, poi, exit);
    if routed.None? || |routed.value| == 0 then [PoiPoint(poi)]
    else TrimSeam(AsGpxPoints(routed.value), entry, exit)
  }

  /** The contributions of a group's POIs, in group order. */
  function Detours(directions: Directions, entry: GpxPoint, exit: Option<GpxPoint>, group: seq<Poi>): seq<GpxPoint> {
    if |group| == 0 then []
    else Detours(directions, entry, exit, group[..|group| - 1]) + Detour(directions, entry, exit, group[|group| - 1])
  }

  /** Original point `i` followed by the detours of its group. */
  function Block(plan: Plan, i: nat): (r: seq<GpxPoint>)
    requires i < |plan.points|
    ensures |r| > 0 && r[0] == plan.points[i]
  {
    [plan.points[i]] + Detours(plan.directions, plan.points[i], Next(plan.points, i), OrderedGroup(plan, i))
  }

  /** One block per original point. */
  function Blocks(plan: Plan): (bs: seq<seq<GpxPoint>>)
    ensures |bs| == |plan.points|
  {
    seq(|plan.points|, i requires 0 <= i < |plan.points| => Block(plan, i))
  }

  /** The augmented point sequence: the blocks end to end. */
  function Augmented(plan: Plan): seq<GpxPoint> {
    Flatten(Blocks(plan))
  }

  // ---------------------------------------------------------------------
  // generateRouteWithPOIs
  // ---------------------------------------------------------------------

  /** The list stored under key `i`, or the empty list. */
  function Lookup(m: map<nat, seq<Poi>>, i: nat): seq<Poi> {
    if i in m then m[i] else []
  }

  /** The `segmentsByIndex` loop of `generateRouteWithPOIs`: the selected POIs keyed by insertion
      index, each list in selection order. */
  method GroupByInsertionPoint(dist: DistFn, points: seq<GpxPoint>, selected: seq<Poi>)
    returns (segmentsByIndex: map<nat, seq<Poi>>)
    ensures forall i :: Lookup(segmentsByIndex, i) == Group(dist, points, selected, i)
  {
    segmentsByIndex := map[];
    for k := 0 to |selected|
      invariant forall i :: Lookup(segmentsByIndex, i) == Group(dist, points, selected[..k], i)
    {
      var insertionPoint := FindBestInsertionPoint(dist, selected[k], points);
      var segments := if insertionPoint in segmentsByIndex then segmentsByIndex[insertionPoint] else [];
      ghost var before := segmentsByIndex;
      segmentsByIndex := segmentsByIndex[insertionPoint := segments + [selected[k]]];
      forall i ensures Lookup(segmentsByIndex, i) == Group(dist, points, selected[..k + 1], i) {
        GroupStep(dist, points, selected, k, i);
        assert Lookup(before, i) == Group(dist, points, selected[..k], i);
      }
    }
    assert selected[..|selected|] == selected;
  }

  /** The `segmentsByIndex.forEach` sort of `generateRouteWithPOIs`: each list stably sorted by position along
      the route. */
  method SortSegments(segmentsByIndex: map<nat, seq<Poi>>) returns (ordered: map<nat, seq<Poi>>)
    ensures forall i :: Lookup(ordered, i) == SortBy(Lookup(segmentsByIndex, i), AlongKey)
  {
    ordered := map i | i in segmentsByIndex :: SortBy(segmentsByIndex[i], AlongKey);
  }

  lemma GroupStep(dist: DistFn, points: seq<GpxPoint>, sel: seq<Poi>, k: nat, i: nat)
    requires k < |sel|
    ensures Group(dist, points, sel[..k + 1], i)
         == Group(dist, points, sel[..k], i) + (if BestIndex(dist, points, sel[k]) == i then [sel[k]] else [])
  {
    assert sel[..k + 1][..k] == sel[..k];
  }

  lemma DetoursStep(directions: Directions, entry: GpxPoint, exit: Option<GpxPoint>, segs: seq<Poi>, s: nat)
    requires s < |segs|
    ensures Detours(directions, entry, exit, segs[..s + 1])
         == Detours(directions, entry, exit, segs[..s]) + Detour(directions, entry, exit, segs[s])
  {
    assert segs[..s + 1][..s] == segs[..s];
  }

  /** The `routedPoints.forEach` of `generateRouteWithPOIs`: appends the
      routed points, skipping the seam points. */
  method AppendRouted(newPoints: seq<GpxPoint>, routedPoints: seq<GpxPoint>, current: GpxPoint, next: Option<GpxPoint>)
    returns (result: seq<GpxPoint>)
    ensures result == newPoints + TrimSeam(routedPoints, current, next)
  {
    result := newPoints;
    for idx := 0 to |routedPoints|
      invariant result == newPoints + TrimmedPrefix(routedPoints, current, next, idx)
    {
      if !SeamDropped(routedPoints, idx, current, next) {
        result := result + [routedPoints[idx]];
      }
    }
  }

  /** The inner `for (const segment of segmentsAtIndex)` loop: for each POI of the group, the routed
      detour or, when the provider gives nothing, the POI itself. */
  method AppendDetours(directions: Directions, newPoints: seq<GpxPoint>, current: GpxPoint, next: Option<GpxPoint>, segs: seq<Poi>)
    returns (result: seq<GpxPoint>)
    ensures result == newPoints + Detours(directions, current, next, segs)
  {
    result := newPoints;
    for s := 0 to |segs|
      invariant result == newPoints + Detours(directions, current, next, segs[..s])
    {
      ghost var before := result;
      var routed := directions(current, segs[s], next);
      if routed.None? || |routed.value| == 0 {
        result := result + [PoiPoint(segs[s])];
      } else {
        result := AppendRouted(result, AsGpxPoints(routed.value), current, next);
      }
      assert result == before + Detour(directions, current, next, segs[s]);
      DetoursStep(directions, current, next, segs, s);
      AppendAssoc(newPoints, Detours(directions, current, next, segs[..s]), Detour(directions, current, next, segs[s]));
    }
    assert segs[..|segs|] == segs;
  }

  /** `generateRouteWithPOIs`: with no POI selected the route comes back
      as it was; otherwise its points are the augmented sequence and its name
      carries the " (Modified)" suffix. */
  method GenerateRouteWithPois(dist: DistFn, directions: Directions, original: GpxRoute, pois: seq<Poi>)
    returns (r: GpxRoute)
    ensures |SelectedPois(pois)| == 0 ==> r == original
    ensures |SelectedPois(pois)| > 0 ==>
      && r.name == Some(ModifiedName(original.name))
      && r.points == Augmented(Plan(dist, directions, original.points, SelectedPois(pois)))
  {
    var selected := SelectedPois(pois);
    if |selected| == 0 {
      return original;
    }
    var newPoints := AugmentRoute(dist, directions, original.points, selected);
    r := GpxRoute(Some(ModifiedName(original.name)), newPoints);
  }

  /** The body of `generateRouteWithPOIs` after the early return: group, order, then emit block after
      block. */
  method AugmentRoute(dist: DistFn, directions: Directions, points: seq<GpxPoint>, selected: seq<Poi>)
    returns (newPoints: seq<GpxPoint>)
    ensures newPoints == Augmented(Plan(dist, directions, points, selected))
  {
    ghost var plan := Plan(dist, directions, points, selected);
    var segmentsByIndex := GroupByInsertionPoint(dist, points, selected);
    var ordered := SortSegments(segmentsByIndex);
    newPoints := [];
    for i := 0 to |points|
      invariant newPoints == Flatten(Blocks(plan)[..i])
    {
      var segs: seq<Poi> := if i in ordered then ordered[i] else [];
      assert segs == SortBy(Lookup(segmentsByIndex, i), AlongKey);
      newPoints := AppendBlock(plan, directions, points, newPoints, i, segs);
      FlattenStep(Blocks(plan), i);
    }
    assert Blocks(plan)[..|points|] == Blocks(plan);
  }

  /** One iteration of the outer loop over the original points: the original
      point, then the detours of its ordered group. */
  method AppendBlock(ghost plan: Plan, directions: Directions, points: seq<GpxPoint>,
                     newPoints: seq<GpxPoint>, i: nat, segs: seq<Poi>)
    returns (result: seq<GpxPoint>)
    requires directions == plan.directions && points == plan.points
    requires i < |points| && segs == OrderedGroup(plan, i)
    ensures result == newPoints + Blocks(plan)[i]
  {
    var current := points[i];
    var next := Next(points, i);
    result := AppendDetours(directions, newPoints + [current], current, next, segs);
    BlockAt(plan, i);
    AppendAssoc(newPoints, [current], Detours(directions, current, next, segs));
  }

  lemma BlockAt(plan: Plan, i: nat)
    requires i < |plan.points|
    ensures Blocks(plan)[i]
         == [plan.points[i]] + Detours(plan.directions, plan.points[i], Next(plan.points, i), OrderedGroup(plan, i))
  {
  }

  // ---------------------------------------------------------------------
  // Properties of the augmented sequence
  // ---------------------------------------------------------------------

  /** Where original point `k` sits in the output. */
  function BlockStart(plan: Plan, k: nat): nat
    requires k <= |plan.points|
  {
    Offset(Blocks(plan), k)
  }

  /** Every original point is kept, in order, each at the start of its own
      block; hence the output is never shorter than the original. */
  lemma OriginalPointsKept(plan: Plan)
    ensures |Augmented(plan)| >= |plan.points|
    ensures forall k :: 0 <= k < |plan.points| ==>
      BlockStart(plan, k) < |Augmented(plan)| && Augmented(plan)[BlockStart(plan, k)] == plan.points[k]
    ensures forall k, k' :: 0 <= k < k' < |plan.points| ==> BlockStart(plan, k) < BlockStart(plan, k')
  {
    var bs := Blocks(plan);
    forall k | 0 <= k < |bs| ensures |bs[k]| > 0 && bs[k][0] == plan.points[k] {
      assert bs[k] == Block(plan, k);
    }
    BlockHeads(bs);
  }

  /** A group lists exactly the selected POIs inserted at its index, in
      non-decreasing position along the route; POIs at equal positions keep
      their selection order. */
  lemma GroupOrder(plan: Plan, i: nat, key: real)
    ensures SortedBy(OrderedGroup(plan, i), AlongKey)
    ensures multiset(OrderedGroup(plan, i)) == multiset(Group(plan.dist, plan.points, plan.selected, i))
    ensures forall p :: p in OrderedGroup(plan, i) <==> p in plan.selected && BestIndex(plan.dist, plan.points, p) == i
    ensures WithKey(OrderedGroup(plan, i), AlongKey, key)
         == WithKey(Group(plan.dist, plan.points, plan.selected, i), AlongKey, key)
  {
    var g := Group(plan.dist, plan.points, plan.selected, i);
    SortByPermutes(g, AlongKey);
    SortBySorted(g, AlongKey);
    forall p ensures p in OrderedGroup(plan, i) <==> p in plan.selected && BestIndex(plan.dist, plan.points, p) == i {
      assert p in OrderedGroup(plan, i) <==> p in multiset(OrderedGroup(plan, i));
      GroupMembers(plan.dist, plan.points, plan.selected, i, p);
    }
    SortStable(g, AlongKey, key);
  }

  /** Seam trimming keeps a contiguous run of the routed points: the first
      is dropped iff it lies within tolerance of the entry point, the last
      iff there is an exit point and it lies within tolerance of it. */
  lemma TrimSeamIsSlice(routed: seq<GpxPoint>, entry: GpxPoint, exit: Option<GpxPoint>)
    requires |routed| > 0
    ensures var lo := if PointsAreEqual(routed[0], entry) then 1 else 0;
            var hi := if exit.Some? && PointsAreEqual(routed[|routed| - 1], exit.value)
                      then |routed| - 1 else |routed|;
            TrimSeam(routed, entry, exit) == if lo <= hi then routed[lo..hi] else []
  {
    var lo := if PointsAreEqual(routed[0], entry) then 1 else 0;
    var hi := if exit.Some? && PointsAreEqual(routed[|routed| - 1], exit.value) then |routed| - 1 else |routed|;
    TrimmedPrefixMiddle(routed, entry, exit, |routed| - 1, lo);
    if |routed| == 1 {
    } else {
      assert routed[lo..|routed| - 1] + [routed[|routed| - 1]] == routed[lo..|routed|];
    }
  }

  /** Below the last index, only the first point can be dropped. */
  lemma {:induction false} TrimmedPrefixMiddle(routed: seq<GpxPoint>, entry: GpxPoint, exit: Option<GpxPoint>, n: nat, lo: nat)
    requires 0 < n < |routed| || (n == 0 && |routed| > 0)
    requires lo == if PointsAreEqual(routed[0], entry) then 1 else 0
    ensures n >= lo ==> TrimmedPrefix(routed, entry, exit, n) == routed[lo..n]
    ensures n < lo ==> TrimmedPrefix(routed, entry, exit, n) == []
  {
    if n > 0 {
      TrimmedPrefixMiddle(routed, entry, exit, n - 1, lo);
      if n - 1 >= lo {
        assert routed[lo..n - 1] + [routed[n - 1]] == routed[lo..n];
      }
    }
  }

  /** A non-empty routed path that trims down to nothing adds no point for
      that POI: the straight-line fallback is not used. */
  lemma EmptyTrimAddsNothing(directions: Directions, entry: GpxPoint, exit: Option<GpxPoint>, poi: Poi)
    requires directions(entry, poi, exit).Some? && |directions(entry, poi, exit).value| > 0
    requires TrimSeam(AsGpxPoints(directions(entry, poi, exit).value), entry, exit) == []
    ensures Detour(directions, entry, exit, poi) == []
  {
  }

  /** The provider never yields a usable path. */
  ghost predicate NeverRoutes(directions: Directions) {
    forall e, p, x :: directions(e, p, x).None? || |directions(e, p, x).value| == 0
  }

  /** Without routed paths every POI becomes one point, in group order. */
  lemma {:induction false} FallbackDetours(directions: Directions, entry: GpxPoint, exit: Option<GpxPoint>, group: seq<Poi>)
    requires NeverRoutes(directions)
    ensures |Detours(directions, entry, exit, group)| == |group|
    ensures forall k :: 0 <= k < |group| ==> Detours(directions, entry, exit, group)[k] == PoiPoint(group[k])
  {
    if |group| > 0 {
      var e := directions(entry, group[|group| - 1], exit);
      assert e.None? || |e.value| == 0;
      FallbackDetours(directions, entry, exit, group[..|group| - 1]);
    }
  }

  /** With a provider that never routes, block `i` is the original point
      followed by the POIs of its group, each inserted as its coordinate. */
  lemma FallbackBlock(plan: Plan, i: nat)
    requires i < |plan.points|
    requires NeverRoutes(plan.directions)
    ensures var g := OrderedGroup(plan, i);
      && |Block(plan, i)| == 1 + |g|
      && Block(plan, i)[0] == plan.points[i]
      && forall k :: 0 <= k < |g| ==> Block(plan, i)[k + 1] == PoiPoint(g[k])
  {
    FallbackDetours(plan.directions, plan.points[i], Next(plan.points, i), OrderedGroup(plan, i));
  }

  /** Sum of the group sizes over indices below `n`. */
  function GroupSizes(dist: DistFn, points: seq<GpxPoint>, sel: seq<Poi>, n: nat): nat {
    if n == 0 then 0 else GroupSizes(dist, points, sel, n - 1) + |Group(dist, points, sel, n - 1)|
  }

  lemma {:induction false} GroupSizesStep(dist: DistFn, points: seq<GpxPoint>, sel: seq<Poi>, n: nat)
    requires |sel| > 0
    ensures GroupSizes(dist, points, sel, n)
         == GroupSizes(dist, points, sel[..|sel| - 1], n)
            + (if BestIndex(dist, points, sel[|sel| - 1]) < n then 1 else 0)
  {
    if n > 0 {
      GroupSizesStep(dist, points, sel, n - 1);
    }
  }

  /** Every selected POI lands in exactly one group below |points|. */
  lemma {:induction false} GroupSizesTotal(dist: DistFn, points: seq<GpxPoint>, sel: seq<Poi>)
    requires |points| > 0
    ensures GroupSizes(dist, points, sel, |points|) == |sel|
  {
    if |sel| > 0 {
      GroupSizesTotal(dist, points, sel[..|sel| - 1]);
      GroupSizesStep(dist, points, sel, |points|);
    } else {
      GroupSizesEmpty(dist, points, sel, |points|);
    }
  }

  lemma {:induction false} GroupSizesEmpty(dist: DistFn, points: seq<GpxPoint>, sel: seq<Poi>, n: nat)
    requires |sel| == 0
    ensures GroupSizes(dist, points, sel, n) == 0
  {
    if n > 0 {
      GroupSizesEmpty(dist, points, sel, n - 1);
    }
  }

  lemma {:induction false} FallbackPrefixLength(plan: Plan, n: nat)
    requires n <= |plan.points|
    requires NeverRoutes(plan.directions)
    ensures |Flatten(Blocks(plan)[..n])| == n + GroupSizes(plan.dist, plan.points, plan.selected, n)
  {
    if n > 0 {
      FallbackPrefixLength(plan, n - 1);
      FlattenStep(Blocks(plan), n - 1);
      assert Blocks(plan)[n - 1] == Block(plan, n - 1);
      FallbackBlock(plan, n - 1);
      SortByPermutes(Group(plan.dist, plan.points, plan.selected, n - 1), AlongKey);
    }
  }

  /** With a provider that never routes, the output has one point per
      original point plus one per selected POI. */
  lemma FallbackLength(plan: Plan)
    requires |plan.points| > 0
    requires NeverRoutes(plan.directions)
    ensures |Augmented(plan)| == |plan.points| + |plan.selected|
  {
    FallbackPrefixLength(plan, |plan.points|);
    assert Blocks(plan)[..|plan.points|] == Blocks(plan);
    GroupSizesTotal(plan.dist, plan.points, plan.selected);
  }

  /** With a provider that never routes, every selected POI appears in the
      output as its own coordinate, right after the original point it is
      nearest to. */
  lemma FallbackVisitsEveryPoi(plan: Plan, p: Poi)
    requires |plan.points| > 0 && NeverRoutes(plan.directions)
    requires p in plan.selected
    ensures PoiPoint(p) in Augmented(plan)
  {
    var i := BestIndex(plan.dist, plan.points, p);
    var g := OrderedGroup(plan, i);
    GroupOrder(plan, i, p.distanceAlongRoute);
    var k :| 0 <= k < |g| && g[k] == p;
    FallbackBlock(plan, i);
    assert Blocks(plan)[i][k + 1] == PoiPoint(p);
    FlattenHasElement(Blocks(plan), i, k + 1);
  }

  /** An empty original route yields no points, whatever is selected. */
  lemma EmptyRouteAugmentsToNothing(plan: Plan)
    requires |plan.points| == 0
    ensures Augmented(plan) == []
  {
  }

  // ---------------------------------------------------------------------
  // Route statistics
  // ---------------------------------------------------------------------

  /** `calculateRouteDistance`: the sum of the legs between consecutive
      points. */
  method CalculateRouteDistance(dist: DistFn, route: GpxRoute) returns (total: real)
    ensures total == PathLength(dist, route.points)
    ensures |route.points| < 2 ==> total == 0.0
  {
    var points := route.points;
    total := 0.0;
    var i := 0;
    while i + 1 < |points|
      invariant |points| == 0 ==> i == 0
      invariant |points| > 0 ==> i < |points|
      invariant |points| > 0 ==> total == PathLength(dist, points[..i + 1])
      invariant |points| == 0 ==> total == 0.0
    {
      var a := points[i];
      var b := points[i + 1];
      total := total + dist(a.lat, a.lon, b.lat, b.lon);
      assert points[..i + 2][..i + 1] == points[..i + 1];
      i := i + 1;
    }
    assert |points| > 0 ==> points[..i + 1] == points;
  }

  /** Legs add up: the length to point `k` plus the length from point `k`
      is the whole length. */
  lemma {:induction false} PathLengthSplit(dist: DistFn, points: seq<GpxPoint>, k: nat)
    requires k < |points|
    ensures PathLength(dist, points[..k + 1]) + PathLength(dist, points[k..]) == PathLength(dist, points)
    decreases |points|
  {
    if k + 1 == |points| {
      assert points[..k + 1] == points;
    } else {
      var init := points[..|points| - 1];
      PathLengthSplit(dist, init, k);
      assert init[..k + 1] == points[..k + 1];
      var tail := points[k..];
      assert tail[..|tail| - 1] == init[k..];
      assert tail[|tail| - 2] == points[|points| - 2];
    }
  }

  /** With non-negative leg lengths, a POI's position along the route never
      exceeds the route's length. */
  lemma AlongRouteWithinLength(dist: DistFn, lat: real, lon: real, route: seq<GpxPoint>)
    requires NonNegativeLegs(dist)
    ensures 0.0 <= AlongRoute(dist, lat, lon, route) <= PathLength(dist, route)
  {
    if |route| > 0 {
      var k := NearestIndex(dist, lat, lon, route);
      PathLengthSplit(dist, route, k);
      PathLengthNonNegative(dist, route[k..]);
      PathLengthNonNegative(dist, route[..k + 1]);
      assert AlongRoute(dist, lat, lon, route) == PathLength(dist, route[..k + 1]);
    }
  }

  /** Distances are never negative. */
  ghost predicate NonNegativeLegs(dist: DistFn) {
    forall a, b, c, d :: dist(a, b, c, d) >= 0.0
  }

  lemma {:induction false} PathLengthNonNegative(dist: DistFn, points: seq<GpxPoint>)
    requires NonNegativeLegs(dist)
    ensures PathLength(dist, points) >= 0.0
  {
    if |points| >= 2 {
      PathLengthNonNegative(dist, points[..|points| - 1]);
    }
  }

  /** The climb from `a` to `b`: counted only when both carry an elevation
      and it rises. */
  function Rise(a: GpxPoint, b: GpxPoint): real {
    if a.ele.Some? && b.ele.Some? && b.ele.value - a.ele.value > 0.0 then b.ele.value - a.ele.value else 0.0
  }

  /** Total elevation gain: the rises over consecutive pairs. */
  function ElevationGain(points: seq<GpxPoint>): (r: real)
    ensures r >= 0.0
  {
    if |points| < 2 then 0.0
    else ElevationGain(points[..|points| - 1]) + Rise(points[|points| - 2], points[|points| - 1])
  }

  /** `calculateElevationGain`. */
  method CalculateElevationGain(route: GpxRoute) returns (totalGain: real)
    ensures totalGain == ElevationGain(route.points)
    ensures totalGain >= 0.0
  {
    var points := route.points;
    totalGain := 0.0;
    var i := 0;
    while i + 1 < |points|
      invariant |points| == 0 ==> i == 0 && totalGain == 0.0
      invariant |points| > 0 ==> i < |points| && totalGain == ElevationGain(points[..i + 1])
    {
      var p1 := points[i];
      var p2 := points[i + 1];
      if p1.ele.Some? && p2.ele.Some? {
        var diff := p2.ele.value - p1.ele.value;
        if diff > 0.0 {
          totalGain := totalGain + diff;
        }
      }
      assert points[..i + 2][..i + 1] == points[..i + 1];
      i := i + 1;
    }
    assert |points| > 0 ==> points[..i + 1] == points;
  }

  /** Descents never count: elevations 100, 90, 120 give a gain of 30. */
  lemma ElevationGainExample(a: GpxPoint, b: GpxPoint, c: GpxPoint)
    requires a.ele == Some(100.0) && b.ele == Some(90.0) && c.ele == Some(120.0)
    ensures ElevationGain([a, b, c]) == 30.0
  {
    assert [a, b, c][..2] == [a, b];
    assert [a, b][..1] == [a];
    assert ElevationGain([a]) == 0.0;
    assert Rise(a, b) == 0.0 && Rise(b, c) == 30.0;
    assert ElevationGain([a, b]) == 0.0;
  }

  /** Pairs missing an elevation contribute nothing: a route without any
      elevation has no gain. */
  /** The gain over two adjoining stretches is the gain of each plus the
      rise across the join. */
  lemma {:induction false} ElevationGainSplit(a: seq<GpxPoint>, b: seq<GpxPoint>)
    requires |a| > 0 && |b| > 0
    ensures ElevationGain(a + b) == ElevationGain(a) + Rise(a[|a| - 1], b[0]) + ElevationGain(b)
    decreases |b|
  {
    var ab := a + b;
    if |b| == 1 {
      assert ab[..|ab| - 1] == a;
    } else {
      var b' := b[..|b| - 1];
      ElevationGainSplit(a, b');
      assert ab[..|ab| - 1] == a + b';
      assert ab[|ab| - 2] == b'[|b'| - 1];
      assert b'[0] == b[0];
    }
  }

  /** A point without elevation contributes nothing: the gain is that of
      the stretch before it plus that of the stretch after it. */
  lemma ElevationGap(points: seq<GpxPoint>, k: nat)
    requires k < |points| && points[k].ele.None?
    ensures ElevationGain(points) == ElevationGain(points[..k]) + ElevationGain(points[k + 1..])
  {
    var x, post := points[k], points[k + 1..];
    var rest := points[k..];
    if k + 1 < |points| {
      assert rest == [x] + post;
      ElevationGainSplit([x], post);
    }
    if k > 0 {
      assert points == points[..k] + rest;
      ElevationGainSplit(points[..k], rest);
    } else {
      assert points == rest;
    }
  }

  lemma {:induction false} NoElevationNoGain(points: seq<GpxPoint>)
    requires forall k :: 0 <= k < |points| ==> points[k].ele.None?
    ensures ElevationGain(points) == 0.0
  {
    if |points| >= 2 {
      NoElevationNoGain(points[..|points| - 1]);
    }
  }
}
