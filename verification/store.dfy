/** The application's shared state (store/store.ts): the record types every
    other module uses, the initial state and the reducers the screens call.
    The state container itself is replaced by pure functions from the old
    state to the new one. */
module Store {
  import opened Wrappers

  /** A route point; `ele` and `time` are optional. */
  datatype GpxPoint = GpxPoint(lat: real, lon: real, ele: Option<real>, time: Option<string>)

  /** A route: an optional name and the points in traversal order. */
  datatype GpxRoute = GpxRoute(name: Option<string>, points: seq<GpxPoint>)

  /** A category of point of interest and the OpenStreetMap `key=value`
      tags that identify it; `title` is the source's `label`. */
  datatype PoiType = PoiType(id: string, title: string, enabled: bool, osmTags: seq<string>)

  /** A point of interest found near the route; `typeLabel` is the source's
      `type` field. */
  datatype Poi = Poi(
    id: string,
    name: string,
    typeLabel: string,
    lat: real,
    lon: real,
    selected: bool,
    distanceFromRoute: real,
    distanceAlongRoute: real)

  /** Sort key of a POI: its position along the route. The source writes
      `distanceAlongRoute ?? 0` in one place; the field is always present
      here, so the fallback never applies. */
  function AlongKey(p: Poi): real {
    p.distanceAlongRoute
  }

  datatype AppState = AppState(
    originalRoute: Option<GpxRoute>,
    modifiedRoute: Option<GpxRoute>,
    gpxFileName: Option<string>,
    poiTypes: seq<PoiType>,
    maxDeviation: real,
    pois: seq<Poi>)

  const DefaultPoiTypes: seq<PoiType> := [
    PoiType("water", "Water Supply", true,
            ["amenity=drinking_water", "man_made=water_well", "amenity=water_point"]),
    PoiType("store", "Stores", false,
            ["shop=convenience", "shop=supermarket", "shop=general"]),
    PoiType("food", "Food / Resto", false,
            ["amenity=restaurant", "amenity=cafe", "amenity=fast_food"])
  ]

  /** Deviation radius, in kilometres, the application starts with. */
  const DefaultMaxDeviation: real := 5.0

  const InitialState: AppState :=
    AppState(None, None, None, DefaultPoiTypes, DefaultMaxDeviation, [])

  /** The defaults: water enabled, stores and food disabled, three tags each,
      ids distinct. */
  lemma DefaultPoiTypesShape()
    ensures |DefaultPoiTypes| == 3
    ensures DefaultPoiTypes[0].id == "water" && DefaultPoiTypes[0].enabled
    ensures DefaultPoiTypes[1].id == "store" && !DefaultPoiTypes[1].enabled
    ensures DefaultPoiTypes[2].id == "food" && !DefaultPoiTypes[2].enabled
    ensures forall t :: t in DefaultPoiTypes ==> |t.osmTags| == 3
    ensures forall i, j :: 0 <= i < j < |DefaultPoiTypes| ==> DefaultPoiTypes[i].id != DefaultPoiTypes[j].id
  {
  }

  /** Stores a freshly loaded route and the name of its file. */
  function SetOriginalRoute(s: AppState, route: GpxRoute, fileName: string): (r: AppState)
    ensures r.originalRoute == Some(route) && r.gpxFileName == Some(fileName)
    ensures r.modifiedRoute == s.modifiedRoute && r.pois == s.pois
    ensures r.poiTypes == s.poiTypes && r.maxDeviation == s.maxDeviation
  {
    s.(originalRoute := Some(route), gpxFileName := Some(fileName))
  }

  function SetModifiedRoute(s: AppState, route: GpxRoute): (r: AppState)
    ensures r.modifiedRoute == Some(route)
    ensures r.(modifiedRoute := s.modifiedRoute) == s
  {
    s.(modifiedRoute := Some(route))
  }

  function SetMaxDeviation(s: AppState, deviation: real): (r: AppState)
    ensures r.maxDeviation == deviation
    ensures r.(maxDeviation := s.maxDeviation) == s
  {
    s.(maxDeviation := deviation)
  }

  /** Replaces the candidate list wholesale. */
  function SetPois(s: AppState, pois: seq<Poi>): (r: AppState)
    ensures r.pois == pois
    ensures r.(pois := s.pois) == s
  {
    s.(pois := pois)
  }

  /** Flips `enabled` on every type whose id is `id`. */
  function ToggleTypes(types: seq<PoiType>, id: string): (r: seq<PoiType>)
    ensures |r| == |types|
    ensures forall i :: 0 <= i < |types| ==>
      if types[i].id == id then r[i] == types[i].(enabled := !types[i].enabled)
      else r[i] == types[i]
  {
    if |types| == 0 then []
    else
      var t := types[0];
      [if t.id == id then t.(enabled := !t.enabled) else t] + ToggleTypes(types[1..], id)
  }

  function TogglePoiType(s: AppState, id: string): (r: AppState)
    ensures |r.poiTypes| == |s.poiTypes|
    ensures forall i :: 0 <= i < |s.poiTypes| ==>
      r.poiTypes[i].enabled == (s.poiTypes[i].enabled != (s.poiTypes[i].id == id))
      && r.poiTypes[i].(enabled := s.poiTypes[i].enabled) == s.poiTypes[i]
    ensures r.(poiTypes := s.poiTypes) == s
  {
    s.(poiTypes := ToggleTypes(s.poiTypes, id))
  }

  /** Flips `selected` on every candidate whose id is `id`. */
  function ToggleSelected(pois: seq<Poi>, id: string): (r: seq<Poi>)
    ensures |r| == |pois|
    ensures forall i :: 0 <= i < |pois| ==>
      if pois[i].id == id then r[i] == pois[i].(selected := !pois[i].selected)
      else r[i] == pois[i]
  {
    if |pois| == 0 then []
    else
      var p := pois[0];
      [if p.id == id then p.(selected := !p.selected) else p] + ToggleSelected(pois[1..], id)
  }

  /** Only `selected` of the entries with that id changes; length, order, the
      other entries, the other fields and the rest of the state stay. */
  function TogglePoi(s: AppState, id: string): (r: AppState)
    ensures |r.pois| == |s.pois|
    ensures forall i :: 0 <= i < |s.pois| ==>
      r.pois[i].selected == (s.pois[i].selected != (s.pois[i].id == id))
      && r.pois[i].(selected := s.pois[i].selected) == s.pois[i]
    ensures r.(pois := s.pois) == s
  {
    s.(pois := ToggleSelected(s.pois, id))
  }

  /** Toggling the same candidate twice restores the state. */
  lemma TogglePoiInvolution(s: AppState, id: string)
    ensures TogglePoi(TogglePoi(s, id), id) == s
  {
    var once := TogglePoi(s, id);
    var twice := TogglePoi(once, id);
    assert twice.pois == s.pois;
  }

  /** Toggling an id no candidate carries changes nothing. */
  lemma TogglePoiUnknownId(s: AppState, id: string)
    requires forall p :: p in s.pois ==> p.id != id
    ensures TogglePoi(s, id) == s
  {
    var r := TogglePoi(s, id);
    assert forall i :: 0 <= i < |s.pois| ==> s.pois[i] in s.pois;
    assert r.pois == s.pois;
  }

  /** Toggling the same type twice restores the state. */
  lemma TogglePoiTypeInvolution(s: AppState, id: string)
    ensures TogglePoiType(TogglePoiType(s, id), id) == s
  {
    var twice := TogglePoiType(TogglePoiType(s, id), id);
    assert twice.poiTypes == s.poiTypes;
  }

  /** Back to the initial state, whatever the current one. */
  function Reset(s: AppState): (r: AppState)
    ensures r.originalRoute.None? && r.modifiedRoute.None? && r.gpxFileName.None?
    ensures r.poiTypes == DefaultPoiTypes && r.maxDeviation == 5.0 && r.pois == []
  {
    InitialState
  }

  /** Reset forgets everything: two states reset to the same state, which is
      the one the application starts in. */
  lemma ResetForgets(s: AppState, t: AppState)
    ensures Reset(s) == Reset(t) == InitialState
  {
  }
}
