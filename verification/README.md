# Refill route planning core, in Dafny

This project models the non-UI core of a mobile application that helps cyclists find water, shops and food along a GPX route. It covers five pieces:

- **GPX import and export** (`GpxParser`). `parseGPX` reads over an already-parsed XML element tree. It takes the first track over any route, concatenates the segments, skips points without coordinates and applies default names. `generateGPX` builds a single-track tree.
- **Proximity helpers** (`GpxParser`). These are the minimum distance to a route and the distance along the route to the nearest point. The haversine distance is a function parameter, `DistFn`.
- **Route augmentation** (`RouteGenerator`). Each selected point of interest (POI) is assigned to its nearest original point, and the groups are ordered along the route. Each original point is emitted followed by its group's detours. A detour is a routed path with its seam points trimmed, or the POI itself when the directions provider gives nothing. The provider is a function parameter (`Directions`). This module also computes route distance and elevation gain.
- **POI search** (`PoiService`). This covers the early exits, the padded bounding box and the exact Overpass query text. The Overpass reply is an input. Elements are de-duplicated by id, then their coordinates are resolved, the deviation filter applied, the type label and name resolved, and the result stably sorted by position along the route.
- **State and file intents** (`Store`, `FileIntent`). The store's reducers are pure functions from state to state. `handleFileIntent` classifies an incoming URL, reads and parses the file, and either rejects it or stores the route under its file name.

Four helper modules support these: `Wrappers` (an optional value and a success-or-error result), `Strings` (the JavaScript string operations used), `Sorting` (the stable sort behind `Array.prototype.sort`) and `Seqs` (a sequence of blocks, flattened).

In a few places the documented design and the code differ; the model follows the code:

- An empty route gives insertion index 0 rather than an error.
- A matching type whose label is itself "Unknown" does not end the type-label scan.
- An emit-and-read cycle drops a zero elevation and an empty time, because both are falsy.
- De-duplication uses the numeric id text alone, and an id is recorded before the element is checked. So a node whose id equals an earlier way's id is dropped even when that way was itself discarded for lacking a `center` (`PoiService.FirstCopyDecides`).
- A chosen track without any `trkseg` makes `parseGPX` throw. This is `Failure(MissingTrackSegment)` in the model.
- The design says every selected POI appears in the modified route. The code guarantees this only for the fallback (`RouteGenerator.FallbackVisitsEveryPoi`). A routed detour whose points are all trimmed as seam points adds nothing, so its POI is then not visited (`RouteGenerator.EmptyTrimAddsNothing`).

## Model

| member | source | states |
|---|---|---|
| Store.DefaultPoiTypesShape | store/store.ts:55-74 | Three default types: water enabled, stores and food disabled; three OSM tags each; distinct ids. |
| Store.SetOriginalRoute | store/store.ts:86 | Only the original route and file name change; the modified route, POIs, types and deviation are untouched. |
| Store.SetModifiedRoute | store/store.ts:88 | Only the modified route changes. |
| Store.SetMaxDeviation | store/store.ts:97 | Only the deviation changes. |
| Store.SetPois | store/store.ts:99 | The POI list is replaced wholesale and nothing else changes. |
| Store.TogglePoiType | store/store.ts:90-95 | `enabled` flips exactly on types with the given id; length, order, other fields and the rest of the state are unchanged. |
| Store.TogglePoi | store/store.ts:101-104 | `selected` flips exactly on POIs with the given id; length, order, every other entry and field, and the rest of the state are unchanged. |
| Store.TogglePoiInvolution | store/store.ts:101-104 | Toggling the same POI id twice restores the state. |
| Store.TogglePoiUnknownId | store/store.ts:101-104 | Toggling an id no POI carries leaves the state unchanged. |
| Store.TogglePoiTypeInvolution | store/store.ts:90-95 | Toggling the same type id twice restores the state. |
| Store.Reset | store/store.ts:106-114 | Reset yields the initial state: no routes, no file name, default types, deviation 5, no POIs. |
| Store.ResetForgets | store/store.ts:106-114 | Reset erases any sequence of earlier updates: the result does not depend on the prior state. |
| GpxParser.ReadPoints | utils/gpxParser.ts:26-34 | Points are read in order, at most one per element; elevation 0 is never kept; route points carry no time. |
| GpxParser.ParseGpx | utils/gpxParser.ts:15-56 | Fails exactly when the first track has no segment. With a track, the points are that track's segments read in order (`TrackPoints`) and the name defaults to "Imported Track". Without one, the first route's points are read without time (`ReadPoints`) and the name defaults to "Imported Route". With neither element the result is name "" and no points. |
| GpxParser.ReadPointsAppend | utils/gpxParser.ts:26-34 | Reading distributes over concatenation of element lists. |
| GpxParser.IncompletePointSkipped | utils/gpxParser.ts:27 | An element lacking lat or lon is skipped without error: removing it changes nothing. |
| GpxParser.CompletePointsAllRead | utils/gpxParser.ts:26-34 | When every element has coordinates, the i-th point is exactly the i-th element read. |
| GpxParser.TrackPoints | utils/gpxParser.ts:23-36 | No point read from a track carries a zero elevation. |
| GpxParser.TrackPointsAppend | utils/gpxParser.ts:23-36 | Segment points are concatenated in document order. |
| GpxParser.TrackTakesPrecedence | utils/gpxParser.ts:19-20 | Only the first `trk` matters; later tracks and all routes are ignored. |
| GpxParser.FirstRouteOnly | utils/gpxParser.ts:37-38 | Without tracks only the first `rte` matters. |
| GpxParser.GenerateGpx | utils/gpxParser.ts:62-91 | A GPX 1.1 root with the topografix namespace, one `trk` with one `trkseg`, one `trkpt` per point in order with its lat/lon, and its own ele and time, each present iff truthy. Track name and metadata name are both `name || 'Refuel Route'`, the metadata time is the given timestamp, and the creator is "Refuel App". |
| GpxParser.WriteReadPoints | utils/gpxParser.ts:82-87 | Reading the written point elements gives each point back with only falsy ele/time removed. |
| GpxParser.GenerateThenParse | utils/gpxParser.ts:79-88 | Parsing the generated tree succeeds and recovers the same (lat, lon) sequence, the normalised points and the written name. |
| GpxParser.GetMinDistanceToRoute | utils/gpxParser.ts:122-137 | Infinity iff the route is empty; otherwise at most every point's distance and equal to one of them. |
| GpxParser.NearestIndex | utils/gpxParser.ts:147-157 | In range for a non-empty route (0 when empty), no farther than any index and strictly nearer than every lower index. |
| GpxParser.NearestIndexUnique | utils/gpxParser.ts:151-157 | The first minimiser is unique: any index with the argmin properties is the nearest index. |
| GpxParser.MinDistanceAtNearestIndex | utils/gpxParser.ts:129-134 | The minimum distance is attained at the nearest index. |
| GpxParser.GetDistanceAlongRoute | utils/gpxParser.ts:142-168 | Equals the path length up to the first nearest point; 0 when that point is the first. |
| GpxParser.ClosestIndex | utils/gpxParser.ts:147-157 | The first loop finds exactly the first nearest index. |
| GpxParser.LegsUpTo | utils/gpxParser.ts:160-165 | The second loop adds exactly the legs before the given index. |
| RouteGenerator.PointsAreEqual | utils/routeGenerator.ts:21-26 | True iff both the latitude and the longitude differ by strictly less than 1e-6; elevation and time are ignored. |
| RouteGenerator.SelectedPois | utils/routeGenerator.ts:97 | Keeps exactly the selected POIs, and no more of them than were given. |
| RouteGenerator.SelectedPoisAppend | utils/routeGenerator.ts:97 | The filter keeps order and multiplicity: it distributes over concatenation and keeps a one-element list iff its POI is selected. |
| RouteGenerator.FindBestInsertionPoint | utils/routeGenerator.ts:75-88 | 0 for an empty route; otherwise an in-range index no farther than any other and strictly nearer than all lower ones (the first wins ties). |
| RouteGenerator.GroupMembers | utils/routeGenerator.ts:115-120 | A group holds exactly the selected POIs whose insertion index is that group's index. |
| RouteGenerator.GroupByInsertionPoint | utils/routeGenerator.ts:113-120 | The map built by the loop lists, under every index, that index's group in selection order (absent means empty). |
| RouteGenerator.SortSegments | utils/routeGenerator.ts:122-126 | Every list of the map is replaced by its stable sort by position along the route. |
| RouteGenerator.GroupOrder | utils/routeGenerator.ts:113-126 | An ordered group is sorted by position along the route. It is a permutation of the group, holds exactly the POIs nearest that index, and POIs with equal positions keep selection order. |
| RouteGenerator.AppendRouted | utils/routeGenerator.ts:173-183 | The forEach appends exactly the seam-trimmed routed points. |
| RouteGenerator.AppendDetours | utils/routeGenerator.ts:138-184 | Each POI contributes its routed, trimmed path or, without one, its own coordinate, in group order. |
| RouteGenerator.AppendBlock | utils/routeGenerator.ts:130-185 | One outer iteration appends the original point followed by its group's detours. |
| RouteGenerator.AugmentRoute | utils/routeGenerator.ts:113-185 | The emitted points are the blocks of all original points, end to end. |
| RouteGenerator.GenerateRouteWithPois | utils/routeGenerator.ts:93-233 | No selected POI returns the original route unchanged. Otherwise the name is `(name or 'Route') + ' (Modified)'` and the points are the augmented sequence. |
| RouteGenerator.OriginalPointsKept | utils/routeGenerator.ts:130-133 | Every original point appears in order, each at the start of its own block, so the output is never shorter. |
| RouteGenerator.TrimSeamIsSlice | utils/routeGenerator.ts:173-183 | The first routed point is dropped iff within 1e-6 of the entry point; the last iff a next point exists and it is within 1e-6 of it. Everything between is kept in order. |
| RouteGenerator.EmptyTrimAddsNothing | utils/routeGenerator.ts:151 | A non-empty routed path that trims to nothing adds no point, and the fallback is not used. |
| RouteGenerator.FallbackDetours | utils/routeGenerator.ts:151-161 | With a provider that never routes, a group's detours are its POIs' coordinates, one each, in order. |
| RouteGenerator.FallbackBlock | utils/routeGenerator.ts:151-161 | With a provider that never routes, a block is the original point followed by one coordinate per POI of its ordered group. |
| RouteGenerator.GroupSizesTotal | utils/routeGenerator.ts:115-120 | For a non-empty route the group sizes add up to the number of selected POIs. |
| RouteGenerator.FallbackLength | utils/routeGenerator.ts:151-161 | With a provider that never routes, the output has N + (number of selected POIs) points. |
| RouteGenerator.FallbackVisitsEveryPoi | utils/routeGenerator.ts:151-161 | With a provider that never routes and a non-empty route, every selected POI's coordinate appears in the output. |
| RouteGenerator.EmptyRouteAugmentsToNothing | utils/routeGenerator.ts:129 | An empty original route yields no points. |
| RouteGenerator.CalculateRouteDistance | utils/routeGenerator.ts:239-249 | The sum of consecutive leg lengths; 0 for fewer than two points. |
| RouteGenerator.AlongRouteWithinLength | utils/gpxParser.ts:160-165 | With non-negative distances, a position along the route lies between 0 and the route length. |
| RouteGenerator.ElevationGain | utils/routeGenerator.ts:254-272 | The total gain is never negative. |
| RouteGenerator.CalculateElevationGain | utils/routeGenerator.ts:254-272 | The loop computes the sum of positive rises between consecutive points that both have an elevation, which is non-negative. |
| RouteGenerator.ElevationGainExample | utils/routeGenerator.ts:261-268 | Elevations 100, 90, 120 give a gain of 30. |
| RouteGenerator.NoElevationNoGain | utils/routeGenerator.ts:262 | A route none of whose points has an elevation has zero gain. |
| RouteGenerator.ElevationGainSplit | utils/routeGenerator.ts:257-269 | The gain over two adjoining stretches is the gain of each plus the rise across the join. |
| RouteGenerator.ElevationGap | utils/routeGenerator.ts:262 | A point without elevation contributes nothing: the gain is the gain before it plus the gain after it. |
| PoiService.EnabledTypes | utils/poiService.ts:15 | Keeps exactly the enabled types, and no more of them than were given. |
| PoiService.EnabledTypesAppend | utils/poiService.ts:15 | The filter keeps order and multiplicity: it distributes over concatenation and keeps a one-element list iff its type is enabled. |
| PoiService.MinOf | utils/poiService.ts:21 | `Math.min` of a non-empty list is one of its values and at most every value. |
| PoiService.MaxOf | utils/poiService.ts:22 | `Math.max` of a non-empty list is one of its values and at least every value. |
| PoiService.RouteInsideBox | utils/poiService.ts:19-24 | For a deviation of at least 0, every route point lies in the box, and each edge is exactly `maxDeviation/111` beyond some route point. |
| PoiService.SplitTag | utils/poiService.ts:32 | Without '=' the key is the whole tag and the value is absent. Otherwise the key is the text before the first '=', and the value is the text from there up to the next '=' or the end. |
| PoiService.SplitTagJoin | utils/poiService.ts:32 | `key=value` splits back into its key and value. |
| PoiService.QueryCoversEveryTag | utils/poiService.ts:27-38 | For every tag of every enabled type, its `node[...]` and `way[...]` lines appear in the query between the fixed header and footer. |
| PoiService.QueryWithoutTags | utils/poiService.ts:28-38 | Enabled types without tags give the bare header and footer. |
| PoiService.Coordinates | utils/poiService.ts:64-72 | A node's own position, otherwise the `center`, otherwise none. |
| PoiService.ResolveTypeLabelSpec | utils/poiService.ts:84-94 | The label is "Unknown" iff no matching type has another label. Otherwise it is the label of the first matching type not labelled "Unknown". |
| PoiService.PoiName | utils/poiService.ts:97-101 | Never empty. It is the first truthy one of `name`, `name:en` and `operator`, and `"<label> #<id>"` when none is truthy. |
| PoiService.Shape | utils/poiService.ts:61-112 | An element yields a POI iff it has coordinates and its minimum distance is finite and within the deviation. The POI carries the id text, the coordinates, that distance, the position along the route, the resolved type label and the name chosen from the tags, and is unselected. |
| PoiService.ProcessElements | utils/poiService.ts:53-113 | The loop with its seen-id set emits exactly the collected POIs. |
| PoiService.CollectMembers | utils/poiService.ts:56-59 | A POI is emitted iff it is the shape of the first element carrying its id text. |
| PoiService.CollectDistinct | utils/poiService.ts:54-59 | Emitted POIs have pairwise distinct ids. |
| PoiService.FoundProperties | utils/poiService.ts:115-116 | The result is sorted by position along the route and is a permutation of the emitted POIs. Its ids are distinct, and every POI is unselected and within the deviation. |
| PoiService.FirstCopyDecides | utils/poiService.ts:58-72 | A duplicate id is dropped even when the first copy was skipped for lacking coordinates. |
| PoiService.FetchPoisAlongRoute | utils/poiService.ts:7-123 | No request and no POIs iff the route is empty or no type is enabled. Otherwise the exact query is sent, a failed reply is an error, and an answer yields the found POIs. |
| FileIntent.FileUriOf | app/_layout.tsx:42-65 | `exp://`, `http://` and `https://` URLs are skipped. A `refill://` URL designates its non-empty `uri` parameter. Only `content://` and `file://` URIs qualify. |
| FileIntent.FileName | app/_layout.tsx:79 | The file name is non-empty and contains no '/'. |
| FileIntent.FileNameSpec | app/_layout.tsx:79 | The text after the last '/' when non-empty, else "route.gpx" (also for a URI ending in '/'). |
| FileIntent.HandleFileIntent | app/_layout.tsx:38-90 | Skipped iff the URL designates no file URI. `LoadFailed` (the "failed to load" alert) iff the read fails or parsing fails, and `NoRoute` (the "no valid route" alert) iff the document parses to zero points. Every non-skipped outcome carries the file URI. Loaded iff the document parses to at least one point, and the state then changes exactly by storing that route under its file name; in every other outcome it is unchanged. |
| FileIntent.EmptyDocumentRejected | app/_layout.tsx:71-76 | A document without tracks or routes is rejected and the state kept. |
| FileIntent.FileUriExample | app/_layout.tsx:61-82 | `file:///tmp/ride.gpx` is loaded under the name `ride.gpx`. |
| Strings.AfterLast | app/_layout.tsx:79 | `split('/').pop()` is '/'-free, a suffix of the input, and preceded by '/' unless it is the whole input. |
| Strings.NatToStringRoundTrip | utils/poiService.ts:58 | The decimal id text reads back as the id. |
| Strings.NatToStringInjective | utils/poiService.ts:58 | Distinct ids have distinct id texts. |
| Sorting.SortStable | utils/routeGenerator.ts:122-126 | Sorting keeps the relative order of elements with equal keys. |
| Sorting.SortBySorted | utils/poiService.ts:116 | The sort result is non-decreasing in the key. |
| Sorting.SortByPermutes | utils/poiService.ts:116 | The sort result is a permutation of its input. |

## Left out

- The network calls (the Mapbox directions request and the Overpass `fetch`) are function parameters. A missing token, an HTTP error, a thrown error and an empty geometry are all one `None` from the provider. The Overpass reply is either a failure or a list of elements.
- The haversine formula is floating-point trigonometry. It is the `DistFn` parameter, and no metric fact about it is assumed.
- XML text parsing and printing (`XMLParser`, `XMLBuilder`, `parseFloat`) are not modelled. The model works on the element tree, with numeric attributes taken as the numbers they denote.
- JavaScript's printing of numbers in the query's bounding box is the `show` parameter.
- The source turns a single child into a one-element list (`Array.isArray(x) ? x : [x]`). The tree always holds lists, so that step has nothing to do.
- An empty `<trk/>` element arrives as the empty string, which is falsy, so the route branch would be tried. This is not modelled.
- An empty `<rte/>` element is likewise the empty string, so the source returns name "" and no points, where the model's `ParseGpx` gives "Imported Route". The tree has no empty-element form.
- The metadata timestamp comes from the clock. It is the `now` parameter.
- The static preview URL, its downsampling and the console logging do not affect the returned route.
- The sequential `await`s in the augmentation loop are a left-to-right fold; there is no concurrency.
- `Linking.parse` is the `uriParam` parameter. Reading a file and parsing its text is the `read` parameter.
- `Alert` and navigation are the `IntentOutcome` value. `NoRoute` and `LoadFailed` stand for the two alerts.
- NaN coordinates (an undefined `lat` on a node) are not modelled, and neither are an infinite deviation or `Math.min` over more arguments than the engine allows.
- `distanceAlongRoute ?? 0`: the field is always a number, so the fallback never applies and is not modelled.
- A tag whose key is inherited from `Object.prototype` (for example `constructor`) is not modelled: an element's tags are a plain map.
- The zustand store machinery, all screens and components, and metro.config.js are outside the core.
- GpxParser.ParseGpx: a `name` child whose text is numeric arrives from the XML library as a number. So `<name>0</name>` falls back to "Imported Track", and `<name>12</name>` yields a number, not a string. The tree holds names as strings and does not reproduce this.
- GpxParser.GenerateThenParse: for the same reason, the round trip recovers the written name only at the tree level. A name whose text is numeric does not come back through XML text.
- RouteGenerator.AlongRouteWithinLength: holds only for distance functions that are never negative, which the model assumes rather than derives from the haversine formula.
