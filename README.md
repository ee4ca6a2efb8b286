# SafeMaps in Dafny

SafeMaps is a browser app that warns drivers of traffic-calming hazards such
as speed bumps, humps, tables and cushions. It loads the hazards from
OpenStreetMap, marks the ones within 50 m of a planned route, and raises a
banner each time a position fix is closer than 60 m to the nearest hazard. It
also gives turn-by-turn hints, can replay the route as a simulated drive,
and can store and read back crowdsourced hazard reports in Firestore.

This project models the logic of `src/main.js` and `src/firebase.js`:

- `wrappers.dfy`: `Option` and JavaScript's `x || default` on strings and numbers.
- `geo.dfy`: coordinates and the planar closest-point-on-segment projection.
  It also has the loop that tests whether a point is near a path, the
  first-wins nearest-point scan, and the legacy straight-line simulation path.
- `alerts.dfy`: turning Overpass elements into hazards, the on-route partition,
  hazard labels, and the Danger/Warning/Safe decision of the hazard check.
- `navigation.dfy`: maneuver icons, the distance text and the choice of the
  step the navigation panel shows.
- `simulation.dfy`: the simulation driver as a state machine. It covers the
  tick period, start, pause/resume, stop, speed change, the tick itself and
  whole runs.
- `app.dfy`: the page's module-level variables as the fields of a class `App`.
  Each handler becomes a method whose new state is stated against the pure
  functions above. The class keeps the invariant in `Valid()`.
- `firebase.dfy`: the initialisation state and the document built for a
  report. It also has the client-side bounding-box filter over stored reports.

Distances are haversine in the source (and the map library's spherical
distance for the route test). Here both are one function value
`Metric = (LatLng, LatLng) -> real`, so the model takes the two to agree;
nothing else is assumed about it.
Coordinates and the measured speed are `real`s; the simulation speed
and the speed it shows are integers, as `parseInt` and `Math.round` give. External outcomes become parameters:
the Overpass response, the directions result, the Firestore SDK's results
and exceptions, the clock and `Math.random()`.

The model follows the code where the behaviour is surprising:

- A Danger banner fires its flash and beep on every fix closer than 60 m. Nothing
  deduplicates it (`App.fired` grows by one each time).
- A zero time between two fixes gives a non-finite speed
  (`Speed.DividedByZero`).
- Starting a simulation on a route with an empty path installs the empty path
  but keeps the old index and the old flags (`StartEmptyPathKeepsIndex`).
- A route without steps makes the navigation panel update throw. During a
  simulation the index then does not advance.
- With navigation active, the panel follows the last real position fix, not the
  simulated point.
- Distances between 999.5 m and 1000 m are shown as "1000 m".

The code has no deceleration or accelerometer hazard detection, no queue
of reports awaiting review, no voice alerts or alert cool-down, and no
interpolation between simulated points; an alert fires on every Danger
check, not only on entering Danger. The fields `speedBefore`,
`speedAfter` and `detectionMethod` of a stored report are filled only
from what the caller passes, with "deceleration" as the default method.

## Model

| member | source | states |
|---|---|---|
| Wrappers.StringOr | src/main.js:368 | `s \|\| d` on a string: the value when present and non-empty, the default otherwise |
| Wrappers.StringOrNull | src/main.js:369 | `s \|\| null`: present exactly when s is present and non-empty, and then s itself |
| Wrappers.NumberOrNull | src/firebase.js:70-71 | `x \|\| null` on a number: present exactly when x is present and non-zero, keeping its value |
| Geo.Round | src/main.js:810 | `Math.round`: the integer r with x − 0.5 < r ≤ x + 0.5 (halves round up) |
| Geo.Ceil | src/main.js:1094 | `Math.ceil`: the least integer not below x |
| Geo.ClosestPointOnSegment | src/main.js:412-435 | a degenerate segment gives its start; otherwise the result is start + t·(end − start) for some t in [0, 1], so it lies on the segment |
| Geo.SegmentSqLengthPositive | src/main.js:423-428 | outside the degenerate branch the divisor dx² + dy² is positive |
| Geo.ClosestIsLerp | src/main.js:427-434 | for a proper segment the result is the point at the clamped projection parameter |
| Geo.ClosestPointIsNearest | src/main.js:420-434 | no point of the segment is closer to p (planar squared distance) than the returned point |
| Geo.EquidistantProjectsToMidpoint | src/main.js:427-434 | a point equally far from both ends projects onto the segment's midpoint |
| Geo.IsPointNearPath | src/main.js:390-409 | true iff some segment (path[i], path[i+1]) has a closest point within maxDistance (inclusive); false for paths with fewer than two points |
| Geo.NearPathMonotone | src/main.js:403 | being near a path within m1 implies being near it within any m2 ≥ m1 |
| Geo.NearPathExtend | src/main.js:393-406 | a point near a path stays near when the path is extended |
| Geo.Nearest | src/main.js:797-806 | no index for an empty list; otherwise the first index at minimum distance (strict `<` keeps the earliest) |
| Geo.FirstNearestUnique | src/main.js:800-806 | at most one index is the first nearest one |
| Geo.ScanNearest | src/main.js:797-806 | the accumulator loop returns exactly `Nearest` and the distance to that point |
| Geo.PathSteps | src/main.js:1094 | max(20, ⌈d/10⌉): at least 20 and at least d/10, and no larger than needed |
| Geo.CreateSimulationPath | src/main.js:1091-1105 | steps + 1 points, point i at fraction i/steps from start to end, first point start and last point end |
| Alerts.ToHazard | src/main.js:364-371 | position, id and on-route flag come from the element; a non-empty `traffic_calming` becomes the type, and the type is "unknown" exactly when the tag is missing, empty or "unknown"; the name is kept exactly when it is present and non-empty |
| Alerts.OnRouteOnly | src/main.js:374-376 | the route hazards are no more than all hazards and are all flagged on-route |
| Alerts.OnRouteOnlyMembers | src/main.js:374-376 | a hazard is a route hazard iff it is a hazard flagged on-route |
| Alerts.OnRouteOnlyAppend | src/main.js:358-378 | the filter distributes over concatenation, so pushing in element order builds it |
| Alerts.OnRouteOnlyIsSubsequence | src/main.js:358-378 | the route hazards keep the order of the hazards |
| Alerts.PartitionElements | src/main.js:349-378 | one hazard per element, in order, each flagged by the 50 m route test; the route hazards are exactly the flagged ones in order |
| Alerts.HazardsFromElements | src/main.js:637-651 | one hazard per element, in order, none flagged on-route |
| Alerts.HazardLabel | src/main.js:716-731 | the label is always one of the table's labels |
| Alerts.HazardLabelLookup | src/main.js:716-731 | a listed type gets its label, any other type "Traffic Calming"; never empty |
| Alerts.Decide | src/main.js:816-822 | Danger (naming the hazard) iff below 60 m; Warning iff in [60, 120); Safe iff no hazard or at least 120 m |
| Alerts.Assess | src/main.js:796-822 | the readout is "--" exactly for an empty list and is otherwise the rounded distance of the first nearest hazard (the first in list order at minimum distance); a Danger names a hazard of the list |
| Alerts.CheckNearby | src/main.js:796-813 | the hazard loop yields exactly the assessment of the first nearest hazard |
| Alerts.DangerIffHazardWithinAlertDistance | src/main.js:797-817 | the check says Danger iff some hazard of the list is closer than 60 m |
| Alerts.SafeIffNoHazardWithinTwice | src/main.js:797-822 | the check says Safe iff every hazard is at least 120 m away, including the empty list |
| Alerts.WarningIffBand | src/main.js:816-819 | Warning iff the nearest hazard is between 60 m (inclusive) and 120 m (exclusive) |
| Alerts.DangerNamesFirstNearest | src/main.js:800-817 | a Danger names a hazard of the list |
| Navigation.ManeuverIcon | src/main.js:508-528 | the icon is always one of the table's arrows |
| Navigation.ManeuverIconLookup | src/main.js:508-528 | listed maneuvers get their arrow, missing or unknown ones the up arrow; one character |
| Navigation.FormatDistance | src/main.js:531-536 | kilometres iff at least 1000 m (exact quotient), otherwise the rounded metres |
| Navigation.MetresAtMostOneThousand | src/main.js:531-536 | the metre text never exceeds 1000, and 999.5 m already shows 1000 m |
| Navigation.HudFor | src/main.js:498-504 | the panel for a step shows its distance, its instructions or "Continue on route" when they are empty, and its maneuver icon |
| Navigation.NavigationHud | src/main.js:471-505 | a panel names a step of the route, is that step's panel, and any distance it shows is the formatted distance from the known position to that step's start |
| Navigation.ComputeHud | src/main.js:471-504 | the panel loop yields exactly `NavigationHud`: nothing for a route without steps, step 0 with "--" without a position, else the first nearest step with its distance |
| Navigation.NavigationHudChoosesNearestStep | src/main.js:478-500 | a panel exists iff the route has steps, shows a distance iff the position is known, and then shows the first nearest step |
| Simulation.TickInterval | src/main.js:1042-1044 | the period is non-finite exactly at speed 0 and otherwise never below 50 ms |
| Simulation.TickIntervalFormula | src/main.js:1042-1044 | the period is max(50, 72000/s) ms for s > 0, 2400 ms at 30 km/h, non-finite at 0, and 50 ms for negative speeds |
| Simulation.TickIntervalMonotone | src/main.js:1042-1044 | a faster speed never has a longer period; from 1440 km/h on it is the 50 ms floor |
| Simulation.SetSpeed | src/main.js:932-950 | only the speed changes, plus the running interval's period |
| Simulation.Start | src/main.js:952-981 | refused without a route; the path is replaced before the empty check; a non-empty path starts running from index 0 |
| Simulation.Pause | src/main.js:986-1000 | no-op while inactive, otherwise flips `paused` and nothing else besides the interval |
| Simulation.Stop | src/main.js:1003-1010 | clears both flags and the interval; keeps index, path and speed |
| Simulation.Jitter | src/main.js:1070 | `Math.round((random − 0.5)·4)`: within half a unit of (random − 0.5)·4 |
| Simulation.JitterRange | src/main.js:1070 | the jitter added to the shown speed is between −2 and 2 |
| Simulation.Progress | src/main.js:1083 | progress × length = (index + 1) × 100 |
| Simulation.ProgressRange | src/main.js:1083 | progress lies in (0, 100] and is 100 exactly at the last point |
| Simulation.Tick | src/main.js:1049-1088 | a tick never changes the path or the speed, and advances the index by exactly one when it advances and not at all otherwise |
| Simulation.TickCases | src/main.js:1049-1088 | past the end the tick stops; inactive or paused it changes nothing; otherwise it shows path[index], the speed max(0, speed + jitter) and progress ((index + 1) / \|path\|)·100 in (0, 100], and advances the index by one |
| Simulation.TimerConsistentPreserved | src/main.js:932-1046 | every transition keeps an interval running exactly while active and unpaused, at the current speed's period |
| Simulation.InitialTimerConsistent | src/main.js:33-38 | the load-time state has no interval and is consistent |
| Simulation.PauseInvolution | src/main.js:986-1000 | pausing twice restores the state |
| Simulation.IndexInRangePreserved | src/main.js:952-1088 | index ≤ \|path\| is kept by every transition except a start with an empty path |
| Simulation.StartEmptyPathKeepsIndex | src/main.js:959-967 | a start with an empty path leaves an active simulation whose index is past its path |
| Simulation.RunVisitsPath | src/main.js:1059-1087 | k ticks of a running simulation visit the next k path points in order and advance the index by k |
| Simulation.StartedRunCompletes | src/main.js:952-1088 | a started run shows every path point once in order, ends at 100 %, and the next tick stops it |
| Simulation.RunPrefix | src/main.js:1049-1088 | running a concatenation of ticks runs the parts in sequence |
| SafeMaps.MeasuredSpeed | src/main.js:764-770 | 0 km/h without a previous fix; a division by zero only with a previous fix at the same millisecond |
| SafeMaps.MeasuredSpeedMeaning | src/main.js:764-770 | speed 0 without a previous fix (falsy timestamp included); non-finite exactly when no time passed; otherwise speed × Δms = 3600 × distance |
| SafeMaps.App.constructor | src/main.js:13-39 | the load-time values: no hazards, no route, not navigating, Safe, 30 km/h, simulation stopped |
| SafeMaps.App.CheckNearbyHazards | src/main.js:796-840 | banner and readout become the assessment of the list; a Danger appends one fired alert |
| SafeMaps.App.UpdateNavigationHud | src/main.js:471-505 | does nothing unless navigating a route; sets the panel to `NavigationHud`; reports the throw for a route without steps |
| SafeMaps.App.UpdateUserPosition | src/main.js:757-793 | returns the measured speed; records the fix; runs the check over route hazards while navigating, all hazards otherwise; then updates the panel |
| SafeMaps.App.SetUserPosition | src/main.js:564-570 | the position from start-up or the location button becomes the user position; no fix is recorded and nothing else changes |
| SafeMaps.App.StartNavigation | src/main.js:438-457 | refused without a route; otherwise navigation becomes active and the panel is updated |
| SafeMaps.App.EndNavigation | src/main.js:460-468 | only `navigationActive` changes, to false |
| SafeMaps.App.ClearRoute | src/main.js:546-561 | drops the route and the route hazards and ends navigation; all else unchanged |
| SafeMaps.App.FetchHazardsAlongRoute | src/main.js:320-387 | a failed fetch changes nothing; otherwise hazards and route hazards are the partition of the elements and nothing else changes |
| SafeMaps.App.RouteFound | src/main.js:293-305 | the route becomes current; a failed fetch changes nothing else; otherwise hazards are the elements flagged by the 50 m route test, the route hazards the flagged ones in order, and nothing else changes |
| SafeMaps.App.FetchHazards | src/main.js:604-660 | refused without bounds or while a route exists; otherwise the hazards are the elements, none on-route |
| SafeMaps.App.UpdateSimulationSpeed | src/main.js:932-950 | the simulation state becomes `SetSpeed` of the old one |
| SafeMaps.App.StartSimulation | src/main.js:952-983 | the simulation state becomes `Start` of the old one with the route's path; a real start records the start position |
| SafeMaps.App.PauseSimulation | src/main.js:986-1001 | the simulation state becomes `Pause` of the old one |
| SafeMaps.App.StopSimulation | src/main.js:1003-1031 | the simulation state becomes `Stop` of the old one and the banner Safe |
| SafeMaps.App.SwitchToNormalMode | src/main.js:896-912 | stops a running simulation, then sets normal mode |
| SafeMaps.App.SwitchToSimulateMode | src/main.js:914-929 | only the mode changes |
| SafeMaps.App.SimulationStep | src/main.js:1049-1088 | the tick's effect; an advancing tick checks hazards at path[index] and updates the panel, and the index moves on unless the panel update throws |
| Firebase.Initialize | src/firebase.js:22-48 | an initialised state is kept; a fresh initialisation sets all three handles and returns them; otherwise null handles are returned |
| Firebase.InitializeIdempotent | src/firebase.js:22-23 | once initialised, further calls return the cached handles and change nothing |
| Firebase.MissingConfigStaysLocal | src/firebase.js:27-30 | without an API key or project id, null handles and no state change |
| Firebase.ConfiguredIffInitSucceeded | src/firebase.js:25-47 | from the load state, configured iff the config is present and all three SDK calls succeed, iff real handles are returned |
| Firebase.PartialInitLeavesDatabase | src/firebase.js:32-47 | an auth failure after the database call keeps the database handle but not the flag |
| Firebase.ToDocument | src/firebase.js:64-76 | coordinates and location from the report; the type and method are kept when truthy, else "unknown" and "deceleration"; a truthy speed keeps its value and a falsy one becomes null; a falsy timestamp becomes now; unverified with count 0 |
| Firebase.ResolvedLat | src/firebase.js:105 | a truthy `lat` is used; otherwise the location's latitude; missing only when both are |
| Firebase.ResolvedLng | src/firebase.js:106 | a truthy `lng` is used; otherwise the location's longitude; missing only when both are |
| Firebase.InBounds | src/firebase.js:109-110 | the inclusive four-sided test on the resolved coordinates (a missing one fails it); its own ensures only notes that bounds containing a point are non-empty, and the filter's meaning is stated by `WithinBoundsExact` |
| Firebase.WithinBounds | src/firebase.js:103-122 | the returned hazards are no more than the documents |
| Firebase.WithinBoundsAppend | src/firebase.js:103-122 | the filter distributes over concatenation, so pushing in snapshot order builds it |
| Firebase.WithinBoundsExact | src/firebase.js:105-121 | every returned hazard lies in the inclusive bounds, and every document resolving inside them is returned |
| Firebase.SavedReportReadBack | src/firebase.js:64-110 | a saved report read back resolves to its own coordinates, and is returned iff they lie in the bounds |
| Firebase.ZeroLatitudeWithoutLocationDropped | src/firebase.js:105-110 | a stored `lat` of 0 without a location never passes the filter |
| Firebase.FirebaseClient.constructor | src/firebase.js:17-20 | null handles, not initialised, nothing written |
| Firebase.FirebaseClient.InitializeFirebase | src/firebase.js:22-48 | the new state and the returned handles are those of `Initialize` |
| Firebase.FirebaseClient.IsFirebaseConfigured | src/firebase.js:135-137 | initialised and a database handle present |
| Firebase.FirebaseClient.SaveHazardToFirestore | src/firebase.js:57-84 | no database or a failed write returns null and writes nothing; otherwise it appends the report's document and returns its id |
| Firebase.FirebaseClient.FetchCrowdsourcedHazards | src/firebase.js:91-130 | empty without a database or after an error; otherwise exactly the in-bounds documents in snapshot order |

## Left out

- Google Maps loading, markers, info windows, directions, geocoding and
  autocomplete. These are foreign UI and library calls. The directions
  result enters as a `Route` value, and `RouteFound` accepts it.
- The Overpass HTTP request and JSON decoding. These are network I/O; the
  elements enter as a list, or None for a failed request.
- A missing `element.tags` makes the element loop throw partway through.
  The model's `Element` always has its tags.
- The Firestore SDK calls (`initializeApp`, `getFirestore`, `getAuth`,
  `addDoc`, `getDocs`, `Timestamp`, `GeoPoint`) are opaque. Their results and
  exceptions are parameters. The anonymous sign-in is started without being
  awaited and is not modelled. `GeoPoint` rejects out-of-range coordinates,
  which the model does not capture.
- The haversine formula and the map library's spherical distance are
  floating-point trigonometry. Both are the one parameter `dist`, so the
  model does not capture any difference between the two.
- SafeMaps.App.FetchHazardsAlongRoute and SafeMaps.App.FetchHazards: each
  fetch is one atomic step, although both are `async` and write the state
  only after awaiting the response. The model does not capture a response
  arriving after another handler ran. A map fetch that passed its
  route check (src/main.js:605) before a route was set could overwrite
  `hazards` after the route fetch, and a route fetch still in flight when
  `clearRoute` runs could refill `routeHazards` without a route. `Valid()`'s
  conjuncts on the route hazards rely on the fetches being atomic.
- The closest-point projection is modelled on reals, exactly. The source
  computes it in binary floating point.
- `toFixed(1)` of the kilometre text and `stripHtml`'s DOM parsing. The
  kilometre value is kept exact, and the instructions enter already stripped.
- Web Audio, the flash timeout and all DOM updates. A Danger is recorded as
  one entry of `App.fired`.
- `setInterval`, `debounce` and `watchPosition` are timers and event sources.
  They become explicit method calls; the running interval is the field
  `simTimer`.
- The watch callback reads an undeclared `simulationMode` (src/main.js:741)
  instead of `appMode`. That would throw at the first fix. The model calls
  `UpdateUserPosition` directly. The position that start-up reads
  (src/main.js:104-108) is modelled by the same `SetUserPosition` as the
  location button.
- SafeMaps.App.UpdateNavigationHud: for a route without steps the source
  writes "--" into the step-distance text (src/main.js:499) before it throws
  at src/main.js:500. The model leaves `hud` unchanged and reports the
  throw; that partial write to the panel is not modelled.
- Property names such as "constructor" that JavaScript objects inherit would
  make the label and icon lookups return a function. The tables here hold
  only their own keys.
- NaN: the falsy checks treat only missing values, the empty string and 0 as
  falsy.
- Firebase.WithinBounds: its own contract states only the size bound; the
  exact content is stated by `WithinBoundsExact` and `SavedReportReadBack`.
