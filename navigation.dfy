/**
 * Turn-by-turn display: the directions route as the app reads it, the
 * maneuver icons, the distance text and the choice of the step to show.
 */
module Navigation {
  import opened Wrappers
  import opened Geo

  /** One step of the route's first leg; the instructions are already stripped of markup. */
  datatype RouteStep = RouteStep(start: LatLng, maneuver: Option<string>, instructions: string)

  /** The first route of a directions result: its overview path and the steps of its first leg. */
  datatype Route = Route(overviewPath: seq<LatLng>, steps: seq<RouteStep>)

  const ManeuverIcons: map<string, string> := map[
    "turn-left" := "\U{2190}",
    "turn-right" := "\U{2192}",
    "turn-slight-left" := "\U{2196}",
    "turn-slight-right" := "\U{2197}",
    "turn-sharp-left" := "\U{21B0}",
    "turn-sharp-right" := "\U{21B1}",
    "uturn-left" := "\U{21A9}",
    "uturn-right" := "\U{21AA}",
    "straight" := "\U{2191}",
    "merge" := "\U{2935}",
    "ramp-left" := "\U{2199}",
    "ramp-right" := "\U{2198}",
    "fork-left" := "\U{2442}",
    "fork-right" := "\U{2442}",
    "roundabout-left" := "\U{21BA}",
    "roundabout-right" := "\U{21BB}"
  ]

  /** The up arrow shown for a missing or unknown maneuver. */
  const DefaultIcon: string := "\U{2191}"

  /** `icons[maneuver] || '↑'`. */
  function ManeuverIcon(maneuver: Option<string>): (r: string)
    ensures r in ManeuverIcons.Values
  {
    if maneuver.Some? && maneuver.value in ManeuverIcons && ManeuverIcons[maneuver.value] != "" then
      ManeuverIcons[maneuver.value]
    else
      assert ManeuverIcons["straight"] == DefaultIcon;
      DefaultIcon
  }

  /** The icon is the table's entry for every listed maneuver and the up arrow otherwise. */
  lemma ManeuverIconLookup(maneuver: Option<string>)
    ensures maneuver.Some? && maneuver.value in ManeuverIcons ==> ManeuverIcon(maneuver) == ManeuverIcons[maneuver.value]
    ensures maneuver.None? || maneuver.value !in ManeuverIcons ==> ManeuverIcon(maneuver) == DefaultIcon
    ensures |ManeuverIcon(maneuver)| == 1
  {
    assert forall k :: k in ManeuverIcons ==> |ManeuverIcons[k]| == 1;
  }

  /** The distance text: whole metres below 1000 m, otherwise kilometres (the one-decimal rendering is not modelled). */
  datatype DistanceText = Metres(m: int) | Kilometres(km: real)

  function FormatDistance(meters: real): (t: DistanceText)
    ensures t.Kilometres? <==> meters >= 1000.0
    ensures t.Kilometres? ==> t.km * 1000.0 == meters
    ensures t.Metres? ==> meters - 0.5 < t.m as real <= meters + 0.5
  {
    if meters >= 1000.0 then Kilometres(meters / 1000.0) else Metres(Round(meters))
  }

  /** Below 1000 m the whole metres shown never exceed 1000, and reach it from 999.5 m. */
  lemma MetresAtMostOneThousand(meters: real)
    ensures FormatDistance(meters).Metres? ==> FormatDistance(meters).m <= 1000
    ensures FormatDistance(999.5) == Metres(1000)
  {
  }

  /** What the navigation panel shows. */
  datatype Hud = Hud(step: nat, distance: Option<DistanceText>, action: string, icon: string)

  function StepStarts(steps: seq<RouteStep>): (ps: seq<LatLng>)
    ensures |ps| == |steps|
    ensures forall i :: 0 <= i < |steps| ==> ps[i] == steps[i].start
  {
    seq(|steps|, i requires 0 <= i < |steps| => steps[i].start)
  }

  /** The panel for step k: its instructions, or "Continue on route" when they are empty, and its icon. */
  function HudFor(route: Route, k: nat, distance: Option<DistanceText>): (h: Hud)
    requires k < |route.steps|
    ensures h.step == k && h.distance == distance
    ensures h.action != ""
    ensures route.steps[k].instructions != "" ==> h.action == route.steps[k].instructions
    ensures route.steps[k].instructions == "" ==> h.action == "Continue on route"
    ensures h.icon == ManeuverIcon(route.steps[k].maneuver)
  {
    var step := route.steps[k];
    Hud(k, distance, if step.instructions == "" then "Continue on route" else step.instructions, ManeuverIcon(step.maneuver))
  }

  /**
   * The panel for the user's position: the first step whose start is nearest
   * to the user, or the first step with "--" when the position is unknown.
   * A route without steps has no panel: the source reads a field of the
   * missing first step and throws.
   */
  function NavigationHud(route: Route, user: Option<LatLng>, dist: Metric): (r: Option<Hud>)
    ensures r.Some? ==> r.value.step < |route.steps|
    ensures r.Some? ==> r.value == HudFor(route, r.value.step, r.value.distance)
    ensures r.Some? && r.value.distance.Some? ==>
              user.Some? && r.value.distance.value == FormatDistance(dist(user.value, route.steps[r.value.step].start))
  {
    if route.steps == [] then None
    else if user.None? then Some(HudFor(route, 0, None))
    else
      var k := Nearest(user.value, StepStarts(route.steps), dist).value;
      Some(HudFor(route, k, Some(FormatDistance(dist(user.value, route.steps[k].start)))))
  }

  /** The step loop of the navigation panel update. */
  method ComputeHud(route: Route, user: Option<LatLng>, dist: Metric) returns (hud: Option<Hud>)
    ensures hud == NavigationHud(route, user, dist)
  {
    if route.steps == [] {
      return None;
    }
    var next := 0;
    var distanceToStep: Option<DistanceText> := None;
    if user.Some? {
      var best, minDistance := ScanNearest(user.value, StepStarts(route.steps), dist);
      next := best.value;
      distanceToStep := Some(FormatDistance(minDistance));
    }
    hud := Some(HudFor(route, next, distanceToStep));
  }

  /**
   * The panel exists exactly for routes with steps, shows a distance exactly
   * when the position is known, and then names the first nearest step.
   */
  lemma NavigationHudChoosesNearestStep(route: Route, user: Option<LatLng>, dist: Metric)
    ensures NavigationHud(route, user, dist).Some? <==> route.steps != []
    ensures NavigationHud(route, user, dist).Some? ==>
              (NavigationHud(route, user, dist).value.distance.Some? <==> user.Some?)
    ensures NavigationHud(route, user, dist).Some? && user.None? ==> NavigationHud(route, user, dist).value.step == 0
    ensures NavigationHud(route, user, dist).Some? && user.Some? ==>
              IsFirstNearest(user.value, StepStarts(route.steps), dist, NavigationHud(route, user, dist).value.step)
  {
    if route.steps != [] && user.Some? {
      var k := Nearest(user.value, StepStarts(route.steps), dist).value;
      assert IsFirstNearest(user.value, StepStarts(route.steps), dist, k);
    }
  }
}
