/**
 * Hazards and the proximity alert: the element-to-hazard mapping of the
 * Overpass results, the split into route hazards, the hazard labels, and the
 * Danger / Warning / Safe decision on the nearest hazard.
 */
module Alerts {
  import opened Wrappers
  import opened Geo

  /** Metres below which the nearest hazard raises the alarm. */
  const AlertDistance: real := 60.0

  /** Metres within which a hazard counts as lying on the route. */
  const RouteRadius: real := 50.0

  /** A `traffic_calming` node as the Overpass API returns it (tags flattened). */
  datatype Element = Element(id: int, lat: real, lon: real, trafficCalming: Option<string>, name: Option<string>)

  /** A hazard of the app's list. */
  datatype Hazard = Hazard(id: int, lat: real, lng: real, kind: string, name: Option<string>, onRoute: bool)

  function HazardPos(h: Hazard): LatLng
  {
    LatLng(h.lat, h.lng)
  }

  function ElementPos(e: Element): LatLng
  {
    LatLng(e.lat, e.lon)
  }

  /** The hazard object built from one element; a missing or empty type becomes "unknown". */
  function ToHazard(e: Element, onRoute: bool): (h: Hazard)
    ensures HazardPos(h) == ElementPos(e) && h.id == e.id && h.onRoute == onRoute
    ensures h.kind != ""
    ensures h.kind == "unknown" <==> e.trafficCalming.None? || e.trafficCalming.value in {"", "unknown"}
    ensures e.trafficCalming.Some? && e.trafficCalming.value != "" ==> h.kind == e.trafficCalming.value
    ensures h.name.Some? ==> h.name.value != ""
    ensures h.name.Some? <==> e.name.Some? && e.name.value != ""
    ensures h.name.Some? ==> h.name == e.name
  {
    Hazard(e.id, e.lat, e.lon, StringOr(e.trafficCalming, "unknown"), StringOrNull(e.name), onRoute)
  }

  // ---------------------------------------------------------------------
  // Route hazards
  // ---------------------------------------------------------------------

  /** The hazards flagged as on the route, in list order. */
  function OnRouteOnly(hs: seq<Hazard>): (r: seq<Hazard>)
    ensures |r| <= |hs|
    ensures forall h :: h in r ==> h.onRoute
  {
    if hs == [] then []
    else if hs[0].onRoute then [hs[0]] + OnRouteOnly(hs[1..])
    else OnRouteOnly(hs[1..])
  }

  lemma {:induction false} OnRouteOnlyMembers(hs: seq<Hazard>, h: Hazard)
    ensures h in OnRouteOnly(hs) <==> h in hs && h.onRoute
  {
    if hs != [] {
      OnRouteOnlyMembers(hs[1..], h);
      assert hs == [hs[0]] + hs[1..];
    }
  }

  lemma {:induction false} OnRouteOnlyAppend(a: seq<Hazard>, b: seq<Hazard>)
    ensures OnRouteOnly(a + b) == OnRouteOnly(a) + OnRouteOnly(b)
  {
    if a == [] {
      assert a + b == b;
    } else {
      assert (a + b)[1..] == a[1..] + b;
      OnRouteOnlyAppend(a[1..], b);
    }
  }

  /** s is t with some elements dropped, the rest kept in order. */
  predicate IsSubsequence(s: seq<Hazard>, t: seq<Hazard>)
    decreases |t|
  {
    if s == [] then true
    else if t == [] then false
    else (s[0] == t[0] && IsSubsequence(s[1..], t[1..])) || IsSubsequence(s, t[1..])
  }

  lemma {:induction false} OnRouteOnlyIsSubsequence(hs: seq<Hazard>)
    ensures IsSubsequence(OnRouteOnly(hs), hs)
  {
    if hs != [] {
      OnRouteOnlyIsSubsequence(hs[1..]);
      var r := OnRouteOnly(hs);
      if hs[0].onRoute {
        assert r[0] == hs[0] && r[1..] == OnRouteOnly(hs[1..]);
      } else if r != [] {
        assert r == OnRouteOnly(hs[1..]);
      }
    }
  }

  /**
   * The loop over the Overpass elements when a route is shown: every element
   * becomes a hazard, flagged on-route when it lies within 50 m of the route's
   * path, and the flagged ones are also collected separately.
   */
  method PartitionElements(elements: seq<Element>, routePath: seq<LatLng>, dist: Metric)
    returns (all: seq<Hazard>, onRoute: seq<Hazard>)
    ensures |all| == |elements|
    ensures forall i :: 0 <= i < |elements| ==>
              all[i] == ToHazard(elements[i], NearPath(ElementPos(elements[i]), routePath, RouteRadius, dist))
    ensures onRoute == OnRouteOnly(all)
  {
    all, onRoute := [], [];
    for i := 0 to |elements|
      invariant |all| == i
      invariant forall j :: 0 <= j < i ==>
                  all[j] == ToHazard(elements[j], NearPath(ElementPos(elements[j]), routePath, RouteRadius, dist))
      invariant onRoute == OnRouteOnly(all)
    {
      var near := IsPointNearPath(ElementPos(elements[i]), routePath, RouteRadius, dist);
      var h := ToHazard(elements[i], near);
      OnRouteOnlyAppend(all, [h]);
      all := all + [h];
      if near {
        onRoute := onRoute + [h];
      }
    }
  }

  /** The loop over the Overpass elements when no route is shown: nothing is on a route. */
  method HazardsFromElements(elements: seq<Element>) returns (all: seq<Hazard>)
    ensures |all| == |elements|
    ensures forall i :: 0 <= i < |elements| ==> all[i] == ToHazard(elements[i], false)
    ensures OnRouteOnly(all) == []
  {
    all := [];
    for i := 0 to |elements|
      invariant |all| == i
      invariant forall j :: 0 <= j < i ==> all[j] == ToHazard(elements[j], false)
      invariant OnRouteOnly(all) == []
    {
      OnRouteOnlyAppend(all, [ToHazard(elements[i], false)]);
      all := all + [ToHazard(elements[i], false)];
    }
  }

  // ---------------------------------------------------------------------
  // Labels
  // ---------------------------------------------------------------------

  /** The label table, including its own `default` entry. */
  const HazardLabels: map<string, string> := map[
    "bump" := "Speed Bump",
    "hump" := "Speed Hump",
    "speed_bump" := "Speed Bump",
    "table" := "Speed Table",
    "raised_crosswalk" := "Raised Crosswalk",
    "cushion" := "Speed Cushion",
    "rumble_strip" := "Rumble Strip",
    "chicane" := "Chicane",
    "choker" := "Road Choker",
    "island" := "Traffic Island",
    "default" := "Traffic Calming"
  ]

  /** `labels[type] || labels.default`. */
  function HazardLabel(kind: string): (r: string)
    ensures r in HazardLabels.Values
  {
    if kind in HazardLabels && HazardLabels[kind] != "" then HazardLabels[kind] else HazardLabels["default"]
  }

  /**
   * No entry of the table is empty, so the `||` fallback fires exactly for
   * the types the table does not list.
   */
  lemma HazardLabelLookup(kind: string)
    ensures kind in HazardLabels ==> HazardLabel(kind) == HazardLabels[kind]
    ensures kind !in HazardLabels ==> HazardLabel(kind) == "Traffic Calming"
    ensures HazardLabel(kind) != ""
  {
    assert forall k :: k in HazardLabels ==> HazardLabels[k] != "";
  }

  // ---------------------------------------------------------------------
  // The alert decision
  // ---------------------------------------------------------------------

  datatype Alert = Danger(hazard: Hazard) | Warning | Safe

  /** The outcome of one hazard check: the alert and the rounded distance shown ("--" is None). */
  datatype Assessment = Assessment(alert: Alert, shown: Option<int>)

  function Positions(hs: seq<Hazard>): (ps: seq<LatLng>)
    ensures |ps| == |hs|
    ensures forall i :: 0 <= i < |hs| ==> ps[i] == HazardPos(hs[i])
  {
    seq(|hs|, i requires 0 <= i < |hs| => HazardPos(hs[i]))
  }

  /**
   * The three-way decision on the closest distance; no hazard at all is the
   * initial `Infinity`, which is never below either threshold.
   */
  function Decide(closest: Option<Hazard>, distance: real): (a: Alert)
    ensures a.Danger? <==> closest.Some? && distance < AlertDistance
    ensures a.Danger? ==> a.hazard == closest.value
    ensures a.Warning? <==> closest.Some? && AlertDistance <= distance < 2.0 * AlertDistance
    ensures a.Safe? <==> closest.None? || distance >= 2.0 * AlertDistance
  {
    if closest.Some? && distance < AlertDistance then Danger(closest.value)
    else if closest.Some? && distance < AlertDistance * 2.0 then Warning
    else Safe
  }

  /** The whole hazard check at pos over list, from the first-wins nearest hazard. */
  function Assess(pos: LatLng, list: seq<Hazard>, dist: Metric): (r: Assessment)
    ensures r.shown.None? <==> list == []
    ensures r.shown.Some? ==> exists k :: 0 <= k < |list| && r.shown.value == Round(dist(pos, HazardPos(list[k])))
    ensures r.alert.Danger? ==> r.alert.hazard in list
    ensures list != [] ==>
              exists k :: 0 <= k < |list| && IsFirstNearest(pos, Positions(list), dist, k)
                && r.shown == Some(Round(HazardDistance(pos, list, dist, k)))
  {
    match Nearest(pos, Positions(list), dist)
    case None => Assessment(Safe, None)
    case Some(k) =>
      var d := dist(pos, HazardPos(list[k]));
      Assessment(Decide(Some(list[k]), d), Some(Round(d)))
  }

  /** The accumulator loop of the hazard check. */
  method CheckNearby(pos: LatLng, list: seq<Hazard>, dist: Metric) returns (a: Assessment)
    ensures a == Assess(pos, list, dist)
  {
    var best, closest := ScanNearest(pos, Positions(list), dist);
    if best.None? {
      a := Assessment(Decide(None, closest), None);
    } else {
      a := Assessment(Decide(Some(list[best.value]), closest), Some(Round(closest)));
    }
  }

  /** The distance to the i-th hazard. */
  function HazardDistance(pos: LatLng, list: seq<Hazard>, dist: Metric, i: nat): real
    requires i < |list|
  {
    dist(pos, HazardPos(list[i]))
  }

  /** Danger exactly when some hazard of the list is closer than 60 m. */
  lemma DangerIffHazardWithinAlertDistance(pos: LatLng, list: seq<Hazard>, dist: Metric)
    ensures Assess(pos, list, dist).alert.Danger? <==>
            exists i :: 0 <= i < |list| && HazardDistance(pos, list, dist, i) < AlertDistance
  {
    var ps := Positions(list);
    var r := Nearest(pos, ps, dist);
    if r.Some? {
      var k := r.value;
      assert HazardDistance(pos, list, dist, k) == dist(pos, ps[k]);
      if exists i :: 0 <= i < |list| && HazardDistance(pos, list, dist, i) < AlertDistance {
        var i :| 0 <= i < |list| && HazardDistance(pos, list, dist, i) < AlertDistance;
        assert HazardDistance(pos, list, dist, i) == dist(pos, ps[i]);
        assert dist(pos, ps[k]) <= dist(pos, ps[i]);
      }
    } else {
      assert list == [];
    }
  }

  /** Safe exactly when every hazard of the list (possibly none) is at least 120 m away. */
  lemma SafeIffNoHazardWithinTwice(pos: LatLng, list: seq<Hazard>, dist: Metric)
    ensures Assess(pos, list, dist).alert.Safe? <==>
            forall i :: 0 <= i < |list| ==> HazardDistance(pos, list, dist, i) >= 2.0 * AlertDistance
  {
    var ps := Positions(list);
    var r := Nearest(pos, ps, dist);
    if r.Some? {
      var k := r.value;
      assert HazardDistance(pos, list, dist, k) == dist(pos, ps[k]);
      forall i | 0 <= i < |list|
        ensures dist(pos, ps[k]) <= HazardDistance(pos, list, dist, i)
      {
        assert dist(pos, ps[k]) <= dist(pos, ps[i]);
      }
    }
  }

  /**
   * A Danger names the first hazard in list order at minimum distance, and
   * the distance shown is that hazard's distance rounded.
   */
  lemma DangerNamesFirstNearest(pos: LatLng, list: seq<Hazard>, dist: Metric)
    requires Assess(pos, list, dist).alert.Danger?
    ensures exists k :: 0 <= k < |list| && list[k] == Assess(pos, list, dist).alert.hazard
              && IsFirstNearest(pos, Positions(list), dist, k)
              && Assess(pos, list, dist).shown == Some(Round(HazardDistance(pos, list, dist, k)))
  {
    var k := Nearest(pos, Positions(list), dist).value;
    assert IsFirstNearest(pos, Positions(list), dist, k);
  }

  /** Warning exactly when no hazard is closer than 60 m but some hazard is closer than 120 m. */
  lemma WarningIffBand(pos: LatLng, list: seq<Hazard>, dist: Metric)
    ensures Assess(pos, list, dist).alert.Warning? <==>
            && (exists i :: 0 <= i < |list| && HazardDistance(pos, list, dist, i) < 2.0 * AlertDistance)
            && (forall i :: 0 <= i < |list| ==> HazardDistance(pos, list, dist, i) >= AlertDistance)
  {
    DangerIffHazardWithinAlertDistance(pos, list, dist);
    SafeIffNoHazardWithinTwice(pos, list, dist);
  }
}
