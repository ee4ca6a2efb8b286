/**
 * The page's module-level state and the handlers that change it: position
 * fixes, the hazard check, route and navigation changes, the hazard fetches
 * and the simulation controls.
 */
module SafeMaps {
  import opened Wrappers
  import opened Geo
  import opened Alerts
  import opened Navigation
  import opened Simulation

  /** The measured speed in km/h; a zero time difference divides by zero. */
  datatype Speed = Kmh(kmh: real) | DividedByZero

  /** There is a previous fix: a position and a truthy (present, non-zero) timestamp. */
  predicate HasPreviousFix(lastPos: Option<LatLng>, lastTime: Option<int>)
  {
    lastPos.Some? && lastTime.Some? && lastTime.value != 0
  }

  /** Distance over elapsed time since the previous fix, in km/h; 0 without one. */
  function MeasuredSpeed(lastPos: Option<LatLng>, lastTime: Option<int>, pos: LatLng, now: int, dist: Metric): (v: Speed)
    ensures !HasPreviousFix(lastPos, lastTime) ==> v == Kmh(0.0)
    ensures v.DividedByZero? ==> HasPreviousFix(lastPos, lastTime) && now == lastTime.value
  {
    if HasPreviousFix(lastPos, lastTime) then
      var timeDiff := (now - lastTime.value) as real / 1000.0;
      if timeDiff == 0.0 then DividedByZero else Kmh((dist(lastPos.value, pos) / timeDiff) * 3.6)
    else
      Kmh(0.0)
  }

  lemma SpeedScaled(d: real, delta: real)
    requires delta != 0.0
    ensures ((d / (delta / 1000.0)) * 3.6) * delta == 3600.0 * d
  {
    var t := delta / 1000.0;
    var q := d / t;
    assert q * t == d;
    assert t * 1000.0 == delta;
    calc {
      (q * 3.6) * delta;
      == (q * 3.6) * (t * 1000.0);
      == 3600.0 * (q * t);
    }
  }

  /**
   * Without a previous fix the speed is 0; with one it is non-finite exactly
   * when no time passed, and otherwise covers the distance between the fixes
   * in the elapsed milliseconds (v km/h for Δ ms is v·Δ/3600 metres).
   */
  lemma MeasuredSpeedMeaning(lastPos: Option<LatLng>, lastTime: Option<int>, pos: LatLng, now: int, dist: Metric)
    ensures !HasPreviousFix(lastPos, lastTime) ==> MeasuredSpeed(lastPos, lastTime, pos, now, dist) == Kmh(0.0)
    ensures HasPreviousFix(lastPos, lastTime) ==>
              (MeasuredSpeed(lastPos, lastTime, pos, now, dist).DividedByZero? <==> now == lastTime.value)
    ensures HasPreviousFix(lastPos, lastTime) && MeasuredSpeed(lastPos, lastTime, pos, now, dist).Kmh? ==>
              MeasuredSpeed(lastPos, lastTime, pos, now, dist).kmh * (now - lastTime.value) as real
              == 3600.0 * dist(lastPos.value, pos)
  {
    if HasPreviousFix(lastPos, lastTime) && now != lastTime.value {
      SpeedScaled(dist(lastPos.value, pos), (now - lastTime.value) as real);
    }
  }

  datatype Mode = Normal | Simulate

  /** Every field of the app, as one value. */
  datatype AppState = AppState(
    hazards: seq<Hazard>,
    routeHazards: seq<Hazard>,
    currentRoute: Option<Route>,
    navigationActive: bool,
    userPosition: Option<LatLng>,
    lastPosition: Option<LatLng>,
    lastTimestamp: Option<int>,
    alert: Alert,
    distanceShown: Option<int>,
    fired: seq<Hazard>,
    hud: Option<Hud>,
    mode: Mode,
    sim: Sim,
    simStartPosition: Option<LatLng>)

  /** The hazards the check uses: the route's while navigating, all of them otherwise. */
  function HazardsToCheck(s: AppState): seq<Hazard>
  {
    if s.navigationActive then s.routeHazards else s.hazards
  }

  /** The state after the hazard check at pos: alert, distance shown, and one more fired alert on Danger. */
  function Checked(s: AppState, pos: LatLng, list: seq<Hazard>, dist: Metric): AppState
  {
    var a := Assess(pos, list, dist);
    s.(alert := a.alert, distanceShown := a.shown,
       fired := if a.alert.Danger? then s.fired + [a.alert.hazard] else s.fired)
  }

  /** Whether the panel update throws: navigating a route without steps. */
  predicate HudThrows(s: AppState)
  {
    s.navigationActive && s.currentRoute.Some? && s.currentRoute.value.steps == []
  }

  /** The state after the panel update; it changes nothing unless a route is being navigated. */
  function HudUpdated(s: AppState, dist: Metric): AppState
  {
    if s.currentRoute.None? || !s.navigationActive then s
    else match NavigationHud(s.currentRoute.value, s.userPosition, dist)
      case None => s
      case Some(h) => s.(hud := Some(h))
  }

  class App {
    const dist: Metric

    var hazards: seq<Hazard>
    var routeHazards: seq<Hazard>
    var currentRoute: Option<Route>
    var navigationActive: bool
    var userPosition: Option<LatLng>
    var lastPosition: Option<LatLng>
    var lastTimestamp: Option<int>
    /** The alert banner. */
    var alert: Alert
    /** The distance readout; None is "--". */
    var distanceShown: Option<int>
    /** Every hazard a Danger was raised for (flash and beep), in order. */
    var fired: seq<Hazard>
    var hud: Option<Hud>
    var mode: Mode

    var simActive: bool
    var simPaused: bool
    var simIndex: nat
    var simPath: seq<LatLng>
    var simSpeed: int
    /** The running interval's period, None when no interval is set. */
    var simTimer: Option<Delay>
    var simStartPosition: Option<LatLng>

    function SimState(): Sim
      reads this
    {
      Simulation.Sim(simActive, simPaused, simIndex, simPath, simSpeed, simTimer)
    }

    ghost function State(): AppState
      reads this
    {
      AppState(hazards, routeHazards, currentRoute, navigationActive, userPosition, lastPosition, lastTimestamp,
               alert, distanceShown, fired, hud, mode, SimState(), simStartPosition)
    }

    /**
     * Navigation needs a route; without a route there are no route hazards;
     * route hazards are hazards flagged on the route; the interval runs
     * exactly while the simulation runs.
     */
    ghost predicate Valid()
      reads this
    {
      && (navigationActive ==> currentRoute.Some?)
      && (currentRoute.None? ==> routeHazards == [])
      && (forall h :: h in routeHazards ==> h in hazards && h.onRoute)
      && TimerConsistent(SimState())
    }

    constructor (dist: Metric)
      ensures Valid()
      ensures this.dist == dist
      ensures State() == AppState([], [], None, false, None, None, None, Safe, None, [], None, Normal, Initial, None)
    {
      this.dist := dist;
      hazards, routeHazards, currentRoute, navigationActive := [], [], None, false;
      userPosition, lastPosition, lastTimestamp := None, None, None;
      alert, distanceShown, fired, hud, mode := Safe, None, [], None, Normal;
      simActive, simPaused, simIndex, simPath, simSpeed, simTimer := false, false, 0, [], 30, None;
      simStartPosition := None;
    }

    /** The hazard check over list at pos. */
    method CheckNearbyHazards(pos: LatLng, list: seq<Hazard>)
      modifies this
      ensures State() == Checked(old(State()), pos, list, dist)
    {
      var a := CheckNearby(pos, list, dist);
      alert, distanceShown := a.alert, a.shown;
      if a.alert.Danger? {
        fired := fired + [a.alert.hazard];
      }
    }

    /** The navigation panel update; `ok` is false where the source throws. */
    method UpdateNavigationHud() returns (ok: bool)
      modifies this
      ensures State() == HudUpdated(old(State()), dist)
      ensures ok <==> !HudThrows(old(State()))
    {
      if currentRoute.None? || !navigationActive {
        return true;
      }
      var h := ComputeHud(currentRoute.value, userPosition, dist);
      if h.None? {
        return false;
      }
      hud := h;
      return true;
    }

    /** A position fix at time `now` (milliseconds). */
    method UpdateUserPosition(pos: LatLng, now: int) returns (speed: Speed)
      requires Valid()
      modifies this
      ensures Valid()
      ensures speed == MeasuredSpeed(old(lastPosition), old(lastTimestamp), pos, now, dist)
      ensures var s := old(State()).(lastPosition := Some(pos), lastTimestamp := Some(now), userPosition := Some(pos));
              State() == HudUpdated(Checked(s, pos, HazardsToCheck(s), dist), dist)
    {
      speed := Kmh(0.0);
      if lastPosition.Some? && lastTimestamp.Some? && lastTimestamp.value != 0 {
        var distance := dist(lastPosition.value, pos);
        var timeDiff := (now - lastTimestamp.value) as real / 1000.0;
        speed := if timeDiff == 0.0 then DividedByZero else Kmh((distance / timeDiff) * 3.6);
      }
      assert speed == MeasuredSpeed(lastPosition, lastTimestamp, pos, now, dist);
      lastPosition, lastTimestamp, userPosition := Some(pos), Some(now), Some(pos);
      ghost var fixed := State();
      assert fixed == old(State()).(lastPosition := Some(pos), lastTimestamp := Some(now), userPosition := Some(pos));
      CheckNearbyHazards(pos, if navigationActive then routeHazards else hazards);
      assert State() == Checked(fixed, pos, HazardsToCheck(fixed), dist);
      if navigationActive {
        var _ := UpdateNavigationHud();
      }
    }

    /**
     * The position obtained at start-up and by the "use my location" button:
     * it becomes the user's position without counting as a fix for the speed.
     */
    method SetUserPosition(pos: LatLng)
      requires Valid()
      modifies this
      ensures Valid()
      ensures State() == old(State()).(userPosition := Some(pos))
    {
      userPosition := Some(pos);
    }

    method StartNavigation()
      requires Valid()
      modifies this
      ensures Valid()
      ensures old(currentRoute).None? ==> State() == old(State())
      ensures old(currentRoute).Some? ==> State() == HudUpdated(old(State()).(navigationActive := true), dist)
    {
      if currentRoute.None? {
        return;
      }
      navigationActive := true;
      var _ := UpdateNavigationHud();
    }

    method EndNavigation()
      modifies this
      ensures old(Valid()) ==> Valid()
      ensures State() == old(State()).(navigationActive := false)
    {
      navigationActive := false;
    }

    method ClearRoute()
      requires Valid()
      modifies this
      ensures Valid()
      ensures State() == old(State()).(currentRoute := None, navigationActive := false, routeHazards := [])
    {
      currentRoute := None;
      EndNavigation();
      routeHazards := [];
    }

    /**
     * The hazard fetch along a route: `fetched` is the Overpass elements, or
     * None when the request or its decoding failed, which changes nothing.
     */
    method FetchHazardsAlongRoute(route: Route, fetched: Option<seq<Element>>)
      requires Valid() && currentRoute.Some?
      modifies this
      ensures Valid()
      ensures fetched.None? ==> State() == old(State())
      ensures fetched.Some? ==>
                && |hazards| == |fetched.value|
                && (forall i :: 0 <= i < |hazards| ==>
                      hazards[i] == ToHazard(fetched.value[i],
                                             NearPath(ElementPos(fetched.value[i]), route.overviewPath, RouteRadius, dist)))
                && routeHazards == OnRouteOnly(hazards)
                && State() == old(State()).(hazards := hazards, routeHazards := routeHazards)
    {
      if fetched.None? {
        return;
      }
      var all, onRoute := PartitionElements(fetched.value, route.overviewPath, dist);
      forall h | h in onRoute
        ensures h in all && h.onRoute
      {
        OnRouteOnlyMembers(all, h);
      }
      hazards, routeHazards := all, onRoute;
    }

    /** A route was found: it becomes the current route and its hazards are fetched. */
    method RouteFound(route: Route, fetched: Option<seq<Element>>)
      requires Valid()
      modifies this
      ensures Valid()
      ensures currentRoute == Some(route)
      ensures fetched.None? ==> State() == old(State()).(currentRoute := Some(route))
      ensures fetched.Some? ==>
                && |hazards| == |fetched.value|
                && (forall i :: 0 <= i < |hazards| ==>
                      hazards[i] == ToHazard(fetched.value[i],
                                             NearPath(ElementPos(fetched.value[i]), route.overviewPath, RouteRadius, dist)))
                && routeHazards == OnRouteOnly(hazards)
                && State() == old(State()).(currentRoute := Some(route), hazards := hazards, routeHazards := routeHazards)
    {
      currentRoute := Some(route);
      FetchHazardsAlongRoute(route, fetched);
    }

    /**
     * The hazard fetch for the visible map area, refused without bounds and
     * while a route is shown; `fetched` as for the route fetch.
     */
    method FetchHazards(haveBounds: bool, fetched: Option<seq<Element>>)
      requires Valid()
      modifies this
      ensures Valid()
      ensures !haveBounds || old(currentRoute).Some? || fetched.None? ==> State() == old(State())
      ensures haveBounds && old(currentRoute).None? && fetched.Some? ==>
                && |hazards| == |fetched.value|
                && (forall i :: 0 <= i < |hazards| ==> hazards[i] == ToHazard(fetched.value[i], false))
                && State() == old(State()).(hazards := hazards)
    {
      if !haveBounds || currentRoute.Some? || fetched.None? {
        return;
      }
      hazards := HazardsFromElements(fetched.value);
    }

    // -------------------------------------------------------------------
    // Simulation controls
    // -------------------------------------------------------------------

    method UpdateSimulationSpeed(speed: int)
      requires Valid()
      modifies this
      ensures Valid()
      ensures State() == old(State()).(sim := SetSpeed(old(SimState()), speed))
    {
      simSpeed := speed;
      if simActive && !simPaused {
        simTimer := Some(TickInterval(simSpeed));
      }
    }

    method StartSimulation()
      requires Valid()
      modifies this
      ensures Valid()
      ensures var overview := if old(currentRoute).Some? then Some(old(currentRoute).value.overviewPath) else None;
              && SimState() == Start(old(SimState()), overview)
              && simStartPosition == (if overview.Some? && overview.value != [] then old(userPosition) else old(simStartPosition))
              && State() == old(State()).(sim := SimState(), simStartPosition := simStartPosition)
    {
      if currentRoute.None? {
        return;
      }
      simPath := currentRoute.value.overviewPath;
      if simPath == [] {
        return;
      }
      simActive, simPaused, simIndex := true, false, 0;
      simStartPosition := userPosition;
      simTimer := Some(TickInterval(simSpeed));
    }

    method PauseSimulation()
      requires Valid()
      modifies this
      ensures Valid()
      ensures State() == old(State()).(sim := Pause(old(SimState())))
    {
      if !simActive {
        return;
      }
      simPaused := !simPaused;
      if simPaused {
        simTimer := None;
      } else {
        simTimer := Some(TickInterval(simSpeed));
      }
    }

    /** Stopping also puts the banner back to "Road Clear". */
    method StopSimulation()
      requires Valid()
      modifies this
      ensures Valid()
      ensures State() == old(State()).(sim := Stop(old(SimState())), alert := Safe)
    {
      simActive, simPaused := false, false;
      simTimer := None;
      alert := Safe;
    }

    method SwitchToNormalMode()
      requires Valid()
      modifies this
      ensures Valid()
      ensures old(simActive) ==> State() == old(State()).(sim := Stop(old(SimState())), alert := Safe, mode := Normal)
      ensures !old(simActive) ==> State() == old(State()).(mode := Normal)
    {
      if simActive {
        StopSimulation();
      }
      mode := Normal;
    }

    method SwitchToSimulateMode()
      requires Valid()
      modifies this
      ensures Valid()
      ensures State() == old(State()).(mode := Simulate)
    {
      mode := Simulate;
    }

    /**
     * One interval tick; `random` is the draw of `Math.random()`. An advancing
     * tick runs the hazard check at the path point and the panel update, and
     * moves on only if the panel update did not throw.
     */
    method SimulationStep(random: real) returns (effect: TickEffect)
      requires Valid()
      requires 0.0 <= random < 1.0
      modifies this
      ensures Valid()
      ensures effect == Tick(old(SimState()), Jitter(random)).effect
      ensures effect.Idle? ==> State() == old(State())
      ensures effect.Completed? ==> State() == old(State()).(sim := Stop(old(SimState())), alert := Safe)
      ensures effect.Advanced? ==>
                var checked := HudUpdated(Checked(old(State()), effect.position, HazardsToCheck(old(State())), dist), dist);
                State() == if HudThrows(old(State())) then checked
                           else checked.(sim := Tick(old(SimState()), Jitter(random)).next)
    {
      var t := Tick(SimState(), Jitter(random));
      effect := t.effect;
      if effect.Idle? {
        return;
      }
      if effect.Completed? {
        StopSimulation();
        return;
      }
      var position := simPath[simIndex];
      CheckNearbyHazards(position, if navigationActive then routeHazards else hazards);
      if navigationActive {
        var ok := UpdateNavigationHud();
        if !ok {
          return;
        }
      }
      simIndex := simIndex + 1;
    }
  }
}
