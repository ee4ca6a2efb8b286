/**
 * The route simulation driver as a state machine: start, pause/resume,
 * stop, speed change and the timer tick that moves the simulated car one
 * path point further.
 */
module Simulation {
  import opened Wrappers
  import opened Geo

  /** A timer period in milliseconds, or a non-finite one (the speed 0 divides by zero). */
  datatype Delay = Ms(ms: real) | NonFinite

  /** Milliseconds the tick interval never goes below. */
  const MinInterval: real := 50.0

  /** The assumed average distance in metres between two path points. */
  const AvgSegmentLength: real := 20.0

  function Max(x: real, y: real): real
  {
    if x >= y then x else y
  }

  /** The tick period for a speed in km/h: the time to cover 20 m, but at least 50 ms. */
  function TickInterval(speed: int): (d: Delay)
    ensures d.NonFinite? <==> speed == 0
    ensures d.Ms? ==> d.ms >= MinInterval
  {
    var metersPerSecond := speed as real * 1000.0 / 3600.0;
    if metersPerSecond == 0.0 then NonFinite
    else Ms(Max(MinInterval, (AvgSegmentLength / metersPerSecond) * 1000.0))
  }

  /**
   * For a positive speed the period is max(50, 72000 / speed) ms (2400 ms at
   * 30 km/h); a negative speed gives the floor of 50 ms.
   */
  lemma TickIntervalFormula(speed: int)
    ensures speed > 0 ==> TickInterval(speed) == Ms(Max(MinInterval, 72000.0 / speed as real))
    ensures speed == 0 <==> TickInterval(speed).NonFinite?
    ensures speed < 0 ==> TickInterval(speed) == Ms(MinInterval)
    ensures TickInterval(30) == Ms(2400.0)
  {
    if speed != 0 {
      var v := speed as real * 1000.0 / 3600.0;
      assert v == speed as real / 3.6;
      assert (AvgSegmentLength / v) * 1000.0 == 72000.0 / speed as real;
      if speed < 0 {
        assert 72000.0 / speed as real < 0.0;
      }
    }
  }

  /** A faster simulation never ticks more slowly, and from 1440 km/h on it ticks at the floor. */
  lemma TickIntervalMonotone(s1: int, s2: int)
    requires 0 < s1 <= s2
    ensures TickInterval(s2).ms <= TickInterval(s1).ms
    ensures s2 >= 1440 ==> TickInterval(s2) == Ms(MinInterval)
  {
    TickIntervalFormula(s1);
    TickIntervalFormula(s2);
    QuotientAntitone(72000.0, s1 as real, s2 as real);
    if s2 >= 1440 {
      QuotientAntitone(72000.0, 1440.0, s2 as real);
    }
  }

  lemma QuotientAntitone(a: real, x: real, y: real)
    requires a > 0.0 && 0.0 < x <= y
    ensures a / y <= a / x
  {
    var qx, qy := a / x, a / y;
    assert qx * x == a;
    assert qy * y == a;
    assert qy * x <= qy * y;
  }

  /** The driver's state; `timer` is the running interval and its period. */
  datatype Sim = Sim(active: bool, paused: bool, index: nat, path: seq<LatLng>, speed: int, timer: Option<Delay>)

  /** The state at load time: 30 km/h, nothing running. */
  const Initial: Sim := Sim(false, false, 0, [], 30, None)

  /** An interval runs exactly while the simulation is active and not paused, at the current speed's period. */
  ghost predicate TimerConsistent(s: Sim)
  {
    s.timer == if s.active && !s.paused then Some(TickInterval(s.speed)) else None
  }

  /** A new speed; a running interval is restarted with the new period. */
  function SetSpeed(s: Sim, speed: int): (r: Sim)
    ensures r.speed == speed
    ensures r.(speed := s.speed, timer := s.timer) == s
  {
    if s.active && !s.paused then s.(speed := speed, timer := Some(TickInterval(speed)))
    else s.(speed := speed)
  }

  /**
   * Starting is refused without a route (`overview` is None). Otherwise the
   * route's path replaces the stored one, and only a non-empty path starts
   * a run from its first point.
   */
  function Start(s: Sim, overview: Option<seq<LatLng>>): (r: Sim)
    ensures overview.None? ==> r == s
    ensures overview.Some? ==> r.path == overview.value
    ensures overview.Some? && overview.value == [] ==> r == s.(path := [])
    ensures overview.Some? && overview.value != [] ==> r.active && !r.paused && r.index == 0 && r.speed == s.speed
  {
    match overview
    case None => s
    case Some(p) =>
      if p == [] then s.(path := p)
      else Sim(true, false, 0, p, s.speed, Some(TickInterval(s.speed)))
  }

  /** Pause and resume are one toggle, which does nothing while inactive. */
  function Pause(s: Sim): (r: Sim)
    ensures !s.active ==> r == s
    ensures s.active ==> r.paused == !s.paused && r.(paused := s.paused, timer := s.timer) == s
  {
    if !s.active then s
    else if !s.paused then s.(paused := true, timer := None)
    else s.(paused := false, timer := Some(TickInterval(s.speed)))
  }

  /** Stopping clears both flags and the interval and keeps index, path and speed. */
  function Stop(s: Sim): (r: Sim)
    ensures !r.active && !r.paused && r.timer.None?
    ensures r.index == s.index && r.path == s.path && r.speed == s.speed
  {
    s.(active := false, paused := false, timer := None)
  }

  /** What one tick did besides changing the state. */
  datatype TickEffect =
    | Idle
    | Completed
    | Advanced(position: LatLng, shownSpeed: int, progress: real)

  datatype Stepped = Stepped(next: Sim, effect: TickEffect)

  /** `Math.round((Math.random() - 0.5) * 4)`. */
  function Jitter(random: real): (j: int)
    ensures (random - 0.5) * 4.0 - 0.5 < j as real <= (random - 0.5) * 4.0 + 0.5
  {
    Round((random - 0.5) * 4.0)
  }

  lemma JitterRange(random: real)
    requires 0.0 <= random < 1.0
    ensures -2 <= Jitter(random) <= 2
  {
  }

  /** `((index + 1) / length) * 100`. */
  function Progress(index: nat, length: nat): (p: real)
    requires index < length
    ensures p * length as real == (index + 1) as real * 100.0
  {
    ((index + 1) as real / length as real) * 100.0
  }

  lemma ProgressRange(index: nat, length: nat)
    requires index < length
    ensures 0.0 < Progress(index, length) <= 100.0
    ensures Progress(index, length) == 100.0 <==> index == length - 1
  {
    var q := (index + 1) as real / length as real;
    assert q * length as real == (index + 1) as real;
    if q == 1.0 {
      assert index + 1 == length;
    }
  }

  /**
   * One timer tick. Past the end of the path the tick stops the simulation;
   * inactive or paused it does nothing; otherwise it reports the current
   * path point, the speed shown (the speed plus jitter, never below 0) and
   * the progress, and moves to the next point.
   */
  function Tick(s: Sim, jitter: int): (r: Stepped)
    ensures r.next.path == s.path && r.next.speed == s.speed
    ensures s.index <= r.next.index <= s.index + 1
    ensures r.effect.Advanced? <==> r.next.index == s.index + 1
  {
    if !s.active || s.paused || s.index >= |s.path| then
      if s.index >= |s.path| then Stepped(Stop(s), Completed) else Stepped(s, Idle)
    else
      var shown := if s.speed + jitter >= 0 then s.speed + jitter else 0;
      Stepped(s.(index := s.index + 1), Advanced(s.path[s.index], shown, Progress(s.index, |s.path|)))
  }

  /** The three outcomes of a tick, each in terms of the state before it. */
  lemma TickCases(s: Sim, jitter: int)
    ensures Tick(s, jitter).effect.Completed? <==> s.index >= |s.path|
    ensures Tick(s, jitter).effect.Completed? ==> Tick(s, jitter).next == Stop(s)
    ensures Tick(s, jitter).effect.Idle? <==> s.index < |s.path| && (!s.active || s.paused)
    ensures Tick(s, jitter).effect.Idle? ==> Tick(s, jitter).next == s
    ensures Tick(s, jitter).effect.Advanced? ==>
              && s.active && !s.paused && s.index < |s.path|
              && Tick(s, jitter).effect.position == s.path[s.index]
              && Tick(s, jitter).next == s.(index := s.index + 1)
              && Tick(s, jitter).effect.progress == ((s.index + 1) as real / |s.path| as real) * 100.0
              && 0.0 < Tick(s, jitter).effect.progress <= 100.0
              && Tick(s, jitter).effect.shownSpeed == (if s.speed + jitter >= 0 then s.speed + jitter else 0)
  {
    if s.active && !s.paused && s.index < |s.path| {
      ProgressRange(s.index, |s.path|);
    }
  }

  /** Every transition keeps the interval in step with the flags and the speed. */
  lemma TimerConsistentPreserved(s: Sim, speed: int, overview: Option<seq<LatLng>>, jitter: int)
    requires TimerConsistent(s)
    ensures TimerConsistent(SetSpeed(s, speed))
    ensures TimerConsistent(Start(s, overview))
    ensures TimerConsistent(Pause(s))
    ensures TimerConsistent(Stop(s))
    ensures TimerConsistent(Tick(s, jitter).next)
  {
  }

  lemma InitialTimerConsistent()
    ensures TimerConsistent(Initial)
  {
  }

  /** Pausing twice gives back the state paused from. */
  lemma PauseInvolution(s: Sim)
    requires TimerConsistent(s)
    ensures Pause(Pause(s)) == s
  {
  }

  /**
   * index <= |path| is kept by every transition but one: a start whose
   * route has an empty path installs it without resetting the index.
   */
  lemma IndexInRangePreserved(s: Sim, speed: int, overview: Option<seq<LatLng>>, jitter: int)
    requires s.index <= |s.path|
    ensures SetSpeed(s, speed).index <= |SetSpeed(s, speed).path|
    ensures overview != Some([]) ==> Start(s, overview).index <= |Start(s, overview).path|
    ensures Pause(s).index <= |Pause(s).path|
    ensures Stop(s).index <= |Stop(s).path|
    ensures Tick(s, jitter).next.index <= |Tick(s, jitter).next.path|
  {
  }

  lemma StartEmptyPathKeepsIndex()
    ensures var s := Sim(true, false, 3, [LatLng(0.0, 0.0), LatLng(0.0, 1.0), LatLng(1.0, 1.0)], 30, Some(TickInterval(30)));
            Start(s, Some([])).index > |Start(s, Some([])).path| && Start(s, Some([])).active
  {
  }

  // ---------------------------------------------------------------------
  // Whole runs
  // ---------------------------------------------------------------------

  /** The state and effects after ticking once per jitter value. */
  function Run(s: Sim, jitters: seq<int>): (r: (Sim, seq<TickEffect>))
    ensures |r.1| == |jitters|
    decreases |jitters|
  {
    if jitters == [] then (s, [])
    else
      var t := Tick(s, jitters[0]);
      var rest := Run(t.next, jitters[1..]);
      (rest.0, [t.effect] + rest.1)
  }

  /** The points an effect list moved through, in order. */
  function Visited(effects: seq<TickEffect>): seq<LatLng>
  {
    if effects == [] then []
    else (if effects[0].Advanced? then [effects[0].position] else []) + Visited(effects[1..])
  }

  /**
   * Ticking a running simulation k times, with k not past the end of the
   * path, visits the next k path points in order and advances the index by k.
   */
  lemma {:induction false} RunVisitsPath(s: Sim, jitters: seq<int>)
    requires s.active && !s.paused
    requires s.index + |jitters| <= |s.path|
    ensures Run(s, jitters).0 == s.(index := s.index + |jitters|)
    ensures Visited(Run(s, jitters).1) == s.path[s.index .. s.index + |jitters|]
    decreases |jitters|
  {
    if jitters != [] {
      var t := Tick(s, jitters[0]);
      assert t.next == s.(index := s.index + 1);
      RunVisitsPath(t.next, jitters[1..]);
      var r := Run(s, jitters);
      assert r.1 == [t.effect] + Run(t.next, jitters[1..]).1;
      assert Visited(r.1) == [s.path[s.index]] + Visited(Run(t.next, jitters[1..]).1);
      assert s.path[s.index .. s.index + |jitters|] == [s.path[s.index]] + s.path[s.index + 1 .. s.index + |jitters|];
    }
  }

  /**
   * A started simulation shows every point of the route's path once, in
   * order, ending at 100 %, and the next tick stops it.
   */
  lemma {:induction false} StartedRunCompletes(s: Sim, p: seq<LatLng>, jitters: seq<int>, last: int)
    requires p != [] && |jitters| == |p|
    ensures var run := Run(Start(s, Some(p)), jitters);
            && Visited(run.1) == p
            && run.1[|p| - 1].Advanced? && run.1[|p| - 1].progress == 100.0
            && Tick(run.0, last).effect.Completed?
            && !Tick(run.0, last).next.active
  {
    var s0 := Start(s, Some(p));
    RunVisitsPath(s0, jitters);
    assert p[0 .. |p|] == p;
    var pre := Run(s0, jitters[..|p| - 1]);
    RunPrefix(s0, jitters[..|p| - 1], [jitters[|p| - 1]]);
    assert jitters[..|p| - 1] + [jitters[|p| - 1]] == jitters;
    RunVisitsPath(s0, jitters[..|p| - 1]);
    ProgressRange(|p| - 1, |p|);
  }

  /** Running a concatenation runs the parts one after the other. */
  lemma {:induction false} RunPrefix(s: Sim, a: seq<int>, b: seq<int>)
    ensures Run(s, a + b).0 == Run(Run(s, a).0, b).0
    ensures Run(s, a + b).1 == Run(s, a).1 + Run(Run(s, a).0, b).1
    decreases |a|
  {
    if a == [] {
      assert a + b == b;
    } else {
      assert (a + b)[1..] == a[1..] + b;
      RunPrefix(Tick(s, a[0]).next, a[1..], b);
    }
  }
}
