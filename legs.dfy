/**
 * Stops, trips and legs of a journey, and the analytics a single leg derives:
 * its duration, its kind, and how many stops it rides.
 */
module Legs {
  import opened Wrappers
  import opened Times

  /** A latitude/longitude pair in degrees. */
  datatype Coordinate = Coordinate(latitude: real, longitude: real)

  /** A stop. Two stops are the same stop exactly when all their fields agree. */
  datatype Stop = Stop(id: string, name: string, coordinate: Coordinate)

  datatype TransportMode = BUS | TRAM | RAIL | SHIP | SUBWAY | AERIAL_LIFT | FUNICULAR

  datatype Route = Route(id: string, name: string, shortName: string,
                         transportMode: TransportMode, transportModeDescription: string)

  /** A scheduled call of a trip at a stop. */
  datatype StopTime = StopTime(stop: Stop, arrivalTime: Timestamp, departureTime: Timestamp)

  /** One run of a route; its stop times are in schedule order. */
  datatype Trip = Trip(headSign: string, route: Route, stopTimes: seq<StopTime>,
                       bikesAllowed: bool, wheelchairAccessible: bool)

  /** Builds a trip from a payload whose stop-time list may be null; null becomes the empty list. */
  function NewTrip(headSign: string, route: Route, stopTimes: Option<seq<StopTime>>,
                   bikesAllowed: bool, wheelchairAccessible: bool): (t: Trip)
    ensures stopTimes.None? ==> t.stopTimes == []
    ensures stopTimes.Some? ==> t.stopTimes == stopTimes.value
    ensures t.headSign == headSign && t.route == route
    ensures t.bikesAllowed == bikesAllowed && t.wheelchairAccessible == wheelchairAccessible
  {
    var normalised := match stopTimes
      case None => []
      case Some(s) => s;
    Trip(headSign, route, normalised, bikesAllowed, wheelchairAccessible)
  }

  datatype LegType = WALK | ROUTE

  /** One segment of a journey: a walk, or a ride on one trip. */
  datatype Leg = Leg(fromCoordinate: Coordinate, fromStop: Option<Stop>,
                     toCoordinate: Coordinate, toStop: Option<Stop>,
                     legType: LegType,
                     departureTime: Timestamp, arrivalTime: Timestamp,
                     trip: Option<Trip>)

  /** The leg's duration: the `seconds` field of arrival minus departure. */
  function Duration(leg: Leg): (d: int)
    ensures 0 <= d < SecondsPerDay
    ensures d == ((leg.arrivalTime - leg.departureTime) / MicrosPerSecond) % SecondsPerDay
  {
    SecondsFieldIsWholeSecondsModDay(leg.arrivalTime - leg.departureTime);
    SecondsField(leg.arrivalTime - leg.departureTime)
  }

  /** A walk leg is a leg of any type other than ROUTE. */
  predicate IsWalk(leg: Leg)
    ensures IsWalk(leg) <==> leg.legType != ROUTE
  {
    leg.legType == WALK
  }

  /** Every leg is exactly one of a walk leg and a route leg. */
  predicate IsRoute(leg: Leg)
    ensures IsRoute(leg) <==> !IsWalk(leg)
  {
    leg.legType == ROUTE
  }

  /**
   * Whether a stop time calls at the given stop. An absent stop matches no
   * stop time, as a stop never equals None.
   */
  predicate CallsAt(st: StopTime, s: Option<Stop>)
    ensures s.None? ==> !CallsAt(st, s)
    ensures CallsAt(st, s) <==> s.Some? && s.value == st.stop
  {
    s == Some(st.stop)
  }

  /** The first position of the stop times that calls at `s`, if any. */
  function FirstCall(sts: seq<StopTime>, s: Option<Stop>): (r: Option<nat>)
    ensures r.Some? ==> r.value < |sts| && CallsAt(sts[r.value], s)
    ensures r.Some? ==> forall j :: 0 <= j < r.value ==> !CallsAt(sts[j], s)
    ensures r.None? ==> forall j :: 0 <= j < |sts| ==> !CallsAt(sts[j], s)
  {
    if |sts| == 0 then None
    else if CallsAt(sts[0], s) then Some(0)
    else match FirstCall(sts[1..], s)
      case None => None
      case Some(i) => Some(i + 1)
  }

  /** The last position before `n` that calls at `s`, if any. */
  function LastCallBefore(sts: seq<StopTime>, s: Option<Stop>, n: nat): (r: Option<nat>)
    requires n <= |sts|
    ensures r.Some? ==> r.value < n && CallsAt(sts[r.value], s)
    ensures r.Some? ==> forall j :: r.value < j < n ==> !CallsAt(sts[j], s)
    ensures r.None? ==> forall j :: 0 <= j < n ==> !CallsAt(sts[j], s)
  {
    if n == 0 then None
    else if CallsAt(sts[n - 1], s) then Some(n - 1)
    else LastCallBefore(sts, s, n - 1)
  }

  const StopNotFound: string := "from_stop or to_stop not found in trip"

  /**
   * `num_stops`: zero for a walk leg or a leg without a trip; otherwise the
   * first position of the destination stop minus the last position of the
   * origin stop at or before it, and an error when either is missing.
   */
  function NumStops(leg: Leg): (r: Result<int>)
    ensures r.Ok? ==> r.value >= 0
    ensures !IsRoute(leg) || leg.trip.None? ==> r == Ok(0)
  {
    if leg.trip.None? || !IsRoute(leg) then Ok(0)
    else
      var sts := leg.trip.value.stopTimes;
      match FirstCall(sts, leg.toStop)
      case None => Err(StopNotFound)
      case Some(t) =>
        match LastCallBefore(sts, leg.fromStop, t + 1)
        case None => Err(StopNotFound)
        case Some(f) => Ok(t - f)
  }

  /**
   * `f` and `t` are the positions `num_stops` subtracts: `t` is the first
   * call at the destination stop, `f` the last call at the origin stop at or
   * before `t`.
   */
  ghost predicate StopSpan(sts: seq<StopTime>, fromStop: Option<Stop>, toStop: Option<Stop>, f: int, t: int)
  {
    && 0 <= f <= t < |sts|
    && CallsAt(sts[t], toStop)
    && (forall j :: 0 <= j < t ==> !CallsAt(sts[j], toStop))
    && CallsAt(sts[f], fromStop)
    && (forall j :: f < j <= t ==> !CallsAt(sts[j], fromStop))
  }

  /**
   * On a route leg with a trip, `num_stops` succeeds exactly when such a span
   * exists, and then returns its length.
   */
  lemma NumStopsSpan(leg: Leg)
    requires IsRoute(leg) && leg.trip.Some?
    ensures var sts := leg.trip.value.stopTimes;
            NumStops(leg).Ok? <==> exists f, t :: StopSpan(sts, leg.fromStop, leg.toStop, f, t)
    ensures var sts := leg.trip.value.stopTimes;
            forall f, t :: StopSpan(sts, leg.fromStop, leg.toStop, f, t) ==> NumStops(leg) == Ok(t - f)
  {
    var sts := leg.trip.value.stopTimes;
    match FirstCall(sts, leg.toStop)
    case None =>
    case Some(t) =>
      match LastCallBefore(sts, leg.fromStop, t + 1)
      case None =>
      case Some(f) =>
        assert StopSpan(sts, leg.fromStop, leg.toStop, f, t);
  }

  /**
   * The three ways `num_stops` fails on a route leg with a trip: the
   * destination stop is never called at, the origin stop is not called at
   * at or before the destination's first call, or the origin stop is absent.
   */
  lemma NumStopsErrors(leg: Leg)
    requires IsRoute(leg) && leg.trip.Some?
    ensures var sts := leg.trip.value.stopTimes;
            NumStops(leg).Err? <==>
              || (forall j :: 0 <= j < |sts| ==> !CallsAt(sts[j], leg.toStop))
              || (exists t :: 0 <= t < |sts| && FirstCall(sts, leg.toStop) == Some(t) &&
                              forall j :: 0 <= j <= t ==> !CallsAt(sts[j], leg.fromStop))
    ensures leg.fromStop.None? ==> NumStops(leg).Err?
    ensures leg.toStop.None? ==> NumStops(leg).Err?
  {
    var sts := leg.trip.value.stopTimes;
    match FirstCall(sts, leg.toStop)
    case None =>
    case Some(t) =>
      match LastCallBefore(sts, leg.fromStop, t + 1)
      case None =>
      case Some(f) =>
  }

  /**
   * The scan `num_stops` performs: walk the stop times in order, remember the
   * latest call at the origin stop, and stop at the first call at the
   * destination stop.
   */
  method ScanNumStops(leg: Leg) returns (r: Result<int>)
    ensures r == NumStops(leg)
  {
    if leg.trip.None? || !IsRoute(leg) {
      return Ok(0);
    }
    var sts := leg.trip.value.stopTimes;
    var fromIndex: Option<nat> := None;
    var toIndex: Option<nat> := None;
    var i := 0;
    while i < |sts|
      invariant 0 <= i <= |sts|
      invariant toIndex.None?
      invariant fromIndex == LastCallBefore(sts, leg.fromStop, i)
      invariant forall j :: 0 <= j < i ==> !CallsAt(sts[j], leg.toStop)
    {
      if CallsAt(sts[i], leg.fromStop) {
        fromIndex := Some(i);
      }
      if CallsAt(sts[i], leg.toStop) {
        toIndex := Some(i);
        break;
      }
      i := i + 1;
    }
    if fromIndex.None? || toIndex.None? {
      return Err(StopNotFound);
    }
    return Ok(toIndex.value - fromIndex.value);
  }

  /** A trip calling at A, B, C, D: riding from B to D passes two stops. */
  lemma NumStopsExample(a: Stop, b: Stop, c: Stop, d: Stop, at: Timestamp, leg: Leg)
    requires a != b && a != d && b != c && b != d && c != d
    requires leg.legType == ROUTE && leg.fromStop == Some(b) && leg.toStop == Some(d)
    requires leg.trip.Some? &&
             leg.trip.value.stopTimes == [StopTime(a, at, at), StopTime(b, at, at),
                                          StopTime(c, at, at), StopTime(d, at, at)]
    ensures NumStops(leg) == Ok(2)
  {
    NumStopsSpan(leg);
    assert StopSpan(leg.trip.value.stopTimes, leg.fromStop, leg.toStop, 1, 3);
  }

  /**
   * On a looping trip A, B, A, C, riding from A to C counts from the second
   * call at A, the last one before C.
   */
  lemma NumStopsLoopExample(a: Stop, b: Stop, c: Stop, at: Timestamp, leg: Leg)
    requires a != b && a != c && b != c
    requires leg.legType == ROUTE && leg.fromStop == Some(a) && leg.toStop == Some(c)
    requires leg.trip.Some? &&
             leg.trip.value.stopTimes == [StopTime(a, at, at), StopTime(b, at, at),
                                          StopTime(a, at, at), StopTime(c, at, at)]
    ensures NumStops(leg) == Ok(1)
  {
    NumStopsSpan(leg);
    assert StopSpan(leg.trip.value.stopTimes, leg.fromStop, leg.toStop, 2, 3);
  }
}
