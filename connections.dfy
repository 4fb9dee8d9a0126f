/**
 * A journey as a non-empty sequence of legs, and the statistics derived from
 * it by folding over the legs.
 */
module Connections {
  import opened Wrappers
  import opened Times
  import opened Legs

  datatype Connection = Connection(legs: seq<Leg>)

  /** What construction guarantees of every connection: it has a leg. */
  predicate Valid(c: Connection)
  {
    |c.legs| > 0
  }

  const EmptyLegs: string := "legs must not be empty"

  /** Builds a connection; an empty leg list is rejected. */
  function NewConnection(legs: seq<Leg>): (r: Result<Connection>)
    ensures r.Ok? <==> |legs| > 0
    ensures r.Ok? ==> r.value.legs == legs && Valid(r.value)
    ensures r.Ok? ==> FirstLeg(r.value) == legs[0] && LastLeg(r.value) == legs[|legs| - 1]
    ensures r.Err? ==> r.message == EmptyLegs
  {
    if |legs| == 0 then Err(EmptyLegs) else Ok(Connection(legs))
  }

  function FirstLeg(c: Connection): Leg
    requires Valid(c)
  {
    c.legs[0]
  }

  function LastLeg(c: Connection): Leg
    requires Valid(c)
  {
    c.legs[|c.legs| - 1]
  }

  /** The position of the first route leg, if there is one. */
  function FirstRouteIndex(legs: seq<Leg>): (r: Option<nat>)
    ensures r.Some? ==> r.value < |legs| && IsRoute(legs[r.value])
    ensures r.Some? ==> forall j :: 0 <= j < r.value ==> !IsRoute(legs[j])
    ensures r.None? ==> forall j :: 0 <= j < |legs| ==> !IsRoute(legs[j])
  {
    if |legs| == 0 then None
    else if IsRoute(legs[0]) then Some(0)
    else match FirstRouteIndex(legs[1..])
      case None => None
      case Some(i) => Some(i + 1)
  }

  /** The position of the last route leg, if there is one. */
  function LastRouteIndex(legs: seq<Leg>): (r: Option<nat>)
    ensures r.Some? ==> r.value < |legs| && IsRoute(legs[r.value])
    ensures r.Some? ==> forall j :: r.value < j < |legs| ==> !IsRoute(legs[j])
    ensures r.None? ==> forall j :: 0 <= j < |legs| ==> !IsRoute(legs[j])
  {
    if |legs| == 0 then None
    else if IsRoute(legs[|legs| - 1]) then Some(|legs| - 1)
    else LastRouteIndex(legs[..|legs| - 1])
  }

  /** `first_route_leg`: the earliest route leg, or None for a walk-only journey. */
  function FirstRouteLeg(c: Connection): (r: Option<Leg>)
    ensures r.None? <==> forall j :: 0 <= j < |c.legs| ==> !IsRoute(c.legs[j])
    ensures r.Some? ==> exists i :: 0 <= i < |c.legs| && r.value == c.legs[i] && IsRoute(c.legs[i]) &&
                                    forall j :: 0 <= j < i ==> !IsRoute(c.legs[j])
  {
    match FirstRouteIndex(c.legs)
    case None => None
    case Some(i) => Some(c.legs[i])
  }

  /** `last_route_leg`: the latest route leg, or None for a walk-only journey. */
  function LastRouteLeg(c: Connection): (r: Option<Leg>)
    ensures r.None? <==> forall j :: 0 <= j < |c.legs| ==> !IsRoute(c.legs[j])
    ensures r.Some? ==> exists i :: 0 <= i < |c.legs| && r.value == c.legs[i] && IsRoute(c.legs[i]) &&
                                    forall j :: i < j < |c.legs| ==> !IsRoute(c.legs[j])
  {
    match LastRouteIndex(c.legs)
    case None => None
    case Some(i) => Some(c.legs[i])
  }

  /**
   * Both searches find a route leg or neither does; when they do, the first
   * comes no later than the last, and a route leg anywhere lies between them.
   */
  lemma RouteIndexOrder(legs: seq<Leg>)
    ensures FirstRouteIndex(legs).Some? <==> LastRouteIndex(legs).Some?
    ensures FirstRouteIndex(legs).Some? ==> FirstRouteIndex(legs).value <= LastRouteIndex(legs).value
    ensures forall j :: 0 <= j < |legs| && IsRoute(legs[j]) ==>
              FirstRouteIndex(legs).Some? &&
              FirstRouteIndex(legs).value <= j <= LastRouteIndex(legs).value
  {
  }

  /** The loop `first_route_leg` runs: scan forwards and return on the first route leg. */
  method FindFirstRouteLeg(c: Connection) returns (r: Option<Leg>)
    ensures r == FirstRouteLeg(c)
  {
    var i := 0;
    while i < |c.legs|
      invariant 0 <= i <= |c.legs|
      invariant forall j :: 0 <= j < i ==> !IsRoute(c.legs[j])
    {
      if IsRoute(c.legs[i]) {
        return Some(c.legs[i]);
      }
      i := i + 1;
    }
    return None;
  }

  /** The loop `last_route_leg` runs: scan backwards and return on the first route leg met. */
  method FindLastRouteLeg(c: Connection) returns (r: Option<Leg>)
    ensures r == LastRouteLeg(c)
  {
    var i := |c.legs|;
    while i > 0
      invariant 0 <= i <= |c.legs|
      invariant forall j :: i <= j < |c.legs| ==> !IsRoute(c.legs[j])
    {
      if IsRoute(c.legs[i - 1]) {
        return Some(c.legs[i - 1]);
      }
      i := i - 1;
    }
    return None;
  }

  /** `first_stop`: where the first route leg boards, or None for a walk-only journey. */
  function FirstStop(c: Connection): (r: Option<Stop>)
    ensures (forall j :: 0 <= j < |c.legs| ==> !IsRoute(c.legs[j])) ==> r.None?
    ensures forall i ::
              (0 <= i < |c.legs| && IsRoute(c.legs[i]) && forall j :: 0 <= j < i ==> !IsRoute(c.legs[j]))
              ==> r == c.legs[i].fromStop
  {
    match FirstRouteLeg(c)
    case None => None
    case Some(leg) => leg.fromStop
  }

  /** `last_stop`: where the last route leg alights, or None for a walk-only journey. */
  function LastStop(c: Connection): (r: Option<Stop>)
    ensures (forall j :: 0 <= j < |c.legs| ==> !IsRoute(c.legs[j])) ==> r.None?
    ensures forall i ::
              (0 <= i < |c.legs| && IsRoute(c.legs[i]) && forall j :: i < j < |c.legs| ==> !IsRoute(c.legs[j]))
              ==> r == c.legs[i].toStop
  {
    match LastRouteLeg(c)
    case None => None
    case Some(leg) => leg.toStop
  }

  /** The journey starts where and when its first leg starts, walk or not. */
  function DepartureTime(c: Connection): Timestamp
    requires Valid(c)
  {
    FirstLeg(c).departureTime
  }

  /** The journey ends where and when its last leg ends, walk or not. */
  function ArrivalTime(c: Connection): Timestamp
    requires Valid(c)
  {
    LastLeg(c).arrivalTime
  }

  function FromCoordinate(c: Connection): Coordinate
    requires Valid(c)
  {
    FirstLeg(c).fromCoordinate
  }

  function ToCoordinate(c: Connection): Coordinate
    requires Valid(c)
  {
    LastLeg(c).toCoordinate
  }

  function FromStop(c: Connection): Option<Stop>
    requires Valid(c)
  {
    FirstLeg(c).fromStop
  }

  function ToStop(c: Connection): Option<Stop>
    requires Valid(c)
  {
    LastLeg(c).toStop
  }

  /**
   * When the journey begins with a route leg, its first stop is where it
   * starts; when it ends with one, its last stop is where it ends. A leading
   * or trailing walk makes the two differ.
   */
  lemma EndStopsOfRouteEnds(c: Connection)
    requires Valid(c)
    ensures IsRoute(FirstLeg(c)) ==> FirstStop(c) == FromStop(c)
    ensures IsRoute(LastLeg(c)) ==> LastStop(c) == ToStop(c)
  {
  }

  /** `duration`: the `seconds` field of arrival minus departure of the whole journey. */
  function Duration(c: Connection): (d: int)
    requires Valid(c)
    ensures 0 <= d < SecondsPerDay
    ensures d == ((ArrivalTime(c) - DepartureTime(c)) / MicrosPerSecond) % SecondsPerDay
  {
    SecondsFieldIsWholeSecondsModDay(ArrivalTime(c) - DepartureTime(c));
    SecondsField(ArrivalTime(c) - DepartureTime(c))
  }

  /**
   * `multi_date`: departure and arrival fall on different calendar days;
   * otherwise they are less than one day apart.
   */
  predicate MultiDate(c: Connection)
    requires Valid(c)
    ensures !MultiDate(c) ==> -MicrosPerDay < ArrivalTime(c) - DepartureTime(c) < MicrosPerDay
  {
    DateOf(DepartureTime(c)) != DateOf(ArrivalTime(c))
  }

  /**
   * A journey that stays on one date and does not arrive before it departs
   * reports its exact elapsed whole seconds as its duration.
   */
  lemma SingleDateDuration(c: Connection)
    requires Valid(c) && !MultiDate(c) && DepartureTime(c) <= ArrivalTime(c)
    ensures Duration(c) == (ArrivalTime(c) - DepartureTime(c)) / MicrosPerSecond
  {
  }

  /** The sum of the durations of every leg. */
  function SumDurations(legs: seq<Leg>): (r: int)
    ensures 0 <= r <= |legs| * (SecondsPerDay - 1)
  {
    if |legs| == 0 then 0 else Legs.Duration(legs[0]) + SumDurations(legs[1..])
  }

  /** The sum of the durations of the legs of one kind. */
  function SumDurationsOf(legs: seq<Leg>, kind: LegType): (r: int)
    ensures 0 <= r <= SumDurations(legs)
  {
    if |legs| == 0 then 0
    else (if legs[0].legType == kind then Legs.Duration(legs[0]) else 0) + SumDurationsOf(legs[1..], kind)
  }

  /** Every leg is a walk or a ride, so walking and riding time add up to the travel time. */
  lemma {:induction false} SumDurationsSplit(legs: seq<Leg>)
    ensures SumDurations(legs) == SumDurationsOf(legs, WALK) + SumDurationsOf(legs, ROUTE)
  {
    if |legs| > 0 {
      SumDurationsSplit(legs[1..]);
    }
  }

  /**
   * `travel_duration`: the time spent in legs, excluding any waiting between
   * them; it is the walking time plus the riding time.
   */
  function TravelDuration(c: Connection): (r: int)
    ensures 0 <= r <= |c.legs| * (SecondsPerDay - 1)
    ensures r == WalkDuration(c) + RouteDuration(c)
  {
    SumDurationsSplit(c.legs);
    SumDurations(c.legs)
  }

  /** `walk_duration`: the time spent in walk legs. */
  function WalkDuration(c: Connection): (r: int)
    ensures 0 <= r <= SumDurations(c.legs)
  {
    SumDurationsOf(c.legs, WALK)
  }

  /** `route_duration`: the time spent in route legs. */
  function RouteDuration(c: Connection): (r: int)
    ensures 0 <= r <= SumDurations(c.legs)
  {
    SumDurationsOf(c.legs, ROUTE)
  }

  /** A one-leg journey spends all of its duration travelling. */
  lemma SingleLegDuration(c: Connection)
    requires |c.legs| == 1
    ensures TravelDuration(c) == Duration(c)
  {
  }

  /** How many legs are route legs. */
  function CountRouteLegs(legs: seq<Leg>): (r: nat)
    ensures r <= |legs|
    ensures r == 0 <==> forall j :: 0 <= j < |legs| ==> !IsRoute(legs[j])
  {
    if |legs| == 0 then 0
    else (if IsRoute(legs[0]) then 1 else 0) + CountRouteLegs(legs[1..])
  }

  /** `num_transfers`: one less than the number of route legs, so -1 for a walk-only journey. */
  function NumTransfers(c: Connection): (r: int)
    ensures -1 <= r < |c.legs|
    ensures r == -1 <==> FirstRouteLeg(c).None?
    ensures r == -1 <==> LastRouteLeg(c).None?
  {
    CountRouteLegs(c.legs) - 1
  }

  /** How many adjacent pairs of legs are both route legs. */
  function CountRoutePairs(legs: seq<Leg>): (r: nat)
    ensures |legs| < 2 ==> r == 0
    ensures |legs| >= 1 ==> r <= |legs| - 1
    ensures r > 0 ==> exists i :: 0 <= i < |legs| - 1 && IsRoute(legs[i]) && IsRoute(legs[i + 1])
    ensures r == 0 <==> forall i :: 0 <= i < |legs| - 1 ==> !(IsRoute(legs[i]) && IsRoute(legs[i + 1]))
  {
    if |legs| < 2 then 0
    else (if IsRoute(legs[0]) && IsRoute(legs[1]) then 1 else 0) + CountRoutePairs(legs[1..])
  }

  /**
   * Each adjacent route-route pair is one transfer, so there are never more
   * of them than transfers (counting a walk-only journey as none).
   */
  lemma {:induction false} RoutePairsBound(legs: seq<Leg>)
    ensures CountRouteLegs(legs) > 0 ==> CountRoutePairs(legs) <= CountRouteLegs(legs) - 1
    ensures CountRouteLegs(legs) == 0 ==> CountRoutePairs(legs) == 0
  {
    if |legs| > 0 {
      RoutePairsBound(legs[1..]);
      if |legs| >= 2 && IsRoute(legs[1]) {
        assert IsRoute(legs[1..][0]);
      }
    }
  }

  /**
   * `num_same_station_transfers`: route legs directly followed by another
   * route leg; never more than the transfers (a walk-only journey has none).
   */
  function NumSameStationTransfers(c: Connection): (r: nat)
    ensures r <= if NumTransfers(c) > 0 then NumTransfers(c) else 0
  {
    RoutePairsBound(c.legs);
    CountRoutePairs(c.legs)
  }

  /** Summing `num_stops` over the route legs; the first failing leg's error is raised. */
  function SumNumStops(legs: seq<Leg>): (r: Result<int>)
    ensures r.Ok? ==> r.value >= 0
    ensures r.Err? <==> exists j :: 0 <= j < |legs| && IsRoute(legs[j]) && NumStops(legs[j]).Err?
  {
    if |legs| == 0 then Ok(0)
    else
      var rest := SumNumStops(legs[1..]);
      assert forall j :: 1 <= j < |legs| ==> legs[j] == legs[1..][j - 1];
      if !IsRoute(legs[0]) then rest
      else match NumStops(legs[0])
        case Err(m) => Err(m)
        case Ok(n) =>
          match rest
          case Err(m) => Err(m)
          case Ok(k) => Ok(n + k)
  }

  /** `num_stops` of a journey: stops ridden over all route legs; fails when any route leg's does. */
  function NumStopsOf(c: Connection): (r: Result<int>)
    ensures r.Ok? ==> r.value >= 0
    ensures r.Err? <==> exists j :: 0 <= j < |c.legs| && IsRoute(c.legs[j]) && NumStops(c.legs[j]).Err?
  {
    SumNumStops(c.legs)
  }

  /** A single route leg contributes exactly its own stop count, or its error. */
  lemma OneRouteLeg(leg: Leg)
    requires IsRoute(leg)
    ensures SumNumStops([leg]) == NumStops(leg)
  {
    assert [leg][1..] == [];
  }

  /**
   * The stop count of two consecutive stretches of legs succeeds iff both
   * succeed, and is then the sum of the two counts.
   */
  lemma {:induction false} SumNumStopsAppend(a: seq<Leg>, b: seq<Leg>)
    ensures SumNumStops(a + b).Ok? <==> SumNumStops(a).Ok? && SumNumStops(b).Ok?
    ensures SumNumStops(a + b).Ok? ==>
              SumNumStops(a + b).value == SumNumStops(a).value + SumNumStops(b).value
  {
    if |a| == 0 {
      assert a + b == b;
    } else {
      assert (a + b)[0] == a[0];
      assert (a + b)[1..] == a[1..] + b;
      SumNumStopsAppend(a[1..], b);
    }
  }

  /** A walk-only journey has no first or last stop, no transfers and rides no stops. */
  lemma WalkOnlyJourney(c: Connection)
    requires forall j :: 0 <= j < |c.legs| ==> IsWalk(c.legs[j])
    ensures FirstRouteLeg(c).None? && LastRouteLeg(c).None?
    ensures FirstStop(c).None? && LastStop(c).None?
    ensures NumTransfers(c) == -1 && NumSameStationTransfers(c) == 0
    ensures NumStopsOf(c) == Ok(0)
  {
    RoutePairsBound(c.legs);
    WalkOnlyRidesNoStops(c.legs);
  }

  /** Summing stop counts over walk legs only gives zero. */
  lemma {:induction false} WalkOnlyRidesNoStops(legs: seq<Leg>)
    requires forall j :: 0 <= j < |legs| ==> IsWalk(legs[j])
    ensures SumNumStops(legs) == Ok(0)
  {
    if |legs| > 0 {
      WalkOnlyRidesNoStops(legs[1..]);
    }
  }

  /** Route, route, walk, route: one same-station transfer and two transfers. */
  lemma SameStationExample(c: Connection)
    requires |c.legs| == 4
    requires IsRoute(c.legs[0]) && IsRoute(c.legs[1]) && IsWalk(c.legs[2]) && IsRoute(c.legs[3])
    ensures NumSameStationTransfers(c) == 1 && NumTransfers(c) == 2
  {
    var l := c.legs;
    assert l[1..][1..][1..] == [l[3]];
    assert CountRoutePairs(l[1..][1..]) == 0;
    assert CountRoutePairs(l[1..]) == 0;
    assert CountRouteLegs(l[1..][1..][1..]) == 1;
    assert CountRouteLegs(l[1..][1..]) == 1;
    assert CountRouteLegs(l[1..]) == 2;
  }
}
