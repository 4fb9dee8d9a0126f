# Journey model of the public-transit client

A Dafny model of the journey data model of the `public_transit_client`
Python library (`public_transit_client/model.py`). The library turns the
answers of a public-transit information service into immutable records;
the part with logic is the set of properties that a `Leg` (one walk or one
ride on a trip) and a `Connection` (a journey: a non-empty list of legs)
derive on access. The model also covers the date-range test of a schedule's
validity and the normalisation of a trip whose stop-time list is null.

Files and modules:

- `wrappers.dfy` (`Wrappers`): `Option` for Python's `X | None`, `Result`
  for a value or a raised `ValueError` (its message).
- `times.dfy` (`Times`): naive timestamps as integer microseconds from
  midnight of day 0, dates as day numbers, `SecondsField` (the `seconds`
  field of a `timedelta`), `DateOf` (`datetime.date()`), and
  `ScheduleValidity` with `IsDateValid`.
- `legs.dfy` (`Legs`): `Coordinate`, `Stop`, `Route`, `StopTime`, `Trip`,
  `LegType`, `Leg`; a leg's duration, its kind, and `num_stops`, both as a
  specification function (`NumStops`) and as the scanning loop of the
  source (`ScanNumStops`), proved equal.
- `connections.dfy` (`Connections`): `Connection`, its construction check
  and every derived property that is not a distance.

Every record is a datatype, as nothing is changed after construction.
Stops are compared structurally, as pydantic's `==` compares field values.
`FirstLeg`, `LastLeg`, `DepartureTime`, `ArrivalTime`, `FromCoordinate`,
`ToCoordinate`, `FromStop` and `ToStop` of a connection are the plain
projections of the source (model.py:363-479); they are used by the members
below and have no row of their own.

`num_stops` of a leg, as written, records the LAST call at the origin stop
at or before the FIRST call at the destination stop: the origin index is
overwritten on every match and the loop stops at the destination. This
is not the first call at the origin stop: on a looping trip the two differ
(`NumStopsLoopExample`).

## Model

| member | source | states |
|---|---|---|
| Times.DateOf | public_transit_client/model.py:602 | the date of a timestamp is the day whose midnight-to-midnight interval contains it |
| Times.SecondsField | public_transit_client/model.py:291 | the `seconds` field of a time difference always lies in [0, 86399] |
| Times.SecondsFieldIsWholeSecondsModDay | public_transit_client/model.py:291 | the `seconds` field equals the floor of the difference in seconds, reduced modulo 86400 |
| Times.SecondsFieldWithinDay | public_transit_client/model.py:291 | for a non-negative difference under one day the `seconds` field is the exact number of whole seconds |
| Times.SecondsFieldIgnoresWholeDays | public_transit_client/model.py:291 | adding or removing whole days never changes the `seconds` field, so multi-day spans lose their days |
| Times.SecondsFieldOfMinusOneSecond | public_transit_client/model.py:291 | a difference of minus one second reports 86399 seconds |
| Times.SameDateNoWrap | public_transit_client/model.py:595-602 | two timestamps on the same date, in order, report their exact elapsed whole seconds |
| Times.MidnightCrossing | public_transit_client/model.py:595-602 | leaving at 23:50 and arriving at 00:10 the next day spans two dates and lasts 1200 seconds |
| Times.IsDateValid | public_transit_client/model.py:82 | a date is admitted only by a range whose start is not after its end, and each end of a range is admitted exactly when the range is not empty |
| Times.IsDateValidRange | public_transit_client/model.py:73-82 | the validity test is inclusive at both ends and admits no date at all when the start lies after the end |
| Legs.NewTrip | public_transit_client/model.py:244-246 | a null stop-time list becomes the empty list; a given list and every other field are kept |
| Legs.Duration | public_transit_client/model.py:284-291 | a leg's duration is the floor of arrival minus departure in seconds modulo one day, so in [0, 86399] |
| Legs.IsWalk | public_transit_client/model.py:302-309 | a leg is a walk leg exactly when its type is not ROUTE |
| Legs.IsRoute | public_transit_client/model.py:302-318 | a leg is a route leg exactly when it is not a walk leg |
| Legs.CallsAt | public_transit_client/model.py:337-339 | a stop time calls at a stop exactly when that stop is present and equal, field by field, to the stop time's stop; an absent stop matches nothing |
| Legs.FirstCall | public_transit_client/model.py:336-341 | the position found is the first stop time calling at the stop; none means no stop time calls there |
| Legs.LastCallBefore | public_transit_client/model.py:336-338 | the position found is the last call at the stop before the bound; none means no call before it |
| Legs.NumStops | public_transit_client/model.py:320-345 | 0 for a walk leg or a leg without a trip; any successful count is non-negative |
| Legs.NumStopsSpan | public_transit_client/model.py:333-345 | on a route leg with a trip the count succeeds iff a first destination call `t` and a last origin call `f` at or before it exist, and is then `t - f` |
| Legs.NumStopsErrors | public_transit_client/model.py:343-344 | the count fails iff the destination is never called at or the origin is not called at at or before it; an absent origin or destination always fails |
| Legs.ScanNumStops | public_transit_client/model.py:330-345 | the early-exit scan over the stop times returns exactly the specified count or error |
| Legs.NumStopsExample | public_transit_client/model.py:330-345 | a trip A, B, C, D ridden from B to D passes two stops |
| Legs.NumStopsLoopExample | public_transit_client/model.py:336-341 | on a looping trip A, B, A, C ridden from A to C the later call at A is used, giving 1 |
| Connections.NewConnection | public_transit_client/model.py:357-379 | construction succeeds iff the leg list is non-empty, and then the first and last legs are defined; otherwise it fails with the validation message |
| Connections.FirstRouteIndex | public_transit_client/model.py:388-392 | the position found is a route leg with only walk legs before it; none means no route leg |
| Connections.LastRouteIndex | public_transit_client/model.py:401-405 | the position found is a route leg with only walk legs after it; none means no route leg |
| Connections.FirstRouteLeg | public_transit_client/model.py:381-392 | none exactly when no leg is a route leg; otherwise the route leg at the lowest position, with only walk legs before it |
| Connections.LastRouteLeg | public_transit_client/model.py:394-405 | none exactly when no leg is a route leg; otherwise the route leg at the highest position, with only walk legs after it |
| Connections.RouteIndexOrder | public_transit_client/model.py:381-405 | both searches succeed or neither does, the first index is at most the last, and every route leg lies between them |
| Connections.FindFirstRouteLeg | public_transit_client/model.py:388-392 | the forward loop with early return yields exactly the first route leg |
| Connections.FindLastRouteLeg | public_transit_client/model.py:401-405 | the backward loop with early return yields exactly the last route leg |
| Connections.FirstStop | public_transit_client/model.py:407-415 | none when no leg is a route leg; otherwise the origin stop of the route leg that has only walk legs before it |
| Connections.LastStop | public_transit_client/model.py:417-425 | none when no leg is a route leg; otherwise the destination stop of the route leg that has only walk legs after it |
| Connections.EndStopsOfRouteEnds | public_transit_client/model.py:407-479 | a journey starting (ending) with a route leg has its first (last) stop equal to its starting (ending) stop |
| Connections.Duration | public_transit_client/model.py:481-488 | the journey's duration is the floor of last arrival minus first departure in seconds modulo one day, so in [0, 86399] |
| Connections.MultiDate | public_transit_client/model.py:595-602 | a journey not spanning two dates has departure and arrival less than one day apart |
| Connections.SingleDateDuration | public_transit_client/model.py:481-488 | a single-date journey that does not arrive before it departs reports its exact elapsed whole seconds |
| Connections.SumDurations | public_transit_client/model.py:499 | the sum of leg durations lies between 0 and 86399 per leg |
| Connections.SumDurationsOf | public_transit_client/model.py:548-557 | the durations of the legs of one kind sum to no more than all leg durations |
| Connections.SumDurationsSplit | public_transit_client/model.py:490-557 | the durations of all legs are the walk legs' plus the route legs' |
| Connections.TravelDuration | public_transit_client/model.py:490-499 | travel duration is walk duration plus route duration, and at most 86399 per leg |
| Connections.WalkDuration | public_transit_client/model.py:541-548 | walking time is non-negative and at most the travel duration |
| Connections.RouteDuration | public_transit_client/model.py:550-557 | riding time is non-negative and at most the travel duration |
| Connections.SingleLegDuration | public_transit_client/model.py:481-499 | for a one-leg journey the travel duration equals the journey duration |
| Connections.CountRouteLegs | public_transit_client/model.py:568 | the number of route legs is at most the number of legs and is 0 exactly when every leg is a walk |
| Connections.NumTransfers | public_transit_client/model.py:559-568 | transfers lie in [-1, legs - 1] and are -1 exactly when there is no route leg |
| Connections.CountRoutePairs | public_transit_client/model.py:580-584 | fewer than two legs give no pair; there is at most one pair per leg after the first; the count is zero exactly when no two adjacent legs are both route legs |
| Connections.RoutePairsBound | public_transit_client/model.py:570-584 | adjacent route-route pairs are fewer than the route legs, and none when there is no route leg |
| Connections.NumSameStationTransfers | public_transit_client/model.py:570-584 | same-station transfers never exceed the transfers, counting -1 as 0 |
| Connections.SameStationExample | public_transit_client/model.py:570-584 | legs route, route, walk, route give one same-station transfer and two transfers |
| Connections.SumNumStops | public_transit_client/model.py:593 | the sum over route legs fails iff some route leg's count fails; a successful sum is non-negative |
| Connections.NumStopsOf | public_transit_client/model.py:586-593 | a journey's stop count fails iff some route leg's fails (walk legs are skipped); otherwise it is non-negative |
| Connections.OneRouteLeg | public_transit_client/model.py:593 | a single route leg contributes exactly its own stop count, or its error |
| Connections.SumNumStopsAppend | public_transit_client/model.py:593 | the stop count over two consecutive stretches of legs succeeds iff both succeed, and is then the sum of the two counts |
| Connections.WalkOnlyJourney | public_transit_client/model.py:381-593 | a walk-only journey has no first or last route leg or stop, -1 transfers, no same-station transfer and 0 stops |
| Connections.WalkOnlyRidesNoStops | public_transit_client/model.py:593 | summing stop counts over walk legs only gives 0 |

## Left out

- `Coordinate.distance_to` (model.py:156-170) is a geodesic on floats computed by the external `geopy` library; it is not modelled, and `Coordinate` only carries its two values.
- `Coordinate.to_tuple` is a plain pair of the two fields and is not modelled.
- The distance properties `Leg.distance`, `travel_distance`, `bee_line_distance`, `walk_distance` and `route_distance` are float sums built on `distance_to`; they are not modelled.
- When several route legs of a journey fail to count their stops, the model returns the error of the first failing one, as Python's `sum` over a generator does; all errors carry the same message, so which leg raised is not observable.
- Pydantic's field aliases, JSON deserialisation and type coercion are not modelled; records are built directly from typed values.
- `APIError`, `ScheduleInfo`, `RouterInfo`, `QueryConfig`, `Departure`, `StopConnection` and `DistanceToStop` are plain records without behaviour and are not modelled; nor are the enumerations other than `LegType` and the transport mode a route carries.
- `public_transit_client/client.py` (HTTP requests, status-code handling, query strings and the current clock) is not part of this model.
- Time zones: timestamps are naive, as in the source; leap seconds do not exist in Python's datetime and are not modelled.
