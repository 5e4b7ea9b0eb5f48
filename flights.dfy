/** Entities shared by every stage of the flight search: the raw routes, the
    timed flight instances built from them, the itineraries the search
    returns, and the time constants. All timestamps and durations are whole
    milliseconds, as JavaScript `Date` values are. */
module Flights {

  /** Milliseconds in one hour (`3600 * 1000`, `3600000`). */
  const HourMs: int := 3600000

  /** Bounds of a flight's duration, `(2 + Math.random() * 8)` hours:
      at least two hours and at most ten. `Math.random()` stays below 1, but
      adding the product to a departure timestamp of about 1.8e12 ms rounds
      to the nearest representable double, so a draw close enough to 1 lands
      on exactly ten hours. */
  const MinDurationMs: int := 2 * HourMs
  const MaxDurationMs: int := 10 * HourMs

  /** A static route record: origin, destination and carrier. */
  datatype Route = Route(src: string, dst: string, airline: string)

  /** A timed occurrence of a route. */
  datatype Flight = Flight(src: string, dst: string, dep: int, arr: int, airline: string)

  /** A completed search result: the airports visited, the elapsed and
      in-air times in milliseconds, and the legs taken. */
  datatype Itinerary = Itinerary(path: seq<string>, totalTime: int, flightTime: int, details: seq<Flight>)

  /** The ways a search can fail. The only one is dereferencing the first
      leg of an itinerary that has none, which happens when the source
      airport is the destination. */
  datatype SearchError = MissingFirstLeg

  datatype Option<T> = None | Some(value: T)

  datatype Result<T, E> = Success(value: T) | Failure(error: E)

  /** Sum of the in-air durations `arr - dep` of the legs, accumulated from
      the left as `reduce` does. */
  function FlightTime(legs: seq<Flight>): (t: int)
  {
    if legs == [] then 0 else FlightTime(legs[..|legs| - 1]) + (legs[|legs| - 1].arr - legs[|legs| - 1].dep)
  }

  /** Sum of the ground times between consecutive legs. */
  function WaitTime(legs: seq<Flight>): (t: int)
  {
    if |legs| <= 1 then 0
    else WaitTime(legs[..|legs| - 1]) + (legs[|legs| - 1].dep - legs[|legs| - 2].arr)
  }

  /** No leg departs before the previous one has landed. */
  predicate Connected(legs: seq<Flight>)
  {
    forall k :: 0 <= k < |legs| - 1 ==> legs[k].arr <= legs[k + 1].dep
  }

  /** The elapsed time of a journey, first departure to last arrival, is the
      time in the air plus the time on the ground; on a connected journey the
      latter is never negative, so the time in the air never exceeds the
      elapsed time. */
  lemma {:induction false} ElapsedSplits(legs: seq<Flight>)
    requires |legs| > 0
    ensures legs[|legs| - 1].arr - legs[0].dep == FlightTime(legs) + WaitTime(legs)
    ensures Connected(legs) ==> WaitTime(legs) >= 0
    ensures Connected(legs) ==> FlightTime(legs) <= legs[|legs| - 1].arr - legs[0].dep
  {
    if |legs| > 1 {
      var init := legs[..|legs| - 1];
      ElapsedSplits(init);
      assert init[0] == legs[0] && init[|init| - 1] == legs[|legs| - 2];
      assert Connected(legs) ==> Connected(init);
    }
  }

  /** If every leg lasts between `lo` and `hi` milliseconds, the time in the
      air lies between `lo` and `hi` times the number of legs. */
  lemma {:induction false} FlightTimeBounds(legs: seq<Flight>, lo: int, hi: int)
    requires forall k :: 0 <= k < |legs| ==> lo <= legs[k].arr - legs[k].dep <= hi
    ensures |legs| * lo <= FlightTime(legs) <= |legs| * hi
  {
    if legs != [] {
      FlightTimeBounds(legs[..|legs| - 1], lo, hi);
    }
  }
}
