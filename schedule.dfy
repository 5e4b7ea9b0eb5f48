/** Schedule generation (`mapFlights`): route number `i` of the list departs
    `i mod 24` hours after the requested start, flies for a duration drawn
    from `[2h, 10h]`, and is kept only when it departs inside the requested
    window. The random draw is an oracle: `durations[i]` is the duration
    drawn for route `i`. */
module Schedule {
  import opened Flights

  /** Departure of route number `i`: `start + (i % 24) * 3600 * 1000`. */
  function Departure(start: int, i: nat): (t: int)
  {
    start + (i % 24) * HourMs
  }

  /** The filter of `mapFlights`: the flight departs no earlier than the start
      and at most `hours` hours after it. */
  predicate InWindow(dep: int, start: int, hours: int)
  {
    dep >= start && dep - start <= hours * HourMs
  }

  /** The instance built for route number `i` with drawn duration `d`. */
  function Instance(r: Route, i: nat, start: int, d: int): (f: Flight)
  {
    Flight(r.src, r.dst, Departure(start, i), Departure(start, i) + d, r.airline)
  }

  /** What `Math.random` guarantees: one duration per route, each in `[2h, 10h]`. */
  predicate ValidDurations(durations: seq<int>, n: nat)
  {
    |durations| == n && forall i :: 0 <= i < n ==> MinDurationMs <= durations[i] <= MaxDurationMs
  }

  /** `mapFlights(routes, startTime, durationHours)`: the instances that pass
      the window filter, in route order. */
  function MapFlights(routes: seq<Route>, start: int, hours: int, durations: seq<int>): (r: seq<Flight>)
    requires |durations| == |routes|
    ensures |r| <= |routes|
  {
    if routes == [] then []
    else
      var n := |routes| - 1;
      MapFlights(routes[..n], start, hours, durations[..n])
        + (if InWindow(Departure(start, n), start, hours) then [Instance(routes[n], n, start, durations[n])] else [])
  }

  /** The route numbers below `n` whose departure hour offset `i % 24` is at
      most `hours`, in increasing order. */
  function KeptIndices(n: nat, hours: int): (r: seq<nat>)
  {
    if n == 0 then [] else KeptIndices(n - 1, hours) + (if (n - 1) % 24 <= hours then [n - 1] else [])
  }

  predicate StrictlyIncreasing(s: seq<nat>)
  {
    forall i, j :: 0 <= i < j < |s| ==> s[i] < s[j]
  }

  /** The window filter keeps route number `i` exactly when `i % 24 <= hours`;
      the first half of the filter (`dep >= start`) always holds. */
  lemma WindowIff(start: int, i: nat, hours: int)
    ensures Departure(start, i) >= start
    ensures InWindow(Departure(start, i), start, hours) <==> i % 24 <= hours
  {
    var h := i % 24;
    if h <= hours {
      assert h * HourMs <= hours * HourMs;
    } else {
      assert (h - hours) * HourMs >= HourMs;
    }
  }

  /** `KeptIndices` lists exactly the kept route numbers, once each, in order. */
  lemma {:induction false} KeptIndicesSpec(n: nat, hours: int)
    ensures StrictlyIncreasing(KeptIndices(n, hours))
    ensures forall j :: 0 <= j < |KeptIndices(n, hours)| ==> KeptIndices(n, hours)[j] < n
    ensures forall i :: 0 <= i < n ==> (i in KeptIndices(n, hours) <==> i % 24 <= hours)
  {
    if n > 0 {
      KeptIndicesSpec(n - 1, hours);
    }
  }

  /** The output of `mapFlights` is the instance of every kept route, in route
      order: entry `j` is the instance of route number `KeptIndices[j]`. */
  lemma {:induction false} MapFlightsOrder(routes: seq<Route>, start: int, hours: int, durations: seq<int>)
    requires |durations| == |routes|
    ensures var r := MapFlights(routes, start, hours, durations);
            var idx := KeptIndices(|routes|, hours);
            |r| == |idx| &&
            forall j :: 0 <= j < |r| ==> idx[j] < |routes| && r[j] == Instance(routes[idx[j]], idx[j], start, durations[idx[j]])
  {
    if routes != [] {
      var n := |routes| - 1;
      MapFlightsOrder(routes[..n], start, hours, durations[..n]);
      KeptIndicesSpec(n, hours);
      WindowIff(start, n, hours);
    }
  }

  /** Every generated instance departs inside the window, lasts `[2h, 10h]`
      and copies an input route's origin, destination and carrier. */
  lemma InstanceProperties(routes: seq<Route>, start: int, hours: int, durations: seq<int>)
    requires ValidDurations(durations, |routes|)
    ensures forall f :: f in MapFlights(routes, start, hours, durations) ==>
              && start <= f.dep
              && f.dep - start <= hours * HourMs
              && f.dep - start <= 23 * HourMs
              && MinDurationMs <= f.arr - f.dep <= MaxDurationMs
              && f.dep < f.arr
              && Route(f.src, f.dst, f.airline) in routes
  {
    var r := MapFlights(routes, start, hours, durations);
    MapFlightsOrder(routes, start, hours, durations);
    var idx := KeptIndices(|routes|, hours);
    forall f | f in r
      ensures && start <= f.dep
              && f.dep - start <= hours * HourMs
              && f.dep - start <= 23 * HourMs
              && MinDurationMs <= f.arr - f.dep <= MaxDurationMs
              && Route(f.src, f.dst, f.airline) in routes
    {
      var j :| 0 <= j < |r| && r[j] == f;
      var i := idx[j];
      KeptIndicesSpec(|routes|, hours);
      assert i in idx;
      WindowIff(start, i, hours);
      assert (i % 24) * HourMs <= 23 * HourMs;
      assert Route(f.src, f.dst, f.airline) == routes[i];
    }
  }

  /** A window of 23 hours or more keeps every route; a negative one keeps
      none. */
  lemma {:induction false} WindowExtremes(routes: seq<Route>, start: int, hours: int, durations: seq<int>)
    requires |durations| == |routes|
    ensures hours >= 23 ==> |MapFlights(routes, start, hours, durations)| == |routes|
    ensures hours < 0 ==> MapFlights(routes, start, hours, durations) == []
  {
    if routes != [] {
      var n := |routes| - 1;
      WindowExtremes(routes[..n], start, hours, durations[..n]);
      WindowIff(start, n, hours);
    }
  }
}
