/** The search as the search button runs it: generate the schedule from the
    routes with `mapFlights`, enumerate and rank the itineraries with
    `reduceFlights`, and show the first five. This module states what the two
    stages guarantee together: every leg of every itinerary departs inside the
    requested window and lasts between two and ten hours, which bounds the
    number of legs, and the first itinerary of the ranking is the fastest
    trip there is. */
module Pipeline {
  import opened Flights
  import opened Schedule
  import opened Search
  import opened Ranking
  import opened Selection

  /** What `mapFlights` guarantees of every flight it produces. */
  predicate LegInWindow(f: Flight, start: int, hours: int)
  {
    && start <= f.dep
    && f.dep - start <= hours * HourMs
    && MinDurationMs <= f.arr - f.dep <= MaxDurationMs
  }

  /** On a connected journey whose legs each last at least `lo`, leg `k`
      departs at least `k * lo` after the first. */
  lemma {:induction false} DepartureSpread(legs: seq<Flight>, lo: int, k: nat)
    requires Connected(legs)
    requires forall i :: 0 <= i < |legs| ==> lo <= legs[i].arr - legs[i].dep
    requires k < |legs|
    ensures legs[0].dep + k * lo <= legs[k].dep
  {
    if k > 0 {
      DepartureSpread(legs, lo, k - 1);
      assert legs[k - 1].arr <= legs[k].dep;
    }
  }

  /** A journey over flights inside a window of `hours` hours has at most
      `hours / 2 + 1` legs: each leg takes at least two hours, and the last
      one must still depart inside the window. As the window never reaches
      past hour 23, no journey has more than twelve legs, and a window under
      two hours allows direct flights only. */
  lemma LegCountBound(legs: seq<Flight>, start: int, hours: int)
    requires |legs| > 0 && Connected(legs)
    requires forall k :: 0 <= k < |legs| ==> LegInWindow(legs[k], start, hours)
    requires forall k :: 0 <= k < |legs| ==> legs[k].dep - start <= 23 * HourMs
    ensures 2 * (|legs| - 1) <= hours
    ensures |legs| <= 12
    ensures hours < 2 ==> |legs| == 1
  {
    var n := |legs| - 1;
    DepartureSpread(legs, MinDurationMs, n);
    assert legs[0].dep + n * MinDurationMs <= legs[n].dep;
    assert (2 * n) * HourMs <= hours * HourMs;
    assert (2 * n) * HourMs <= 23 * HourMs;
  }

  /** Legs drawn from the generated schedule keep to the window. */
  lemma LegsFromSchedule(routes: seq<Route>, start: int, hours: int, durations: seq<int>, legs: seq<Flight>)
    requires ValidDurations(durations, |routes|)
    requires DrawnFrom(legs, MapFlights(routes, start, hours, durations))
    ensures forall k :: 0 <= k < |legs| ==> LegInWindow(legs[k], start, hours) && legs[k].dep - start <= 23 * HourMs
  {
    InstanceProperties(routes, start, hours, durations);
    forall k | 0 <= k < |legs| ensures LegInWindow(legs[k], start, hours) && legs[k].dep - start <= 23 * HourMs {
      assert legs[k] in MapFlights(routes, start, hours, durations);
    }
  }

  /** A connected journey over flights that keep to the window spends two
      to ten hours in the air per leg, never more than its elapsed time. */
  lemma JourneyTimes(legs: seq<Flight>, start: int, hours: int)
    requires |legs| > 0 && Connected(legs)
    requires forall k :: 0 <= k < |legs| ==> LegInWindow(legs[k], start, hours)
    ensures |legs| * MinDurationMs <= FlightTime(legs) <= |legs| * MaxDurationMs
    ensures 0 < FlightTime(legs) <= legs[|legs| - 1].arr - legs[0].dep
  {
    FlightTimeBounds(legs, MinDurationMs, MaxDurationMs);
    ElapsedSplits(legs);
  }

  /** Everything an itinerary found on the generated schedule satisfies: its
      legs depart inside the window and last `[2h, 10h]`; its time in the air
      lies between two and ten hours per leg and never exceeds its elapsed
      time; and its number of legs is bounded by the window. */
  lemma ResultProperties(routes: seq<Route>, start: int, hours: int, durations: seq<int>,
                         src: string, dst: string, y: Itinerary)
    requires ValidDurations(durations, |routes|)
    requires IsResult(MapFlights(routes, start, hours, durations), src, dst, start, y)
    ensures forall k :: 0 <= k < |y.details| ==> LegInWindow(y.details[k], start, hours)
    ensures |y.details| * MinDurationMs <= y.flightTime <= |y.details| * MaxDurationMs
    ensures 0 < y.flightTime <= y.totalTime
    ensures 2 * (|y.details| - 1) <= hours
    ensures |y.details| <= 12
    ensures hours < 2 ==> |y.details| == 1
  {
    var legs := y.details;
    assert Connected(legs) && DrawnFrom(legs, MapFlights(routes, start, hours, durations));
    LegsFromSchedule(routes, start, hours, durations, legs);
    JourneyTimes(legs, start, hours);
    LegCountBound(legs, start, hours);
  }

  /** The first entry of the ranking of a complete search takes no longer than
      any trip there is, so "optimal" shows a fastest trip. */
  lemma FirstIsFastest(flights: seq<Flight>, src: string, dst: string, startTime: int,
                       found: seq<Itinerary>, path: seq<string>, legs: seq<Flight>)
    requires forall y :: y in found ==> IsResult(flights, src, dst, startTime, y)
    requires forall p, l :: Trip(flights, src, dst, startTime, p, l) ==> Recorded(found, p, l)
    requires Trip(flights, src, dst, startTime, path, legs)
    ensures |SortByTotal(found)| > 0
    ensures SortByTotal(found)[0].totalTime <= legs[|legs| - 1].arr - legs[0].dep
    ensures Optimal(SortByTotal(found)) == Some([SortByTotal(found)[0]])
  {
    assert Recorded(found, path, legs);
    var y :| y in found && y.path == path && y.details == legs;
    SortMembers(found);
    assert IsResult(flights, src, dst, startTime, y);
  }

  /** Lines 201-204 of the search handler: `mapFlights` on the loaded routes,
      then `reduceFlights` on its output, then the first five of the ranking.
      Fails exactly when the source is the destination. Otherwise the ranking
      is the stable sort of the found itineraries, ordered by elapsed time and
      then by number of legs; it holds every trip on the generated schedule
      and nothing else; each of its itineraries keeps to the window; its
      first entry is a fastest trip; and the view shown is its first five.
      On failure the exception leaves the handler before anything is shown
      (`None`). */
  method SearchRoutes(routes: seq<Route>, src: string, dst: string, start: int, hours: int, durations: seq<int>)
    returns (r: Result<seq<Itinerary>, SearchError>, view: Option<seq<Itinerary>>, ghost found: seq<Itinerary>)
    requires ValidDurations(durations, |routes|)
    ensures r.Failure? <==> src == dst
    ensures r.Success? ==> r.value == SortByTotal(found) && SortedByTotalThenLegs(r.value)
    ensures r.Success? ==> forall y :: y in r.value ==> IsResult(MapFlights(routes, start, hours, durations), src, dst, start, y)
    ensures r.Success? ==> forall path: seq<string>, legs: seq<Flight> :: Trip(MapFlights(routes, start, hours, durations), src, dst, start, path, legs) ==>
              Recorded(r.value, path, legs) && |r.value| > 0 && r.value[0].totalTime <= legs[|legs| - 1].arr - legs[0].dep
    ensures r.Success? ==> forall y :: y in r.value ==>
              (forall k :: 0 <= k < |y.details| ==> LegInWindow(y.details[k], start, hours)) && 2 * (|y.details| - 1) <= hours
    ensures r.Success? ==> view == Some(r.value[..Min(5, |r.value|)])
    ensures r.Failure? ==> view == None
  {
    var mapped := MapFlights(routes, start, hours, durations);
    r, found := ReduceFlights(mapped, src, dst, start);
    if r.Failure? {
      view := None;
      return;
    }
    var ranked := r.value;
    SortMembers(found);
    SortThenLegs(found);
    forall y | y in ranked
      ensures (forall k :: 0 <= k < |y.details| ==> LegInWindow(y.details[k], start, hours)) && 2 * (|y.details| - 1) <= hours
    {
      ResultProperties(routes, start, hours, durations, src, dst, y);
    }
    forall path: seq<string>, legs: seq<Flight> | Trip(mapped, src, dst, start, path, legs)
      ensures Recorded(ranked, path, legs) && |ranked| > 0 && ranked[0].totalTime <= legs[|legs| - 1].arr - legs[0].dep
    {
      FirstIsFastest(mapped, src, dst, start, found, path, legs);
      var y :| y in found && y.path == path && y.details == legs;
      assert y in ranked;
    }
    view := Some(DefaultView(ranked));
    DefaultViewSpec(ranked);
  }
}
