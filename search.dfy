/** Path enumeration (`reduceFlights`): a first-in-first-out breadth-first
    search over partial journeys, seeded with the source airport at the
    requested start time. A journey that reaches the destination is recorded
    and not extended; any other is extended by every flight leaving its last
    airport that goes somewhere not yet visited and departs no earlier than
    the journey's current time. The recorded itineraries are then ranked by
    elapsed time. */
module Search {
  import opened Flights
  import opened Adjacency
  import opened Ranking

  /** A queue entry `[airport, path, currentTime, flightDetails]`. */
  datatype PartialPath = PartialPath(current: string, path: seq<string>, currentTime: int, flightDetails: seq<Flight>)

  /** The legs join the airports of the path one after the other. */
  predicate Threads(path: seq<string>, legs: seq<Flight>)
  {
    |path| == |legs| + 1 &&
    forall k :: 0 <= k < |legs| ==> legs[k].src == path[k] && legs[k].dst == path[k + 1]
  }

  predicate NoRepeats(path: seq<string>)
  {
    forall i, j :: 0 <= i < j < |path| ==> path[i] != path[j]
  }

  /** The first leg departs no earlier than the requested start, and no leg
      departs before the previous one has arrived. */
  predicate OnTime(legs: seq<Flight>, startTime: int)
  {
    (|legs| > 0 ==> startTime <= legs[0].dep) && Connected(legs)
  }

  predicate DrawnFrom(legs: seq<Flight>, flights: seq<Flight>)
  {
    forall k :: 0 <= k < |legs| ==> legs[k] in flights
  }

  /** A simple, temporally ordered journey from `src` over the given flights. */
  predicate Journey(flights: seq<Flight>, src: string, startTime: int, path: seq<string>, legs: seq<Flight>)
  {
    Threads(path, legs) && path[0] == src && NoRepeats(path) && OnTime(legs, startTime) && DrawnFrom(legs, flights)
  }

  /** A journey of at least one leg that ends at `dst`. */
  predicate Trip(flights: seq<Flight>, src: string, dst: string, startTime: int, path: seq<string>, legs: seq<Flight>)
  {
    Journey(flights, src, startTime, path, legs) && |legs| > 0 && path[|path| - 1] == dst
  }

  /** What every queue entry satisfies: a journey whose current airport and
      time are where and when its last leg lands, and which has not passed
      through the destination. */
  predicate WellFormed(flights: seq<Flight>, src: string, dst: string, startTime: int, e: PartialPath)
  {
    && Journey(flights, src, startTime, e.path, e.flightDetails)
    && e.current == e.path[|e.path| - 1]
    && e.currentTime == (if e.flightDetails == [] then startTime else e.flightDetails[|e.flightDetails| - 1].arr)
    && forall k :: 0 <= k < |e.path| - 1 ==> e.path[k] != dst
  }

  /** A recorded result: a trip with its elapsed time measured from the first
      leg's departure and its time in the air summed over the legs. */
  predicate IsResult(flights: seq<Flight>, src: string, dst: string, startTime: int, y: Itinerary)
  {
    && Trip(flights, src, dst, startTime, y.path, y.details)
    && y.totalTime == y.details[|y.details| - 1].arr - y.details[0].dep
    && y.flightTime == FlightTime(y.details)
  }

  function Seed(src: string, startTime: int): (e: PartialPath)
  {
    PartialPath(src, [src], startTime, [])
  }

  /** The test of line 86: not yet visited, and not already departed. */
  predicate Eligible(e: PartialPath, f: Flight)
  {
    f.dst !in e.path && e.currentTime <= f.dep
  }

  function Extend(e: PartialPath, f: Flight): (r: PartialPath)
  {
    PartialPath(f.dst, e.path + [f.dst], f.arr, e.flightDetails + [f])
  }

  /** The entries the inner loop pushes for `e`, in the order of `neighbors`. */
  function Children(e: PartialPath, neighbors: seq<Flight>): (r: seq<PartialPath>)
    ensures |r| <= |neighbors|
  {
    if neighbors == [] then []
    else
      var n := |neighbors| - 1;
      Children(e, neighbors[..n]) + (if Eligible(e, neighbors[n]) then [Extend(e, neighbors[n])] else [])
  }

  lemma ChildrenStep(e: PartialPath, neighbors: seq<Flight>, j: nat)
    requires j < |neighbors|
    ensures Children(e, neighbors[..j + 1]) ==
            Children(e, neighbors[..j]) + (if Eligible(e, neighbors[j]) then [Extend(e, neighbors[j])] else [])
  {
    assert neighbors[..j + 1][..j] == neighbors[..j];
  }

  /** The result recorded for an entry that has reached the destination. */
  function Complete(e: PartialPath): (y: Itinerary)
    requires |e.flightDetails| > 0
  {
    Itinerary(e.path, e.currentTime - e.flightDetails[0].dep, FlightTime(e.flightDetails), e.flightDetails)
  }

  /** `e` is the start of the journey `path`/`legs`. */
  predicate PrefixOf(e: PartialPath, path: seq<string>, legs: seq<Flight>)
  {
    |e.flightDetails| <= |legs| && e.flightDetails == legs[..|e.flightDetails|] &&
    |e.path| <= |path| && e.path == path[..|e.path|]
  }

  ghost predicate Waiting(queue: seq<PartialPath>, path: seq<string>, legs: seq<Flight>)
  {
    exists e :: e in queue && PrefixOf(e, path, legs)
  }

  ghost predicate Recorded(found: seq<Itinerary>, path: seq<string>, legs: seq<Flight>)
  {
    exists y :: y in found && y.path == path && y.details == legs
  }

  /** Number of legs of queue entry `i`. */
  function EntryLegs(queue: seq<PartialPath>, i: int): (n: nat)
    requires 0 <= i < |queue|
  {
    |queue[i].flightDetails|
  }

  /** Number of legs of recorded result `i`. */
  function ResultLegs(found: seq<Itinerary>, i: int): (n: nat)
    requires 0 <= i < |found|
  {
    |found[i].details|
  }

  /** The queue is in breadth-first order: leg counts never decrease along
      it and differ by at most one; every recorded result has no more legs
      than any entry still waiting, and results are recorded in
      nondecreasing leg count. */
  predicate Levels(found: seq<Itinerary>, queue: seq<PartialPath>)
  {
    && (forall i, j :: 0 <= i < j < |queue| ==> EntryLegs(queue, i) <= EntryLegs(queue, j))
    && (forall i, j :: 0 <= i < |queue| && 0 <= j < |queue| ==> EntryLegs(queue, j) <= EntryLegs(queue, i) + 1)
    && (forall i, j :: 0 <= i < |found| && 0 <= j < |queue| ==> ResultLegs(found, i) <= EntryLegs(queue, j))
    && (forall i, j :: 0 <= i < j < |found| ==> ResultLegs(found, i) <= ResultLegs(found, j))
  }

  // ---------------------------------------------------------------------
  // Termination measure: every entry is a simple path over the finite set
  // of airports; an entry weighs base^(airports not yet on it), where base
  // exceeds the number of flights, so the children of an entry together
  // weigh less than the entry.

  ghost function Airports(flights: seq<Flight>, src: string): (s: set<string>)
  {
    {src} + set f | f in flights :: f.dst
  }

  ghost function Pow(b: nat, e: nat): (p: nat)
  {
    if e == 0 then 1 else b * Pow(b, e - 1)
  }

  ghost function Weight(e: PartialPath, n: nat, base: nat): (w: nat)
  {
    if |e.path| <= n then Pow(base, n - |e.path|) else 0
  }

  ghost function QueueWeight(q: seq<PartialPath>, n: nat, base: nat): (w: nat)
  {
    if q == [] then 0 else Weight(q[0], n, base) + QueueWeight(q[1..], n, base)
  }

  lemma {:induction false} PowPositive(b: nat, e: nat)
    requires b >= 1
    ensures Pow(b, e) >= 1
  {
    if e > 0 {
      PowPositive(b, e - 1);
    }
  }

  lemma {:induction false} QueueWeightAppend(a: seq<PartialPath>, b: seq<PartialPath>, n: nat, base: nat)
    ensures QueueWeight(a + b, n, base) == QueueWeight(a, n, base) + QueueWeight(b, n, base)
  {
    if a == [] {
      assert a + b == b;
    } else {
      QueueWeightAppend(a[1..], b, n, base);
      assert (a + b)[1..] == a[1..] + b;
    }
  }

  lemma {:induction false} QueueWeightUniform(q: seq<PartialPath>, m: nat, n: nat, base: nat)
    requires m <= n
    requires forall c :: c in q ==> |c.path| == m
    ensures QueueWeight(q, n, base) == |q| * Pow(base, n - m)
  {
    if q != [] {
      QueueWeightUniform(q[1..], m, n, base);
      assert q[0] in q;
    }
  }

  /** A path without repeats drawn from a set is no longer than the set. */
  lemma {:induction false} DistinctBound(s: seq<string>, airports: set<string>)
    requires NoRepeats(s)
    requires forall k :: 0 <= k < |s| ==> s[k] in airports
    ensures |s| <= |airports|
  {
    if s != [] {
      var rest := airports - {s[0]};
      forall k | 0 <= k < |s[1..]| ensures s[1..][k] in rest {
        assert s[1..][k] == s[k + 1];
      }
      DistinctBound(s[1..], rest);
    }
  }

  /** Every entry visits at most every airport once. */
  lemma WellFormedWithin(flights: seq<Flight>, src: string, dst: string, startTime: int, e: PartialPath)
    requires WellFormed(flights, src, dst, startTime, e)
    ensures |e.path| <= |Airports(flights, src)|
  {
    var airports := Airports(flights, src);
    forall k | 0 <= k < |e.path| ensures e.path[k] in airports {
      if k > 0 {
        var f := e.flightDetails[k - 1];
        assert f in flights;
        assert e.path[k] == f.dst;
      }
    }
    DistinctBound(e.path, airports);
  }

  // ---------------------------------------------------------------------
  // One step of the search.

  lemma SeedWellFormed(flights: seq<Flight>, src: string, dst: string, startTime: int)
    ensures WellFormed(flights, src, dst, startTime, Seed(src, startTime))
  {
  }

  /** Extending an entry by an eligible flight leaving its airport gives an
      entry again, one leg longer. */
  lemma ExtendWellFormed(flights: seq<Flight>, src: string, dst: string, startTime: int, e: PartialPath, f: Flight)
    requires WellFormed(flights, src, dst, startTime, e)
    requires e.current != dst
    requires f in flights && f.src == e.current && Eligible(e, f)
    ensures WellFormed(flights, src, dst, startTime, Extend(e, f))
    ensures |Extend(e, f).flightDetails| == |e.flightDetails| + 1
    ensures |Extend(e, f).path| == |e.path| + 1
  {
    var c := Extend(e, f);
    var legs := e.flightDetails;
    assert c.flightDetails[..|legs|] == legs;
    assert c.path[..|e.path|] == e.path;
    forall k | 0 <= k < |c.flightDetails| ensures c.flightDetails[k].src == c.path[k] && c.flightDetails[k].dst == c.path[k + 1] {
      if k < |legs| {
        assert c.flightDetails[k] == legs[k];
      }
    }
    assert Connected(c.flightDetails) by {
      forall k | 0 <= k < |c.flightDetails| - 1 ensures c.flightDetails[k].arr <= c.flightDetails[k + 1].dep {
        if k + 1 < |legs| {
          assert c.flightDetails[k] == legs[k] && c.flightDetails[k + 1] == legs[k + 1];
        }
      }
    }
  }

  lemma {:induction false} ChildrenWellFormed(flights: seq<Flight>, src: string, dst: string, startTime: int, e: PartialPath, neighbors: seq<Flight>)
    requires WellFormed(flights, src, dst, startTime, e)
    requires e.current != dst
    requires forall f :: f in neighbors ==> f in flights && f.src == e.current
    ensures |Children(e, neighbors)| <= |neighbors|
    ensures forall c :: c in Children(e, neighbors) ==>
              && WellFormed(flights, src, dst, startTime, c)
              && |c.flightDetails| == |e.flightDetails| + 1
              && |c.path| == |e.path| + 1
  {
    if neighbors != [] {
      var n := |neighbors| - 1;
      assert forall f :: f in neighbors[..n] ==> f in neighbors;
      ChildrenWellFormed(flights, src, dst, startTime, e, neighbors[..n]);
      if Eligible(e, neighbors[n]) {
        assert neighbors[n] in neighbors;
        ExtendWellFormed(flights, src, dst, startTime, e, neighbors[n]);
      }
    }
  }

  lemma {:induction false} ChildrenHas(e: PartialPath, neighbors: seq<Flight>, f: Flight)
    requires f in neighbors && Eligible(e, f)
    ensures Extend(e, f) in Children(e, neighbors)
  {
    var n := |neighbors| - 1;
    if neighbors[n] != f {
      assert f in neighbors[..n] by {
        var i :| 0 <= i < |neighbors| && neighbors[i] == f;
        assert neighbors[..n][i] == f;
      }
      ChildrenHas(e, neighbors[..n], f);
    }
  }

  /** Conversely, every entry an expansion pushes is the extension of the
      dequeued entry by an eligible neighbour flight: the loop pushes nothing
      else. */
  lemma {:induction false} ChildrenOnly(e: PartialPath, neighbors: seq<Flight>)
    ensures forall c :: c in Children(e, neighbors) ==>
              exists f :: f in neighbors && Eligible(e, f) && c == Extend(e, f)
  {
    if neighbors != [] {
      var n := |neighbors| - 1;
      ChildrenOnly(e, neighbors[..n]);
      assert forall f :: f in neighbors[..n] ==> f in neighbors;
      assert neighbors[n] in neighbors;
    }
  }

  lemma FewerChildrenWeighLess(count: nat, base: nat, r: nat)
    requires count < base && r >= 1
    ensures count * Pow(base, r - 1) < Pow(base, r)
  {
    var p := Pow(base, r - 1);
    PowPositive(base, r - 1);
    assert count * p <= (base - 1) * p;
  }

  /** Expanding an entry replaces it by children that together weigh less. */
  lemma ExpansionDecreases(flights: seq<Flight>, src: string, dst: string, startTime: int, e: PartialPath, neighbors: seq<Flight>)
    requires WellFormed(flights, src, dst, startTime, e)
    requires e.current != dst
    requires neighbors == Outgoing(flights, e.current)
    ensures QueueWeight(Children(e, neighbors), |Airports(flights, src)|, |flights| + 1)
            < Weight(e, |Airports(flights, src)|, |flights| + 1)
  {
    var n, base := |Airports(flights, src)|, |flights| + 1;
    var ch := Children(e, neighbors);
    OutgoingMembers(flights, e.current);
    ChildrenWellFormed(flights, src, dst, startTime, e, neighbors);
    WellFormedWithin(flights, src, dst, startTime, e);
    if ch == [] {
      PowPositive(base, n - |e.path|);
    } else {
      assert ch[0] in ch;
      WellFormedWithin(flights, src, dst, startTime, ch[0]);
      QueueWeightUniform(ch, |e.path| + 1, n, base);
      FewerChildrenWeighLess(|ch|, base, n - |e.path|);
    }
  }

  /** A trip waiting behind an entry that has reached the destination is that
      entry. */
  lemma RecordCovers(flights: seq<Flight>, src: string, dst: string, startTime: int, e: PartialPath, path: seq<string>, legs: seq<Flight>)
    requires WellFormed(flights, src, dst, startTime, e)
    requires Trip(flights, src, dst, startTime, path, legs)
    requires PrefixOf(e, path, legs)
    requires e.current == dst
    ensures e.path == path && e.flightDetails == legs
  {
    var k := |e.flightDetails|;
    assert e.path[k] == path[k];
    assert k == |path| - 1;
  }

  /** A trip waiting behind an entry short of the destination continues with
      a flight that the entry's expansion pushes. */
  lemma ExtendCovers(flights: seq<Flight>, src: string, dst: string, startTime: int, e: PartialPath, path: seq<string>, legs: seq<Flight>)
    requires WellFormed(flights, src, dst, startTime, e)
    requires Trip(flights, src, dst, startTime, path, legs)
    requires PrefixOf(e, path, legs)
    requires e.current != dst
    ensures |e.flightDetails| < |legs|
    ensures legs[|e.flightDetails|] in Outgoing(flights, e.current)
    ensures Eligible(e, legs[|e.flightDetails|])
    ensures PrefixOf(Extend(e, legs[|e.flightDetails|]), path, legs)
  {
    var k := |e.flightDetails|;
    var f := legs[k];
    OutgoingMembers(flights, e.current);
    assert e.path[k] == path[k];
    assert f in flights && f.src == e.current;
    assert f.dst == path[k + 1];
    assert f.dst !in e.path by {
      forall i | 0 <= i < |e.path| ensures e.path[i] != f.dst {
        assert e.path[i] == path[i] && i < k + 1 < |path|;
        assert NoRepeats(path);
      }
    }
    if k > 0 {
      assert e.flightDetails[k - 1] == legs[k - 1];
    }
    assert legs[..k] + [f] == legs[..k + 1];
    assert path[..k + 1] + [path[k + 1]] == path[..k + 2];
  }

  lemma LevelsAfterRecord(found: seq<Itinerary>, e: PartialPath, rest: seq<PartialPath>)
    requires Levels(found, [e] + rest)
    requires |e.flightDetails| > 0
    ensures Levels(found + [Complete(e)], rest)
  {
    var before, found' := [e] + rest, found + [Complete(e)];
    assert forall j :: 0 <= j < |rest| ==> EntryLegs(rest, j) == EntryLegs(before, j + 1);
    forall i | 0 <= i < |found'|
      ensures ResultLegs(found', i) <= EntryLegs(before, 0)
      ensures i < |found| ==> ResultLegs(found', i) == ResultLegs(found, i)
    {
      if i < |found| {
        assert found'[i] == found[i];
        assert ResultLegs(found, i) <= EntryLegs(before, 0);
      }
    }
    forall i, j | 0 <= i < |found'| && 0 <= j < |rest| ensures ResultLegs(found', i) <= EntryLegs(rest, j) {
      assert EntryLegs(before, 0) <= EntryLegs(before, j + 1);
    }
  }

  lemma LevelsAfterExpand(found: seq<Itinerary>, e: PartialPath, rest: seq<PartialPath>, ch: seq<PartialPath>)
    requires Levels(found, [e] + rest)
    requires forall c :: c in ch ==> |c.flightDetails| == |e.flightDetails| + 1
    ensures Levels(found, rest + ch)
  {
    var before, after := [e] + rest, rest + ch;
    var m := |e.flightDetails|;
    assert EntryLegs(before, 0) == m;
    forall j | 0 <= j < |after| ensures m <= EntryLegs(after, j) <= m + 1 && (j < |rest| ==> EntryLegs(after, j) == EntryLegs(before, j + 1))
    {
      if j < |rest| {
        assert after[j] == before[j + 1];
        assert EntryLegs(before, 0) <= EntryLegs(before, j + 1);
        assert EntryLegs(before, j + 1) <= EntryLegs(before, 0) + 1;
      } else {
        assert after[j] in ch;
      }
    }
    forall i, j | 0 <= i < j < |after| ensures EntryLegs(after, i) <= EntryLegs(after, j) {
      if j < |rest| {
        assert EntryLegs(before, i + 1) <= EntryLegs(before, j + 1);
      }
    }
    forall i, j | 0 <= i < |found| && 0 <= j < |after| ensures ResultLegs(found, i) <= EntryLegs(after, j) {
      assert ResultLegs(found, i) <= EntryLegs(before, 0);
    }
  }

  /** Every trip on the flights is either recorded already or waiting in
      the queue behind one of its prefixes. */
  ghost predicate Covered(flights: seq<Flight>, src: string, dst: string, startTime: int, found: seq<Itinerary>, queue: seq<PartialPath>)
  {
    forall path, legs :: Trip(flights, src, dst, startTime, path, legs) ==> Recorded(found, path, legs) || Waiting(queue, path, legs)
  }

  lemma SeedCovers(flights: seq<Flight>, src: string, dst: string, startTime: int)
    ensures Covered(flights, src, dst, startTime, [], [Seed(src, startTime)])
  {
    forall path, legs | Trip(flights, src, dst, startTime, path, legs) ensures Waiting([Seed(src, startTime)], path, legs) {
      assert PrefixOf(Seed(src, startTime), path, legs);
    }
  }

  lemma CoveredAfterRecord(flights: seq<Flight>, src: string, dst: string, startTime: int, found: seq<Itinerary>, e: PartialPath, rest: seq<PartialPath>)
    requires Covered(flights, src, dst, startTime, found, [e] + rest)
    requires WellFormed(flights, src, dst, startTime, e)
    requires e.current == dst && |e.flightDetails| > 0
    ensures Covered(flights, src, dst, startTime, found + [Complete(e)], rest)
  {
    var found' := found + [Complete(e)];
    forall path, legs | Trip(flights, src, dst, startTime, path, legs)
      ensures Recorded(found', path, legs) || Waiting(rest, path, legs)
    {
      if Recorded(found, path, legs) {
        var y :| y in found && y.path == path && y.details == legs;
        assert y in found';
      } else {
        var x :| x in [e] + rest && PrefixOf(x, path, legs);
        if x == e {
          RecordCovers(flights, src, dst, startTime, e, path, legs);
          assert Complete(e) in found';
        } else {
          assert x in rest;
        }
      }
    }
  }

  lemma CoveredAfterExpand(flights: seq<Flight>, src: string, dst: string, startTime: int, found: seq<Itinerary>, e: PartialPath, rest: seq<PartialPath>, neighbors: seq<Flight>)
    requires Covered(flights, src, dst, startTime, found, [e] + rest)
    requires WellFormed(flights, src, dst, startTime, e)
    requires e.current != dst
    requires neighbors == Outgoing(flights, e.current)
    ensures Covered(flights, src, dst, startTime, found, rest + Children(e, neighbors))
  {
    var after := rest + Children(e, neighbors);
    forall path, legs | Trip(flights, src, dst, startTime, path, legs)
      ensures Recorded(found, path, legs) || Waiting(after, path, legs)
    {
      if !Recorded(found, path, legs) {
        var x :| x in [e] + rest && PrefixOf(x, path, legs);
        if x == e {
          ExtendCovers(flights, src, dst, startTime, e, path, legs);
          ChildrenHas(e, neighbors, legs[|e.flightDetails|]);
          assert Extend(e, legs[|e.flightDetails|]) in after;
        } else {
          assert x in after;
        }
      }
    }
  }

  /** The loop invariant of the search: every waiting entry is well formed,
      every recorded result is a trip with its times, no trip is lost, and
      the queue is in breadth-first order. */
  ghost predicate SearchInvariant(flights: seq<Flight>, src: string, dst: string, startTime: int, found: seq<Itinerary>, queue: seq<PartialPath>)
  {
    && (forall e :: e in queue ==> WellFormed(flights, src, dst, startTime, e))
    && (forall y :: y in found ==> IsResult(flights, src, dst, startTime, y))
    && Covered(flights, src, dst, startTime, found, queue)
    && Levels(found, queue)
  }

  lemma InvariantAtSeed(flights: seq<Flight>, src: string, dst: string, startTime: int)
    ensures SearchInvariant(flights, src, dst, startTime, [], [Seed(src, startTime)])
  {
    SeedWellFormed(flights, src, dst, startTime);
    SeedCovers(flights, src, dst, startTime);
  }

  /** An entry that has reached the destination with at least one leg is
      recorded as a result. */
  lemma CompleteIsResult(flights: seq<Flight>, src: string, dst: string, startTime: int, e: PartialPath)
    requires WellFormed(flights, src, dst, startTime, e)
    requires e.current == dst && |e.flightDetails| > 0
    ensures IsResult(flights, src, dst, startTime, Complete(e))
  {
  }

  /** Dequeuing an entry without pushing anything lightens the queue. */
  lemma RecordDecreases(flights: seq<Flight>, src: string, dst: string, startTime: int, e: PartialPath, rest: seq<PartialPath>)
    requires WellFormed(flights, src, dst, startTime, e)
    ensures QueueWeight(rest, |Airports(flights, src)|, |flights| + 1)
            < QueueWeight([e] + rest, |Airports(flights, src)|, |flights| + 1)
  {
    var n, base := |Airports(flights, src)|, |flights| + 1;
    WellFormedWithin(flights, src, dst, startTime, e);
    PowPositive(base, n - |e.path|);
    assert ([e] + rest)[1..] == rest;
  }

  /** Recording a dequeued entry that has reached the destination keeps the
      invariant and lightens the queue. */
  lemma InvariantAfterRecord(flights: seq<Flight>, src: string, dst: string, startTime: int, found: seq<Itinerary>, e: PartialPath, rest: seq<PartialPath>)
    requires SearchInvariant(flights, src, dst, startTime, found, [e] + rest)
    requires e.current == dst && |e.flightDetails| > 0
    ensures SearchInvariant(flights, src, dst, startTime, found + [Complete(e)], rest)
    ensures QueueWeight(rest, |Airports(flights, src)|, |flights| + 1)
            < QueueWeight([e] + rest, |Airports(flights, src)|, |flights| + 1)
  {
    var before, found' := [e] + rest, found + [Complete(e)];
    assert e in before;
    RecordDecreases(flights, src, dst, startTime, e, rest);
    CompleteIsResult(flights, src, dst, startTime, e);
    forall x | x in rest ensures WellFormed(flights, src, dst, startTime, x) {
      assert x in before;
    }
    forall y | y in found' ensures IsResult(flights, src, dst, startTime, y) {
      if y != Complete(e) {
        assert y in found;
      }
    }
    LevelsAfterRecord(found, e, rest);
    CoveredAfterRecord(flights, src, dst, startTime, found, e, rest);
  }

  /** Replacing a dequeued entry short of the destination by its children
      keeps the invariant and lightens the queue. */
  lemma InvariantAfterExpand(flights: seq<Flight>, src: string, dst: string, startTime: int, found: seq<Itinerary>, e: PartialPath, rest: seq<PartialPath>, neighbors: seq<Flight>)
    requires SearchInvariant(flights, src, dst, startTime, found, [e] + rest)
    requires e.current != dst
    requires neighbors == Outgoing(flights, e.current)
    ensures SearchInvariant(flights, src, dst, startTime, found, rest + Children(e, neighbors))
    ensures QueueWeight(rest + Children(e, neighbors), |Airports(flights, src)|, |flights| + 1)
            < QueueWeight([e] + rest, |Airports(flights, src)|, |flights| + 1)
  {
    var n, base := |Airports(flights, src)|, |flights| + 1;
    var ch := Children(e, neighbors);
    assert e in [e] + rest;
    assert forall x :: x in rest ==> x in [e] + rest;
    assert ([e] + rest)[1..] == rest;
    OutgoingMembers(flights, e.current);
    ChildrenWellFormed(flights, src, dst, startTime, e, neighbors);
    LevelsAfterExpand(found, e, rest, ch);
    CoveredAfterExpand(flights, src, dst, startTime, found, e, rest, neighbors);
    ExpansionDecreases(flights, src, dst, startTime, e, neighbors);
    QueueWeightAppend(rest, ch, n, base);
  }

  /** Once the queue is empty, the invariant says that everything recorded is
      a trip and every trip has been recorded. */
  lemma InvariantAtEnd(flights: seq<Flight>, src: string, dst: string, startTime: int, found: seq<Itinerary>)
    requires SearchInvariant(flights, src, dst, startTime, found, [])
    ensures forall y :: y in found ==> IsResult(flights, src, dst, startTime, y)
    ensures forall path, legs :: Trip(flights, src, dst, startTime, path, legs) ==> Recorded(found, path, legs)
    ensures LegsNondecreasing(found)
  {
    forall i, j | 0 <= i < j < |found| ensures |found[i].details| <= |found[j].details| {
      assert ResultLegs(found, i) <= ResultLegs(found, j);
    }
    forall path, legs | Trip(flights, src, dst, startTime, path, legs) ensures Recorded(found, path, legs) {
      assert !Waiting([], path, legs);
    }
  }

  /** The inner `for … of` loop of an expansion: every neighbour flight that goes
      to an airport not yet on the path and departs no earlier than the entry's
      current time is pushed, extended, onto the back of the queue, in the
      neighbours' order. */
  method PushChildren(queue: seq<PartialPath>, e: PartialPath, neighbors: seq<Flight>) returns (q: seq<PartialPath>)
    ensures q == queue + Children(e, neighbors)
  {
    q := queue;
    for j := 0 to |neighbors|
      invariant q == queue + Children(e, neighbors[..j])
    {
      var flight := neighbors[j];
      ChildrenStep(e, neighbors, j);
      if flight.dst !in e.path && e.currentTime <= flight.dep {
        q := q + [Extend(e, flight)];
      }
    }
    assert neighbors[..|neighbors|] == neighbors;
  }

  /** `reduceFlights(mappedData, src, dst, startTime)`. Fails exactly when the
      source is the destination (the seed is complete with no first leg to
      measure from). Otherwise the result is the stable ranking of what the
      search found; everything found is a trip with its times, every trip on
      the given flights is found, and trips are found in nondecreasing
      number of legs. */
  method ReduceFlights(flights: seq<Flight>, src: string, dst: string, startTime: int)
    returns (r: Result<seq<Itinerary>, SearchError>, ghost found: seq<Itinerary>)
    ensures r.Failure? <==> src == dst
    ensures r.Success? ==> r.value == SortByTotal(found)
    ensures r.Success? ==> forall y :: y in found ==> IsResult(flights, src, dst, startTime, y)
    ensures r.Success? ==> forall path, legs :: Trip(flights, src, dst, startTime, path, legs) ==> Recorded(found, path, legs)
    ensures r.Success? ==> LegsNondecreasing(found)
  {
    var routesFromAirport := BuildAdjacency(flights);
    var allPaths: seq<Itinerary> := [];
    var queue := [Seed(src, startTime)];
    ghost var n, base := |Airports(flights, src)|, |flights| + 1;
    InvariantAtSeed(flights, src, dst, startTime);
    while |queue| > 0
      invariant SearchInvariant(flights, src, dst, startTime, allPaths, queue)
      invariant src == dst ==> queue == [Seed(src, startTime)]
      decreases QueueWeight(queue, n, base)
    {
      ghost var before, recorded := queue, allPaths;
      var e := queue[0];
      queue := queue[1..];
      assert before == [e] + queue;
      if e.current == dst {
        if |e.flightDetails| == 0 {
          assert e in before;
          found := allPaths;
          r := Failure(MissingFirstLeg);
          return;
        }
        allPaths := allPaths + [Complete(e)];
        InvariantAfterRecord(flights, src, dst, startTime, recorded, e, queue);
      } else {
        var neighbors := Lookup(routesFromAirport, e.current);
        ghost var rest := queue;
        queue := PushChildren(queue, e, neighbors);
        InvariantAfterExpand(flights, src, dst, startTime, recorded, e, rest, neighbors);
      }
    }
    InvariantAtEnd(flights, src, dst, startTime, allPaths);
    found := allPaths;
    r := Success(SortByTotal(allPaths));
  }
}
