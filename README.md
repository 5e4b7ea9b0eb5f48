# Flight route search — a verified model

This project models the search pipeline of a small browser flight-route
finder (`script.js`) in Dafny and proves what that pipeline guarantees.
The pipeline has three parts.

- **Schedule generation, `mapFlights`.** Route number `i` of the loaded
  route list becomes one timed flight. It departs `i mod 24` hours after the
  requested start and flies for a random duration of between two and ten
  hours. It is kept only if it departs within the requested number of hours.
- **Path enumeration, `reduceFlights`.** This part first builds an index
  from each origin airport to the flights leaving it, in list order. It then
  runs a first-in-first-out breadth-first search over partial journeys,
  starting from the source airport at the start time. A flight extends a
  journey only if it goes to an airport not yet visited and departs no
  earlier than the journey's current time. A journey that reaches the
  destination is recorded and not extended. The recorded itineraries are
  then sorted by elapsed time.
- **Views.** Right after a search the page shows the first five results.
  The three buttons show the first result, the first five, or the last five
  in reverse order. Each button does nothing when there are no results.

Modules, one file each:

- `Flights` (`flights.dfy`): routes, flights, itineraries, time constants,
  `Option`/`Result`, and the time-in-the-air sum.
- `Schedule` (`schedule.dfy`): `mapFlights`, as a function.
- `Adjacency` (`adjacency.dfy`): the origin index, built by a method with a
  loop, as the `forEach` builds it.
- `Ranking` (`ranking.dfy`): the stable sort by elapsed time.
- `Search` (`search.dfy`): `reduceFlights`, as a method whose `while` loop
  drives an explicit queue and whose inner loop pushes the extensions.
- `Selection` (`selection.dfy`): `slice`, `reverse` and the four views.
- `Pipeline` (`pipeline.dfy`): the search handler's composition of the
  stages, and the end-to-end properties.

Modelling choices:

- **Time.** Every timestamp and duration is a whole number of
  milliseconds, as JavaScript `Date` values are.
- **`Math.random`.** It becomes an oracle: `durations[i]` is the duration
  drawn for route `i`, and it lies in `[2h, 10h]`. The value
  `(2 + Math.random() * 8) * 3600 * 1000` is at least 7200000 and at most
  36000000: a draw of 1 − 2^-53 makes `2 + r * 8` round to exactly 10. Even
  a value just below 36000000 is added to a departure timestamp of about
  1.8e12 ms in double precision. There doubles are 2^-12 ms apart, so a draw
  within about 4e-12 of 1 rounds the arrival to exactly `dep + 36000000`. `new Date`
  then keeps whole milliseconds. The drawn duration is therefore any whole
  number of milliseconds in `[7200000, 36000000]`, both ends included.
- **Reported times.** The source divides `totalTime` and `flightTime` by
  3600000 to get hours. The model keeps milliseconds. Sorting by hours and
  sorting by milliseconds give the same order, because dividing by a
  positive constant preserves order (see "Left out").
- **Stable sort.** `allPaths.sort` is the engine's stable sort. It is
  modelled by `Ranking.SortByTotal`, a stable insertion sort.
  `Ranking.StableSortUnique` shows that every stable sort by elapsed time
  gives the same sequence, so the choice of algorithm does not matter.
- **Failure when the source is the destination.** Then the search dequeues
  its seed as complete, with no legs. Line 78 reads `flightDetails[0].dep`
  on an empty list and throws. The model returns
  `Failure(MissingFirstLeg)` at that point of the loop. On failure the
  handler stops before it assigns or shows anything.

In these places the code behaves differently from what a reader might
assume; the model follows the code:

- **Elapsed time.** The code measures it from the first leg's departure
  (line 78), not from the requested start time.
- **Source equals destination.** The code throws; it does not return an
  empty list.
- **Waiting.** The code allows waiting between legs, because it only
  checks `currentTime <= flight.dep`.
- **No bound on arrival.** The only time bound is the departure window of
  `mapFlights`. The proved consequence is `Pipeline.LegCountBound`: an
  itinerary has at most `hours / 2 + 1` legs, and never more than twelve.

## Model

| member | source | states |
|---|---|---|
| Flights.FlightTime | script.js:79 | the `reduce` summing `arr - dep` over the legs; its bounds and its relation to the elapsed time are stated by `Flights.FlightTimeBounds` and `Flights.ElapsedSplits` |
| Flights.ElapsedSplits | script.js:78-79 | last arrival minus first departure equals time in the air plus time on the ground; on a connected journey the ground time is non-negative, so the time in the air is at most the elapsed time |
| Flights.FlightTimeBounds | script.js:57-79 | if every leg lasts between `lo` and `hi`, the summed time in the air lies between `n*lo` and `n*hi` for `n` legs |
| Schedule.Departure | script.js:56 | the departure `start + (i mod 24)` hours; `Schedule.WindowIff` states that it is never before the start |
| Schedule.InWindow | script.js:58 | the window filter; `Schedule.WindowIff` states that it keeps route `i` iff `i mod 24 <= hours` |
| Schedule.Instance | script.js:57-59 | the flight object built for a route; `Schedule.InstanceProperties` states its times and copied fields |
| Schedule.MapFlights | script.js:54-62 | the schedule never has more flights than there are routes |
| Schedule.WindowIff | script.js:56-58 | route `i` departs no earlier than the start, and passes the window filter iff `i mod 24 <= hours` |
| Schedule.KeptIndicesSpec | script.js:58 | the kept route numbers are strictly increasing, below the route count, and exactly those with `i mod 24 <= hours` |
| Schedule.MapFlightsOrder | script.js:55-61 | output entry `j` is the instance built from the `j`-th kept route, so the output is the route order restricted to the kept routes |
| Schedule.InstanceProperties | script.js:56-59 | every generated flight departs within `[start, start + hours]` and at most 23 hours after the start, lasts `[2h, 10h]`, so it arrives after it departs, and copies a route's origin, destination and carrier unchanged |
| Schedule.WindowExtremes | script.js:58 | a window of 23 hours or more keeps every route; a negative window keeps none |
| Adjacency.Outgoing | script.js:65-69 | the list the index holds for an airport; `Adjacency.OutgoingSpec` and `Adjacency.OutgoingMembers` state that it is the in-order filter by origin |
| Adjacency.Lookup | script.js:84 | `routesFromAirport.get(current) \|\| []`; `Adjacency.BuildAdjacency` states that it returns that filter for every airport |
| Adjacency.BuildAdjacency | script.js:65-69 | the index has exactly the origins of the flights as keys, and the list for any airport (missing ones read as empty) is the in-order filter of the flights by that origin |
| Adjacency.OriginsSpec | script.js:66-67 | an airport is a key of the index iff some flight leaves it, iff its list is not empty |
| Adjacency.OutgoingSpec | script.js:65-69 | that filter lists the flights at increasing positions of the flight list, and a position is listed iff its flight leaves the airport: nothing dropped, duplicated or reordered |
| Adjacency.OutgoingMembers | script.js:65-69 | a flight is in an airport's list iff it is one of the flights and leaves that airport; the list is no longer than the flight list |
| Ranking.SortByTotal | script.js:93 | the sort itself, keeping the length; `Ranking.SortSpec`, `Ranking.SortStable` and `Ranking.StableSortUnique` state that it is the stable ascending sort by elapsed time |
| Ranking.SortSpec | script.js:93 | the ranking is sorted by elapsed time, is a permutation of the found itineraries and has as many entries |
| Ranking.SortPermutes | script.js:93 | the ranking has the same multiset of itineraries as the input |
| Ranking.SortSorted | script.js:93 | the ranking is in ascending order of elapsed time |
| Ranking.SortMembers | script.js:93 | the ranking holds exactly the found itineraries, and its first entry takes no longer than any of them |
| Ranking.SortStable | script.js:93 | for every elapsed time, the itineraries taking that long keep their discovery order |
| Ranking.StableSortUnique | script.js:93 | two sorted sequences that agree on every group of equal elapsed times are equal, so every stable sort gives this ranking |
| Ranking.SortIdempotent | script.js:93 | re-ranking a ranking changes nothing |
| Ranking.SortThenLegs | script.js:74-93 | if itineraries are found in nondecreasing number of legs, the ranking orders ties in elapsed time by number of legs |
| Search.Seed | script.js:72 | the seed entry `[src, [src], startTime, []]`; `Search.SeedWellFormed` states that it is well formed |
| Search.Eligible | script.js:86 | the test on a neighbour flight; `Search.ExtendWellFormed` states that an extension passing it stays a simple, time-ordered journey |
| Search.Extend | script.js:87-89 | the entry pushed for a flight; `Search.ExtendWellFormed` states what it keeps |
| Search.Children | script.js:85-90 | the entries the inner loop pushes, no more than the neighbours; `Search.ChildrenHas` and `Search.ChildrenOnly` state that they are exactly the eligible extensions, and `Search.ChildrenWellFormed` that each is well formed |
| Search.Complete | script.js:77-80 | the record pushed for an entry at the destination; `Search.CompleteIsResult` states that it is a trip with its elapsed and air times |
| Search.SeedWellFormed | script.js:72 | the seed `[src, [src], startTime, []]` is a well-formed queue entry |
| Search.ExtendWellFormed | script.js:86-89 | extending a well-formed entry short of the destination by an eligible flight leaving its airport gives a well-formed entry with one more leg and one more airport |
| Search.ChildrenWellFormed | script.js:84-91 | every entry pushed by an expansion is well formed with one more leg, and there are no more of them than neighbours |
| Search.ChildrenHas | script.js:85-90 | every eligible neighbour is pushed, extended |
| Search.ChildrenOnly | script.js:85-90 | every pushed entry is the extension of the dequeued entry by a neighbour flight that passes the test of line 86 |
| Search.WellFormedWithin | script.js:86 | a queue entry never visits more airports than exist (the source plus the flights' destinations) |
| Search.CompleteIsResult | script.js:77-80 | an entry that reaches the destination with at least one leg is recorded as a trip, with elapsed time from its first departure and air time summed over its legs |
| Search.RecordDecreases | script.js:75-81 | dequeuing an entry and pushing nothing lowers the termination measure |
| Search.ExpansionDecreases | script.js:84-91 | the entries pushed for one expanded entry weigh less together than it did, so the loop terminates |
| Search.RecordCovers | script.js:77-81 | a trip whose prefix is an entry already at the destination is that entry: a path ends at its first arrival at the destination |
| Search.ExtendCovers | script.js:84-90 | a trip whose prefix is an entry short of the destination continues with a flight that the expansion pushes |
| Search.InvariantAtSeed | script.js:71-72 | the search invariant holds for the seeded queue and no results |
| Search.InvariantAfterRecord | script.js:75-81 | recording a completed entry keeps the invariant and lowers the measure |
| Search.InvariantAfterExpand | script.js:75-91 | expanding an entry keeps the invariant and lowers the measure |
| Search.InvariantAtEnd | script.js:74-92 | with the queue empty, everything recorded is a trip, every trip has been recorded, and results appear in nondecreasing number of legs |
| Search.PushChildren | script.js:85-91 | the queue afterwards is the old queue followed by the eligible extensions, in neighbour order |
| Search.ReduceFlights | script.js:64-94 | fails exactly when source equals destination; otherwise returns the stable ranking of the found itineraries, each a simple, time-ordered trip from source to destination over the given flights, every such trip found, found in nondecreasing number of legs |
| Selection.Slice | script.js:218 | `Array.prototype.slice`: never longer than the list, and only its entries; `Selection.PrefixSlice` and `Selection.SuffixSlice` state the prefix and suffix |
| Selection.Reverse | script.js:226 | `reverse()`: same length, same entries; `Selection.ReverseAt` states the positions |
| Selection.DefaultView | script.js:204 | the first view: at most five results, all from the list; `Selection.DefaultViewSpec` states it exactly |
| Selection.Optimal | script.js:210 | one result from the list when there is one; `Selection.OptimalSpec` states it exactly |
| Selection.TopFive | script.js:218 | one to five results from the list when there is one; `Selection.TopFiveSpec` states it exactly |
| Selection.WorstFive | script.js:226 | one to five results from the list when there is one; `Selection.WorstFiveSpec` states it exactly |
| Selection.Resolve | script.js:218-226 | a slice index resolves to `[0, len]`: non-negative indices in range are kept, negative ones count back from the end |
| Selection.ReverseAt | script.js:226 | reversing keeps the length and puts entry `n-1-i` at position `i` |
| Selection.ReverseReverse | script.js:226 | reversing twice gives the sequence back |
| Selection.PrefixSlice | script.js:218 | `slice(0, k)` is the prefix of length `min(k, n)` |
| Selection.SuffixSlice | script.js:226 | `slice(-k)` for `k > 0` holds the last `min(k, n)` entries |
| Selection.DefaultViewSpec | script.js:204 | the view after a search is the first `min(5, n)` results, empty iff there are none, and equal to what "top 5" shows |
| Selection.OptimalSpec | script.js:208-213 | "optimal" shows something iff there are results, and then exactly the first; on a ranking nothing takes less time |
| Selection.TopFiveSpec | script.js:216-221 | "top 5" shows something iff there are results, and then the first `min(5, n)`; on a ranking none left out is faster than one shown |
| Selection.WorstFiveSpec | script.js:224-229 | "worst 5" shows something iff there are results, and then the last `min(5, n)` with the last first; on a ranking it is slowest first, and none left out is slower than one shown |
| Pipeline.DepartureSpread | script.js:86 | on a connected journey whose legs each last at least `lo`, leg `k` departs at least `k*lo` after the first |
| Pipeline.LegCountBound | script.js:56-86 | a connected journey over flights in a window of `hours` hours has `2*(legs-1) <= hours`, so at most twelve legs, and only direct flights when the window is under two hours |
| Pipeline.LegsFromSchedule | script.js:56-59 | legs taken from the generated schedule depart inside the window and last `[2h, 10h]` |
| Pipeline.JourneyTimes | script.js:57-79 | such a journey spends between two and ten hours in the air per leg, and its air time is positive and at most its elapsed time |
| Pipeline.ResultProperties | script.js:201-202 | every itinerary found on the generated schedule keeps to the window, has air time between `2h` and `10h` per leg that is at most its elapsed time, and has a leg count bounded by the window |
| Pipeline.FirstIsFastest | script.js:201-210 | after a complete search, the first entry of the ranking takes no longer than any trip there is |
| Pipeline.SearchRoutes | script.js:201-204 | fails iff source equals destination; otherwise the ranking holds every trip on the generated schedule and nothing else, is ordered by elapsed time and then by leg count, keeps every leg inside the window, starts with a fastest trip, and the view shown is its first five |

## Left out

- **Loading the data (lines 21-51).** `fetch`, `Promise.all` and the
  text splitting are network I/O and string parsing. The model starts from
  the list of routes.
- **Rendering and event wiring.** `displayPaths`, `visualizePaths` and
  the `vis` graph, `alert`, and the listener registration are DOM work.
  The views are modelled as the lists they pass to the display.
- **Input parsing in the search handler (lines 186-199).** This covers
  `toUpperCase`, `parseInt`, splitting the time string and
  `Date.setHours`. The model takes the source and destination codes, the
  start time in milliseconds and the window in whole hours as they are
  after parsing. The guard at line 192, which rejects empty fields and a
  duration of 0 or NaN, is not modelled.
- **The page's `allFoundRoutes` variable.** The handlers assign and read
  it. It is modelled as the value passed from the search to the views.
  The views are functions of it, so they cannot change it.
- **Floating-point hours.** `totalTime` and `flightTime` are divided by
  3600000, and the window test divides by it too. The model keeps integer
  milliseconds. For integer times of this size the division is exact in
  the window test, and it preserves strict order in the comparator.
  `toFixed` is display-only.
- **`Math.random`.** It is a parameter (`durations`), one value per route,
  constrained to `[7200000, 36000000]`. The model does not cover how random
  the values are, nor the double-precision rounding and the truncation to
  whole milliseconds that turn the drawn fraction into an arrival time. It
  only takes the resulting range of durations, both ends included.
- **`Date` limits.** The range limits of `Date` (±8.64e15 ms) are not
  modelled; times are unbounded integers.
- **Records with missing fields.** A route missing a field carries
  `undefined` in the source. The model only has complete string fields.
- **Search.ReduceFlights: multiplicity of results.** It proves that every
  trip is recorded and that only trips are recorded. It does not state how
  many times a trip appears in the result. The source can record the same
  trip more than once. For example, routes `i` and `i + 24` with the same
  origin, destination and carrier, drawn the same duration, give two equal
  flights, and line 89 then pushes the same extension twice. Nor does it
  fix the order of two results with the same number of legs: the source
  records them in the search's breadth-first discovery order, which the
  contract does not spell out, so the ranking's order among results of
  equal elapsed time and equal leg count is not stated either.
- **Schedule.MapFlights: contract scope.** Its own contract bounds only the
  output length. What the output holds is stated by
  `Schedule.MapFlightsOrder` and `Schedule.InstanceProperties`.
