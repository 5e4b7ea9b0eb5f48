/** The adjacency index at the start of `reduceFlights`: a map from every
    origin airport to the flights leaving it, in the order they appear in the
    flight list. */
module Adjacency {
  import opened Flights

  /** The flights of `flights` that leave `a`, in their original order. */
  function Outgoing(flights: seq<Flight>, a: string): (r: seq<Flight>)
  {
    if flights == [] then []
    else
      var n := |flights| - 1;
      Outgoing(flights[..n], a) + (if flights[n].src == a then [flights[n]] else [])
  }

  /** The positions in `flights` of the flights leaving `a`, in increasing order. */
  function OutgoingIndices(flights: seq<Flight>, a: string): (r: seq<nat>)
  {
    if flights == [] then []
    else
      var n := |flights| - 1;
      OutgoingIndices(flights[..n], a) + (if flights[n].src == a then [n] else [])
  }

  /** The airports some flight leaves from. */
  function Origins(flights: seq<Flight>): (r: set<string>)
  {
    if flights == [] then {} else Origins(flights[..|flights| - 1]) + {flights[|flights| - 1].src}
  }

  /** `routesFromAirport.get(a) || []`. */
  function Lookup(adj: map<string, seq<Flight>>, a: string): (r: seq<Flight>)
  {
    if a in adj then adj[a] else []
  }

  /** Builds the index the way the `forEach` does: create an empty list the
      first time an origin is seen, then push the flight onto its origin's
      list. The keys are exactly the origins with at least one flight, and
      each list is the filter of the flight list by that origin
      (`OutgoingMembers` and `OutgoingSpec` say what that filter holds). */
  method BuildAdjacency(flights: seq<Flight>) returns (adj: map<string, seq<Flight>>)
    ensures adj.Keys == Origins(flights)
    ensures forall a :: Lookup(adj, a) == Outgoing(flights, a)
  {
    adj := map[];
    for i := 0 to |flights|
      invariant adj.Keys == Origins(flights[..i])
      invariant forall a :: Lookup(adj, a) == Outgoing(flights[..i], a)
    {
      var f := flights[i];
      if f.src !in adj {
        adj := adj[f.src := []];
      }
      adj := adj[f.src := adj[f.src] + [f]];
      assert flights[..i + 1][..i] == flights[..i];
    }
    assert flights[..|flights|] == flights;
  }

  /** An airport is an origin exactly when some flight leaves it, that is,
      when its list is not empty. */
  lemma {:induction false} OriginsSpec(flights: seq<Flight>, a: string)
    ensures a in Origins(flights) <==> (exists f :: f in flights && f.src == a)
    ensures a in Origins(flights) <==> Outgoing(flights, a) != []
  {
    if flights != [] {
      var n := |flights| - 1;
      OriginsSpec(flights[..n], a);
      assert flights == flights[..n] + [flights[n]];
      assert forall f :: f in flights <==> f in flights[..n] || f == flights[n];
    }
  }

  /** The list of `a` holds exactly the flights whose origin is `a`: entry `j`
      is the flight at position `OutgoingIndices[j]`, those positions
      increase, and a position is listed iff its flight leaves `a`. Nothing is
      dropped, duplicated or reordered. */
  lemma {:induction false} OutgoingSpec(flights: seq<Flight>, a: string)
    ensures var out := Outgoing(flights, a);
            var idx := OutgoingIndices(flights, a);
            && |out| == |idx|
            && (forall j :: 0 <= j < |idx| ==> idx[j] < |flights| && out[j] == flights[idx[j]])
            && (forall i, j :: 0 <= i < j < |idx| ==> idx[i] < idx[j])
            && (forall i :: 0 <= i < |flights| ==> (i in idx <==> flights[i].src == a))
  {
    if flights != [] {
      OutgoingSpec(flights[..|flights| - 1], a);
    }
  }

  /** A flight is in the list of `a` exactly when it is one of the flights and
      it leaves `a`; the list is never longer than the flight list. */
  lemma {:induction false} OutgoingMembers(flights: seq<Flight>, a: string)
    ensures forall f :: f in Outgoing(flights, a) <==> f in flights && f.src == a
    ensures |Outgoing(flights, a)| <= |flights|
  {
    if flights != [] {
      var n := |flights| - 1;
      OutgoingMembers(flights[..n], a);
      assert flights == flights[..n] + [flights[n]];
    }
  }
}
