/** Ranking of the found itineraries: `allPaths.sort((a, b) => a.totalTime -
    b.totalTime)`. `Array.prototype.sort` is stable, so the order is fixed:
    ascending elapsed time, ties in the order the itineraries were found.
    `SortByTotal` is a stable insertion sort that produces that order;
    `StableSortUnique` shows that every stable sort produces the same. */
module Ranking {
  import opened Flights

  predicate SortedByTotal(s: seq<Itinerary>)
  {
    forall i, j :: 0 <= i < j < |s| ==> s[i].totalTime <= s[j].totalTime
  }

  /** The itineraries of `s` whose elapsed time is `t`, in their order in `s`. */
  function WithTotal(s: seq<Itinerary>, t: int): (r: seq<Itinerary>)
  {
    if s == [] then [] else (if s[0].totalTime == t then [s[0]] else []) + WithTotal(s[1..], t)
  }

  /** Places `x` in front of the first itinerary that takes at least as long. */
  function Insert(x: Itinerary, s: seq<Itinerary>): (r: seq<Itinerary>)
    ensures |r| == |s| + 1
  {
    if s == [] || x.totalTime <= s[0].totalTime then [x] + s else [s[0]] + Insert(x, s[1..])
  }

  /** `allPaths.sort((a, b) => a.totalTime - b.totalTime)`, as a stable
      insertion sort. */
  function SortByTotal(s: seq<Itinerary>): (r: seq<Itinerary>)
    ensures |r| == |s|
  {
    if s == [] then [] else Insert(s[0], SortByTotal(s[1..]))
  }

  lemma {:induction false} InsertPermutes(x: Itinerary, s: seq<Itinerary>)
    ensures multiset(Insert(x, s)) == multiset(s) + multiset{x}
  {
    if s != [] && x.totalTime > s[0].totalTime {
      InsertPermutes(x, s[1..]);
      assert s == [s[0]] + s[1..];
    }
  }

  lemma {:induction false} InsertSorted(x: Itinerary, s: seq<Itinerary>)
    requires SortedByTotal(s)
    ensures SortedByTotal(Insert(x, s))
  {
    if s != [] && x.totalTime > s[0].totalTime {
      InsertSorted(x, s[1..]);
      InsertPermutes(x, s[1..]);
      forall y | y in Insert(x, s[1..]) ensures s[0].totalTime <= y.totalTime {
        assert y in multiset(Insert(x, s[1..]));
      }
    }
  }

  /** Inserting `x` puts it in front of every itinerary that takes as long. */
  lemma {:induction false} InsertGroups(x: Itinerary, s: seq<Itinerary>, t: int)
    ensures WithTotal(Insert(x, s), t) == (if x.totalTime == t then [x] else []) + WithTotal(s, t)
  {
    if s != [] && x.totalTime > s[0].totalTime {
      InsertGroups(x, s[1..], t);
      var r := Insert(x, s);
      assert r[0] == s[0] && r[1..] == Insert(x, s[1..]);
      var rest := WithTotal(s[1..], t);
      assert WithTotal(r, t) == (if s[0].totalTime == t then [s[0]] else []) + WithTotal(r[1..], t);
      assert WithTotal(s, t) == (if s[0].totalTime == t then [s[0]] else []) + rest;
      if x.totalTime == t {
        assert WithTotal(r, t) == [x] + rest;
      } else {
        assert WithTotal(r[1..], t) == rest;
      }
    }
  }

  /** The ranking is a permutation of the found itineraries. */
  lemma {:induction false} SortPermutes(s: seq<Itinerary>)
    ensures multiset(SortByTotal(s)) == multiset(s)
  {
    if s != [] {
      SortPermutes(s[1..]);
      InsertPermutes(s[0], SortByTotal(s[1..]));
      assert s == [s[0]] + s[1..];
    }
  }

  /** The ranking is sorted by elapsed time. */
  lemma {:induction false} SortSorted(s: seq<Itinerary>)
    ensures SortedByTotal(SortByTotal(s))
  {
    if s != [] {
      SortSorted(s[1..]);
      InsertSorted(s[0], SortByTotal(s[1..]));
    }
  }

  /** The ranking is sorted by elapsed time and is a permutation of the found
      itineraries, so it has as many entries. */
  lemma SortSpec(s: seq<Itinerary>)
    ensures SortedByTotal(SortByTotal(s))
    ensures multiset(SortByTotal(s)) == multiset(s)
    ensures |SortByTotal(s)| == |s|
  {
    SortSorted(s);
    SortPermutes(s);
    assert |SortByTotal(s)| == |multiset(SortByTotal(s))|;
  }

  /** The ranking holds exactly the found itineraries, and its first entry
      takes no longer than any of them. */
  lemma SortMembers(s: seq<Itinerary>)
    ensures forall y :: y in SortByTotal(s) <==> y in s
    ensures forall y :: y in s ==> SortByTotal(s)[0].totalTime <= y.totalTime
  {
    var r := SortByTotal(s);
    SortSpec(s);
    forall y ensures y in r <==> y in s {
      assert y in r <==> y in multiset(r);
    }
    forall y | y in s ensures r[0].totalTime <= y.totalTime {
      var j :| 0 <= j < |r| && r[j] == y;
    }
  }

  /** Stability: for every elapsed time, the itineraries that take that long
      appear in the ranking in the order they were found. */
  lemma {:induction false} SortStable(s: seq<Itinerary>, t: int)
    ensures WithTotal(SortByTotal(s), t) == WithTotal(s, t)
  {
    if s != [] {
      SortStable(s[1..], t);
      InsertGroups(s[0], SortByTotal(s[1..]), t);
    }
  }

  lemma {:induction false} WithTotalMembers(s: seq<Itinerary>, t: int)
    ensures forall x :: x in WithTotal(s, t) <==> x in s && x.totalTime == t
  {
    if s != [] {
      WithTotalMembers(s[1..], t);
      assert s == [s[0]] + s[1..];
    }
  }

  /** Two sorted sequences that agree on every group of equal elapsed times
      start with the same itinerary. */
  lemma SameHead(a: seq<Itinerary>, b: seq<Itinerary>)
    requires a != [] && b != []
    requires SortedByTotal(a) && SortedByTotal(b)
    requires forall t :: WithTotal(a, t) == WithTotal(b, t)
    ensures a[0] == b[0]
  {
    var ka, kb := a[0].totalTime, b[0].totalTime;
    WithTotalMembers(a, kb);
    WithTotalMembers(b, ka);
    assert WithTotal(a, kb) == WithTotal(b, kb);
    assert WithTotal(a, ka) == WithTotal(b, ka);
    assert a[0] in WithTotal(b, ka);
    assert b[0] in WithTotal(a, kb);
    assert ka == kb;
    assert WithTotal(a, ka)[0] == a[0] && WithTotal(b, kb)[0] == b[0];
  }

  /** Removing the same first itinerary from both keeps them in agreement
      on every group. */
  lemma SameTailGroups(a: seq<Itinerary>, b: seq<Itinerary>, t: int)
    requires a != [] && b != [] && a[0] == b[0]
    requires WithTotal(a, t) == WithTotal(b, t)
    ensures WithTotal(a[1..], t) == WithTotal(b[1..], t)
  {
    var wa, wb := WithTotal(a, t), WithTotal(b, t);
    assert wa == (if a[0].totalTime == t then [a[0]] else []) + WithTotal(a[1..], t);
    assert wb == (if b[0].totalTime == t then [b[0]] else []) + WithTotal(b[1..], t);
    if a[0].totalTime == t {
      assert wa[1..] == WithTotal(a[1..], t);
      assert wb[1..] == WithTotal(b[1..], t);
    } else {
      assert wa == WithTotal(a[1..], t);
      assert wb == WithTotal(b[1..], t);
    }
  }

  /** A stable sort by elapsed time has only one possible result: two sorted
      sequences that agree on the order of every group of equal elapsed times
      are equal. So any stable sort, such as the one in the JavaScript
      engine, ranks the itineraries exactly as `SortByTotal` does. */
  lemma {:induction false} StableSortUnique(a: seq<Itinerary>, b: seq<Itinerary>)
    requires SortedByTotal(a) && SortedByTotal(b)
    requires forall t :: WithTotal(a, t) == WithTotal(b, t)
    ensures a == b
  {
    if a == [] || b == [] {
      assert a != [] ==> WithTotal(a, a[0].totalTime) != [];
      assert b != [] ==> WithTotal(b, b[0].totalTime) != [];
    } else {
      SameHead(a, b);
      forall t ensures WithTotal(a[1..], t) == WithTotal(b[1..], t) {
        SameTailGroups(a, b, t);
      }
      StableSortUnique(a[1..], b[1..]);
      assert a == [a[0]] + a[1..] && b == [b[0]] + b[1..];
    }
  }

  /** Ranking is idempotent: re-ranking a ranked list leaves it as it is. */
  lemma SortIdempotent(s: seq<Itinerary>)
    ensures SortByTotal(SortByTotal(s)) == SortByTotal(s)
  {
    var r := SortByTotal(s);
    SortSpec(r);
    SortSpec(s);
    forall t ensures WithTotal(SortByTotal(r), t) == WithTotal(r, t) {
      SortStable(r, t);
    }
    StableSortUnique(SortByTotal(r), r);
  }

  /** `a` ranks before `b` by elapsed time, and among equal elapsed times by
      number of legs. */
  predicate Before(a: Itinerary, b: Itinerary)
  {
    a.totalTime < b.totalTime || (a.totalTime == b.totalTime && |a.details| <= |b.details|)
  }

  predicate SortedByTotalThenLegs(s: seq<Itinerary>)
  {
    forall i, j :: 0 <= i < j < |s| ==> Before(s[i], s[j])
  }

  predicate LegsNondecreasing(s: seq<Itinerary>)
  {
    forall i, j :: 0 <= i < j < |s| ==> |s[i].details| <= |s[j].details|
  }

  lemma {:induction false} InsertThenLegs(x: Itinerary, s: seq<Itinerary>)
    requires SortedByTotalThenLegs(s)
    requires forall y :: y in s ==> |x.details| <= |y.details|
    ensures SortedByTotalThenLegs(Insert(x, s))
  {
    if s != [] && x.totalTime > s[0].totalTime {
      InsertThenLegs(x, s[1..]);
      InsertPermutes(x, s[1..]);
      forall y | y in Insert(x, s[1..]) ensures Before(s[0], y) {
        assert y in multiset(Insert(x, s[1..]));
      }
    }
  }

  /** Found itineraries that arrive in nondecreasing number of legs, as the
      breadth-first search delivers them, are ranked by elapsed time and then,
      among equal elapsed times, by number of legs. */
  lemma {:induction false} SortThenLegs(s: seq<Itinerary>)
    requires LegsNondecreasing(s)
    ensures SortedByTotalThenLegs(SortByTotal(s))
  {
    if s != [] {
      SortThenLegs(s[1..]);
      SortSpec(s[1..]);
      forall y | y in SortByTotal(s[1..]) ensures |s[0].details| <= |y.details| {
        assert y in multiset(s[1..]);
        var j :| 0 <= j < |s[1..]| && s[1..][j] == y;
        assert s[j + 1] == y;
      }
      InsertThenLegs(s[0], SortByTotal(s[1..]));
    }
  }
}
