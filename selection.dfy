/** The views of the ranked result list that the page offers: the default
    view after a search, and the "optimal", "top 5" and "worst 5" buttons.
    Each button does nothing when the list is empty (`None`); otherwise it
    shows a slice of the list, which it leaves as it is. */
module Selection {
  import opened Flights
  import opened Ranking

  /** A relative index resolved as `Array.prototype.slice` resolves it: a
      negative index counts back from the end, and the result is clamped to
      `[0, len]`. */
  function Resolve(k: int, len: nat): (r: nat)
    ensures r <= len
    ensures 0 <= k <= len ==> r == k
    ensures k < 0 && len + k >= 0 ==> r == len + k
  {
    if k < 0 then (if len + k < 0 then 0 else len + k)
    else if k > len then len
    else k
  }

  /** `s.slice(begin, end)`. */
  function Slice<T>(s: seq<T>, begin: int, end: int): (r: seq<T>)
    ensures |r| <= |s|
    ensures forall x :: x in r ==> x in s
  {
    var b, e := Resolve(begin, |s|), Resolve(end, |s|);
    if b < e then s[b..e] else []
  }

  /** `s.reverse()`, on a copy. */
  function Reverse<T>(s: seq<T>): (r: seq<T>)
    ensures |r| == |s|
    ensures multiset(r) == multiset(s)
  {
    if s == [] then []
    else
      assert s == [s[0]] + s[1..];
      Reverse(s[1..]) + [s[0]]
  }

  function Min(a: int, b: int): (m: int)
  {
    if a <= b then a else b
  }

  /** The view shown right after a search: `allFoundRoutes.slice(0, 5)`. */
  function DefaultView(r: seq<Itinerary>): (v: seq<Itinerary>)
    ensures |v| <= 5
    ensures forall x :: x in v ==> x in r
  {
    Slice(r, 0, 5)
  }

  /** The "optimal" button: `[allFoundRoutes[0]]` when there is a result. */
  function Optimal(r: seq<Itinerary>): (v: Option<seq<Itinerary>>)
    ensures v.Some? ==> |v.value| == 1 && v.value[0] in r
  {
    if |r| > 0 then Some([r[0]]) else None
  }

  /** The "top 5" button: `allFoundRoutes.slice(0, 5)` when there is a result. */
  function TopFive(r: seq<Itinerary>): (v: Option<seq<Itinerary>>)
    ensures v.Some? ==> 0 < |v.value| <= 5 && forall x :: x in v.value ==> x in r
  {
    if |r| > 0 then Some(Slice(r, 0, 5)) else None
  }

  /** The "worst 5" button: `allFoundRoutes.slice(-5).reverse()` when there is
      a result. */
  function WorstFive(r: seq<Itinerary>): (v: Option<seq<Itinerary>>)
    ensures v.Some? ==> 0 < |v.value| <= 5 && forall x :: x in v.value ==> x in r
  {
    if |r| > 0 then
      var w := Reverse(Slice(r, -5, |r|));
      assert forall x :: x in w ==> x in multiset(w);
      Some(w)
    else None
  }

  /** Entry `i` of a reversed sequence is entry `|s| - 1 - i` of the original. */
  lemma {:induction false} ReverseAt<T>(s: seq<T>)
    ensures |Reverse(s)| == |s|
    ensures forall i :: 0 <= i < |s| ==> Reverse(s)[i] == s[|s| - 1 - i]
  {
    if s != [] {
      ReverseAt(s[1..]);
    }
  }

  /** Reversing twice gives the sequence back. */
  lemma ReverseReverse<T>(s: seq<T>)
    ensures Reverse(Reverse(s)) == s
  {
    ReverseAt(s);
    ReverseAt(Reverse(s));
  }

  /** A slice from the front is the prefix of that length, cut at the end of
      the list. */
  lemma PrefixSlice<T>(s: seq<T>, k: nat)
    ensures Slice(s, 0, k) == s[..Min(k, |s|)]
    ensures |Slice(s, 0, k)| == Min(k, |s|)
  {
  }

  /** A slice from `-k` to the end holds the last `min(k, |s|)` entries
      (for `k > 0`: `-0` is `0` and keeps everything). */
  lemma SuffixSlice<T>(s: seq<T>, k: nat)
    requires k > 0
    ensures Slice(s, -(k as int), |s|) == s[|s| - Min(k, |s|)..]
  {
  }

  /** The default view is the first `min(5, n)` results; it is empty exactly
      when there are no results, and it is what "top 5" shows when there are. */
  lemma DefaultViewSpec(r: seq<Itinerary>)
    ensures DefaultView(r) == r[..Min(5, |r|)]
    ensures DefaultView(r) == [] <==> r == []
    ensures r != [] ==> TopFive(r) == Some(DefaultView(r))
  {
    PrefixSlice(r, 5);
  }

  /** "Optimal" shows exactly the first result, and only when there is one;
      on a ranked list no result takes less time than it. */
  lemma OptimalSpec(r: seq<Itinerary>)
    ensures Optimal(r).Some? <==> |r| > 0
    ensures Optimal(r).Some? ==> |Optimal(r).value| == 1 && Optimal(r).value[0] == r[0]
    ensures Optimal(r).Some? && SortedByTotal(r) ==>
              forall y :: y in r ==> Optimal(r).value[0].totalTime <= y.totalTime
  {
  }

  /** "Top 5" shows the first `min(5, n)` results, and only when there is one;
      on a ranked list none of the results left out takes less time than one
      shown. */
  lemma TopFiveSpec(r: seq<Itinerary>)
    ensures TopFive(r).Some? <==> |r| > 0
    ensures TopFive(r).Some? ==> TopFive(r).value == r[..Min(5, |r|)]
    ensures TopFive(r).Some? && SortedByTotal(r) ==>
              forall i, j :: 0 <= i < |TopFive(r).value| <= j < |r| ==> TopFive(r).value[i].totalTime <= r[j].totalTime
  {
    PrefixSlice(r, 5);
  }

  /** "Worst 5" shows the last `min(5, n)` results, the last one first, and
      only when there is one. On a ranked list it shows them slowest first,
      and none of the results left out takes longer than one shown. */
  lemma WorstFiveSpec(r: seq<Itinerary>)
    ensures WorstFive(r).Some? <==> |r| > 0
    ensures WorstFive(r).Some? ==> |WorstFive(r).value| == Min(5, |r|)
    ensures WorstFive(r).Some? ==> forall i :: 0 <= i < |WorstFive(r).value| ==> WorstFive(r).value[i] == r[|r| - 1 - i]
    ensures WorstFive(r).Some? && SortedByTotal(r) ==>
              forall i, j :: 0 <= i < j < |WorstFive(r).value| ==> WorstFive(r).value[i].totalTime >= WorstFive(r).value[j].totalTime
    ensures WorstFive(r).Some? && SortedByTotal(r) ==>
              forall i, j :: 0 <= i < |WorstFive(r).value| && 0 <= j < |r| - |WorstFive(r).value| ==> r[j].totalTime <= WorstFive(r).value[i].totalTime
  {
    if |r| > 0 {
      SuffixSlice(r, 5);
      var tail := Slice(r, -5, |r|);
      ReverseAt(tail);
      var w := Reverse(tail);
      forall i | 0 <= i < |w| ensures w[i] == r[|r| - 1 - i] {
        assert w[i] == tail[|tail| - 1 - i];
      }
    }
  }
}
