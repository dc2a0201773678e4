/** Ranking of the collected results and the choice of what is published:
    the sort of step 7 of `main`, the top-10 filter, and the positions the
    configuration snippets take their endpoints from. */
module Ranking {
  import opened Wrappers
  import opened Seqs
  import opened Probe

  /** A latency as the sort key sees it: -1 means unreachable and sorts
      after every measured latency (`float('inf')`). */
  datatype Latency = Finite(ms: real) | Infinite

  /** The value the source uses for "no latency". */
  const Unreachable: real := -1.0

  function LatencyKey(r: ScanResult): Latency {
    if r.avgLatencyMs != Unreachable then Finite(r.avgLatencyMs) else Infinite
  }

  predicate LatencyLt(a: Latency, b: Latency) {
    a.Finite? && (b.Infinite? || a.ms < b.ms)
  }

  /** Python's `<` on the key tuples `(latency, loss)`. */
  predicate KeyLt(a: ScanResult, b: ScanResult) {
    LatencyLt(LatencyKey(a), LatencyKey(b))
    || (LatencyKey(a) == LatencyKey(b) && a.lossPercent < b.lossPercent)
  }

  /** Equal keys: neither sorts before the other. */
  predicate SameKey(a: ScanResult, b: ScanResult) {
    !KeyLt(a, b) && !KeyLt(b, a)
  }

  predicate KeyLe(a: ScanResult, b: ScanResult) {
    !KeyLt(b, a)
  }

  predicate Sorted(s: seq<ScanResult>) {
    forall i, j :: 0 <= i < j < |s| ==> KeyLe(s[i], s[j])
  }

  /** The key order is a strict weak order: irreflexive, transitive, and
      "same key" is transitive, so sorting by it is well defined. */
  lemma KeyOrder(a: ScanResult, b: ScanResult, c: ScanResult)
    ensures !KeyLt(a, a)
    ensures KeyLt(a, b) && KeyLt(b, c) ==> KeyLt(a, c)
    ensures KeyLe(a, b) || KeyLe(b, a)
    ensures KeyLe(a, b) && KeyLe(b, c) ==> KeyLe(a, c)
    ensures SameKey(a, b) && SameKey(b, c) ==> SameKey(a, c)
  {
  }

  /** Inserts `x` after the leading elements whose key is not greater, so
      that in a sorted list `x` follows the elements it ties with. */
  function Insert(x: ScanResult, s: seq<ScanResult>): (r: seq<ScanResult>)
    ensures |r| == |s| + 1
    ensures multiset(r) == multiset(s) + multiset{x}
  {
    if |s| == 0 then [x]
    else if KeyLt(x, s[0]) then [x] + s
    else
      assert s == [s[0]] + s[1..];
      [s[0]] + Insert(x, s[1..])
  }

  /** Inserting into a sorted list keeps it sorted. */
  lemma {:induction false} InsertSorted(x: ScanResult, s: seq<ScanResult>)
    requires Sorted(s)
    ensures Sorted(Insert(x, s))
  {
    if |s| == 0 {
    } else if KeyLt(x, s[0]) {
      forall i | 0 <= i < |s| ensures KeyLe(x, s[i]) {
        KeyOrder(x, s[0], s[i]);
      }
      PrependSorted(x, s);
    } else {
      var rest := Insert(x, s[1..]);
      SortedTail(s);
      InsertSorted(x, s[1..]);
      forall i | 0 <= i < |rest| ensures KeyLe(s[0], rest[i]) {
        var y := rest[i];
        assert y in multiset(rest);
        if y != x {
          assert y in multiset(s[1..]);
          var k :| 0 <= k < |s[1..]| && s[1..][k] == y;
          assert s[k + 1] == y;
        }
      }
      PrependSorted(s[0], rest);
    }
  }

  /** An element not above any element of a sorted list can go in front. */
  lemma PrependSorted(x: ScanResult, s: seq<ScanResult>)
    requires Sorted(s)
    requires forall i :: 0 <= i < |s| ==> KeyLe(x, s[i])
    ensures Sorted([x] + s)
  {
    var r := [x] + s;
    forall i, j | 0 <= i < j < |r| ensures KeyLe(r[i], r[j]) {
      assert r[j] == s[j - 1];
      if i > 0 {
        assert r[i] == s[i - 1];
      }
    }
  }

  lemma SortedTail(s: seq<ScanResult>)
    requires Sorted(s) && |s| > 0
    ensures Sorted(s[1..])
  {
    forall i, j | 0 <= i < j < |s[1..]| ensures KeyLe(s[1..][i], s[1..][j]) {
      assert s[1..][i] == s[i + 1] && s[1..][j] == s[j + 1];
    }
  }

  /** Dropping the last element of a sorted list keeps it sorted, and the
      dropped element is not below any remaining one. */
  lemma SortedInit(s: seq<ScanResult>, init: seq<ScanResult>)
    requires Sorted(s) && |s| > 0 && init == s[..|s| - 1]
    ensures Sorted(init)
    ensures forall i :: 0 <= i < |init| ==> KeyLe(init[i], s[|s| - 1])
  {
    forall i, j | 0 <= i < j < |init| ensures KeyLe(init[i], init[j]) {
      assert init[i] == s[i] && init[j] == s[j];
    }
    forall i | 0 <= i < |init| ensures KeyLe(init[i], s[|s| - 1]) {
      assert init[i] == s[i];
    }
  }

  /** `ipv4_results.sort(key=...)`: a stable sort by the key, as an
      insertion sort taking the elements in their original order. */
  function Sort(s: seq<ScanResult>): (r: seq<ScanResult>)
    ensures multiset(r) == multiset(s)
    ensures |r| == |s|
  {
    if |s| == 0 then []
    else
      var init := s[..|s| - 1];
      var last := s[|s| - 1];
      assert s == init + [last];
      Insert(last, Sort(init))
  }

  /** The sort orders its result by the key. */
  lemma {:induction false} SortOrders(s: seq<ScanResult>)
    ensures Sorted(Sort(s))
  {
    if |s| > 0 {
      SortOrders(s[..|s| - 1]);
      InsertSorted(s[|s| - 1], Sort(s[..|s| - 1]));
    }
  }

  /** The elements tying with `x`, in order. */
  function Ties(s: seq<ScanResult>, x: ScanResult): seq<ScanResult> {
    if |s| == 0 then []
    else Own(s[0], x) + Ties(s[1..], x)
  }

  /** What `h` contributes to the tie class of `x`: itself or nothing. */
  function Own(h: ScanResult, x: ScanResult): seq<ScanResult> {
    if SameKey(h, x) then [h] else []
  }

  /** Inserting `y` appends it to its own tie class and leaves every other
      class unchanged. */
  lemma {:induction false} InsertTies(y: ScanResult, s: seq<ScanResult>, x: ScanResult)
    requires Sorted(s)
    ensures Ties(Insert(y, s), x) == Ties(s, x) + Own(y, x)
  {
    if |s| == 0 {
      TiesCons(y, [], x);
    } else if KeyLt(y, s[0]) {
      InsertTiesFront(y, s, x);
    } else {
      SortedTail(s);
      InsertTies(y, s[1..], x);
      InsertTiesBehind(y, s, x);
    }
  }

  /** `y` goes in front of a sorted list whose head is above it; nothing in
      the list ties with `y`. */
  lemma InsertTiesFront(y: ScanResult, s: seq<ScanResult>, x: ScanResult)
    requires Sorted(s) && |s| > 0 && KeyLt(y, s[0])
    ensures Ties(Insert(y, s), x) == Ties(s, x) + Own(y, x)
  {
    assert Insert(y, s) == [y] + s;
    TiesCons(y, s, x);
    if SameKey(y, x) {
      // Every element of s is strictly above y, hence above x.
      forall i | 0 <= i < |s| ensures !SameKey(s[i], x) {
        KeyOrder(y, s[0], s[i]);
        KeyOrder(s[i], y, x);
      }
      NoTies(s, x);
    }
  }

  /** `y` goes behind the head of the list: the head's contribution to the
      tie class is unchanged, and the rest follows from the tail. */
  lemma InsertTiesBehind(y: ScanResult, s: seq<ScanResult>, x: ScanResult)
    requires |s| > 0 && !KeyLt(y, s[0])
    requires Ties(Insert(y, s[1..]), x) == Ties(s[1..], x) + Own(y, x)
    ensures Ties(Insert(y, s), x) == Ties(s, x) + Own(y, x)
  {
    InsertBehind(y, s);
    ConsTies(s[0], Insert(y, s[1..]), s[1..], y, x);
    assert [s[0]] + s[1..] == s;
  }

  /** Putting the same head in front of two lists keeps the relation
      between their tie classes. */
  lemma ConsTies(h: ScanResult, t: seq<ScanResult>, u: seq<ScanResult>, y: ScanResult, x: ScanResult)
    requires Ties(t, x) == Ties(u, x) + Own(y, x)
    ensures Ties([h] + t, x) == Ties([h] + u, x) + Own(y, x)
  {
    TiesCons(h, t, x);
    TiesCons(h, u, x);
    assert Own(h, x) + (Ties(u, x) + Own(y, x)) == (Own(h, x) + Ties(u, x)) + Own(y, x);
  }

  /** One unfolding of Insert past the head. */
  lemma InsertBehind(y: ScanResult, s: seq<ScanResult>)
    requires |s| > 0 && !KeyLt(y, s[0])
    ensures Insert(y, s) == [s[0]] + Insert(y, s[1..])
  {
  }

  /** The tie class of a list with a given head. */
  lemma TiesCons(h: ScanResult, t: seq<ScanResult>, x: ScanResult)
    ensures Ties([h] + t, x) == Own(h, x) + Ties(t, x)
  {
    assert ([h] + t)[1..] == t;
  }

  lemma {:induction false} NoTies(s: seq<ScanResult>, x: ScanResult)
    requires forall i :: 0 <= i < |s| ==> !SameKey(s[i], x)
    ensures Ties(s, x) == []
  {
    if |s| > 0 {
      NoTies(s[1..], x);
    }
  }

  /** The sort is stable: results with equal keys keep their relative
      order. */
  lemma {:induction false} SortStable(s: seq<ScanResult>, x: ScanResult)
    ensures Ties(Sort(s), x) == Ties(s, x)
  {
    if |s| > 0 {
      var init := s[..|s| - 1];
      var last := s[|s| - 1];
      calc {
        Ties(Sort(s), x);
        == { SortLast(s); }
        Ties(Insert(last, Sort(init)), x);
        == { SortStable(init, x); StableStep(init, last, x); }
        Ties(init + [last], x);
        == { assert s == init + [last]; }
        Ties(s, x);
      }
    }
  }

  /** The last element is inserted into the sorted rest. */
  lemma SortLast(s: seq<ScanResult>)
    requires |s| > 0
    ensures Sort(s) == Insert(s[|s| - 1], Sort(s[..|s| - 1]))
  {
  }

  /** One step of the insertion sort keeps every tie class in input order. */
  lemma StableStep(init: seq<ScanResult>, last: ScanResult, x: ScanResult)
    requires Ties(Sort(init), x) == Ties(init, x)
    ensures Ties(Insert(last, Sort(init)), x) == Ties(init + [last], x)
  {
    SortOrders(init);
    InsertTies(last, Sort(init), x);
    TiesAppend(init, last, x);
  }

  lemma {:induction false} TiesAppend(s: seq<ScanResult>, y: ScanResult, x: ScanResult)
    ensures Ties(s + [y], x) == Ties(s, x) + Own(y, x)
  {
    if |s| > 0 {
      assert (s + [y])[1..] == s[1..] + [y];
      TiesAppend(s[1..], y, x);
    } else {
      assert s + [y] == [y];
    }
  }

  /** Sorting a sorted list changes nothing. */
  lemma {:induction false} SortSorted(s: seq<ScanResult>)
    requires Sorted(s)
    ensures Sort(s) == s
  {
    if |s| > 0 {
      var init := s[..|s| - 1];
      var last := s[|s| - 1];
      SortedInit(s, init);
      calc {
        Sort(s);
        == { SortLast(s); }
        Insert(last, Sort(init));
        == { SortSorted(init); }
        Insert(last, init);
        == { InsertLast(last, init); }
        init + [last];
        == { assert s == init + [last]; }
        s;
      }
    }
  }

  /** An element not below any element of a sorted list goes at its end. */
  lemma {:induction false} InsertLast(x: ScanResult, s: seq<ScanResult>)
    requires forall i :: 0 <= i < |s| ==> KeyLe(s[i], x)
    ensures Insert(x, s) == s + [x]
  {
    if |s| > 0 {
      assert !KeyLt(x, s[0]);
      InsertLast(x, s[1..]);
      assert s == [s[0]] + s[1..];
    }
  }

  // ---------------------------------------------------------------------
  // What is published
  // ---------------------------------------------------------------------

  /** `num_to_output`: how many endpoints the table lists at most. */
  const TopCount: nat := 10

  predicate Reachable(r: ScanResult) {
    r.avgLatencyMs != Unreachable
  }

  /** `[r for r in ipv4_results if r[1] != -1][:10]` */
  function Published(ranked: seq<ScanResult>): (p: seq<ScanResult>)
    ensures |p| <= TopCount
    ensures forall i :: 0 <= i < |p| ==> Reachable(p[i])
    ensures |p| == TopCount || |p| == |Filter(ranked, Reachable)|
    ensures |p| <= |Filter(ranked, Reachable)|
    ensures p == Filter(ranked, Reachable)[..|p|]
  {
    var reachable := Filter(ranked, Reachable);
    reachable[..if |reachable| < TopCount then |reachable| else TopCount]
  }

  /** From a ranked list, the published entries are its first reachable
      ones, still in rank order, and no reachable entry left out ranks
      before a published one. */
  lemma PublishedIsTop(ranked: seq<ScanResult>)
    requires Sorted(ranked)
    ensures var p := Published(ranked);
      var reachable := Filter(ranked, Reachable);
      && Sorted(p)
      && p == reachable[..|p|]
      && (forall i, j :: 0 <= i < |p| <= j < |reachable| ==> KeyLe(p[i], reachable[j]))
  {
    var reachable := Filter(ranked, Reachable);
    FilterIsSubsequence(ranked, Reachable);
    SubsequenceKeepsOrder(reachable, ranked, KeyLe);
  }

  /** Every published endpoint is one of the collected results. */
  lemma PublishedFromResults(results: seq<ScanResult>)
    ensures forall x :: x in Published(Sort(results)) ==> x in results
  {
    var ranked := Sort(results);
    var reachable := Filter(ranked, Reachable);
    forall x | x in Published(ranked) ensures x in results {
      assert x in reachable;
      assert x in multiset(ranked);
    }
  }

  /** At most ten reachable results are all published, in their order. */
  lemma PublishedWhole(ranked: seq<ScanResult>)
    requires |ranked| <= TopCount
    requires forall i :: 0 <= i < |ranked| ==> Reachable(ranked[i])
    ensures Published(ranked) == ranked
  {
    FilterAll(ranked, Reachable);
  }

  /** Two results with different keys sort into key order, whichever
      completed first. */
  lemma SortPair(x: ScanResult, y: ScanResult)
    requires KeyLt(x, y)
    ensures Sort([y, x]) == [x, y]
    ensures Sort([x, y]) == [x, y]
  {
    SortTwo(y, x);
    SortTwo(x, y);
    InsertOne(x, y);
    InsertOne(y, x);
  }

  /** A two-element list sorts as its last element inserted into the first. */
  lemma SortTwo(a: ScanResult, b: ScanResult)
    ensures Sort([a, b]) == Insert(b, [a])
  {
    var s := [a, b];
    SortLast(s);
    assert s[..1] == [a];
    SortLast([a]);
    assert [a][..0] == [];
  }

  /** Inserting into a one-element list. */
  lemma InsertOne(x: ScanResult, a: ScanResult)
    ensures KeyLt(x, a) ==> Insert(x, [a]) == [x, a]
    ensures !KeyLt(x, a) ==> Insert(x, [a]) == [a, x]
  {
    assert [a][1..] == [];
  }

  /** Ranking the results of the three-candidate probe (A at 60 ms without
      loss, B at 200 ms with two of three tries lost), in either completion
      order, publishes A then B. */
  lemma TwoResultsRanked(a: ScanResult, b: ScanResult)
    requires a == ScanResult("A", 60.0, 0.0)
    requires b == ScanResult("B", 200.0, 200.0 / 3.0)
    ensures Published(Sort([b, a])) == [a, b]
    ensures Published(Sort([a, b])) == [a, b]
  {
    SortPair(a, b);
    PublishedWhole([a, b]);
  }

  /** Every reachable result ranks before every unreachable one. */
  lemma ReachableFirst(ranked: seq<ScanResult>, i: nat, j: nat)
    requires Sorted(ranked) && i < |ranked| && j < |ranked|
    requires Reachable(ranked[j]) && !Reachable(ranked[i])
    ensures j < i
  {
  }

  // ---------------------------------------------------------------------
  // Positions used by the configuration snippets
  // ---------------------------------------------------------------------

  function Min(a: nat, b: nat): nat {
    if a < b then a else b
  }

  /** "Warp on Warp": the first two published endpoints, when there are
      at least two. */
  function WarpOnWarp(n: nat): (r: Option<(nat, nat)>)
    ensures r.Some? <==> n >= 2
    ensures r.Some? ==> r.value.0 < n && r.value.1 < n && r.value.0 != r.value.1
    ensures r.Some? ==> r.value == (0, 1)
  {
    if n >= 2 then Some((0, 1)) else None
  }

  /** "Warp-auto": `range(2, min(6, n))`. */
  function WarpAuto(n: nat): (r: seq<nat>)
    ensures forall k :: 0 <= k < |r| ==> r[k] == 2 + k
    ensures forall k :: 0 <= k < |r| ==> 2 <= r[k] < n
    ensures |r| == if n <= 2 then 0 else Min(6, n) - 2
    ensures NoDup(r)
  {
    var hi := Min(6, n);
    if hi <= 2 then [] else seq(hi - 2, k requires 0 <= k < hi - 2 => 2 + k)
  }

  /** "Warp-plus": positions `min(6, n - 1)` and `min(7, n - 1)`. */
  function WarpPlus(n: nat): (r: Option<(nat, nat)>)
    ensures r.Some? <==> n >= 2
    ensures r.Some? ==> r.value.0 < n && r.value.1 < n && r.value.0 <= r.value.1
  {
    if n >= 2 then Some((Min(6, n - 1), Min(7, n - 1))) else None
  }

  /** With fewer than eight published endpoints both Warp-plus positions
      are the last one, so the snippet chains an endpoint to itself; with
      at least eight they are positions 6 and 7. */
  lemma WarpPlusPositions(n: nat)
    requires n >= 2
    ensures n <= 7 ==> WarpPlus(n) == Some((n - 1, n - 1))
    ensures n >= 8 ==> WarpPlus(n) == Some((6, 7))
  {
  }
}
