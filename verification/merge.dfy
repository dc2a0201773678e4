/** The merge at the start of `main`: the remote and manual lists combined,
    duplicates dropped, and the result shuffled. */
module Merge {
  import opened Wrappers
  import opened Seqs
  import opened Endpoints
  import opened ManualList


  /** `list(set(xs))`: one copy of each distinct element. Python's set
      iteration order is unspecified; this keeps first occurrences. */
  function Dedup<T(==,!new)>(xs: seq<T>): (r: seq<T>)
    ensures NoDup(r)
    ensures |r| == 0 <==> |xs| == 0
    ensures forall x :: x in r <==> x in xs
  {
    if |xs| == 0 then []
    else
      var init := xs[..|xs| - 1];
      var last := xs[|xs| - 1];
      var r := Dedup(init);
      assert xs == init + [last];
      if last in r then r else r + [last]
  }

  /** random.shuffle as Fisher-Yates from the top index down; `pick(i)`
      stands for the generator's `randbelow(i + 1)` draw, reduced into range. */
  function ShuffleDown<T(==)>(xs: seq<T>, i: nat, pick: nat -> nat): (r: seq<T>)
    requires i < |xs|
    ensures multiset(r) == multiset(xs)
    ensures NoDup(xs) ==> NoDup(r)
    decreases i
  {
    if i == 0 then xs
    else
      var j := pick(i) % (i + 1);
      SwapKeepsNoDup(xs, i, j);
      ShuffleDown(Swap(xs, i, j), i - 1, pick)
  }

  function Shuffle<T(==)>(xs: seq<T>, pick: nat -> nat): (r: seq<T>)
    ensures multiset(r) == multiset(xs)
    ensures NoDup(xs) ==> NoDup(r)
  {
    if |xs| <= 1 then xs else ShuffleDown(xs, |xs| - 1, pick)
  }

  /** The merge in `main`: combine both lists, drop duplicates, stop when
      nothing is left ("No endpoints received"), otherwise shuffle. */
  function Candidates(api: seq<string>, manual: seq<string>, pick: nat -> nat): (r: Option<seq<string>>)
    ensures r.None? <==> |api| == 0 && |manual| == 0
    ensures r.Some? ==> NoDup(r.value)
    ensures r.Some? ==> forall e :: e in r.value <==> e in api || e in manual
  {
    var merged := Dedup(api + manual);
    if |merged| == 0 then None
    else
      var shuffled := Shuffle(merged, pick);
      assert forall e :: e in shuffled <==> e in merged by {
        forall e ensures e in shuffled <==> e in merged {
          assert e in shuffled <==> multiset(shuffled)[e] > 0;
          assert e in merged <==> multiset(merged)[e] > 0;
        }
      }
      Some(shuffled)
  }

  /** The whole catalog: validated remote entries plus the manual list. With
      the built-in prefixes and ports every candidate is a well-formed
      `a.b.c.d:port` entry, so malformed remote entries never reach the
      proxy bindings. */
  lemma CatalogOnlyValid(raw: seq<string>, pick: nat -> nat)
    ensures var c := Candidates(ApiEndpoints(raw), ManualEndpoints(Ipv4Prefixes, Ports), pick);
      c.Some? && forall e :: e in c.value ==> ValidEndpoint(e)
  {
    DefaultPrefixesWellFormed();
    DefaultsDistinct();
    ManualEndpointsWellFormed(Ipv4Prefixes, Ports);
    DefaultManualEndpoints(0);
  }
}
