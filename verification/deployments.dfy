/** The all-deployments statistics endpoint: per-deployment statistics are
    computed concurrently, the runs that raised an `Exception` are dropped,
    the rest are labelled `"<protocol>-<chain>"` and their statistics are
    added up. */
module Deployments {
  import opened Wrappers
  import opened Filtering

  /** The three figures an `AggregateStats` run reports. */
  datatype Stats = Stats(totalValueLockedUSD: real, pairCount: int, totalFeesClaimedUSD: real)

  /** One entry of the gathered results (`return_exceptions=True`): the run
      raised an `Exception`; it was cancelled, which comes back as
      `asyncio.CancelledError`, a `BaseException` that is not an
      `Exception`; or it returned its statistics. */
  datatype Attempt = Raised | Cancelled | Returned(stats: Stats)

  /** An entry of `DEPLOYMENTS`: a protocol (dex) name and a chain name.
      Both are `str, Enum` members in the source; these strings stand for
      the members as the label's f-string formats them, which is their value
      (`uniswap`, `mainnet`) before Python 3.11 and the qualified member name
      (`Protocol.UNISWAP`) from Python 3.11 on. */
  datatype Deployment = Deployment(protocol: string, chain: string)

  /** `AggregateStatsDeploymentInfoOutput`. */
  datatype Output = Output(totalValueLockedUSD: real, pairCount: int, totalFeesClaimedUSD: real,
                           deployments: seq<string>)

  /** `f"{protocol}-{chain}"`: the label splits back into the protocol, a
      dash and the chain. */
  function Label(d: Deployment): (l: string)
    ensures |l| == |d.protocol| + 1 + |d.chain|
    ensures l[..|d.protocol|] == d.protocol
    ensures l[|d.protocol|] == '-'
    ensures l[|d.protocol| + 1..] == d.chain
  {
    d.protocol + "-" + d.chain
  }

  /** Each deployment paired with the result gathered for it. */
  function Zip(deployments: seq<Deployment>, results: seq<Attempt>): (z: seq<(Deployment, Attempt)>)
    requires |results| == |deployments|
    ensures |z| == |deployments|
    ensures forall i :: 0 <= i < |z| ==> z[i] == (deployments[i], results[i])
  {
    seq(|deployments|, i requires 0 <= i < |deployments| => (deployments[i], results[i]))
  }

  /** `not isinstance(result, Exception)`. */
  function NotException(): ((Deployment, Attempt)) -> bool {
    (p: (Deployment, Attempt)) => !p.1.Raised?
  }

  /** The deployments whose result is not an `Exception`, in `DEPLOYMENTS`
      order. */
  function Survivors(deployments: seq<Deployment>, results: seq<Attempt>): (s: seq<(Deployment, Attempt)>)
    requires |results| == |deployments|
    ensures forall p :: p in s ==> !p.1.Raised?
  {
    Filter(NotException(), Zip(deployments, results))
  }

  /** `valid_results`. */
  function ValidResults(survivors: seq<(Deployment, Attempt)>): (v: seq<Attempt>)
    ensures |v| == |survivors|
    ensures forall j :: 0 <= j < |v| ==> v[j] == survivors[j].1
  {
    Map((p: (Deployment, Attempt)) => p.1, survivors)
  }

  /** `included_deployments`. */
  function IncludedLabels(survivors: seq<(Deployment, Attempt)>): (l: seq<string>)
    ensures |l| == |survivors|
    ensures forall j :: 0 <= j < |l| ==> l[j] == Label(survivors[j].0)
  {
    Map((p: (Deployment, Attempt)) => Label(p.0), survivors)
  }

  predicate AllReturned(valid: seq<Attempt>) {
    forall j :: 0 <= j < |valid| ==> valid[j].Returned?
  }

  /** The statistics of results that all returned. */
  function StatsOf(valid: seq<Attempt>): (s: seq<Stats>)
    requires AllReturned(valid)
    ensures |s| == |valid|
    ensures forall j :: 0 <= j < |s| ==> valid[j] == Returned(s[j])
  {
    seq(|valid|, j requires 0 <= j < |valid| => valid[j].stats)
  }

  /** Python's `sum(rest, seed)`: the left fold of `add` over `rest`,
      starting from `seed`. */
  function Sum(add: (Stats, Stats) -> Stats, seed: Stats, rest: seq<Stats>): (r: Stats)
    ensures rest == [] ==> r == seed
    ensures |rest| == 1 ==> r == add(seed, rest[0])
    decreases |rest|
  {
    if rest == [] then seed else add(Sum(add, seed, rest[..|rest| - 1]), rest[|rest| - 1])
  }

  /** Summing a concatenation is summing the second part starting from the
      sum of the first: `sum(a + b, s) == sum(b, sum(a, s))`. */
  lemma {:induction false} SumConcat(add: (Stats, Stats) -> Stats, seed: Stats, a: seq<Stats>, b: seq<Stats>)
    ensures Sum(add, seed, a + b) == Sum(add, Sum(add, seed, a), b)
    decreases |b|
  {
    if b == [] {
      assert a + b == a;
    } else {
      var init := b[..|b| - 1];
      assert (a + b)[..|a + b| - 1] == a + init;
      assert (a + b)[|a + b| - 1] == b[|b| - 1];
      SumConcat(add, seed, a, init);
    }
  }

  /** `aggregate_stats` after the gather: drops the results that are an
      `Exception`, labels the rest and folds their statistics with `add`
      (the statistics object's `+`), seeded with the first. With nothing
      kept, `valid_results[0]` raises `IndexError`; a kept cancellation
      result cannot be added or read as statistics. */
  method AggregateDeployments(deployments: seq<Deployment>, results: seq<Attempt>,
                              add: (Stats, Stats) -> Stats)
    returns (r: Result<Output>)
    requires |results| == |deployments|
    ensures r == Err(IndexError) <==> forall i :: 0 <= i < |results| ==> results[i].Raised?
    ensures r == Err(TypeError) <==> exists i :: 0 <= i < |results| && results[i].Cancelled?
    ensures r.Err? ==> r.error == IndexError || r.error == TypeError
    ensures r.Ok? ==>
      var valid := ValidResults(Survivors(deployments, results));
      && |valid| > 0
      && AllReturned(valid)
      && r.value.deployments == IncludedLabels(Survivors(deployments, results))
      && var stats := StatsOf(valid);
      && var total := Sum(add, stats[0], stats[1..]);
      && r.value.totalValueLockedUSD == total.totalValueLockedUSD
      && r.value.pairCount == total.pairCount
      && r.value.totalFeesClaimedUSD == total.totalFeesClaimedUSD
  {
    var pairs := Zip(deployments, results);
    var valid: seq<Attempt> := [];
    var included: seq<string> := [];
    var index := 0;
    while index < |results|
      invariant 0 <= index <= |results|
      invariant valid == ValidResults(Filter(NotException(), pairs[..index]))
      invariant included == IncludedLabels(Filter(NotException(), pairs[..index]))
    {
      SurvivorsStep(pairs, index);
      if !results[index].Raised? {
        valid := valid + [results[index]];
        included := included + [Label(deployments[index])];
      }
      index := index + 1;
    }
    assert pairs[..index] == pairs;
    NoSurvivorsIffAllRaised(deployments, results);
    CancelledSurvives(deployments, results);
    if |valid| == 0 {
      return Err(IndexError);
    }
    if exists j :: 0 <= j < |valid| && valid[j].Cancelled? {
      return Err(TypeError);
    }
    var stats := StatsOf(valid);
    var total := Sum(add, stats[0], stats[1..]);
    r := Ok(Output(total.totalValueLockedUSD, total.pairCount, total.totalFeesClaimedUSD, included));
  }

  /** Scanning one more gathered result extends `valid_results` and
      `included_deployments` by that deployment exactly when its result is
      not an `Exception`. */
  lemma SurvivorsStep(pairs: seq<(Deployment, Attempt)>, index: int)
    requires 0 <= index < |pairs|
    ensures var before := Filter(NotException(), pairs[..index]);
      var after := Filter(NotException(), pairs[..index + 1]);
      var p := pairs[index];
      && ValidResults(after)
         == ValidResults(before) + (if !p.1.Raised? then [p.1] else [])
      && IncludedLabels(after)
         == IncludedLabels(before) + (if !p.1.Raised? then [Label(p.0)] else [])
  {
    var before := Filter(NotException(), pairs[..index]);
    assert pairs[..index + 1] == pairs[..index] + [pairs[index]];
    FilterSnoc(NotException(), pairs[..index], pairs[index]);
    if !pairs[index].1.Raised? {
      assert Filter(NotException(), pairs[..index + 1]) == before + [pairs[index]];
    }
  }

  /** The included labels and the valid results line up: the j-th of each
      comes from the same deployment, whose result is not an `Exception`,
      the positions ascend, and every such deployment is among them. */
  lemma SurvivorsCharacterisation(deployments: seq<Deployment>, results: seq<Attempt>)
    requires |results| == |deployments|
    ensures var ix := KeptIndices(NotException(), Zip(deployments, results));
      var survivors := Survivors(deployments, results);
      var valid := ValidResults(survivors);
      var labels := IncludedLabels(survivors);
      && |valid| == |labels| == |ix|
      && StrictlyIncreasing(ix)
      && (forall j :: 0 <= j < |ix| ==>
            0 <= ix[j] < |results|
            && !results[ix[j]].Raised?
            && results[ix[j]] == valid[j]
            && labels[j] == Label(deployments[ix[j]]))
      && (forall i :: 0 <= i < |results| && !results[i].Raised? ==> i in ix)
  {
    FilterByIndices(NotException(), Zip(deployments, results));
  }

  /** Nothing is kept exactly when every run raised. */
  lemma NoSurvivorsIffAllRaised(deployments: seq<Deployment>, results: seq<Attempt>)
    requires |results| == |deployments|
    ensures |Survivors(deployments, results)| == 0 <==> forall i :: 0 <= i < |results| ==> results[i].Raised?
  {
    var pairs := Zip(deployments, results);
    FilterEmpty(NotException(), pairs);
    assert forall i :: 0 <= i < |results| ==> (NotException()(pairs[i]) <==> !results[i].Raised?);
  }

  /** A cancelled run is always kept. */
  lemma CancelledSurvives(deployments: seq<Deployment>, results: seq<Attempt>)
    requires |results| == |deployments|
    ensures var valid := ValidResults(Survivors(deployments, results));
      (exists j :: 0 <= j < |valid| && valid[j].Cancelled?)
        <==> exists i :: 0 <= i < |results| && results[i].Cancelled?
  {
    var pairs := Zip(deployments, results);
    var survivors := Survivors(deployments, results);
    var valid := ValidResults(survivors);
    if exists i :: 0 <= i < |results| && results[i].Cancelled? {
      var i :| 0 <= i < |results| && results[i].Cancelled?;
      FilterKeepsMember(NotException(), pairs, pairs[i]);
      var j :| 0 <= j < |survivors| && survivors[j] == pairs[i];
      assert valid[j].Cancelled?;
    }
    if exists j :: 0 <= j < |valid| && valid[j].Cancelled? {
      var j :| 0 <= j < |valid| && valid[j].Cancelled?;
      assert survivors[j] in pairs;
      var i :| 0 <= i < |pairs| && pairs[i] == survivors[j];
      assert results[i].Cancelled?;
    }
  }

  // ---------------------------------------------------------------------
  // The fold under field-wise addition.

  /** Field-wise addition of the three figures. */
  function Plus(a: Stats, b: Stats): Stats {
    Stats(a.totalValueLockedUSD + b.totalValueLockedUSD, a.pairCount + b.pairCount,
          a.totalFeesClaimedUSD + b.totalFeesClaimedUSD)
  }

  function TotalPairs(s: seq<Stats>): int
    decreases |s|
  {
    if s == [] then 0 else TotalPairs(s[..|s| - 1]) + s[|s| - 1].pairCount
  }

  function TotalValueLocked(s: seq<Stats>): real
    decreases |s|
  {
    if s == [] then 0.0 else TotalValueLocked(s[..|s| - 1]) + s[|s| - 1].totalValueLockedUSD
  }

  function TotalFeesClaimed(s: seq<Stats>): real
    decreases |s|
  {
    if s == [] then 0.0 else TotalFeesClaimed(s[..|s| - 1]) + s[|s| - 1].totalFeesClaimedUSD
  }

  /** Folding with field-wise addition from `seed` adds every figure of
      `rest` to the seed's. */
  lemma {:induction false} SumOfPlus(seed: Stats, rest: seq<Stats>)
    ensures var total := Sum(Plus, seed, rest);
      && total.pairCount == seed.pairCount + TotalPairs(rest)
      && total.totalValueLockedUSD == seed.totalValueLockedUSD + TotalValueLocked(rest)
      && total.totalFeesClaimedUSD == seed.totalFeesClaimedUSD + TotalFeesClaimed(rest)
    decreases |rest|
  {
    if rest != [] {
      SumOfPlus(seed, rest[..|rest| - 1]);
    }
  }

  lemma TotalsOfPrepend(x: Stats, s: seq<Stats>)
    ensures TotalPairs([x] + s) == x.pairCount + TotalPairs(s)
    ensures TotalValueLocked([x] + s) == x.totalValueLockedUSD + TotalValueLocked(s)
    ensures TotalFeesClaimed([x] + s) == x.totalFeesClaimedUSD + TotalFeesClaimed(s)
    decreases |s|
  {
    if s != [] {
      assert ([x] + s)[..|[x] + s| - 1] == [x] + s[..|s| - 1];
      TotalsOfPrepend(x, s[..|s| - 1]);
    }
  }

  /** When the statistics add field-wise, the endpoint reports the totals
      of the kept deployments' figures. */
  lemma AggregateOfPlus(deployments: seq<Deployment>, results: seq<Attempt>)
    requires |results| == |deployments|
    ensures var valid := ValidResults(Survivors(deployments, results));
      |valid| > 0 && AllReturned(valid) ==>
        var stats := StatsOf(valid);
        var total := Sum(Plus, stats[0], stats[1..]);
        && total.pairCount == TotalPairs(stats)
        && total.totalValueLockedUSD == TotalValueLocked(stats)
        && total.totalFeesClaimedUSD == TotalFeesClaimed(stats)
  {
    var valid := ValidResults(Survivors(deployments, results));
    if |valid| > 0 && AllReturned(valid) {
      var stats := StatsOf(valid);
      SumOfPlus(stats[0], stats[1..]);
      assert stats == [stats[0]] + stats[1..];
      TotalsOfPrepend(stats[0], stats[1..]);
    }
  }
}
