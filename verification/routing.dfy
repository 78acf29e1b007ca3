/**
 Destination selection of the ensemble optimizer (neorl/hybrid/aeo.py, the end of each cycle
 in `AEO.evolute`). With `ret` true every exported member goes into one shuffled pool that is
 cut into contiguous slices, one per population, by a multinomial draw. With `ret` false each
 population's exports are shuffled and shared among the other populations only. Shuffles and
 multinomial draws arrive as inputs; slicing follows Python's rules, which clip at the end.
 */
module Routing {
  import opened Lists
  import opened Populations

  /** Number of members of each population. */
  function Sizes(pops: seq<Population>): (r: seq<nat>)
    ensures |r| == |pops|
    ensures forall i :: 0 <= i < |pops| ==> r[i] == |pops[i].members|
  {
    seq(|pops|, i requires 0 <= i < |pops| => |pops[i].members|)
  }

  /** Number of members over the whole ensemble. */
  function TotalSize(pops: seq<Population>): int
  {
    Sum(Sizes(pops))
  }

  lemma TotalSizeSplit(pops: seq<Population>)
    requires |pops| > 0
    ensures TotalSize(pops) == |pops[0].members| + TotalSize(pops[1..])
  {
    assert Sizes(pops)[1..] == Sizes(pops[1..]);
  }

  lemma TotalSizeUpdate(pops: seq<Population>, t: nat, q: Population)
    requires t < |pops|
    ensures TotalSize(pops[t := q]) == TotalSize(pops) - |pops[t].members| + |q.members|
  {
    assert Sizes(pops[t := q]) == Sizes(pops)[t := |q.members|];
    SumUpdate(Sizes(pops), t, |q.members|);
  }

  /** Python's `xs[:a]`. */
  function Take<T>(xs: seq<T>, a: nat): seq<T>
  {
    if a <= |xs| then xs[..a] else xs
  }

  /** Python's `xs[a:]`. */
  function Drop<T>(xs: seq<T>, a: nat): seq<T>
  {
    if a <= |xs| then xs[a..] else []
  }

  /**
   Consecutive slices of `pool` with the drawn lengths. When the lengths add up to the pool
   size the slices have exactly those lengths and, put back together, are the pool.
   */
  function Slices<T>(pool: seq<T>, allot: seq<nat>): (r: seq<seq<T>>)
    ensures |r| == |allot|
    ensures Sum(allot) == |pool| ==>
      Flatten(r) == pool && forall i :: 0 <= i < |allot| ==> |r[i]| == allot[i]
    decreases |allot|
  {
    if |allot| == 0 then []
    else
      var rest := Slices(Drop(pool, allot[0]), allot[1..]);
      var r := [Take(pool, allot[0])] + rest;
      assert r[1..] == rest;
      if Sum(allot) == |pool| then
        HeadBoundedBySum(allot);
        assert pool == pool[..allot[0]] + pool[allot[0]..];
        assert forall i :: 1 <= i < |allot| ==> r[i] == rest[i - 1] && allot[i] == allot[1..][i - 1];
        r
      else r
  }

  /**
   `ret` true: population i receives the i-th slice of the shuffled pool (the loop over
   `zip(allotments, self.pops)`).
   */
  function Distribute(pops: seq<Population>, pool: seq<Vec>, allot: seq<nat>): (r: seq<Population>)
    ensures |r| == |pops|
    ensures |allot| == |pops| ==>
      forall i :: 0 <= i < |pops| ==> r[i] == Receive(pops[i], Slices(pool, allot)[i])
    decreases |pops|
  {
    if |pops| == 0 || |allot| == 0 then pops
    else
      var rest := Distribute(pops[1..], Drop(pool, allot[0]), allot[1..]);
      var r := [Receive(pops[0], Take(pool, allot[0]))] + rest;
      assert forall i :: 1 <= i < |pops| ==> r[i] == rest[i - 1] && pops[i] == pops[1..][i - 1];
      r
  }

  predicate AllAligned(pops: seq<Population>)
  {
    forall j :: 0 <= j < |pops| ==> Aligned(pops[j])
  }

  /** Distributing an empty pool leaves every population as it was. */
  lemma {:induction false} DistributeNothing(pops: seq<Population>, allot: seq<nat>)
    requires AllAligned(pops)
    ensures Distribute(pops, [], allot) == pops
    decreases |pops|
  {
    if |pops| > 0 && |allot| > 0 {
      ReceiveNothing(pops[0]);
      DistributeNothing(pops[1..], allot[1..]);
      assert Take<Vec>([], allot[0]) == [] && Drop<Vec>([], allot[0]) == [];
      assert [pops[0]] + pops[1..] == pops;
    }
  }

  /** Members that arrived in each population: what follows its previous members. */
  function Arrivals(before: seq<Population>, after: seq<Population>): (r: seq<seq<Vec>>)
    requires |before| == |after|
    requires forall i :: 0 <= i < |before| ==> |before[i].members| <= |after[i].members|
    ensures |r| == |before|
  {
    seq(|before|, i requires 0 <= i < |before| => after[i].members[|before[i].members|..])
  }

  /**
   With allotments adding up to the pool, the arrivals taken in population order are exactly
   the pool: every pooled member lands in exactly one population, and nothing else arrives.
   */
  lemma DistributeLandsEachOnce(pops: seq<Population>, pool: seq<Vec>, allot: seq<nat>)
    requires |allot| == |pops| && Sum(allot) == |pool|
    ensures var r := Distribute(pops, pool, allot);
      (forall i :: 0 <= i < |pops| ==> r[i].members[..|pops[i].members|] == pops[i].members)
      && Flatten(Arrivals(pops, r)) == pool
  {
    var r := Distribute(pops, pool, allot);
    var sl := Slices(pool, allot);
    forall i | 0 <= i < |pops|
      ensures r[i].members == pops[i].members + sl[i]
    {
    }
    assert Arrivals(pops, r) == sl;
  }

  /** `ret` true conserves members: the ensemble grows by exactly the pool. */
  lemma {:induction false} DistributeConserves(pops: seq<Population>, pool: seq<Vec>, allot: seq<nat>)
    requires |allot| == |pops| && Sum(allot) == |pool|
    ensures TotalSize(Distribute(pops, pool, allot)) == TotalSize(pops) + |pool|
    decreases |pops|
  {
    if |pops| > 0 {
      var r := Distribute(pops, pool, allot);
      HeadBoundedBySum(allot);
      DistributeConserves(pops[1..], Drop(pool, allot[0]), allot[1..]);
      TotalSizeSplit(pops);
      TotalSizeSplit(r);
      assert r[1..] == Distribute(pops[1..], Drop(pool, allot[0]), allot[1..]);
    } else {
      assert pool == [];
    }
  }

  /** Every population index but `j`, in order (`pop_indxs[:j] + pop_indxs[j+1:]`). */
  function Others(n: nat, j: nat): (r: seq<nat>)
    requires j < n
    ensures |r| == n - 1
    ensures j !in r
    ensures forall k :: 0 <= k < |r| ==> r[k] < n
    ensures forall i :: 0 <= i < n && i != j ==> i in r
    ensures Distinct(r)
  {
    var r := seq(n - 1, k requires 0 <= k < n - 1 => if k < j then k else k + 1);
    OthersCover(r, n, j);
    r
  }

  lemma OthersCover(r: seq<nat>, n: nat, j: nat)
    requires j < n && |r| == n - 1
    requires forall k :: 0 <= k < n - 1 ==> r[k] == if k < j then k else k + 1
    ensures forall i :: 0 <= i < n && i != j ==> i in r
  {
    forall i | 0 <= i < n && i != j
      ensures i in r
    {
      var k := if i < j then i else i - 1;
      assert r[k] == i;
    }
  }

  /** `strengths_dest[:j] + strengths_dest[j+1:]`. */
  function Without<T>(xs: seq<T>, j: nat): (r: seq<T>)
    requires j < |xs|
    ensures |r| == |xs| - 1
    ensures forall k :: 0 <= k < |r| ==> r[k] == xs[Others(|xs|, j)[k]]
  {
    xs[..j] + xs[j + 1..]
  }

  /**
   One exporting population's share-out under `ret` false: the k-th slice of its shuffled
   group goes to population `targets[k]`. Populations not targeted are untouched.
   */
  function Deliver(pops: seq<Population>, group: seq<Vec>, targets: seq<nat>, allot: seq<nat>): (r: seq<Population>)
    requires forall k :: 0 <= k < |targets| ==> targets[k] < |pops|
    ensures |r| == |pops|
    ensures forall i :: 0 <= i < |pops| && i !in targets ==> r[i] == pops[i]
    decreases |targets|
  {
    if |targets| == 0 || |allot| == 0 then pops
    else
      var t := targets[0];
      Deliver(pops[t := Receive(pops[t], Take(group, allot[0]))], Drop(group, allot[0]), targets[1..], allot[1..])
  }

  /** Sharing out an empty group leaves every population as it was. */
  lemma {:induction false} DeliverNothing(pops: seq<Population>, targets: seq<nat>, allot: seq<nat>)
    requires forall k :: 0 <= k < |targets| ==> targets[k] < |pops|
    requires AllAligned(pops)
    ensures Deliver(pops, [], targets, allot) == pops
    decreases |targets|
  {
    if |targets| > 0 && |allot| > 0 {
      var t := targets[0];
      ReceiveNothing(pops[t]);
      assert Take<Vec>([], allot[0]) == [] && Drop<Vec>([], allot[0]) == [];
      assert pops[t := Receive(pops[t], [])] == pops;
      DeliverNothing(pops, targets[1..], allot[1..]);
    }
  }

  /** No population receives its own exports: sharing out group j leaves population j as it was. */
  lemma OwnGroupNeverReturns(pops: seq<Population>, group: seq<Vec>, j: nat, allot: seq<nat>)
    requires j < |pops|
    ensures Deliver(pops, group, Others(|pops|, j), allot)[j] == pops[j]
  {
  }

  lemma {:induction false} DeliverConserves(pops: seq<Population>, group: seq<Vec>, targets: seq<nat>, allot: seq<nat>)
    requires forall k :: 0 <= k < |targets| ==> targets[k] < |pops|
    requires |allot| == |targets| && Sum(allot) == |group|
    ensures TotalSize(Deliver(pops, group, targets, allot)) == TotalSize(pops) + |group|
    decreases |targets|
  {
    if |targets| > 0 {
      var t := targets[0];
      HeadBoundedBySum(allot);
      var q := Receive(pops[t], Take(group, allot[0]));
      TotalSizeUpdate(pops, t, q);
      DeliverConserves(pops[t := q], Drop(group, allot[0]), targets[1..], allot[1..]);
    } else {
      assert group == [];
    }
  }

  /**
   `ret` false: the groups are shared out in population order, group j among every
   population except j.
   */
  function RouteNoReturn(pops: seq<Population>, groups: seq<seq<Vec>>, allots: seq<seq<nat>>, j: nat): (r: seq<Population>)
    requires |groups| == |pops| && |allots| == |pops|
    ensures |r| == |pops|
    decreases |groups| - j
  {
    if j >= |groups| then pops
    else RouteNoReturn(Deliver(pops, groups[j], Others(|pops|, j), allots[j]), groups, allots, j + 1)
  }

  /** Sharing out groups that are all empty leaves every population as it was. */
  lemma {:induction false} RouteNothing(pops: seq<Population>, groups: seq<seq<Vec>>, allots: seq<seq<nat>>, j: nat)
    requires |groups| == |pops| && |allots| == |pops| && AllAligned(pops)
    requires forall k :: 0 <= k < |groups| ==> groups[k] == []
    ensures RouteNoReturn(pops, groups, allots, j) == pops
    decreases |groups| - j
  {
    if j < |groups| {
      DeliverNothing(pops, Others(|pops|, j), allots[j]);
      RouteNothing(pops, groups, allots, j + 1);
    }
  }

  lemma {:induction false} DeliverKeepsAligned(pops: seq<Population>, group: seq<Vec>, targets: seq<nat>, allot: seq<nat>)
    requires forall k :: 0 <= k < |targets| ==> targets[k] < |pops|
    requires AllAligned(pops)
    ensures AllAligned(Deliver(pops, group, targets, allot))
    decreases |targets|
  {
    if |targets| > 0 && |allot| > 0 {
      var t := targets[0];
      DeliverKeepsAligned(pops[t := Receive(pops[t], Take(group, allot[0]))], Drop(group, allot[0]), targets[1..], allot[1..]);
    }
  }

  lemma {:induction false} RouteNoReturnKeepsAligned(pops: seq<Population>, groups: seq<seq<Vec>>, allots: seq<seq<nat>>, j: nat)
    requires |groups| == |pops| && |allots| == |pops| && AllAligned(pops)
    ensures AllAligned(RouteNoReturn(pops, groups, allots, j))
    decreases |groups| - j
  {
    if j < |groups| {
      DeliverKeepsAligned(pops, groups[j], Others(|pops|, j), allots[j]);
      RouteNoReturnKeepsAligned(Deliver(pops, groups[j], Others(|pops|, j), allots[j]), groups, allots, j + 1);
    }
  }

  /** Each group's allotment covers the other populations and adds up to the group's size. */
  predicate AllotmentsFit(n: nat, groups: seq<seq<Vec>>, allots: seq<seq<nat>>)
  {
    |groups| == n && |allots| == n
    && forall j :: 0 <= j < n ==> |allots[j]| == n - 1 && Sum(allots[j]) == |groups[j]|
  }

  /** `ret` false conserves members: the ensemble grows by exactly the exported groups. */
  lemma {:induction false} RouteNoReturnConserves(pops: seq<Population>, groups: seq<seq<Vec>>, allots: seq<seq<nat>>, j: nat)
    requires AllotmentsFit(|pops|, groups, allots) && j <= |pops|
    ensures TotalSize(RouteNoReturn(pops, groups, allots, j)) == TotalSize(pops) + |Flatten(groups[j..])|
    decreases |groups| - j
  {
    if j < |groups| {
      var next := Deliver(pops, groups[j], Others(|pops|, j), allots[j]);
      DeliverConserves(pops, groups[j], Others(|pops|, j), allots[j]);
      RouteNoReturnConserves(next, groups, allots, j + 1);
      assert groups[j..][1..] == groups[j + 1..];
      assert Flatten(groups[j..]) == groups[j] + Flatten(groups[j + 1..]);
    } else {
      assert groups[j..] == [];
    }
  }

  /** `allotment_holder[targets] += allot`. */
  function AddAt(h: seq<nat>, targets: seq<nat>, allot: seq<nat>): (r: seq<nat>)
    requires forall k :: 0 <= k < |targets| ==> targets[k] < |h|
    ensures |r| == |h|
    ensures |allot| == |targets| ==> Sum(r) == Sum(h) + Sum(allot)
    decreases |targets|
  {
    if |targets| == 0 || |allot| == 0 then h
    else
      var t := targets[0];
      SumUpdate(h, t, h[t] + allot[0]);
      AddAt(h[t := h[t] + allot[0]], targets[1..], allot[1..])
  }

  /** The logged per-destination totals of the `ret` false routing. */
  function Holder(n: nat, allots: seq<seq<nat>>, j: nat, h: seq<nat>): (r: seq<nat>)
    requires |allots| <= n && |h| == n && j <= |allots|
    ensures |r| == n
    ensures (forall k :: j <= k < |allots| ==> |allots[k]| == n - 1) ==>
      Sum(r) == Sum(h) + Sum(Flatten(allots[j..]))
    decreases |allots| - j
  {
    if j >= |allots| then
      assert allots[j..] == [];
      h
    else
      assert allots[j..] == [allots[j]] + allots[j + 1..];
      SumConcat(allots[j], Flatten(allots[j + 1..]));
      Holder(n, allots, j + 1, AddAt(h, Others(n, j), allots[j]))
  }

  /** The logged totals add up to the number of members exported in the cycle. */
  lemma {:induction false} HolderCountsExports(n: nat, groups: seq<seq<Vec>>, allots: seq<seq<nat>>)
    requires AllotmentsFit(n, groups, allots)
    ensures Sum(Holder(n, allots, 0, Zeros(n))) == |Flatten(groups)|
  {
    AllottedEqualsExported(groups, allots);
    assert allots[0..] == allots;
  }

  lemma {:induction false} AllottedEqualsExported(groups: seq<seq<Vec>>, allots: seq<seq<nat>>)
    requires |groups| == |allots|
    requires forall j :: 0 <= j < |groups| ==> Sum(allots[j]) == |groups[j]|
    ensures Sum(Flatten(allots)) == |Flatten(groups)|
  {
    if |groups| > 0 {
      AllottedEqualsExported(groups[1..], allots[1..]);
      SumConcat(allots[0], Flatten(allots[1..]));
    }
  }
}
