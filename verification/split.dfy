/**
 The start of `AEO.evolute` (neorl/hybrid/aeo.py): the initial members are either given
 (`x0` with the population index of each in `pop0`) or sampled, `npop0[i]` of them for
 population i, in population order. Every population then receives, in order, the members
 assigned to its index. The sampler `init_sample` is the `sample` parameter, called with
 the position of the member being drawn.
 */
module InitialSplit {
  import opened Wrappers
  import opened Lists
  import opened Options
  import opened Failures
  import opened Algorithms
  import opened Populations
  import opened Routing

  /** Number of occurrences of `v` in `xs`. */
  function Count(xs: seq<int>, v: int): nat
  {
    if |xs| == 0 then 0 else (if xs[0] == v then 1 else 0) + Count(xs[1..], v)
  }

  lemma {:induction false} CountConcat(xs: seq<int>, ys: seq<int>, v: int)
    ensures Count(xs + ys, v) == Count(xs, v) + Count(ys, v)
  {
    if |xs| > 0 {
      CountConcat(xs[1..], ys, v);
      assert (xs + ys)[1..] == xs[1..] + ys;
    } else {
      assert xs + ys == ys;
    }
  }

  lemma {:induction false} CountRepeat(c: nat, u: int, v: int)
    ensures Count(seq(c, _ => u), v) == if u == v then c else 0
  {
    if c > 0 {
      CountRepeat(c - 1, u, v);
      assert seq(c, _ => u)[1..] == seq(c - 1, _ => u);
    }
  }

  /**
   `itertools.chain` of `[i]*npop0[i]`: the population index of every sampled member.
   Index i appears exactly `npop0[i]` times, and no other value appears.
   */
  function Expand(sizes: seq<nat>): (r: seq<int>)
    ensures |r| == Sum(sizes)
    ensures forall k :: 0 <= k < |r| ==> 0 <= r[k] < |sizes|
    ensures forall i :: 0 <= i < |sizes| ==> Count(r, i) == sizes[i]
    ensures forall v :: (v < 0 || v >= |sizes|) ==> Count(r, v) == 0
  {
    if |sizes| == 0 then []
    else
      var n := |sizes| - 1;
      var init := Expand(sizes[..n]);
      var block := seq(sizes[n], _ => n);
      assert sizes == sizes[..n] + [sizes[n]];
      SumConcat(sizes[..n], [sizes[n]]);
      ExpandCounts(sizes, init, block);
      init + block
  }

  lemma ExpandCounts(sizes: seq<nat>, init: seq<int>, block: seq<int>)
    requires |sizes| > 0
    requires block == seq(sizes[|sizes| - 1], _ => |sizes| - 1)
    requires forall i :: 0 <= i < |sizes| - 1 ==> Count(init, i) == sizes[..|sizes| - 1][i]
    requires forall v :: (v < 0 || v >= |sizes| - 1) ==> Count(init, v) == 0
    ensures forall i :: 0 <= i < |sizes| ==> Count(init + block, i) == sizes[i]
    ensures forall v :: (v < 0 || v >= |sizes|) ==> Count(init + block, v) == 0
  {
    var n := |sizes| - 1;
    forall v
      ensures Count(init + block, v) == Count(init, v) + (if v == n then sizes[n] else 0)
    {
      CountConcat(init, block, v);
      CountRepeat(sizes[n], n, v);
    }
  }

  /** The members zipped with index `i` (`[x for x, p in zip(x0, pop0) if p == i]`); `zip` stops at the shorter list. */
  function SplitFor(x0: seq<Vec>, pop0: seq<int>, i: int): (r: seq<Vec>)
    ensures |x0| == |pop0| ==> |r| == Count(pop0, i)
    ensures forall y :: y in r ==> y in x0
  {
    if |x0| == 0 || |pop0| == 0 then []
    else (if pop0[0] == i then [x0[0]] else []) + SplitFor(x0[1..], pop0[1..], i)
  }

  /**
   The populations the run starts from. Given members need an assignment of the same
   length. Otherwise sizes are needed: given, or the optimizers' configured sizes, which
   an MFO optimizer does not have. Every population starts with no fitness history.
   */
  function Start(opts: seq<Optimizer>, mode: Mode, npop0: Option<seq<nat>>, x0: Option<seq<Vec>>,
                 pop0: Option<seq<int>>, sample: nat -> Vec): (r: Result<seq<Population>, Failure>)
    ensures x0.Some? ==> (r.Err? <==> pop0.None? || |x0.value| != |pop0.value|)
    ensures x0.Some? && r.Err? ==> r.error == (if pop0.None? then AssignmentMissing else AssignmentLengthMismatch)
    ensures x0.None? && npop0.None? && pop0.Some? ==> r == Err(SizesMissing)
    ensures x0.None? && npop0.None? && pop0.None? ==>
      (r.Ok? <==> forall k :: 0 <= k < |opts| ==> opts[k].family != MFO)
    ensures x0.None? && npop0.Some? ==> r.Ok?
    ensures r.Ok? ==> |r.value| == |opts| && AllAligned(r.value)
    ensures r.Ok? ==> forall i :: 0 <= i < |opts| ==>
      r.value[i].algo == opts[i] && r.value[i].mode == mode && r.value[i].fitlog == [] && r.value[i].lastNgen.None?
    ensures r.Ok? && x0.Some? ==> forall i :: 0 <= i < |opts| ==> |r.value[i].members| == Count(pop0.value, i)
    ensures r.Ok? && x0.None? && npop0.Some? ==> forall i :: 0 <= i < |opts| ==>
      |r.value[i].members| == if i < |npop0.value| then npop0.value[i] else 0
    ensures r.Ok? && x0.None? && npop0.None? ==> forall i :: 0 <= i < |opts| ==>
      |r.value[i].members| == opts[i].size
  {
    if x0.Some? then
      if pop0.None? then Err(AssignmentMissing)
      else if |x0.value| != |pop0.value| then Err(AssignmentLengthMismatch)
      else Ok(Populate(opts, mode, x0.value, pop0.value))
    else
      var sizes :-
        if npop0.Some? then Ok(npop0.value)
        else if pop0.Some? then Err(SizesMissing)
        else ConfiguredSizes(opts);
      SumNonNegative(sizes);
      var members := seq(Sum(sizes), k requires 0 <= k => sample(k));
      Ok(Populate(opts, mode, members, Expand(sizes)))
  }

  /** `get_algo_nmembers` for every optimizer; `sum` fails on MFO's missing size. */
  function ConfiguredSizes(opts: seq<Optimizer>): (r: Result<seq<nat>, Failure>)
    ensures r.Ok? <==> forall k :: 0 <= k < |opts| ==> opts[k].family != MFO
    ensures r.Err? ==> r.error == SizesMissing
    ensures r.Ok? ==> |r.value| == |opts| && forall k :: 0 <= k < |opts| ==> r.value[k] == opts[k].size
  {
    if forall k :: 0 <= k < |opts| ==> opts[k].family != MFO then
      Ok(seq(|opts|, k requires 0 <= k < |opts| => ConfiguredSize(opts[k]).value))
    else Err(SizesMissing)
  }

  /** One new population per optimizer, holding the members assigned to its index. */
  function Populate(opts: seq<Optimizer>, mode: Mode, x0: seq<Vec>, pop0: seq<int>): (r: seq<Population>)
    ensures |r| == |opts| && AllAligned(r)
    ensures forall i :: 0 <= i < |opts| ==> r[i] == NewPopulation(opts[i], SplitFor(x0, pop0, i), mode)
  {
    seq(|opts|, i requires 0 <= i < |opts| => NewPopulation(opts[i], SplitFor(x0, pop0, i), mode))
  }

  /** The counts of every index below `n`. */
  function CountsBelow(xs: seq<int>, n: nat): (r: seq<nat>)
    ensures |r| == n && forall i :: 0 <= i < n ==> r[i] == Count(xs, i)
  {
    seq(n, i requires 0 <= i < n => Count(xs, i))
  }

  /** The indicator of `v` among `0..n-1` sums to one. */
  lemma {:induction false} IndicatorSum(n: nat, v: int)
    requires 0 <= v < n
    ensures Sum(seq(n, i requires 0 <= i < n => if i == v then 1 else 0)) == 1
  {
    var ind := seq(n, i requires 0 <= i < n => if i == v then 1 else 0);
    assert ind == ind[..v] + [1] + ind[v + 1..];
    SumConcat(ind[..v] + [1], ind[v + 1..]);
    SumConcat(ind[..v], [1]);
    SumOfZeros(ind[..v]);
    SumOfZeros(ind[v + 1..]);
  }

  lemma {:induction false} SumOfZeros(xs: seq<int>)
    requires forall i :: 0 <= i < |xs| ==> xs[i] == 0
    ensures Sum(xs) == 0
  {
    if |xs| > 0 {
      SumOfZeros(xs[1..]);
    }
  }

  /**
   When every assignment names one of the `n` populations, the populations' counts add up
   to the number of members: each member is assigned exactly once.
   */
  lemma {:induction false} CountsPartition(xs: seq<int>, n: nat)
    requires forall k :: 0 <= k < |xs| ==> 0 <= xs[k] < n
    ensures Sum(CountsBelow(xs, n)) == |xs|
  {
    if |xs| == 0 {
      SumOfZeros(CountsBelow(xs, n));
    } else {
      CountsPartition(xs[1..], n);
      var ind := seq(n, i requires 0 <= i < n => if i == xs[0] then 1 else 0);
      IndicatorSum(n, xs[0]);
      SumPointwise(ind, CountsBelow(xs[1..], n), CountsBelow(xs, n));
    }
  }

  /**
   Sampled starts are split without loss: the populations hold exactly the sampled members
   when there is one size per optimizer.
   */
  lemma SampledStartKeepsEveryone(opts: seq<Optimizer>, mode: Mode, sizes: seq<nat>, sample: nat -> Vec)
    requires |sizes| == |opts|
    ensures var r := Start(opts, mode, Some(sizes), None, None, sample);
      r.Ok? && TotalSize(r.value) == Sum(sizes)
  {
    var r := Start(opts, mode, Some(sizes), None, None, sample);
    assert r.Ok?;
    var pops := r.value;
    forall i | 0 <= i < |sizes|
      ensures Sizes(pops)[i] == sizes[i]
    {
      assert |pops[i].members| == sizes[i];
    }
    assert Sizes(pops) == sizes;
  }

  /** Given members are split without loss when every assignment names a population. */
  lemma GivenStartKeepsEveryone(opts: seq<Optimizer>, mode: Mode, x0: seq<Vec>, pop0: seq<int>, sample: nat -> Vec)
    requires |x0| == |pop0|
    requires forall k :: 0 <= k < |pop0| ==> 0 <= pop0[k] < |opts|
    ensures var r := Start(opts, mode, None, Some(x0), Some(pop0), sample);
      r.Ok? && TotalSize(r.value) == |x0|
  {
    var r := Start(opts, mode, None, Some(x0), Some(pop0), sample).value;
    assert Sizes(r) == CountsBelow(pop0, |opts|);
    CountsPartition(pop0, |opts|);
  }
}
