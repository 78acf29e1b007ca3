/**
 Sequence helpers used by the ensemble model: sums, flattening, removal of a set of
 positions (the `pop`-in-descending-order idiom), and extrema of non-empty lists.
 */
module Lists {

  /** Sum of a list of integers, peeled from the front. */
  function Sum(xs: seq<int>): int
  {
    if |xs| == 0 then 0 else xs[0] + Sum(xs[1..])
  }

  /** Sum of a list of reals, peeled from the front. */
  function SumReal(xs: seq<real>): real
  {
    if |xs| == 0 then 0.0 else xs[0] + SumReal(xs[1..])
  }

  lemma {:induction false} SumConcat(xs: seq<int>, ys: seq<int>)
    ensures Sum(xs + ys) == Sum(xs) + Sum(ys)
  {
    if |xs| == 0 {
      assert xs + ys == ys;
    } else {
      assert (xs + ys)[1..] == xs[1..] + ys;
      SumConcat(xs[1..], ys);
    }
  }

  lemma SumAppend(xs: seq<int>, x: int)
    ensures Sum(xs + [x]) == Sum(xs) + x
  {
    SumConcat(xs, [x]);
    assert Sum([x]) == x + Sum([x][1..]);
  }

  /** A sum of naturals is zero only when every term is zero. */
  lemma {:induction false} SumZero(xs: seq<nat>)
    requires Sum(xs) == 0
    ensures forall i :: 0 <= i < |xs| ==> xs[i] == 0
  {
    if |xs| > 0 {
      SumNonNegative(xs[1..]);
      SumZero(xs[1..]);
      assert forall i :: 1 <= i < |xs| ==> xs[i] == xs[1..][i - 1];
    }
  }

  lemma {:induction false} SumNonNegative(xs: seq<nat>)
    ensures Sum(xs) >= 0
  {
    if |xs| > 0 {
      SumNonNegative(xs[1..]);
    }
  }

  /** The first term of a list of naturals is bounded by the list's sum. */
  lemma HeadBoundedBySum(xs: seq<nat>)
    requires |xs| > 0
    ensures xs[0] <= Sum(xs)
  {
    SumNonNegative(xs[1..]);
  }

  /** A list of `n` zeros. */
  function Zeros(n: nat): (r: seq<nat>)
    ensures |r| == n
    ensures Sum(r) == 0
    ensures forall i :: 0 <= i < n ==> r[i] == 0
  {
    if n == 0 then [] else [0] + Zeros(n - 1)
  }

  lemma {:induction false} SumRealConcat(xs: seq<real>, ys: seq<real>)
    ensures SumReal(xs + ys) == SumReal(xs) + SumReal(ys)
  {
    if |xs| == 0 {
      assert xs + ys == ys;
    } else {
      assert (xs + ys)[1..] == xs[1..] + ys;
      SumRealConcat(xs[1..], ys);
    }
  }

  /** Adding two lists position by position adds their sums. */
  lemma {:induction false} SumPointwise(a: seq<int>, b: seq<int>, c: seq<int>)
    requires |a| == |b| == |c|
    requires forall i :: 0 <= i < |a| ==> a[i] + b[i] == c[i]
    ensures Sum(a) + Sum(b) == Sum(c)
  {
    if |a| > 0 {
      SumPointwise(a[1..], b[1..], c[1..]);
    }
  }

  /** Concatenation of a list of lists, in order (`itertools.chain.from_iterable`). */
  function Flatten<T>(xss: seq<seq<T>>): seq<T>
  {
    if |xss| == 0 then [] else xss[0] + Flatten(xss[1..])
  }

  /** The lengths of a list of lists. */
  function Lengths<T>(xss: seq<seq<T>>): (r: seq<nat>)
    ensures |r| == |xss|
    ensures forall i :: 0 <= i < |xss| ==> r[i] == |xss[i]|
  {
    seq(|xss|, i requires 0 <= i < |xss| => |xss[i]|)
  }

  lemma {:induction false} FlattenLength<T>(xss: seq<seq<T>>)
    ensures |Flatten(xss)| == Sum(Lengths(xss))
  {
    if |xss| > 0 {
      FlattenLength(xss[1..]);
      assert Lengths(xss)[1..] == Lengths(xss[1..]);
    }
  }

  lemma {:induction false} FlattenAppend<T>(xss: seq<seq<T>>, ys: seq<T>)
    ensures Flatten(xss + [ys]) == Flatten(xss) + ys
  {
    if |xss| == 0 {
      assert xss + [ys] == [ys];
      assert Flatten([ys]) == ys + Flatten([ys][1..]);
    } else {
      assert (xss + [ys])[1..] == xss[1..] + [ys];
      FlattenAppend(xss[1..], ys);
    }
  }

  /** Changing one term changes the sum by the difference. */
  lemma {:induction false} SumUpdate(xs: seq<int>, i: nat, v: int)
    requires i < |xs|
    ensures Sum(xs[i := v]) == Sum(xs) - xs[i] + v
  {
    if i > 0 {
      assert xs[i := v][1..] == xs[1..][i - 1 := v];
      SumUpdate(xs[1..], i - 1, v);
    }
  }

  lemma {:induction false} SumFlatten(xss: seq<seq<int>>)
    ensures Sum(Flatten(xss)) == Sum(seq(|xss|, i requires 0 <= i < |xss| => Sum(xss[i])))
  {
    var sums := seq(|xss|, i requires 0 <= i < |xss| => Sum(xss[i]));
    if |xss| > 0 {
      SumFlatten(xss[1..]);
      SumConcat(xss[0], Flatten(xss[1..]));
      assert sums[1..] == seq(|xss[1..]|, i requires 0 <= i < |xss[1..]| => Sum(xss[1..][i]));
    }
  }

  /** Each entry divided by `t` (`[s/t for s in xs]`). */
  function Scale(xs: seq<real>, t: real): (r: seq<real>)
    requires t != 0.0
    ensures |r| == |xs|
    ensures forall i :: 0 <= i < |xs| ==> r[i] == xs[i] / t
  {
    seq(|xs|, i requires 0 <= i < |xs| => xs[i] / t)
  }

  predicate AllNonNegative(xs: seq<real>)
  {
    forall i :: 0 <= i < |xs| ==> xs[i] >= 0.0
  }

  /** Every entry lies in [0, 1]. */
  predicate AllUnit(xs: seq<real>)
  {
    forall i :: 0 <= i < |xs| ==> 0.0 <= xs[i] <= 1.0
  }

  lemma {:induction false} TermBoundedBySumReal(xs: seq<real>, i: nat)
    requires AllNonNegative(xs) && i < |xs|
    ensures 0.0 <= xs[i] <= SumReal(xs)
    ensures SumReal(xs) >= 0.0
  {
    if i == 0 {
      if |xs| > 1 {
        TermBoundedBySumReal(xs[1..], 0);
      }
    } else {
      TermBoundedBySumReal(xs[1..], i - 1);
    }
  }

  /**
   Non-negative weights divided by their positive sum are probabilities: each lies in [0, 1]
   and they add up to one.
   */
  lemma ScaledAreProbabilities(xs: seq<real>)
    requires AllNonNegative(xs) && SumReal(xs) != 0.0
    ensures AllUnit(Scale(xs, SumReal(xs)))
    ensures SumReal(Scale(xs, SumReal(xs))) == 1.0
  {
    var t := SumReal(xs);
    forall i | 0 <= i < |xs|
      ensures 0.0 <= xs[i] / t <= 1.0
    {
      TermBoundedBySumReal(xs, i);
      UnitFraction(xs[i], t);
    }
    SumRealScale(xs, t);
    DivSelf(t);
  }

  lemma DivSelf(t: real)
    requires t != 0.0
    ensures t / t == 1.0
  {
  }

  lemma UnitFraction(a: real, b: real)
    requires 0.0 <= a <= b && b > 0.0
    ensures 0.0 <= a / b <= 1.0
  {
  }

  lemma {:induction false} SumRealScale(xs: seq<real>, t: real)
    requires t != 0.0
    ensures SumReal(Scale(xs, t)) == SumReal(xs) / t
  {
    if |xs| > 0 {
      SumRealScale(xs[1..], t);
      assert Scale(xs, t)[1..] == Scale(xs[1..], t);
    }
  }

  /** No element occurs twice. */
  predicate Distinct<T(==)>(s: seq<T>)
  {
    forall i, j :: 0 <= i < j < |s| ==> s[i] != s[j]
  }

  /** A duplicate-free list has as many distinct elements as entries. */
  lemma {:induction false} DistinctCardinality<T>(s: seq<T>)
    requires Distinct(s)
    ensures |set x | x in s| == |s|
  {
    if |s| > 0 {
      var init := s[..|s| - 1];
      DistinctCardinality(init);
      assert (set x | x in s) == (set x | x in init) + {s[|s| - 1]};
      assert s[|s| - 1] !in (set x | x in init);
    }
  }

  /**
   Entries of `s` at positions `lo..|s|-1` whose position is not in `drop`, in ascending
   position order: what is left of the list once the dropped positions are popped.
   */
  function KeptFrom<T>(s: seq<T>, drop: set<nat>, lo: nat): seq<T>
    decreases |s| - lo
  {
    if lo >= |s| then [] else (if lo in drop then [] else [s[lo]]) + KeptFrom(s, drop, lo + 1)
  }

  /**
   Entries of `s` at positions `lo..|s|-1` whose position is in `drop`, in DESCENDING
   position order: the order in which popping from the highest index down returns them.
   */
  function PoppedFrom<T>(s: seq<T>, drop: set<nat>, lo: nat): seq<T>
    decreases |s| - lo
  {
    if lo >= |s| then [] else PoppedFrom(s, drop, lo + 1) + (if lo in drop then [s[lo]] else [])
  }

  /** The dropped positions at or above `lo`. */
  function DroppedAbove(drop: set<nat>, lo: int): set<nat>
  {
    set j | j in drop && lo <= j
  }

  /** Popping a set of in-range positions returns one entry per position and keeps the rest. */
  lemma {:induction false} PopCounts<T>(s: seq<T>, drop: set<nat>, lo: nat)
    requires forall j :: j in drop ==> 0 <= j < |s|
    requires lo <= |s|
    ensures |PoppedFrom(s, drop, lo)| == |DroppedAbove(drop, lo)|
    ensures |KeptFrom(s, drop, lo)| + |PoppedFrom(s, drop, lo)| == |s| - lo
    decreases |s| - lo
  {
    if lo == |s| {
      assert DroppedAbove(drop, lo) == {};
    } else {
      PopCounts(s, drop, lo + 1);
      if lo in drop {
        assert DroppedAbove(drop, lo) == DroppedAbove(drop, lo + 1) + {lo};
      } else {
        assert DroppedAbove(drop, lo) == DroppedAbove(drop, lo + 1);
      }
    }
  }

  /** Popping conserves the entries: kept and popped together are the original multiset. */
  lemma {:induction false} PopMultiset<T>(s: seq<T>, drop: set<nat>, lo: nat)
    requires lo <= |s|
    ensures multiset(KeptFrom(s, drop, lo)) + multiset(PoppedFrom(s, drop, lo)) == multiset(s[lo..])
    decreases |s| - lo
  {
    if lo < |s| {
      PopMultiset(s, drop, lo + 1);
      assert s[lo..] == [s[lo]] + s[lo + 1..];
      var k, p := KeptFrom(s, drop, lo + 1), PoppedFrom(s, drop, lo + 1);
      if lo in drop {
        assert KeptFrom(s, drop, lo) == k;
        assert PoppedFrom(s, drop, lo) == p + [s[lo]];
      } else {
        assert KeptFrom(s, drop, lo) == [s[lo]] + k;
        assert PoppedFrom(s, drop, lo) == p;
      }
    }
  }

  /** Popping no position keeps the whole list. */
  lemma {:induction false} KeepAll<T>(s: seq<T>, lo: nat)
    requires lo <= |s|
    ensures KeptFrom(s, {}, lo) == s[lo..]
    ensures PoppedFrom(s, {}, lo) == []
    decreases |s| - lo
  {
    if lo < |s| {
      KeepAll(s, lo + 1);
      assert s[lo..] == [s[lo]] + s[lo + 1..];
    }
  }

  /** Positions of the kept entries, ascending. */
  function KeptPositions(n: nat, drop: set<nat>, lo: nat): seq<nat>
    decreases n - lo
  {
    if lo >= n then [] else (if lo in drop then [] else [lo]) + KeptPositions(n, drop, lo + 1)
  }

  /**
   The survivors keep their relative order: the i-th kept entry is the entry at the i-th
   surviving position, and those positions strictly increase and avoid `drop`.
   */
  lemma {:induction false} KeptInOrder<T>(s: seq<T>, drop: set<nat>, lo: nat)
    requires lo <= |s|
    ensures var ks := KeptPositions(|s|, drop, lo);
      && |ks| == |KeptFrom(s, drop, lo)|
      && (forall i :: 0 <= i < |ks| ==> lo <= ks[i] < |s| && ks[i] !in drop && KeptFrom(s, drop, lo)[i] == s[ks[i]])
      && (forall i, j :: 0 <= i < j < |ks| ==> ks[i] < ks[j])
    decreases |s| - lo
  {
    if lo < |s| {
      KeptInOrder(s, drop, lo + 1);
    }
  }

  /** Largest element of a non-empty list (Python's `max`). */
  function MaxOf(xs: seq<real>): (m: real)
    requires |xs| > 0
    ensures m in xs
    ensures forall i :: 0 <= i < |xs| ==> xs[i] <= m
  {
    if |xs| == 1 then xs[0]
    else
      var rest := MaxOf(xs[1..]);
      assert forall i :: 1 <= i < |xs| ==> xs[i] == xs[1..][i - 1];
      if xs[0] >= rest then xs[0] else rest
  }

  /** Smallest element of a non-empty list (Python's `min`). */
  function MinOf(xs: seq<real>): (m: real)
    requires |xs| > 0
    ensures m in xs
    ensures forall i :: 0 <= i < |xs| ==> m <= xs[i]
  {
    if |xs| == 1 then xs[0]
    else
      var rest := MinOf(xs[1..]);
      assert forall i :: 1 <= i < |xs| ==> xs[i] == xs[1..][i - 1];
      if xs[0] <= rest then xs[0] else rest
  }

  /** First position holding `v` (Python's `list.index`). */
  function FirstIndex(xs: seq<real>, v: real): (k: nat)
    requires v in xs
    ensures k < |xs| && xs[k] == v
    ensures forall i :: 0 <= i < k ==> xs[i] != v
  {
    if xs[0] == v then 0
    else
      assert v in xs[1..];
      1 + FirstIndex(xs[1..], v)
  }

  /** Pairs of corresponding entries of two equal-length lists (`zip`). */
  function Zip<A, B>(a: seq<A>, b: seq<B>): (r: seq<(A, B)>)
    requires |a| == |b|
    ensures |r| == |a|
    ensures forall i :: 0 <= i < |a| ==> r[i] == (a[i], b[i])
  {
    seq(|a|, i requires 0 <= i < |a| => (a[i], b[i]))
  }

  /** First components of a list of pairs. */
  function Firsts<A, B>(s: seq<(A, B)>): (r: seq<A>)
    ensures |r| == |s|
    ensures forall i :: 0 <= i < |s| ==> r[i] == s[i].0
  {
    seq(|s|, i requires 0 <= i < |s| => s[i].0)
  }

  /** Second components of a list of pairs. */
  function Seconds<A, B>(s: seq<(A, B)>): (r: seq<B>)
    ensures |r| == |s|
    ensures forall i :: 0 <= i < |s| ==> r[i] == s[i].1
  {
    seq(|s|, i requires 0 <= i < |s| => s[i].1)
  }

  lemma SecondsConcat<A, B>(u: seq<(A, B)>, v: seq<(A, B)>)
    ensures Seconds(u + v) == Seconds(u) + Seconds(v)
  {
  }

  /** Reordering a list of pairs reorders its second components the same way. */
  lemma {:induction false} SecondsMultiset<A, B>(a: seq<(A, B)>, b: seq<(A, B)>)
    requires multiset(a) == multiset(b)
    ensures multiset(Seconds(a)) == multiset(Seconds(b))
    decreases |a|
  {
    if |a| == 0 {
      assert |b| == |multiset(b)| == 0;
    } else {
      var n := |a| - 1;
      var x := a[n];
      assert x in multiset(a);
      var k :| 0 <= k < |b| && b[k] == x;
      var b' := b[..k] + b[k + 1..];
      assert b == b[..k] + [x] + b[k + 1..];
      assert a == a[..n] + [x];
      calc {
        multiset(a[..n]);
        multiset(a) - multiset{x};
        multiset(b) - multiset{x};
        multiset(b[..k] + [x] + b[k + 1..]) - multiset{x};
        multiset(b');
      }
      SecondsMultiset(a[..n], b');
      SecondsConcat(a[..n], [x]);
      SecondsConcat(b[..k] + [x], b[k + 1..]);
      SecondsConcat(b[..k], [x]);
      SecondsConcat(b[..k], b[k + 1..]);
    }
  }
}
