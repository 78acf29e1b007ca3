/**
 Annealing schedules of the ensemble optimizer (neorl/hybrid/aeo.py, `get_alphabeta`,
 `get_q`) and the binomial export probability built from them. Cycles are numbered from 1
 to `ncycles`; an annealed schedule divides by `ncycles - 1`, so it fails on a one-cycle run.
 */
module Schedules {
  import opened Wrappers
  import opened Options
  import opened Failures
  import opened Lists

  /** `(ncyc - 1) / (ncycles - 1)`, Python's true division of two integers. */
  function Progress(ncyc: int, ncycles: int): (r: real)
    requires ncycles != 1
    ensures ncyc == 1 ==> r == 0.0
    ensures ncyc == ncycles ==> r == 1.0
    ensures 1 <= ncyc <= ncycles ==> 0.0 <= r <= 1.0
  {
    var d := (ncycles - 1) as real;
    assert 1 <= ncyc <= ncycles ==> 0.0 <= (ncyc - 1) as real / d <= 1.0 by {
      if 1 <= ncyc <= ncycles { UnitFraction((ncyc - 1) as real, d); }
    }
    assert ncyc == ncycles ==> (ncyc - 1) as real / d == 1.0 by {
      if ncyc == ncycles { DivSelf(d); }
    }
    (ncyc - 1) as real / d
  }

  /**
   The exponent alpha (or beta) for cycle `ncyc`: a fixed value is returned unchanged, 'up'
   rises linearly from 0 at the first cycle to 1 at the last, 'down' falls from 1 to 0.
   */
  function AlphaBeta(s: Schedule, ncyc: int, ncycles: int): (r: Result<real, Failure>)
    ensures s.Fixed? ==> r == Ok(s.value)
    ensures !s.Fixed? ==> (r.Err? <==> ncycles == 1)
    ensures r.Err? ==> r.error == SingleCycleSchedule
    ensures r.Ok? && s.Up? && ncyc == 1 ==> r.value == 0.0
    ensures r.Ok? && s.Up? && ncyc == ncycles ==> r.value == 1.0
    ensures r.Ok? && s.Down? && ncyc == 1 ==> r.value == 1.0
    ensures r.Ok? && s.Down? && ncyc == ncycles ==> r.value == 0.0
    ensures r.Ok? && !s.Fixed? && 1 <= ncyc <= ncycles ==> 0.0 <= r.value <= 1.0
  {
    match s
    case Fixed(v) => Ok(v)
    case Up => if ncycles == 1 then Err(SingleCycleSchedule) else Ok(Progress(ncyc, ncycles))
    case Down => if ncycles == 1 then Err(SingleCycleSchedule) else Ok(1.0 - Progress(ncyc, ncycles))
  }

  /** 'down' is the complement of 'up' at every cycle. */
  lemma DownComplementsUp(ncyc: int, ncycles: int)
    requires ncycles != 1
    ensures AlphaBeta(Down, ncyc, ncycles).value == 1.0 - AlphaBeta(Up, ncyc, ncycles).value
  {
  }

  /** An annealed exponent never decreases ('up') or never increases ('down') over the cycles. */
  lemma {:induction false} AlphaBetaMonotone(c1: int, c2: int, ncycles: int)
    requires 1 < ncycles && c1 <= c2
    ensures AlphaBeta(Up, c1, ncycles).value <= AlphaBeta(Up, c2, ncycles).value
    ensures AlphaBeta(Down, c2, ncycles).value <= AlphaBeta(Down, c1, ncycles).value
  {
    var d := (ncycles - 1) as real;
    assert (c1 - 1) as real / d <= (c2 - 1) as real / d by {
      assert (c1 - 1) as real <= (c2 - 1) as real;
    }
  }

  /**
   The skew q for cycle `ncyc`: a fixed value is returned unchanged, 'up' rises linearly from
   -1 at the first cycle to 1 at the last, 'down' falls from 1 to -1.
   */
  function Q(s: Schedule, ncyc: int, ncycles: int): (r: Result<real, Failure>)
    ensures s.Fixed? ==> r == Ok(s.value)
    ensures !s.Fixed? ==> (r.Err? <==> ncycles == 1)
    ensures r.Err? ==> r.error == SingleCycleSchedule
    ensures r.Ok? && s.Up? && ncyc == 1 ==> r.value == -1.0
    ensures r.Ok? && s.Up? && ncyc == ncycles ==> r.value == 1.0
    ensures r.Ok? && s.Down? && ncyc == 1 ==> r.value == 1.0
    ensures r.Ok? && s.Down? && ncyc == ncycles ==> r.value == -1.0
    ensures r.Ok? && !s.Fixed? && 1 <= ncyc <= ncycles ==> -1.0 <= r.value <= 1.0
  {
    match s
    case Fixed(v) => Ok(v)
    case Up =>
      if ncycles == 1 then Err(SingleCycleSchedule)
      else
        var v := 2.0 / (1 - ncycles) as real * (1 - ncyc) as real - 1.0;
        QIsRescaledProgress(ncyc, ncycles);
        Ok(v)
    case Down =>
      if ncycles == 1 then Err(SingleCycleSchedule)
      else
        var v := 2.0 / (1 - ncycles) as real * (ncyc - 1) as real + 1.0;
        QIsRescaledProgress(ncyc, ncycles);
        Ok(v)
  }

  /** Both q formulas are the annealing progress rescaled from [0, 1] to [-1, 1]. */
  lemma QIsRescaledProgress(ncyc: int, ncycles: int)
    requires ncycles != 1
    ensures 2.0 / (1 - ncycles) as real * (1 - ncyc) as real - 1.0 == 2.0 * Progress(ncyc, ncycles) - 1.0
    ensures 2.0 / (1 - ncycles) as real * (ncyc - 1) as real + 1.0 == 1.0 - 2.0 * Progress(ncyc, ncycles)
  {
    var d := (ncycles - 1) as real;
    var k := (ncyc - 1) as real;
    assert (1 - ncycles) as real == -d;
    assert (1 - ncyc) as real == -k;
    assert 2.0 / -d == -(2.0 / d);
    assert 2.0 / d * k == 2.0 * (k / d);
  }

  /** The q schedules are the alpha schedules mapped onto [-1, 1]: q = 2 alpha - 1. */
  lemma QFollowsAlpha(s: Schedule, ncyc: int, ncycles: int)
    requires !s.Fixed? && ncycles != 1
    ensures Q(s, ncyc, ncycles).value == 2.0 * AlphaBeta(s, ncyc, ncycles).value - 1.0
  {
    QIsRescaledProgress(ncyc, ncycles);
  }

  /**
   Binomial success probability for a population with normalised export strength `s`
   under skew `q`: with q = 1 weak populations export more, with q = -1 strong ones do.
   */
  function ExportProbability(s: real, q: real): (p: real)
    ensures 0.0 <= s <= 1.0 && -1.0 <= q <= 1.0 ==> 0.0 <= p <= 1.0
    ensures q == 0.0 || s == 0.5 ==> p == 0.5
    ensures q == 1.0 ==> p == 1.0 - s
    ensures q == -1.0 ==> p == s
  {
    ProductBound(0.5 - s, q);
    (0.5 - s) * q + 0.5
  }

  lemma ProductBound(d: real, q: real)
    ensures -0.5 <= d <= 0.5 && -1.0 <= q <= 1.0 ==> -0.5 <= d * q <= 0.5
  {
    if -0.5 <= d <= 0.5 && -1.0 <= q <= 1.0 {
      var ad := if d >= 0.0 then d else -d;
      var aq := if q >= 0.0 then q else -q;
      MulNonNegative(ad, 1.0 - aq);
      MulNonNegative(ad, aq);
      assert ad * (1.0 - aq) == ad - ad * aq;
      var m := ad * aq;
      assert 0.0 <= m <= 0.5;
      if (d >= 0.0) == (q >= 0.0) {
        assert d * q == m;
      } else {
        assert d * q == -m;
      }
    }
  }

  lemma MulNonNegative(a: real, b: real)
    requires a >= 0.0 && b >= 0.0
    ensures a * b >= 0.0
  {
  }
}
