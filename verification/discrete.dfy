/**
 Discrete variables for the evolutionary optimizers (build/lib/neorl/evolu/discrete.py):
 `mutate_discrete`, which turns a real component into an integer and may replace it by
 another integer of its range, and the grid encoding that stands a list of choices for
 an integer index and maps the index back.

 Python's `int()` truncates toward zero; `random.random()` for the minmax rule, the
 sigmoid rule's whole decision (it involves `math.exp`) and `random.choice`'s draw are
 inputs. The draw of `random.choice` is a fraction in [0, 1) of the list's length.
 */
module Discrete {
  import opened Wrappers

  /** Why a call stops with an exception. */
  datatype DiscreteError =
      /** `choices.remove(int(x))` when `int(x)` is outside `lb..ub` (ValueError). */
    | NotInRange
      /** `random.choice` of an empty list: `lb == ub == int(x)` (IndexError). */
    | NoAlternative
      /** A method other than nearest_int, sigmoid and minmax (tanh included) leaves the result unbound. */
    | UnknownMethod
      /** The individual is shorter than the bounds (IndexError). */
    | ShortIndividual
      /** A grid position whose value is not an index of the grid (KeyError). */
    | UnknownIndex

  datatype Method = NearestInt | Sigmoid | MinMax | Other(name: string)

  /** Python's `int()` on a real: truncation toward zero. */
  function Trunc(x: real): (r: int)
    ensures x >= 0.0 ==> r >= 0 && r as real <= x < r as real + 1.0
    ensures x < 0.0 ==> r <= 0 && r as real - 1.0 < x <= r as real
  {
    if x >= 0.0 then x.Floor else -((-x).Floor)
  }

  /** Truncation leaves integers alone. */
  lemma TruncOfInteger(n: int)
    ensures Trunc(n as real) == n
  {
  }

  // ----- the replacement -----

  /** `list(range(lb, ub + 1))`. */
  function Range(lb: int, ub: int): (r: seq<int>)
    ensures |r| == if lb <= ub then ub - lb + 1 else 0
    ensures forall k :: 0 <= k < |r| ==> r[k] == lb + k
  {
    if lb <= ub then seq(ub - lb + 1, k requires 0 <= k => lb + k) else []
  }

  /** `list.remove`: drop the first occurrence; `None` when the value is missing. */
  function Remove(xs: seq<int>, v: int): (r: Option<seq<int>>)
    ensures r.Some? <==> v in xs
    ensures r.Some? ==> |r.value| == |xs| - 1 && multiset(r.value) == multiset(xs) - multiset{v}
  {
    if |xs| == 0 then None
    else if xs[0] == v then
      assert xs == [xs[0]] + xs[1..];
      Some(xs[1..])
    else
      var rest := Remove(xs[1..], v);
      assert xs == [xs[0]] + xs[1..];
      if rest.None? then None else Some([xs[0]] + rest.value)
  }

  /** The position `random.choice` takes for a draw `u` in [0, 1) over `n` entries. */
  function ChoiceIndex(u: real, n: nat): (k: nat)
    requires 0.0 <= u < 1.0 && n > 0
    ensures k < n
  {
    var f := (u * n as real).Floor;
    assert u * n as real < n as real;
    f
  }

  /**
   The replacement of `t`: another integer of `lb..ub`. Fails when `t` is not in the range
   and when it is the range's only value.
   */
  function Replacement(lb: int, ub: int, t: int, u: real): (r: Result<int, DiscreteError>)
    requires 0.0 <= u < 1.0
    ensures r.Err? <==> t < lb || t > ub || lb == ub
    ensures r.Err? ==> r.error == (if t < lb || t > ub then NotInRange else NoAlternative)
    ensures r.Ok? ==> lb <= r.value <= ub && r.value != t
  {
    var choices := Remove(Range(lb, ub), t);
    assert lb <= t <= ub ==> Range(lb, ub)[t - lb] == t;
    if choices.None? then Err(NotInRange)
    else if |choices.value| == 0 then Err(NoAlternative)
    else
      var v := choices.value[ChoiceIndex(u, |choices.value|)];
      assert v in multiset(choices.value);
      assert v in multiset(Range(lb, ub)) - multiset{t};
      if v == t then
        assert multiset(Range(lb, ub))[t] == 1 by { RangeOnce(lb, ub, t); }
        assert false;
        Err(NoAlternative)
      else
        assert v in Range(lb, ub);
        Ok(v)
  }

  /** Every value of a range occurs once. */
  lemma {:induction false} RangeOnce(lb: int, ub: int, t: int)
    requires lb <= t <= ub
    ensures multiset(Range(lb, ub))[t] == 1
    decreases ub - lb
  {
    var r := Range(lb, ub);
    if lb == ub {
      assert r == [lb];
    } else {
      assert r == [lb] + Range(lb + 1, ub);
      if t > lb {
        RangeOnce(lb + 1, ub, t);
      } else {
        assert t !in Range(lb + 1, ub);
      }
    }
  }

  // ----- the decisions -----

  /** The sigmoid rule mutates when the individual is flat or the drawn decision says so. */
  function SigmoidFires(xmin: real, xmax: real, drawn: bool): (b: bool)
    ensures xmax == xmin ==> b
    ensures !drawn ==> (b <==> xmax == xmin)
  {
    xmax == xmin || drawn
  }

  /** `abs`. */
  function Abs(x: real): real
  {
    if x < 0.0 then -x else x
  }

  /**
   The minmax rule: forced when `|x_min| + x_max` is zero; otherwise it mutates when the
   normalized value `(x + x_min) / (|x_min| + x_max)` is at least one half and the draw
   is below alpha.
   */
  function MinMaxFires(x: real, xmin: real, xmax: real, alpha: real, rand: real): (b: bool)
    ensures Abs(xmin) + xmax == 0.0 ==> b
    ensures Abs(xmin) + xmax != 0.0 && rand >= alpha ==> !b
    ensures Abs(xmin) + xmax > 0.0 && rand < alpha ==> (b <==> 2.0 * (x + xmin) >= Abs(xmin) + xmax)
    ensures Abs(xmin) + xmax < 0.0 && rand < alpha ==> (b <==> 2.0 * (x + xmin) <= Abs(xmin) + xmax)
  {
    var den := Abs(xmin) + xmax;
    if den == 0.0 then true
    else
      var norm := (x + xmin) / den;
      assert norm * den == x + xmin;
      assert den > 0.0 ==> (norm >= 0.5 <==> 2.0 * (x + xmin) >= den) by {
        if den > 0.0 {
          assert norm * den == x + xmin;
        }
      }
      assert den < 0.0 ==> (norm >= 0.5 <==> 2.0 * (x + xmin) <= den) by {
        if den < 0.0 {
          assert norm * den == x + xmin;
        }
      }
      norm >= 0.5 && rand < alpha
  }

  // ----- mutate_discrete -----

  /** The closing two conditionals: raise below `lb` to `lb`, then lower above `ub` to `ub`. */
  function Clip(v: int, lb: int, ub: int): (r: int)
    ensures lb <= ub ==> lb <= r <= ub
    ensures lb <= v <= ub ==> r == v
    ensures lb > ub ==> r == ub
  {
    var w := if v < lb then lb else v;
    if w > ub then ub else w
  }

  /** Clipping twice is clipping once. */
  lemma ClipIdempotent(v: int, lb: int, ub: int)
    requires lb <= ub
    ensures Clip(Clip(v, lb, ub), lb, ub) == Clip(v, lb, ub)
  {
  }

  /** The random inputs of one call. */
  datatype Draws = Draws(rand: real, sigmoid: bool, pick: real)

  /**
   `mutate_discrete`: the bounds are truncated; nearest_int truncates `x`; sigmoid and
   minmax keep the truncated value unless their rule fires, in which case another integer of
   the range replaces it; the result is clipped to the truncated bounds.
   */
  function MutateDiscrete(x: real, xmin: real, xmax: real, lb: real, ub: real, alpha: real, rule: Method, d: Draws)
    : (r: Result<int, DiscreteError>)
    requires 0.0 <= d.pick < 1.0
    ensures rule.Other? ==> r == Err(UnknownMethod)
    ensures r.Ok? && Trunc(lb) <= Trunc(ub) ==> Trunc(lb) <= r.value <= Trunc(ub)
    ensures r.Ok? && Trunc(lb) > Trunc(ub) ==> r.value == Trunc(ub)
    ensures rule == NearestInt ==> r == Ok(Clip(Trunc(x), Trunc(lb), Trunc(ub)))
    ensures r.Err? && !rule.Other? ==> Fires(x, xmin, xmax, alpha, rule, d)
    ensures !rule.Other? && !Fires(x, xmin, xmax, alpha, rule, d) ==> r == Ok(Clip(Trunc(x), Trunc(lb), Trunc(ub)))
    ensures !rule.Other? && Fires(x, xmin, xmax, alpha, rule, d) ==>
      (r.Ok? <==> Trunc(lb) <= Trunc(x) <= Trunc(ub) && Trunc(lb) != Trunc(ub))
    ensures !rule.Other? && Fires(x, xmin, xmax, alpha, rule, d) && r.Ok? ==> r.value != Trunc(x)
  {
    var lo := Trunc(lb);
    var hi := Trunc(ub);
    var t := Trunc(x);
    var v :-
      if rule.Other? then Err(UnknownMethod)
      else if Fires(x, xmin, xmax, alpha, rule, d) then Replacement(lo, hi, t, d.pick)
      else Ok(t);
    Ok(Clip(v, lo, hi))
  }

  /** Whether the method's rule replaces the value: never for nearest_int. */
  predicate Fires(x: real, xmin: real, xmax: real, alpha: real, rule: Method, d: Draws)
  {
    match rule
    case NearestInt => false
    case Sigmoid => SigmoidFires(xmin, xmax, d.sigmoid)
    case MinMax => MinMaxFires(x, xmin, xmax, alpha, d.rand)
    case Other(_) => false
  }

  /**
   A flat individual (`x_min == x_max`) under the sigmoid rule always moves an in-range
   value to another integer of a range with two or more values.
   */
  lemma FlatSigmoidAlwaysMoves(x: real, xv: real, lb: real, ub: real, alpha: real, d: Draws)
    requires 0.0 <= d.pick < 1.0
    requires Trunc(lb) <= Trunc(x) <= Trunc(ub) && Trunc(lb) < Trunc(ub)
    ensures var r := MutateDiscrete(x, xv, xv, lb, ub, alpha, Sigmoid, d);
      r.Ok? && r.value != Trunc(x) && Trunc(lb) <= r.value <= Trunc(ub)
  {
  }

  // ----- grid encoding -----

  /** A value held by an individual or offered by a grid. */
  datatype Value = Int(i: int) | Real(r: real) | Text(s: string)

  /** A variable's bound: a grid of choices, or a kind with a lower and an upper value. */
  datatype Bound = Grid(choices: seq<Value>) | Span(kind: string, lo: Value, hi: Value)

  type Bounds = seq<(string, Bound)>

  /** The keys of a dictionary are distinct. */
  predicate Keyed(bounds: Bounds)
  {
    forall i, j :: 0 <= i < j < |bounds| ==> bounds[i].0 != bounds[j].0
  }

  /** The bound a grid is encoded as: the integer span of its positions. */
  function IndexSpan(choices: seq<Value>): Bound
  {
    Span("int", Int(0), Int(|choices| - 1))
  }

  /** position ↦ choice. */
  function IndexMap(choices: seq<Value>): (m: map<int, Value>)
    ensures forall k :: k in m ==> 0 <= k < |choices|
    ensures forall k :: 0 <= k < |choices| ==> k in m && m[k] == choices[k]
  {
    map k | 0 <= k < |choices| :: choices[k]
  }

  /**
   `encode_grid_to_discrete`: every grid becomes the span of its positions and gets a map
   position ↦ choice under its key; every other bound is kept.
   */
  function Encode(bounds: Bounds): (r: (Bounds, map<string, map<int, Value>>))
    ensures |r.0| == |bounds|
    ensures forall i :: 0 <= i < |bounds| ==>
      r.0[i].0 == bounds[i].0 && r.0[i].1 == (if bounds[i].1.Grid? then IndexSpan(bounds[i].1.choices) else bounds[i].1)
    ensures forall key :: key in r.1 ==> exists i :: 0 <= i < |bounds| && bounds[i].0 == key && bounds[i].1.Grid?
    ensures Keyed(bounds) ==> forall i :: 0 <= i < |bounds| && bounds[i].1.Grid? ==>
      bounds[i].0 in r.1 && r.1[bounds[i].0] == IndexMap(bounds[i].1.choices)
  {
    if |bounds| == 0 then ([], map[])
    else
      var n := |bounds| - 1;
      var (key, b) := bounds[n];
      var (nb, bm) := Encode(bounds[..n]);
      assert Keyed(bounds) ==> Keyed(bounds[..n]);
      if b.Grid? then (nb + [(key, IndexSpan(b.choices))], bm[key := IndexMap(b.choices)])
      else (nb + [(key, b)], bm)
  }

  /** The grid index a value stands for: an integer, or a real equal to one (as a dictionary key). */
  function AsIndex(v: Value): (r: Option<int>)
    ensures v.Int? ==> r == Some(v.i)
    ensures v.Text? ==> r.None?
  {
    match v
    case Int(i) => Some(i)
    case Real(x) => if x.Floor as real == x then Some(x.Floor) else None
    case Text(_) => None
  }

  /** The grid entry at position i of `ind` names a position of the map under `key`. */
  predicate Resolves(ind: seq<Value>, i: nat, key: string, bmap: map<string, map<int, Value>>)
    requires i < |ind|
  {
    key in bmap && AsIndex(ind[i]).Some? && AsIndex(ind[i]).value in bmap[key]
  }

  /**
   `decode_discrete_to_grid`: position i of the individual stands for the i-th variable; a
   grid variable's position is looked up in its map, any other is copied.
   */
  function Decode(ind: seq<Value>, bounds: Bounds, bmap: map<string, map<int, Value>>): (r: Result<seq<Value>, DiscreteError>)
    ensures r.Ok? <==> (|ind| >= |bounds| &&
      forall i :: 0 <= i < |bounds| && bounds[i].1.Grid? ==> Resolves(ind, i, bounds[i].0, bmap))
    ensures r.Ok? ==> |r.value| == |bounds|
    ensures r.Ok? ==> forall i :: 0 <= i < |bounds| ==>
      r.value[i] == if bounds[i].1.Grid? then bmap[bounds[i].0][AsIndex(ind[i]).value] else ind[i]
    ensures r.Err? && |ind| >= |bounds| ==> r.error == UnknownIndex
  {
    if |bounds| == 0 then Ok([])
    else
      var n := |bounds| - 1;
      var init :- Decode(ind, bounds[..n], bmap);
      var (key, b) := bounds[n];
      if n >= |ind| then Err(ShortIndividual)
      else if b.Grid? && !Resolves(ind, n, key, bmap) then Err(UnknownIndex)
      else Ok(init + [if b.Grid? then bmap[key][AsIndex(ind[n]).value] else ind[n]])
  }

  /** Position of the first occurrence of `v`. */
  function IndexOf(xs: seq<Value>, v: Value): (k: nat)
    requires v in xs
    ensures k < |xs| && xs[k] == v
  {
    if xs[0] == v then 0 else 1 + IndexOf(xs[1..], v)
  }

  /** A point in the grid space: every grid variable holds one of its choices. */
  predicate OnGrid(p: seq<Value>, bounds: Bounds)
  {
    |p| == |bounds| && forall i :: 0 <= i < |bounds| && bounds[i].1.Grid? ==> p[i] in bounds[i].1.choices
  }

  /** The integer individual a grid point stands for: each choice replaced by its position. */
  function Indices(p: seq<Value>, bounds: Bounds): (r: seq<Value>)
    requires OnGrid(p, bounds)
    ensures |r| == |bounds|
    ensures forall i :: 0 <= i < |bounds| && bounds[i].1.Grid? ==> r[i].Int? && 0 <= r[i].i < |bounds[i].1.choices|
    ensures forall i :: 0 <= i < |bounds| && !bounds[i].1.Grid? ==> r[i] == p[i]
  {
    seq(|bounds|, i requires 0 <= i < |bounds| =>
      if bounds[i].1.Grid? then Int(IndexOf(bounds[i].1.choices, p[i])) else p[i])
  }

  /** Decoding the positions of a grid point under the encoding's maps gives the point back. */
  lemma DecodeIndices(p: seq<Value>, bounds: Bounds)
    requires Keyed(bounds) && OnGrid(p, bounds)
    ensures Decode(Indices(p, bounds), bounds, Encode(bounds).1) == Ok(p)
  {
    var ind := Indices(p, bounds);
    DecodeWithinSpan(ind, bounds);
    var r := Decode(ind, bounds, Encode(bounds).1).value;
    forall i | 0 <= i < |bounds|
      ensures r[i] == p[i]
    {
      if bounds[i].1.Grid? {
        assert r[i] == bounds[i].1.choices[ind[i].i];
      }
    }
    assert r == p;
  }

  /**
   An individual within the encoded bounds (an integer position for every grid variable)
   always decodes, and the grid variables get the choices at those positions.
   */
  lemma DecodeWithinSpan(ind: seq<Value>, bounds: Bounds)
    requires Keyed(bounds) && |ind| >= |bounds|
    requires forall i :: 0 <= i < |bounds| && bounds[i].1.Grid? ==> ind[i].Int? && 0 <= ind[i].i < |bounds[i].1.choices|
    ensures var r := Decode(ind, bounds, Encode(bounds).1);
      r.Ok? && forall i :: 0 <= i < |bounds| && bounds[i].1.Grid? ==> r.value[i] == bounds[i].1.choices[ind[i].i]
  {
    var bmap := Encode(bounds).1;
    forall i | 0 <= i < |bounds| && bounds[i].1.Grid?
      ensures Resolves(ind, i, bounds[i].0, bmap)
    {
      assert bmap[bounds[i].0] == IndexMap(bounds[i].1.choices);
    }
  }
}
