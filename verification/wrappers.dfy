/** Failure-compatible containers shared by every module of the model. */
module Wrappers {

  /** An optional value; `None` plays the role of Python's `None`. */
  datatype Option<+T> = None | Some(value: T)

  /** Either a computed value or the error the original program raises instead. */
  datatype Result<+T, +E> = Ok(value: T) | Err(error: E) {
    predicate IsFailure() { Err? }

    function PropagateFailure<U>(): Result<U, E>
      requires Err?
    {
      Err(error)
    }

    function Extract(): T
      requires Ok?
    {
      value
    }
  }

  /**
   The values of a sequence of results in order, or the error of the first failing one: a
   loop that stops at its first exception.
   */
  function Collect<T, E>(rs: seq<Result<T, E>>): (r: Result<seq<T>, E>)
    ensures r.Ok? <==> forall j :: 0 <= j < |rs| ==> rs[j].Ok?
    ensures r.Ok? ==> |r.value| == |rs| && forall j :: 0 <= j < |rs| ==> rs[j] == Ok(r.value[j])
    ensures r.Err? ==> exists j :: 0 <= j < |rs| && rs[j] == Err(r.error) && forall k :: 0 <= k < j ==> rs[k].Ok?
  {
    if |rs| == 0 then Ok([])
    else
      var x :- rs[0];
      var rest :- Collect(rs[1..]);
      Ok([x] + rest)
  }
}
