/** Failure-carrying values used throughout the model.

    The script has no error handling of its own: every failure is a Python
    exception that ends the run. `Error` names the three exceptions the
    modelled code can raise, and `Result` carries either a value or the first
    exception raised while computing it.
 */
module Outcomes {

  /** An attribute or a parsed number that may be absent. */
  datatype Option<T> = None | Some(value: T)

  /** The exceptions raised by the modelled part of the script. */
  datatype Error =
    | KeyError(key: string)     // a dictionary has no entry for `key`
    | IndexError                // a split line has too few fields
    | ValueError(text: string)  // `float` cannot read `text`

  /** Either what a step computed or the exception that stopped it; the
      three members let `:-` pass the exception on. */
  datatype Result<T> = Ok(value: T) | Err(error: Error) {
    predicate IsFailure() { Err? }

    function PropagateFailure<U>(): Result<U>
      requires Err?
    {
      Err(error)
    }

    function Extract(): T
      requires Ok?
    {
      value
    }
  }

  /** Apply `f` to each element in order; the first failure ends the loop. */
  function MapAll<X, T>(xs: seq<X>, f: X -> Result<T>): (r: Result<seq<T>>)
    ensures r.Ok? <==> forall i :: 0 <= i < |xs| ==> f(xs[i]).Ok?
    ensures r.Ok? ==> |r.value| == |xs| && forall i :: 0 <= i < |xs| ==> f(xs[i]) == Ok(r.value[i])
    ensures r.Err? ==>
              exists i :: 0 <= i < |xs| && f(xs[i]) == Err(r.error) &&
                          forall j :: 0 <= j < i ==> f(xs[j]).Ok?
    decreases |xs|
  {
    if |xs| == 0 then Ok([])
    else
      assert forall i :: 0 < i < |xs| ==> xs[1..][i - 1] == xs[i];
      match f(xs[0])
      case Err(e) => Err(e)
      case Ok(y) =>
        match MapAll(xs[1..], f)
        case Err(e) =>
          assert exists i :: 0 < i < |xs| && f(xs[i]) == Err(e) && forall j :: 0 <= j < i ==> f(xs[j]).Ok? by {
            var i :| 0 <= i < |xs| - 1 && f(xs[1..][i]) == Err(e) && forall j :: 0 <= j < i ==> f(xs[1..][j]).Ok?;
            assert f(xs[i + 1]) == Err(e);
          }
          Err(e)
        case Ok(ys) => Ok([y] + ys)
  }

  /** The results of the steps that complete before the first failure: all
      of them when no step fails. */
  function Completed<X, T>(xs: seq<X>, f: X -> Result<T>): (done: seq<T>)
    ensures |done| <= |xs|
    ensures forall i :: 0 <= i < |done| ==> f(xs[i]) == Ok(done[i])
    ensures |done| < |xs| ==> f(xs[|done|]).Err?
    decreases |xs|
  {
    if |xs| == 0 then []
    else
      match f(xs[0])
      case Err(_) => []
      case Ok(y) =>
        var rest := Completed(xs[1..], f);
        assert forall i :: 0 <= i < |rest| ==> xs[1..][i] == xs[i + 1];
        [y] + rest
  }

  /** The steps completed before `MapAll` stops: every step when it
      succeeds; otherwise those before the failing step, whose error it returns. */
  lemma CompletedOfMapAll<X, T>(xs: seq<X>, f: X -> Result<T>)
    ensures MapAll(xs, f).Ok? <==> |Completed(xs, f)| == |xs|
    ensures MapAll(xs, f).Ok? ==> Completed(xs, f) == MapAll(xs, f).value
    ensures MapAll(xs, f).Err? ==>
              |Completed(xs, f)| < |xs| && f(xs[|Completed(xs, f)|]) == Err(MapAll(xs, f).error)
  {
    var done, r := Completed(xs, f), MapAll(xs, f);
    if r.Err? {
      var i :| 0 <= i < |xs| && f(xs[i]) == Err(r.error) && forall j :: 0 <= j < i ==> f(xs[j]).Ok?;
    }
  }
}
