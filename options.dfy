// Optional values and the outcome of a call that may throw.

module Options {

  /** A value that may be absent: `undefined` in JavaScript terms. */
  datatype Option<+T> = None | Some(value: T)

  /** The outcome of a JavaScript call: a value, or an exception that escaped it. */
  datatype Result<+T> = Ok(value: T) | Thrown

  /** `xs.forEach(x => out.push(f(x)))`: the results of `f` in order, or `Thrown` at the first throw. */
  function MapAll<A, B>(xs: seq<A>, f: A -> Result<B>): (r: Result<seq<B>>)
    ensures r.Ok? ==> |r.value| == |xs| && forall i :: 0 <= i < |xs| ==> f(xs[i]) == Ok(r.value[i])
    ensures r.Thrown? <==> exists i :: 0 <= i < |xs| && f(xs[i]).Thrown?
  {
    if xs == [] then Ok([])
    else
      match f(xs[0])
      case Thrown => Thrown
      case Ok(y) =>
        match MapAll(xs[1..], f)
        case Thrown =>
          assert exists i :: 0 <= i < |xs[1..]| && f(xs[1..][i]).Thrown?;
          Thrown
        case Ok(ys) => Ok([y] + ys)
  }
}
