/** Option and Result, the failure-carrying values used across the model. */
module Wrappers {

  datatype Option<+T> = None | Some(value: T) {
    /** The value, or `d` when there is none (JavaScript's `??`). */
    function GetOr(d: T): T {
      match this
      case Some(v) => v
      case None => d
    }
  }

  datatype Result<+T, +E> = Ok(value: T) | Err(error: E)

  /** The first present element of `xs`: a chain of `??` alternatives. */
  function FirstSome<T>(xs: seq<Option<T>>): (r: Option<T>)
    ensures r.None? <==> forall i :: 0 <= i < |xs| ==> xs[i].None?
    ensures r.Some? ==> exists i :: 0 <= i < |xs| && xs[i] == r && forall j :: 0 <= j < i ==> xs[j].None?
  {
    if xs == [] then None
    else if xs[0].Some? then xs[0]
    else
      var r := FirstSome(xs[1..]);
      assert r.Some? ==> exists i :: 0 <= i < |xs[1..]| && xs[1..][i] == r && forall j :: 0 <= j < i ==> xs[1..][j].None?;
      assert r.Some? ==> exists i :: 1 <= i < |xs| && xs[i] == r && forall j :: 0 <= j < i ==> xs[j].None? by {
        if r.Some? {
          var i :| 0 <= i < |xs[1..]| && xs[1..][i] == r && forall j :: 0 <= j < i ==> xs[1..][j].None?;
          assert xs[i + 1] == r;
          assert forall j :: 0 <= j < i + 1 ==> xs[j].None? by {
            forall j | 0 <= j < i + 1 ensures xs[j].None? {
              if j > 0 { assert xs[j] == xs[1..][j - 1]; }
            }
          }
        }
      }
      r
  }
}
