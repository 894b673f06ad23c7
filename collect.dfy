/** Applying a fallible step to every element of a sequence, stopping at the
    first failure: the shape of a crawler's element loop, where an exception
    raised for one element ends the page. */
module Collect {
  import opened Wrappers

  /** Prefixes already-collected values to the result of the rest. */
  function Prepend<B, E>(done: seq<B>, r: Result<seq<B>, E>): (p: Result<seq<B>, E>)
    ensures p.Ok? <==> r.Ok?
    ensures p.Ok? ==> p.value == done + r.value
    ensures p.Err? ==> p.error == r.error
  {
    match r
    case Ok(rest) => Ok(done + rest)
    case Err(e) => Err(e)
  }

  /** The values of `f` on `xs` in order, or the error of the first element
      on which `f` fails. */
  function MapAll<A, B, E>(f: A -> Result<B, E>, xs: seq<A>): Result<seq<B>, E> {
    if xs == [] then Ok([])
    else match f(xs[0])
      case Err(e) => Err(e)
      case Ok(y) => Prepend([y], MapAll(f, xs[1..]))
  }

  /** MapAll succeeds exactly when `f` succeeds on every element, and then
      yields one value per element, in order; when it fails, its error is the
      error of an element on which `f` fails and before which `f` succeeds. */
  lemma {:induction false} MapAllSpec<A, B, E>(f: A -> Result<B, E>, xs: seq<A>)
    ensures MapAll(f, xs).Ok? <==> forall i :: 0 <= i < |xs| ==> f(xs[i]).Ok?
    ensures MapAll(f, xs).Ok? ==>
      && |MapAll(f, xs).value| == |xs|
      && forall i :: 0 <= i < |xs| ==> MapAll(f, xs).value[i] == f(xs[i]).value
    ensures MapAll(f, xs).Err? ==>
      exists i :: && 0 <= i < |xs|
                  && f(xs[i]) == Err(MapAll(f, xs).error)
                  && forall j :: 0 <= j < i ==> f(xs[j]).Ok?
  {
    if xs != [] {
      MapAllSpec(f, xs[1..]);
      var r := MapAll(f, xs);
      if f(xs[0]).Ok? {
        assert forall i :: 0 < i < |xs| ==> xs[i] == xs[1..][i - 1];
        if r.Err? {
          var i :| && 0 <= i < |xs[1..]|
                   && f(xs[1..][i]) == Err(r.error)
                   && forall j :: 0 <= j < i ==> f(xs[1..][j]).Ok?;
          assert f(xs[i + 1]) == Err(r.error);
        }
      } else {
        assert f(xs[0]) == Err(r.error);
      }
    }
  }

  /** The element loop itself. */
  method CollectAll<A, B, E>(f: A -> Result<B, E>, xs: seq<A>) returns (r: Result<seq<B>, E>)
    ensures r == MapAll(f, xs)
  {
    var done: seq<B> := [];
    assert xs[0..] == xs;
    if MapAll(f, xs).Ok? {
      assert [] + MapAll(f, xs).value == MapAll(f, xs).value;
    }
    for i := 0 to |xs|
      invariant MapAll(f, xs) == Prepend(done, MapAll(f, xs[i..]))
    {
      assert xs[i..][1..] == xs[i + 1..];
      var y := f(xs[i]);
      if y.Err? {
        return Err(y.error);
      }
      if MapAll(f, xs[i + 1..]).Ok? {
        assert done + [y.value] + MapAll(f, xs[i + 1..]).value == done + ([y.value] + MapAll(f, xs[i + 1..]).value);
      }
      done := done + [y.value];
    }
    assert xs[|xs|..] == [] && done + [] == done;
    return Ok(done);
  }
}
