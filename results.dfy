/** Failure-compatible wrappers shared by the parsers and decoders, and the
    all-or-nothing list mapping used for feed items and search results. */
module Results {

  datatype Option<+T> = None | Some(value: T) {
    predicate IsFailure() { None? }
    function PropagateFailure<U>(): Option<U> requires None? { None }
    function Extract(): T requires Some? { value }
  }

  /** The Python exception a failing call raises, with what it was raised about. */
  datatype Error =
    | ValueError(text: string)          // int() or strptime() rejected `text`, or `H:M:S` unpacking failed
    | IndexError(tagName: string)       // getElementsByTagName(tagName)[0] on an empty list
    | AttributeError(tagName: string)   // the first `tagName` element has no first child, or no nodeValue
    | KeyError(key: string)             // attributes[key] or dict[key] with the key absent
    | TypeError                         // a subscript or an iteration on a JSON value of the wrong kind

  datatype Result<+T> = Success(value: T) | Failure(error: Error) {
    predicate IsFailure() { Failure? }
    function PropagateFailure<U>(): Result<U> requires Failure? { Failure(error) }
    function Extract(): T requires Success? { value }
  }

  /** `[f(x) for x in xs]` when `f` may raise: the first element that fails
      fails the whole comprehension with its error; otherwise every element is
      mapped, in order. */
  function MapAll<A, B>(f: A -> Result<B>, xs: seq<A>): (r: Result<seq<B>>)
    ensures r.Success? <==> forall i :: 0 <= i < |xs| ==> f(xs[i]).Success?
    ensures r.Success? ==> |r.value| == |xs| && forall i :: 0 <= i < |xs| ==> r.value[i] == f(xs[i]).value
    ensures r.Failure? ==> FailsFirstAt(f, xs, FirstFailure(f, xs)) && r.error == f(xs[FirstFailure(f, xs)]).error
  {
    if xs == [] then Success([])
    else
      var head :- f(xs[0]);
      var tail :- MapAll(f, xs[1..]);
      Success([head] + tail)
  }

  /** Mapping succeeds with `ys` exactly when each element maps to its
      counterpart in `ys`. */
  lemma {:induction false} MapAllTo<A, B>(f: A -> Result<B>, xs: seq<A>, ys: seq<B>)
    requires |xs| == |ys|
    requires forall i :: 0 <= i < |xs| ==> f(xs[i]).Success? && f(xs[i]).value == ys[i]
    ensures MapAll(f, xs) == Success(ys)
  {
    var r := MapAll(f, xs);
    assert r.Success?;
    assert r.value == ys;
  }

  /** `r` is what `[f(x) for x in xs]` gives: a success exactly when every
      element maps, holding at each position the value its element maps to;
      otherwise the error of the first element that fails. */
  ghost predicate IsComprehension<A, B>(f: A -> Result<B>, xs: seq<A>, r: Result<seq<B>>) {
    && (r.Success? <==> forall i :: 0 <= i < |xs| ==> f(xs[i]).Success?)
    && (r.Success? ==> |r.value| == |xs| && forall i :: 0 <= i < |xs| ==> f(xs[i]) == Success(r.value[i]))
    && (r.Failure? ==> FailsFirstAt(f, xs, FirstFailure(f, xs)) && f(xs[FirstFailure(f, xs)]) == Failure(r.error))
  }

  lemma {:induction false} MapAllIsComprehension<A, B>(f: A -> Result<B>, xs: seq<A>)
    ensures IsComprehension(f, xs, MapAll(f, xs))
  {
    var r := MapAll(f, xs);
    if r.Success? {
      forall i | 0 <= i < |xs| ensures f(xs[i]) == Success(r.value[i]) {
        assert f(xs[i]).Success?;
      }
    }
  }

  /** Element `i` fails and every element before it succeeds. */
  predicate FailsFirstAt<A, B>(f: A -> Result<B>, xs: seq<A>, i: int) {
    && 0 <= i < |xs|
    && f(xs[i]).Failure?
    && forall j :: 0 <= j < i ==> f(xs[j]).Success?
  }

  /** Index of the first element `f` fails on (`|xs|` when there is none). */
  function FirstFailure<A, B>(f: A -> Result<B>, xs: seq<A>): (i: nat)
    ensures i <= |xs|
    ensures forall j :: 0 <= j < i ==> f(xs[j]).Success?
    ensures i < |xs| ==> f(xs[i]).Failure?
  {
    if xs == [] || f(xs[0]).Failure? then 0 else 1 + FirstFailure(f, xs[1..])
  }

  /** The first failure is where the elements stop succeeding. */
  lemma {:induction false} FirstFailureAt<A, B>(f: A -> Result<B>, xs: seq<A>, i: int)
    requires FailsFirstAt(f, xs, i)
    ensures FirstFailure(f, xs) == i
  {
  }
}
