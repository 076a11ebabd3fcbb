/**
 * The read-only operations lists and vectors share: `first` and its
 * fallbacks, `last`, `rest` and `contains`. Both are sequences of values here.
 */
module Items {
  import opened Wrappers
  import opened Values

  predicate IsEmpty(xs: seq<Value>) { |xs| == 0 }
  predicate IsNonempty(xs: seq<Value>) { !IsEmpty(xs) }

  /** The element at the front, if there is one. */
  function First(xs: seq<Value>): (r: Option<Value>)
    ensures r.Some? <==> IsNonempty(xs)
    ensures r.Some? ==> r.value == xs[0]
  {
    if xs == [] then None else Some(xs[0])
  }

  /** The element at the back, if there is one. */
  function Last(xs: seq<Value>): (r: Option<Value>)
    ensures r.Some? <==> IsNonempty(xs)
    ensures r.Some? ==> r.value == xs[|xs| - 1]
  {
    if xs == [] then None else Some(xs[|xs| - 1])
  }

  /** Everything after the first element; the rest of an empty sequence is empty. */
  function Rest(xs: seq<Value>): (r: seq<Value>)
    ensures IsEmpty(xs) ==> r == []
    ensures IsNonempty(xs) ==> xs == [xs[0]] + r
  {
    if xs == [] then [] else xs[1..]
  }

  /** `first_or`: the first element, or the given value when there is none. */
  function FirstOr(xs: seq<Value>, fallback: Value): (r: Value)
    ensures First(xs).Some? ==> r == First(xs).value
    ensures First(xs).None? ==> r == fallback
  {
    match First(xs)
    case Some(v) => v
    case None => fallback
  }

  /** `first_or_nil`: the first element, or nil. */
  function FirstOrNil(xs: seq<Value>): (r: Value)
    ensures IsNonempty(xs) ==> r == xs[0]
    ensures IsEmpty(xs) ==> r == Nil
  {
    FirstOr(xs, Nil)
  }

  /** `first_or_else`: the first element, or what the fallback produces. */
  function FirstOrElse(xs: seq<Value>, orElse: () -> Value): (r: Value)
    ensures IsNonempty(xs) ==> r == xs[0]
    ensures IsEmpty(xs) ==> r == orElse()
  {
    match First(xs)
    case Some(v) => v
    case None => orElse()
  }

  /** `contains`: some element is `PartialEq`-equal to `v`, searching from the front. */
  predicate Contains(xs: seq<Value>, v: Value)
  {
    xs != [] && (ValueEq(xs[0], v) || Contains(xs[1..], v))
  }

  /** The front-to-back search finds an element exactly when some position holds an equal one. */
  lemma {:induction false} ContainsMeansSomePosition(xs: seq<Value>, v: Value)
    ensures Contains(xs, v) <==> exists i | 0 <= i < |xs| :: ValueEq(xs[i], v)
  {
    if xs != [] {
      ContainsMeansSomePosition(xs[1..], v);
      if !ValueEq(xs[0], v) && exists i | 0 <= i < |xs| :: ValueEq(xs[i], v) {
        var i :| 0 <= i < |xs| && ValueEq(xs[i], v);
        assert xs[1..][i - 1] == xs[i];
      }
    }
  }

  /**
   * `contains` agrees with membership for every value without a handle; a
   * handle is never found, even in a sequence that holds it.
   */
  lemma ContainsIsMembership(xs: seq<Value>, v: Value)
    ensures Contains(xs, v) ==> v in xs
    ensures !HasHandle(v) && v in xs ==> Contains(xs, v)
    ensures v.Handle? ==> !Contains(xs, v)
  {
    ContainsMeansSomePosition(xs, v);
    if Contains(xs, v) {
      var i :| 0 <= i < |xs| && ValueEq(xs[i], v);
      ValueEqIsIdentity(xs[i], v);
    }
    if !HasHandle(v) && v in xs {
      var i :| 0 <= i < |xs| && xs[i] == v;
      ValueEqReflexive(v);
    }
  }

  /** `first` and `rest` take a non-empty sequence apart without loss, one element shorter. */
  lemma FirstRestRebuild(xs: seq<Value>)
    requires IsNonempty(xs)
    ensures [First(xs).value] + Rest(xs) == xs
    ensures |Rest(xs)| == |xs| - 1
    ensures Last(xs) == if |xs| == 1 then First(xs) else Last(Rest(xs))
  {
  }
}
