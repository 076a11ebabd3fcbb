/**
 * The persistent vector: a sequence whose cheap end is the back. `push_back`
 * returns a new vector; the mutable wrapper updates its own in place.
 */
module Vectors {
  import opened Wrappers
  import opened Values
  import opened Items

  function NewEmpty(): (r: seq<Value>)
    ensures IsEmpty(r) && First(r).None? && Last(r).None?
  {
    []
  }

  /** A vector with `xs` in front and `v` at the back. */
  function PushBack(xs: seq<Value>, v: Value): (r: seq<Value>)
    ensures Last(r) == Some(v)
    ensures |r| == |xs| + 1 && r[..|xs|] == xs
  {
    xs + [v]
  }

  /** `drop_last`: the vector without its back element, or nothing for an empty vector. */
  function DropLast(xs: seq<Value>): (r: Option<seq<Value>>)
    ensures r.Some? <==> IsNonempty(xs)
    ensures r.Some? ==> PushBack(r.value, Last(xs).value) == xs
  {
    if xs == [] then None else Some(xs[..|xs| - 1])
  }

  /** Dropping the back undoes pushing it, and pushing at the back keeps the front. */
  lemma PushBackRoundTrip(xs: seq<Value>, v: Value, w: Value)
    ensures DropLast(PushBack(xs, v)) == Some(xs)
    ensures IsNonempty(xs) ==> First(PushBack(xs, v)) == First(xs)
    ensures Contains(PushBack(xs, v), w) <==> Contains(xs, w) || ValueEq(v, w)
  {
    var r := PushBack(xs, v);
    assert r[..|xs|] == xs;
    ContainsMeansSomePosition(r, w);
    ContainsMeansSomePosition(xs, w);
    if Contains(xs, w) {
      var i :| 0 <= i < |xs| && ValueEq(xs[i], w);
      assert r[i] == xs[i];
    }
  }

  /** A vector value updated in place (the `mut-api` methods). */
  class MutableVector {
    var items: seq<Value>

    constructor NewEmpty()
      ensures items == []
    {
      items := [];
    }

    method PushBackMut(v: Value)
      modifies this
      ensures items == PushBack(old(items), v)
    {
      items := items + [v];
    }

    /** Drops the back element and says whether there was one; an empty vector is left as it is. */
    method DropLastMut() returns (dropped: bool)
      modifies this
      ensures dropped <==> DropLast(old(items)).Some?
      ensures items == if dropped then DropLast(old(items)).value else old(items)
    {
      if items == [] {
        dropped := false;
      } else {
        items := items[..|items| - 1];
        dropped := true;
      }
    }
  }
}
