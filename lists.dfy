/**
 * The persistent list: a sequence whose cheap end is the front. `push_front`
 * returns a new list; the mutable wrapper updates its own in place.
 */
module Lists {
  import opened Wrappers
  import opened Values
  import opened Items

  function NewEmpty(): (r: seq<Value>)
    ensures IsEmpty(r) && First(r).None? && Last(r).None?
  {
    []
  }

  /** A list with `v` at the front and `xs` behind it. */
  function PushFront(xs: seq<Value>, v: Value): (r: seq<Value>)
    ensures First(r) == Some(v)
    ensures Rest(r) == xs
  {
    [v] + xs
  }

  /** Pushing at the front leaves the back alone and adds exactly one searchable element. */
  lemma PushFrontKeepsTheRest(xs: seq<Value>, v: Value, w: Value)
    ensures |PushFront(xs, v)| == |xs| + 1
    ensures IsNonempty(xs) ==> Last(PushFront(xs, v)) == Last(xs)
    ensures Contains(PushFront(xs, v), w) <==> ValueEq(v, w) || Contains(xs, w)
  {
    assert PushFront(xs, v)[1..] == xs;
  }

  /** A list value updated in place (the `mut-api` methods). */
  class MutableList {
    var items: seq<Value>

    constructor NewEmpty()
      ensures items == []
    {
      items := [];
    }

    method PushFrontMut(v: Value)
      modifies this
      ensures items == PushFront(old(items), v)
    {
      items := [v] + items;
    }

    /** Drops the front element; on an empty list nothing changes. */
    method DropFirstMut()
      modifies this
      ensures items == Rest(old(items))
    {
      if items != [] {
        items := items[1..];
      }
    }
  }
}
