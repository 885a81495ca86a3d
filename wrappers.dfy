/** The optional value used wherever the source returns an `Option`, and `filter_map` over it. */
module Wrappers {

  datatype Option<+T> = None | Some(value: T)

  /** `Iterator::filter_map`: the values `f` keeps, in order. */
  function FilterMap<A, B>(f: A -> Option<B>, xs: seq<A>): seq<B>
  {
    if xs == [] then []
    else
      match f(xs[0])
      case Some(y) => [y] + FilterMap(f, xs[1..])
      case None => FilterMap(f, xs[1..])
  }

  /** What `filter_map` keeps comes from an element, and every kept value is there. */
  lemma {:induction false} FilterMapMembers<A, B>(f: A -> Option<B>, xs: seq<A>, y: B)
    ensures y in FilterMap(f, xs) <==> exists i :: 0 <= i < |xs| && f(xs[i]) == Some(y)
  {
    if xs != [] {
      FilterMapMembers(f, xs[1..], y);
      assert forall i :: 0 < i < |xs| ==> xs[1..][i - 1] == xs[i];
      if y in FilterMap(f, xs[1..]) {
        var i :| 0 <= i < |xs[1..]| && f(xs[1..][i]) == Some(y);
        assert f(xs[i + 1]) == Some(y);
      }
    }
  }

  /** `filter_map` keeps the order: two lists one after the other give their values one after the other. */
  lemma {:induction false} FilterMapAppend<A, B>(f: A -> Option<B>, xs: seq<A>, ys: seq<A>)
    ensures FilterMap(f, xs + ys) == FilterMap(f, xs) + FilterMap(f, ys)
    decreases |xs|
  {
    if xs == [] {
      assert xs + ys == ys;
    } else {
      assert (xs + ys)[0] == xs[0] && (xs + ys)[1..] == xs[1..] + ys;
      FilterMapAppend(f, xs[1..], ys);
      if f(xs[0]).Some? {
        assert [f(xs[0]).value] + (FilterMap(f, xs[1..]) + FilterMap(f, ys))
          == [f(xs[0]).value] + FilterMap(f, xs[1..]) + FilterMap(f, ys);
      }
    }
  }

  /** When `f` keeps every element, `filter_map` is one value per element, in order. */
  lemma {:induction false} FilterMapAll<A, B>(f: A -> Option<B>, xs: seq<A>)
    requires forall i :: 0 <= i < |xs| ==> f(xs[i]).Some?
    ensures |FilterMap(f, xs)| == |xs|
    ensures forall i :: 0 <= i < |xs| ==> FilterMap(f, xs)[i] == f(xs[i]).value
  {
    if xs != [] {
      assert forall i :: 0 < i < |xs| ==> xs[1..][i - 1] == xs[i];
      FilterMapAll(f, xs[1..]);
    }
  }

}
