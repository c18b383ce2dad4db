/** Sequence operations the program performs with `filter`, `map` and `push`, stated once
    for any element type. */
module Lists {
  import opened Wrappers

  /** The present results of `f` over `xs`, in order: a loop that pushes `f(x)` when it is defined. */
  function FilterMap<A, B>(xs: seq<A>, f: A -> Option<B>): (r: seq<B>)
    ensures |r| <= |xs|
  {
    if xs == [] then []
    else
      var last := f(xs[|xs| - 1]);
      FilterMap(xs[..|xs| - 1], f) + (if last.Some? then [last.value] else [])
  }

  /** One more element: what the loop body adds. */
  lemma FilterMapSnoc<A, B>(xs: seq<A>, j: nat, f: A -> Option<B>)
    requires j < |xs|
    ensures FilterMap(xs[..j + 1], f) == FilterMap(xs[..j], f) + (if f(xs[j]).Some? then [f(xs[j]).value] else [])
  {
    assert xs[..j + 1][..j] == xs[..j];
  }

  /** A single element. */
  lemma FilterMapOne<A, B>(x: A, f: A -> Option<B>)
    ensures FilterMap([x], f) == if f(x).Some? then [f(x).value] else []
  {
    assert [x][..0] == [];
  }

  /** Every result is the value of `f` on some element. */
  lemma {:induction false} FilterMapFrom<A, B>(xs: seq<A>, f: A -> Option<B>, y: B)
    requires y in FilterMap(xs, f)
    ensures exists i :: 0 <= i < |xs| && f(xs[i]) == Some(y)
  {
    var n := |xs| - 1;
    var init := xs[..n];
    var last := f(xs[n]);
    assert FilterMap(xs, f) == FilterMap(init, f) + (if last.Some? then [last.value] else []);
    if y in FilterMap(init, f) {
      FilterMapFrom(init, f, y);
      var i :| 0 <= i < |init| && f(init[i]) == Some(y);
      assert init[i] == xs[i];
    } else {
      assert f(xs[n]) == Some(y);
    }
  }

  /** Every defined value of `f` on an element is among the results. */
  lemma {:induction false} FilterMapCovers<A, B>(xs: seq<A>, f: A -> Option<B>, i: nat)
    requires i < |xs| && f(xs[i]).Some?
    ensures f(xs[i]).value in FilterMap(xs, f)
  {
    var n := |xs| - 1;
    var init := xs[..n];
    var last := f(xs[n]);
    assert FilterMap(xs, f) == FilterMap(init, f) + (if last.Some? then [last.value] else []);
    if i < n {
      assert init[i] == xs[i];
      FilterMapCovers(init, f, i);
    }
  }

  /** The parts of a sequence framed by one element on each side. */
  lemma Framed<T>(a: T, xs: seq<T>, b: T)
    ensures var ms := [a] + xs + [b];
      |ms| == |xs| + 2 && ms[0] == a && ms[|ms| - 1] == b &&
      forall k :: 1 <= k <= |xs| ==> ms[k] == xs[k - 1]
  {
  }

  /** Appending to both halves of a concatenation regroups. */
  lemma Assoc<T>(a: seq<T>, b: seq<T>, c: seq<T>)
    ensures (a + b) + c == a + (b + c)
  {
  }
}
