/** Generic `map`/`filter`/`flatMap` over sequences, with the membership facts
    the modelled array pipelines rely on proved once. */
module Lists {
  /** `xs.map(f).filter(keep)`. */
  function FilterMap<A, B>(xs: seq<A>, f: A -> B, keep: B -> bool): (ys: seq<B>)
    ensures |ys| <= |xs|
    ensures forall k :: 0 <= k < |ys| ==> keep(ys[k])
    ensures forall j :: 0 <= j < |xs| && keep(f(xs[j])) ==> f(xs[j]) in ys
  {
    if |xs| == 0 then []
    else
      var y := f(xs[0]);
      var rest := FilterMap(xs[1..], f, keep);
      assert forall j :: 1 <= j < |xs| ==> xs[j] == xs[1..][j - 1];
      (if keep(y) then [y] else []) + rest
  }

  /** Every kept element is the image of some input element. */
  lemma {:induction false} FilterMapOrigin<A, B>(xs: seq<A>, f: A -> B, keep: B -> bool, y: B)
    requires y in FilterMap(xs, f, keep)
    ensures exists j :: 0 <= j < |xs| && f(xs[j]) == y
  {
    if |xs| > 0 {
      var rest := FilterMap(xs[1..], f, keep);
      assert FilterMap(xs, f, keep) == (if keep(f(xs[0])) then [f(xs[0])] else []) + rest;
      if y != f(xs[0]) {
        FilterMapOrigin(xs[1..], f, keep, y);
        var j :| 0 <= j < |xs| - 1 && f(xs[1..][j]) == y;
        assert xs[1..][j] == xs[j + 1];
      }
    }
  }

  /** When every element is kept and `f` fixes it, nothing changes. */
  lemma {:induction false} FilterMapFixed<A>(xs: seq<A>, f: A -> A, keep: A -> bool)
    requires forall x :: x in xs ==> f(x) == x && keep(x)
    ensures FilterMap(xs, f, keep) == xs
  {
    if |xs| > 0 {
      var tail := xs[1..];
      assert forall x :: x in tail ==> x in xs;
      FilterMapFixed(tail, f, keep);
      assert f(xs[0]) == xs[0] && keep(xs[0]);
      assert FilterMap(xs, f, keep) == [xs[0]] + FilterMap(tail, f, keep);
      assert [xs[0]] + tail == xs;
    }
  }

  /** `xs.flatMap(f)`. */
  function FlatMap<A, B>(xs: seq<A>, f: A -> seq<B>): (ys: seq<B>)
    ensures forall j, y :: 0 <= j < |xs| && y in f(xs[j]) ==> y in ys
    ensures forall y :: y in ys ==> (exists j :: 0 <= j < |xs| && y in f(xs[j]))
  {
    if |xs| == 0 then []
    else
      var rest := FlatMap(xs[1..], f);
      assert forall j :: 1 <= j < |xs| ==> xs[j] == xs[1..][j - 1];
      f(xs[0]) + rest
  }

  /** Appending an element that contributes nothing leaves the result alone. */
  lemma {:induction false} FlatMapSilent<A, B>(xs: seq<A>, x: A, f: A -> seq<B>)
    requires f(x) == []
    ensures FlatMap(xs + [x], f) == FlatMap(xs, f)
  {
    if |xs| == 0 {
      assert FlatMap([x], f) == f(x) + FlatMap([x][1..], f);
    } else {
      assert (xs + [x])[1..] == xs[1..] + [x];
      FlatMapSilent(xs[1..], x, f);
    }
  }
}
