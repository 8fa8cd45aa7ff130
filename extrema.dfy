/** The running extremum the `min` and `max` loops of both vector classes
    keep for one component: `if (cur > c) cur = c` (resp. `cur < c`) for each
    candidate `c` in turn. */
module Extrema {
  import opened JsValues

  /** One step of a `min` loop. */
  function Lower(cur: real, candidate: real): real {
    if cur > candidate then candidate else cur
  }

  /** One step of a `max` loop. */
  function Higher(cur: real, candidate: real): real {
    if cur < candidate then candidate else cur
  }

  /** The value a `min` loop ends with, starting from `start` and visiting
      `xs` in order. */
  function FoldLower(start: real, xs: seq<real>): real
    decreases |xs|
  {
    if xs == [] then start else Lower(FoldLower(start, xs[..|xs| - 1]), xs[|xs| - 1])
  }

  /** The value a `max` loop ends with. */
  function FoldHigher(start: real, xs: seq<real>): real
    decreases |xs|
  {
    if xs == [] then start else Higher(FoldHigher(start, xs[..|xs| - 1]), xs[|xs| - 1])
  }

  /** The `min` loop's result is a lower bound of the start and of every
      candidate, and it is one of them. */
  lemma {:induction false} FoldLowerBounds(start: real, xs: seq<real>)
    ensures FoldLower(start, xs) <= start
    ensures forall i :: 0 <= i < |xs| ==> FoldLower(start, xs) <= xs[i]
    ensures FoldLower(start, xs) == start || exists i :: 0 <= i < |xs| && FoldLower(start, xs) == xs[i]
  {
    if xs != [] {
      var n := |xs| - 1;
      var prefix := xs[..n];
      FoldLowerBounds(start, prefix);
      var m := FoldLower(start, prefix);
      assert FoldLower(start, xs) == Lower(m, xs[n]);
      forall i | 0 <= i < |xs|
        ensures FoldLower(start, xs) <= xs[i]
      {
        if i < n {
          assert prefix[i] == xs[i];
        }
      }
      if FoldLower(start, xs) != start && FoldLower(start, xs) != xs[n] {
        assert FoldLower(start, xs) == m;
        var j :| 0 <= j < |prefix| && m == prefix[j];
        assert xs[j] == prefix[j];
      }
    }
  }

  /** The `max` loop's result is an upper bound of the start and of every
      candidate, and it is one of them. */
  lemma {:induction false} FoldHigherBounds(start: real, xs: seq<real>)
    ensures FoldHigher(start, xs) >= start
    ensures forall i :: 0 <= i < |xs| ==> FoldHigher(start, xs) >= xs[i]
    ensures FoldHigher(start, xs) == start || exists i :: 0 <= i < |xs| && FoldHigher(start, xs) == xs[i]
  {
    if xs != [] {
      var n := |xs| - 1;
      var prefix := xs[..n];
      FoldHigherBounds(start, prefix);
      var m := FoldHigher(start, prefix);
      assert FoldHigher(start, xs) == Higher(m, xs[n]);
      forall i | 0 <= i < |xs|
        ensures FoldHigher(start, xs) >= xs[i]
      {
        if i < n {
          assert prefix[i] == xs[i];
        }
      }
      if FoldHigher(start, xs) != start && FoldHigher(start, xs) != xs[n] {
        assert FoldHigher(start, xs) == m;
        var j :| 0 <= j < |prefix| && m == prefix[j];
        assert xs[j] == prefix[j];
      }
    }
  }

  /** The component `key` a `min` loop holds after visiting `vs` in order,
      starting from `cur`: each operand whose component compares below the
      current one replaces it. */
  function Lowest(cur: Num, vs: seq<JsValue>, key: string): Num
    decreases |vs|
  {
    if vs == [] then cur
    else
      var m := Lowest(cur, vs[..|vs| - 1], key);
      var c := Field(vs[|vs| - 1], key);
      if Less(c, m) then c else m
  }

  /** The same for a `max` loop: a component that compares above replaces
      the current one. */
  function Highest(cur: Num, vs: seq<JsValue>, key: string): Num
    decreases |vs|
  {
    if vs == [] then cur
    else
      var m := Highest(cur, vs[..|vs| - 1], key);
      var c := Field(vs[|vs| - 1], key);
      if Less(m, c) then c else m
  }

  /** On finite components the `min` loop computes the fold of `Lower` over
      the column of `key`. */
  lemma {:induction false} LowestIsFold(start: real, vs: seq<JsValue>, key: string)
    requires forall j :: 0 <= j < |vs| ==> Field(vs[j], key).Finite?
    ensures Lowest(Finite(start), vs, key) == Finite(FoldLower(start, Column(vs, key)))
  {
    if vs != [] {
      var n := |vs| - 1;
      assert forall j :: 0 <= j < n ==> vs[..n][j] == vs[j];
      LowestIsFold(start, vs[..n], key);
      assert Column(vs, key) == Column(vs[..n], key) + [FieldReal(vs[n], key)];
      FoldStep(start, Column(vs[..n], key), FieldReal(vs[n], key));
    }
  }

  /** On finite components the `max` loop computes the fold of `Higher`. */
  lemma {:induction false} HighestIsFold(start: real, vs: seq<JsValue>, key: string)
    requires forall j :: 0 <= j < |vs| ==> Field(vs[j], key).Finite?
    ensures Highest(Finite(start), vs, key) == Finite(FoldHigher(start, Column(vs, key)))
  {
    if vs != [] {
      var n := |vs| - 1;
      assert forall j :: 0 <= j < n ==> vs[..n][j] == vs[j];
      HighestIsFold(start, vs[..n], key);
      assert Column(vs, key) == Column(vs[..n], key) + [FieldReal(vs[n], key)];
      FoldStep(start, Column(vs[..n], key), FieldReal(vs[n], key));
    }
  }

  /** Extending the candidates by one is one more loop step. */
  lemma FoldStep(start: real, xs: seq<real>, c: real)
    ensures FoldLower(start, xs + [c]) == Lower(FoldLower(start, xs), c)
    ensures FoldHigher(start, xs + [c]) == Higher(FoldHigher(start, xs), c)
  {
    assert (xs + [c])[..|xs|] == xs;
  }
}
