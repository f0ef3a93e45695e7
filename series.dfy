/**
 * Reductions over one column, as pandas computes them: `Series.mean()` and
 * `Series.min()` skip null cells, and give NaN when no cell is present.
 */
module Series {
  import opened Numerics

  /** Some cell of `xs` holds a number. */
  predicate AnyPresent(xs: seq<Num>) {
    exists i :: 0 <= i < |xs| && xs[i].Num?
  }

  /** The number of present cells. */
  function Count(xs: seq<Num>): (n: nat)
    ensures n <= |xs|
  {
    if xs == [] then 0 else (if xs[0].Num? then 1 else 0) + Count(xs[1..])
  }

  /** The sum of the present cells. */
  function Total(xs: seq<Num>): real {
    if xs == [] then 0.0 else (if xs[0].Num? then xs[0].value else 0.0) + Total(xs[1..])
  }

  /** No cell is present exactly when none is counted. */
  lemma {:induction false} CountZero(xs: seq<Num>)
    ensures Count(xs) == 0 <==> !AnyPresent(xs)
  {
    if xs != [] {
      CountZero(xs[1..]);
      if AnyPresent(xs[1..]) {
        var i :| 0 <= i < |xs[1..]| && xs[1..][i].Num?;
        assert xs[i + 1].Num?;
      }
      if AnyPresent(xs) && !xs[0].Num? {
        var i :| 0 <= i < |xs| && xs[i].Num?;
        assert xs[1..][i - 1].Num?;
      }
    }
  }

  /** `Series.mean()`: the average of the present cells, NaN when there are none. */
  function Mean(xs: seq<Num>): (r: Num)
    ensures r.Num? <==> AnyPresent(xs)
  {
    CountZero(xs);
    if Count(xs) == 0 then NaN else Num(Total(xs) / (Count(xs) as real))
  }

  /** With every present cell in [lo, hi], the total lies between lo and hi times the count. */
  lemma {:induction false} TotalBounds(xs: seq<Num>, lo: real, hi: real)
    requires forall i :: 0 <= i < |xs| && xs[i].Num? ==> lo <= xs[i].value <= hi
    ensures lo * (Count(xs) as real) <= Total(xs) <= hi * (Count(xs) as real)
  {
    if xs != [] {
      var rest := xs[1..];
      assert forall i :: 0 <= i < |rest| ==> rest[i] == xs[i + 1];
      TotalBounds(rest, lo, hi);
      var c := Count(rest) as real;
      var t := Total(rest);
      if xs[0].Num? {
        assert Count(xs) as real == c + 1.0 && Total(xs) == xs[0].value + t;
        assert lo * (c + 1.0) == lo * c + lo && hi * (c + 1.0) == hi * c + hi;
      } else {
        assert Count(xs) as real == c && Total(xs) == t;
      }
    }
  }

  /** The mean of cells that all lie in [lo, hi] lies in [lo, hi]. */
  lemma MeanBetween(xs: seq<Num>, lo: real, hi: real)
    requires forall i :: 0 <= i < |xs| && xs[i].Num? ==> lo <= xs[i].value <= hi
    ensures Mean(xs).Num? ==> lo <= Mean(xs).value <= hi
  {
    if Mean(xs).Num? {
      TotalBounds(xs, lo, hi);
      QuotientBetween(Total(xs), Count(xs) as real, lo, hi);
    }
  }

  /** The mean of cells that all hold c is c. */
  lemma MeanOfConstant(xs: seq<Num>, c: real)
    requires AnyPresent(xs)
    requires forall i :: 0 <= i < |xs| && xs[i].Num? ==> xs[i].value == c
    ensures Mean(xs) == Num(c)
  {
    MeanBetween(xs, c, c);
  }

  /** `Series.min()`: the least present cell, NaN when there is none. */
  function Min(xs: seq<Num>): (r: Num)
    ensures r.Num? <==> AnyPresent(xs)
    ensures r.Num? ==> exists i :: 0 <= i < |xs| && xs[i] == r
    ensures r.Num? ==> forall i :: 0 <= i < |xs| && xs[i].Num? ==> r.value <= xs[i].value
  {
    if xs == [] then NaN
    else
      var rest := Min(xs[1..]);
      assert forall i :: 0 < i < |xs| ==> xs[i] == xs[1..][i - 1];
      assert rest.Num? ==> exists i :: 0 < i < |xs| && xs[i] == rest;
      if xs[0].NaN? then rest
      else if rest.Num? && rest.value < xs[0].value then rest
      else xs[0]
  }

  /** `s -= s.min()`: every cell shifted by the least present cell. */
  function ShiftToMin(xs: seq<Num>): (ys: seq<Num>)
    ensures |ys| == |xs|
    ensures forall i :: 0 <= i < |xs| ==> ys[i] == Minus(xs[i], Min(xs))
  {
    seq(|xs|, i requires 0 <= i < |xs| => Minus(xs[i], Min(xs)))
  }

  /** After the shift the present cells are the same, none is negative, the least is 0,
      and the differences between cells are unchanged. */
  lemma ShiftToMinProperties(xs: seq<Num>)
    ensures forall i :: 0 <= i < |xs| ==> (ShiftToMin(xs)[i].Num? <==> xs[i].Num?)
    ensures forall i :: 0 <= i < |xs| && xs[i].Num? ==> 0.0 <= ShiftToMin(xs)[i].value
    ensures AnyPresent(xs) ==> Min(ShiftToMin(xs)) == Num(0.0)
    ensures forall i, j :: 0 <= i < |xs| && 0 <= j < |xs| && xs[i].Num? && xs[j].Num? ==>
      ShiftToMin(xs)[i].value - ShiftToMin(xs)[j].value == xs[i].value - xs[j].value
  {
    var ys := ShiftToMin(xs);
    if AnyPresent(xs) {
      var k :| 0 <= k < |xs| && xs[k] == Min(xs);
      assert ys[k] == Num(0.0);
      assert AnyPresent(ys);
      var j :| 0 <= j < |ys| && ys[j] == Min(ys);
      assert Min(ys).value <= ys[k].value;
    }
  }
}
