/** Arithmetic means over exact reals. */
module Means {

  function Sum(xs: seq<real>): real {
    if xs == [] then 0.0 else Sum(xs[..|xs| - 1]) + xs[|xs| - 1]
  }

  function Mean(xs: seq<real>): real
    requires xs != []
  {
    Sum(xs) / (|xs| as real)
  }

  lemma SumSnoc(vs: seq<real>, v: real)
    ensures Sum(vs + [v]) == Sum(vs) + v
  {
    assert (vs + [v])[..|vs|] == vs;
  }

  /** The running sums of the numbers, from 0. */
  ghost predicate SumsOf(sums: seq<real>, xs: seq<real>) {
    |sums| == |xs| + 1 && sums[0] == 0.0 && forall i: nat | i < |xs| :: sums[i + 1] == sums[i] + xs[i]
  }

  lemma {:induction false} SumMeaning(xs: seq<real>) returns (sums: seq<real>)
    ensures SumsOf(sums, xs) && sums[|xs|] == Sum(xs)
  {
    if xs == [] {
      sums := [0.0];
    } else {
      sums := SumMeaning(xs[..|xs| - 1]);
      sums := sums + [sums[|xs| - 1] + xs[|xs| - 1]];
    }
  }

  lemma MeanTimesCount(xs: seq<real>, n: nat, m: real)
    requires xs != [] && n == |xs| && m == Mean(xs)
    ensures m * (n as real) == Sum(xs)
  {
  }

  function Repeat(v: real, n: nat): (r: seq<real>)
    ensures |r| == n
  {
    if n == 0 then [] else Repeat(v, n - 1) + [v]
  }

  lemma {:induction false} SumRepeat(v: real, n: nat)
    ensures Sum(Repeat(v, n)) == (n as real) * v
  {
    if n > 0 {
      SumRepeat(v, n - 1);
      assert ((n - 1) as real) * v + v == (n as real) * v;
    }
  }

  /** The mean of copies of a value is that value. */
  lemma {:induction false} MeanRepeat(v: real, n: nat)
    requires n > 0
    ensures Mean(Repeat(v, n)) == v
  {
    SumRepeat(v, n);
    hide Sum, Repeat;
    Quotient(n as real, v, Sum(Repeat(v, n)));
  }

  lemma Quotient(k: real, v: real, s: real)
    requires k > 0.0 && s == k * v
    ensures s / k == v
  {
  }
}
