/** Arithmetic over exact reals that several components share. */
module Reals {

  function Abs(x: real): real {
    if x < 0.0 then -x else x
  }

  function Min(a: real, b: real): real {
    if b < a then b else a
  }

  function Max(a: real, b: real): real {
    if b > a then b else a
  }

  /** A product, named so that sums of products can be handled as linear. */
  function Product(a: real, b: real): real {
    a * b
  }

  function Sum(x: seq<real>): real {
    if x == [] then 0.0 else Sum(x[..|x| - 1]) + x[|x| - 1]
  }

  lemma SumPrefix(x: seq<real>, n: nat)
    requires n <= |x|
    ensures Sum(x[..n]) == if n == 0 then 0.0 else Sum(x[..n - 1]) + x[n - 1]
  {
    if n > 0 {
      assert x[..n][..n - 1] == x[..n - 1];
    }
  }

  function Dot(x: seq<real>, y: seq<real>): real
    requires |x| == |y|
  {
    if x == [] then 0.0 else Dot(x[..|x| - 1], y[..|y| - 1]) + Product(x[|x| - 1], y[|y| - 1])
  }

  lemma Scaled(a: real, b: real, c: real)
    requires a <= b && c >= 0.0
    ensures a * c <= b * c
  {
  }

  lemma NotNegative(x: real, y: real)
    requires x >= 0.0 && y >= 0.0
    ensures x * y >= 0.0
  {
  }

  lemma Positive(x: real, y: real)
    requires x > 0.0 && y > 0.0
    ensures x * y > 0.0
  {
  }

  /** A square root. */
  ghost predicate IsRoot(root: real -> real) {
    forall x :: x >= 0.0 ==> root(x) >= 0.0 && root(x) * root(x) == x
  }

  lemma RootOf(root: real -> real, x: real)
    requires IsRoot(root) && x >= 0.0
    ensures root(x) >= 0.0 && root(x) * root(x) == x
  {
  }
}
