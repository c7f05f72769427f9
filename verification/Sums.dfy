/** Weighted sums over sequences: the shared counters of a protocol are stated as
    sums of what each participant contributes. */
module Sums {

  ghost function Total<T>(weight: T -> nat, s: seq<T>): nat {
    if s == [] then 0 else weight(s[0]) + Total(weight, s[1..])
  }

  lemma {:induction false} TotalUpdate<T>(weight: T -> nat, s: seq<T>, i: nat, x: T)
    requires i < |s|
    ensures Total(weight, s[i := x]) == Total(weight, s) - weight(s[i]) + weight(x)
    ensures weight(s[i]) <= Total(weight, s)
  {
    if i == 0 {
      assert s[i := x][1..] == s[1..];
    } else {
      assert s[i := x][1..] == s[1..][i - 1 := x];
      TotalUpdate(weight, s[1..], i - 1, x);
    }
  }

  /** A positive sum has a positive term. */
  lemma {:induction false} PositiveTerm<T>(weight: T -> nat, s: seq<T>) returns (i: nat)
    requires Total(weight, s) > 0
    ensures i < |s| && weight(s[i]) > 0
  {
    if weight(s[0]) > 0 {
      i := 0;
    } else {
      var j := PositiveTerm(weight, s[1..]);
      i := j + 1;
    }
  }

  lemma {:induction false} TotalBounds<T>(weight: T -> nat, s: seq<T>, bound: nat)
    requires forall x :: x in s ==> weight(x) <= bound
    ensures Total(weight, s) <= bound * |s|
  {
    if s != [] {
      TotalBounds(weight, s[1..], bound);
      assert bound * |s| == bound + bound * |s[1..]|;
    }
  }

  lemma {:induction false} TotalAllEqual<T>(weight: T -> nat, s: seq<T>, value: nat)
    requires forall x :: x in s ==> weight(x) == value
    ensures Total(weight, s) == value * |s|
  {
    if s != [] {
      TotalAllEqual(weight, s[1..], value);
      assert value * |s| == value + value * |s[1..]|;
    }
  }
}
