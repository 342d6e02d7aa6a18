/**
 Weighted counts over a sequence: how a counter kept by concurrent threads is tied to the place
 each thread has reached in the code.
 */
module Tally {

  function Total<T>(s: seq<T>, weight: T -> nat): nat {
    if s == [] then 0 else weight(s[0]) + Total(s[1..], weight)
  }

  /** Moving one thread changes the total by exactly the change of its own weight. */
  lemma {:induction false} TotalUpdate<T>(s: seq<T>, i: nat, x: T, weight: T -> nat)
    requires i < |s|
    ensures Total(s[i := x], weight) + weight(s[i]) == Total(s, weight) + weight(x)
  {
    if i == 0 {
      assert s[i := x][1..] == s[1..];
    } else {
      assert s[i := x][1..] == s[1..][i - 1 := x];
      TotalUpdate(s[1..], i - 1, x, weight);
    }
  }

  lemma {:induction false} TotalCovers<T>(s: seq<T>, i: nat, weight: T -> nat)
    requires i < |s|
    ensures weight(s[i]) <= Total(s, weight)
  {
    if i > 0 {
      TotalCovers(s[1..], i - 1, weight);
    }
  }

  lemma {:induction false} TotalCoversPair<T>(s: seq<T>, i: nat, j: nat, weight: T -> nat)
    requires i < j < |s|
    ensures weight(s[i]) + weight(s[j]) <= Total(s, weight)
  {
    if i == 0 {
      TotalCovers(s[1..], j - 1, weight);
    } else {
      TotalCoversPair(s[1..], i - 1, j - 1, weight);
    }
  }

  lemma {:induction false} TotalZero<T>(s: seq<T>, weight: T -> nat)
    requires forall i :: 0 <= i < |s| ==> weight(s[i]) == 0
    ensures Total(s, weight) == 0
  {
    if s != [] {
      TotalZero(s[1..], weight);
    }
  }

  lemma {:induction false} TotalPositive<T>(s: seq<T>, weight: T -> nat) returns (i: nat)
    requires Total(s, weight) > 0
    ensures i < |s| && weight(s[i]) > 0
  {
    if weight(s[0]) > 0 {
      i := 0;
    } else {
      var j := TotalPositive(s[1..], weight);
      i := j + 1;
    }
  }

  lemma {:induction false} TotalBelow<T>(s: seq<T>, lesser: T -> nat, greater: T -> nat)
    requires forall x :: x in s ==> lesser(x) <= greater(x)
    ensures Total(s, lesser) <= Total(s, greater)
  {
    if s != [] {
      assert s[0] in s;
      TotalBelow(s[1..], lesser, greater);
    }
  }

  lemma {:induction false} TotalSplit<T>(s: seq<T>, i: nat, weight: T -> nat)
    requires i < |s|
    ensures Total(s, weight) == Total(s[..i], weight) + weight(s[i]) + Total(s[i + 1..], weight)
  {
    if i > 0 {
      TotalSplit(s[1..], i - 1, weight);
      assert s[1..][..i - 1] == s[..i][1..] && s[1..][i..] == s[i + 1..];
    }
  }
}
