/** Small sequence helpers shared by the fail-fast loops. */
module Seqs {

  /** Position of the first element that is `bad`, or `|s|` when none is. */
  function FirstWhere<T>(s: seq<T>, bad: T -> bool): (k: nat)
    ensures k <= |s|
    ensures forall j :: 0 <= j < k ==> !bad(s[j])
    ensures k < |s| ==> bad(s[k])
  {
    if |s| == 0 then 0
    else if bad(s[0]) then 0
    else
      var k := FirstWhere(s[1..], bad);
      assert forall j :: 1 <= j < k + 1 ==> s[j] == s[1..][j - 1];
      k + 1
  }

  /** The progress fractions `1/total, 2/total, ..., count/total` a loop
      reports after each of its first `count` iterations. */
  function Fractions(count: nat, total: nat): (r: seq<real>)
    requires total > 0
    ensures |r| == count
    ensures forall j :: 0 <= j < count ==> r[j] == (j + 1) as real / total as real
  {
    if count == 0 then [] else Fractions(count - 1, total) + [count as real / total as real]
  }

  /** `f` applied to each element, in order. */
  function Map<A, B>(s: seq<A>, f: A -> B): (r: seq<B>)
    ensures |r| == |s|
    ensures forall i :: 0 <= i < |s| ==> r[i] == f(s[i])
  {
    if |s| == 0 then [] else Map(s[..|s| - 1], f) + [f(s[|s| - 1])]
  }

  /** Mapping one more element. */
  lemma MapSnoc<A, B>(s: seq<A>, x: A, f: A -> B)
    ensures Map(s + [x], f) == Map(s, f) + [f(x)]
  {
    assert (s + [x])[..|s|] == s;
  }

  /** Mapping a prefix one element longer. */
  lemma MapPrefixSnoc<A, B>(s: seq<A>, i: nat, f: A -> B)
    requires i < |s|
    ensures Map(s[..i + 1], f) == Map(s[..i], f) + [f(s[i])]
  {
    assert s[..i + 1] == s[..i] + [s[i]];
    MapSnoc(s[..i], s[i], f);
  }
}
