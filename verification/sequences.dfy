/** Facts about sequences and the multisets of their elements. */
module Sequences {
  lemma WithoutOne<T>(s: seq<T>, k: nat)
    requires k < |s|
    ensures multiset(s[..k] + s[k + 1..]) == multiset(s) - multiset{s[k]}
  {
    assert s == s[..k] + [s[k]] + s[k + 1..];
  }

  lemma WithoutFirst<T>(s: seq<T>)
    requires s != []
    ensures multiset(s[1..]) == multiset(s) - multiset{s[0]}
  {
    assert s == [s[0]] + s[1..];
  }

  lemma WithoutLast<T>(s: seq<T>)
    requires s != []
    ensures multiset(s[..|s| - 1]) == multiset(s) - multiset{s[|s| - 1]}
  {
    assert s == s[..|s| - 1] + [s[|s| - 1]];
  }

  /** Where an element is found in a permutation. */
  lemma FindIn<T>(x: T, s: seq<T>, r: seq<T>) returns (k: nat)
    requires x in s && multiset(s) == multiset(r)
    ensures k < |r| && r[k] == x
    ensures |r| == |s|
  {
    assert |multiset(s)| == |multiset(r)|;
    assert x in multiset(s) && x in multiset(r);
    k :| 0 <= k < |r| && r[k] == x;
  }

  lemma PermutedMembers<T(!new)>(s: seq<T>, r: seq<T>)
    requires multiset(s) == multiset(r)
    ensures |s| == |r|
    ensures forall x :: x in s <==> x in r
  {
    assert |multiset(s)| == |multiset(r)|;
    forall x ensures x in s <==> x in r {
      assert x in s <==> x in multiset(s);
      assert x in r <==> x in multiset(r);
    }
  }
}
