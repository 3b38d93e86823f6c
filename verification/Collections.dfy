/** Elements of sequences and finite ranges. */
module Collections {
  datatype Option<+T> = None | Some(value: T)

  function Elements<T>(s: seq<T>): set<T> {
    set x | x in s
  }

  ghost predicate Distinct<T>(s: seq<T>) {
    forall i, j :: 0 <= i < j < |s| ==> s[i] != s[j]
  }

  lemma ElementsPush<T>(s: seq<T>, i: nat)
    requires i < |s|
    ensures Elements(s[..i + 1]) == Elements(s[..i]) + {s[i]}
  {
    assert s[..i + 1] == s[..i] + [s[i]];
  }

  lemma {:induction false} DistinctCardinality<T>(s: seq<T>)
    requires Distinct(s)
    ensures |Elements(s)| == |s|
  {
    if s != [] {
      DistinctCardinality(s[..|s| - 1]);
      ElementsPush(s, |s| - 1);
      assert s[..|s|] == s;
    }
  }

  lemma SubsetCardinality<T>(a: set<T>, b: set<T>)
    requires a <= b
    ensures |a| <= |b|
    ensures |a| == |b| ==> a == b
  {
    assert b == a + (b - a);
  }

  function Range(n: nat): (r: set<int>)
    ensures |r| == n && forall i :: i in r <==> 0 <= i < n
  {
    if n == 0 then {} else Range(n - 1) + {n - 1}
  }

  /** Distinct numbers below `n`: there are at most `n` of them. */
  lemma DistinctBounded(s: seq<int>, n: nat)
    requires Distinct(s) && forall i :: 0 <= i < |s| ==> 0 <= s[i] < n
    ensures |s| <= n
  {
    DistinctCardinality(s);
    SubsetCardinality(Elements(s), Range(n));
  }

  /** Total weight of the elements, each weighed together with its position. */
  function Sum<T>(s: seq<T>, weight: (nat, T) -> nat): nat {
    if s == [] then 0 else Sum(s[..|s| - 1], weight) + weight(|s| - 1, s[|s| - 1])
  }

  lemma {:induction false} SumUpdate<T>(s: seq<T>, weight: (nat, T) -> nat, i: nat, x: T)
    requires i < |s|
    ensures Sum(s[i := x], weight) == Sum(s, weight) - weight(i, s[i]) + weight(i, x)
  {
    var last := |s| - 1;
    if i == last {
      assert s[i := x][..last] == s[..last];
    } else {
      assert s[i := x][..last] == s[..last][i := x];
      SumUpdate(s[..last], weight, i, x);
    }
  }

  /** Counting: a sum of zeros and ones is full exactly when all are ones, empty when none is. */
  lemma {:induction false} SumOfOnes<T>(s: seq<T>, weight: (nat, T) -> nat)
    requires forall i: nat :: i < |s| ==> weight(i, s[i]) <= 1
    ensures Sum(s, weight) <= |s|
    ensures Sum(s, weight) == |s| <==> forall i: nat :: i < |s| ==> weight(i, s[i]) == 1
    ensures Sum(s, weight) == 0 <==> forall i: nat :: i < |s| ==> weight(i, s[i]) == 0
  {
    if s != [] {
      var t := s[..|s| - 1];
      assert forall i: nat :: i < |t| ==> t[i] == s[i];
      SumOfOnes(t, weight);
    }
  }
}
