/** Facts about sequences: without repeated elements, used to count reported
    problems, and about concatenation. */
module Seqs {

  ghost predicate Distinct<T>(s: seq<T>)
  {
    forall a, b | 0 <= a < b < |s| :: s[a] != s[b]
  }

  lemma DistinctAppend<T>(a: seq<T>, b: seq<T>)
    requires Distinct(a) && Distinct(b)
    requires forall x | x in a :: x !in b
    ensures Distinct(a + b)
  {
    var s := a + b;
    forall i, j | 0 <= i < j < |s| ensures s[i] != s[j] {
      if j < |a| {
        assert s[i] == a[i] && s[j] == a[j];
      } else if i >= |a| {
        assert s[i] == b[i - |a|] && s[j] == b[j - |a|];
      } else {
        assert s[i] == a[i] && s[j] == b[j - |a|];
        assert s[i] in a;
      }
    }
  }

  /** In a sequence without repetitions every element occurs exactly once. */
  lemma {:induction false} DistinctCount<T>(s: seq<T>, x: T)
    requires Distinct(s)
    ensures multiset(s)[x] == if x in s then 1 else 0
    decreases |s|
  {
    if |s| > 0 {
      var rest := s[1..];
      assert s == [s[0]] + rest;
      assert Distinct(rest) by {
        forall a, b | 0 <= a < b < |rest| ensures rest[a] != rest[b] {
          assert rest[a] == s[a + 1] && rest[b] == s[b + 1];
        }
      }
      DistinctCount(rest, x);
      assert multiset(s) == multiset{s[0]} + multiset(rest);
      assert forall k | 0 <= k < |rest| :: rest[k] == s[k + 1] && rest[k] != s[0];
    }
  }

  /** Joining two sequences drawn from `s` gives one drawn from `s`. */
  lemma DrawnFromAppend<T>(a: seq<T>, b: seq<T>, s: seq<T>)
    requires forall i | 0 <= i < |a| :: a[i] in s
    requires forall i | 0 <= i < |b| :: b[i] in s
    ensures forall i | 0 <= i < |a + b| :: (a + b)[i] in s
  {
    forall i | 0 <= i < |a + b| ensures (a + b)[i] in s {
      if i >= |a| {
        assert (a + b)[i] == b[i - |a|];
      }
    }
  }

  lemma AppendAssoc<T>(x: seq<T>, y: seq<T>, z: seq<T>)
    ensures x + (y + z) == (x + y) + z
  {
  }
}
