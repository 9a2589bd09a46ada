/** Generic sequence helpers: positions, key uniqueness and filtering. */
module Seqs {

  /** No two elements share a key. */
  predicate DistinctBy<T, K(==)>(s: seq<T>, key: T -> K)
  {
    forall i, j :: 0 <= i < |s| && 0 <= j < |s| && i != j ==> key(s[i]) != key(s[j])
  }

  /** A position of an element known to be in the sequence. */
  lemma IndexOf<T>(s: seq<T>, x: T) returns (k: nat)
    requires x in s
    ensures k < |s| && s[k] == x
  {
    k :| 0 <= k < |s| && s[k] == x;
  }

  function Filter<T(!new)>(s: seq<T>, keep: T -> bool): (r: seq<T>)
    ensures |r| <= |s|
    ensures forall x :: x in r <==> x in s && keep(x)
  {
    if |s| == 0 then []
    else if keep(s[0]) then [s[0]] + Filter(s[1..], keep)
    else Filter(s[1..], keep)
  }

  lemma {:induction false} FilterKeepsDistinct<T(!new), K>(s: seq<T>, keep: T -> bool, key: T -> K)
    requires DistinctBy(s, key)
    ensures DistinctBy(Filter(s, keep), key)
  {
    if |s| > 0 {
      var tail := s[1..];
      assert DistinctBy(tail, key) by {
        forall i, j | 0 <= i < |tail| && 0 <= j < |tail| && i != j ensures key(tail[i]) != key(tail[j]) {
          assert tail[i] == s[i + 1] && tail[j] == s[j + 1];
        }
      }
      FilterKeepsDistinct(tail, keep, key);
      var r := Filter(s, keep);
      var rt := Filter(tail, keep);
      if keep(s[0]) {
        assert r == [s[0]] + rt;
        forall j | 0 <= j < |rt| ensures key(rt[j]) != key(s[0]) {
          assert rt[j] in tail;
          var m :| 0 <= m < |tail| && tail[m] == rt[j];
          assert tail[m] == s[m + 1];
        }
        forall i, j | 0 <= i < |r| && 0 <= j < |r| && i != j ensures key(r[i]) != key(r[j]) {
          if i > 0 && j > 0 {
            assert r[i] == rt[i - 1] && r[j] == rt[j - 1];
          } else if i == 0 {
            assert r[j] == rt[j - 1];
          } else {
            assert r[i] == rt[i - 1];
          }
        }
      }
    }
  }

  /** Distinct positions of a filtered sequence come from distinct positions. */
  lemma {:induction false} FilterIndices<T(!new)>(s: seq<T>, keep: T -> bool, i: nat, j: nat)
    requires i < |Filter(s, keep)| && j < |Filter(s, keep)| && i != j
    ensures exists a, b :: 0 <= a < |s| && 0 <= b < |s| && a != b
                           && s[a] == Filter(s, keep)[i] && s[b] == Filter(s, keep)[j]
  {
    var r := Filter(s, keep);
    var tail := s[1..];
    var rt := Filter(tail, keep);
    if keep(s[0]) {
      assert r == [s[0]] + rt;
      if i == 0 {
        assert rt[j - 1] in tail;
        var b :| 0 <= b < |tail| && tail[b] == rt[j - 1];
        assert s[0] == r[i] && s[b + 1] == r[j];
      } else if j == 0 {
        assert rt[i - 1] in tail;
        var a :| 0 <= a < |tail| && tail[a] == rt[i - 1];
        assert s[a + 1] == r[i] && s[0] == r[j];
      } else {
        FilterIndices(tail, keep, i - 1, j - 1);
        var a, b :| 0 <= a < |tail| && 0 <= b < |tail| && a != b && tail[a] == rt[i - 1] && tail[b] == rt[j - 1];
        assert s[a + 1] == r[i] && s[b + 1] == r[j];
      }
    } else {
      assert r == rt;
      FilterIndices(tail, keep, i, j);
      var a, b :| 0 <= a < |tail| && 0 <= b < |tail| && a != b && tail[a] == rt[i] && tail[b] == rt[j];
      assert s[a + 1] == r[i] && s[b + 1] == r[j];
    }
  }
}
