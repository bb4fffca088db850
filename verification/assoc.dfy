/** Insertion-ordered dictionaries (Python `dict`) as association lists:
    a key is stored at most once, assigning to a present key keeps its place,
    and a new key goes last. */
module Assoc {
  import opened Wrappers

  predicate DistinctKeys<K(==,!new), V>(s: seq<(K, V)>) {
    forall i, j :: 0 <= i < j < |s| ==> s[i].0 != s[j].0
  }

  /** Dropping the last pairs keeps the keys distinct. */
  lemma DistinctKeysPrefix<K(!new), V>(s: seq<(K, V)>, n: int)
    requires DistinctKeys(s) && 0 <= n <= |s|
    ensures DistinctKeys(s[..n])
  {
    forall i, j | 0 <= i < j < n
      ensures s[..n][i].0 != s[..n][j].0
    {
      assert s[..n][i] == s[i] && s[..n][j] == s[j];
    }
  }

  /** `d.get(k)`. */
  function Get<K(==,!new), V>(s: seq<(K, V)>, k: K): Option<V> {
    if |s| == 0 then None
    else if s[0].0 == k then Some(s[0].1)
    else Get(s[1..], k)
  }

  lemma {:induction false} GetNone<K(!new), V>(s: seq<(K, V)>, k: K)
    ensures Get(s, k).None? <==> forall i :: 0 <= i < |s| ==> s[i].0 != k
  {
    if |s| > 0 {
      GetNone(s[1..], k);
      if s[0].0 != k && Get(s, k).None? {
        forall i | 0 <= i < |s|
          ensures s[i].0 != k
        {
          if i > 0 {
            assert s[i] == s[1..][i - 1];
          }
        }
      }
    }
  }

  lemma {:induction false} GetSome<K(!new), V>(s: seq<(K, V)>, k: K)
    requires Get(s, k).Some?
    ensures exists i :: 0 <= i < |s| && s[i] == (k, Get(s, k).value)
  {
    if s[0].0 != k {
      GetSome(s[1..], k);
      var i :| 0 <= i < |s[1..]| && s[1..][i] == (k, Get(s, k).value);
      assert s[i + 1] == s[1..][i];
    }
  }

  lemma {:induction false} GetAt<K(!new), V>(s: seq<(K, V)>, i: int)
    requires DistinctKeys(s) && 0 <= i < |s|
    ensures Get(s, s[i].0) == Some(s[i].1)
  {
    if i > 0 {
      assert s[1..][i - 1] == s[i];
      GetAt(s[1..], i - 1);
    }
  }

  /** `d[k] = v`. */
  function Put<K(==,!new), V>(s: seq<(K, V)>, k: K, v: V): (r: seq<(K, V)>)
    requires DistinctKeys(s)
    ensures DistinctKeys(r)
    ensures Get(r, k) == Some(v)
    ensures forall x :: x != k ==> Get(r, x) == Get(s, x)
    ensures |r| == |s| || (|r| == |s| + 1 && Get(s, k).None?)
    ensures forall i {:trigger r[i]} :: 0 <= i < |s| ==> r[i].0 == s[i].0
  {
    if |s| == 0 then [(k, v)]
    else if s[0].0 == k then
      var r := [(k, v)] + s[1..];
      assert forall x :: x != k ==> Get(r, x) == Get(s[1..], x);
      r
    else
      var rest := Put(s[1..], k, v);
      var r := [s[0]] + rest;
      GetNone(s[1..], s[0].0);
      assert Get(rest, s[0].0).None?;
      GetNone(rest, s[0].0);
      r
  }

  /** Every entry after `d[k] = v` was already there or is the new one. */
  lemma {:induction false} PutElements<K(!new), V>(s: seq<(K, V)>, k: K, v: V)
    requires DistinctKeys(s)
    ensures forall i :: 0 <= i < |Put(s, k, v)| ==> Put(s, k, v)[i] in s || Put(s, k, v)[i] == (k, v)
  {
    if |s| > 0 && s[0].0 != k {
      PutElements(s[1..], k, v);
      var r := Put(s, k, v);
      forall i | 0 <= i < |r|
        ensures r[i] in s || r[i] == (k, v)
      {
        if i > 0 {
          assert r[i] == Put(s[1..], k, v)[i - 1];
        }
      }
    }
  }
}
