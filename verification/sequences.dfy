/** Order-preserving selection from a sequence. The query filters of the
    views return the rows that pass, in the order the database returns
    them; `Subsequence(r, s)` says `r` keeps the relative order of `s`, and
    together with a count of every value it pins a filter's result down
    exactly, duplicates included. */
module Sequences {

  /** `r` is `s` with some positions left out. */
  predicate Subsequence<T(==)>(r: seq<T>, s: seq<T>)
    decreases |s|
  {
    if |r| == 0 then true
    else if |s| == 0 then false
    else if r[0] == s[0] then Subsequence(r[1..], s[1..])
    else Subsequence(r, s[1..])
  }

  /** Leaving out the first kept value leaves a subsequence. */
  lemma {:induction false} SubsequenceTail<T>(r: seq<T>, s: seq<T>)
    requires |r| > 0 && Subsequence(r, s)
    ensures Subsequence(r[1..], s)
    decreases |s|
  {
    if r[0] != s[0] {
      SubsequenceTail(r, s[1..]);
      if |r| > 1 && r[1] == s[0] {
        SubsequenceTail(r[1..], s[1..]);
      }
    } else if |r| > 1 && r[1] == s[0] {
      SubsequenceTail(r[1..], s[1..]);
    }
  }

  /** A value in front of `s` may be passed over. */
  lemma SubsequenceCons<T>(r: seq<T>, x: T, s: seq<T>)
    requires Subsequence(r, s)
    ensures Subsequence(r, [x] + s)
  {
    assert ([x] + s)[1..] == s;
    if |r| > 0 && r[0] == x {
      SubsequenceTail(r, s);
    }
  }

  /** A value behind `s` may be passed over. */
  lemma {:induction false} SubsequenceSnoc<T>(r: seq<T>, s: seq<T>, x: T)
    requires Subsequence(r, s)
    ensures Subsequence(r, s + [x])
    decreases |s|
  {
    if |r| > 0 {
      assert (s + [x])[1..] == s[1..] + [x];
      if r[0] == s[0] {
        SubsequenceSnoc(r[1..], s[1..], x);
      } else {
        SubsequenceSnoc(r, s[1..], x);
      }
    }
  }

  /** A value behind `s` may be kept. */
  lemma {:induction false} SubsequenceSnocBoth<T>(r: seq<T>, s: seq<T>, x: T)
    requires Subsequence(r, s)
    ensures Subsequence(r + [x], s + [x])
    decreases |s|
  {
    if |s| == 0 {
      assert r == [];
      assert (r + [x])[1..] == [];
    } else {
      assert (s + [x])[1..] == s[1..] + [x];
      if |r| > 0 && r[0] == s[0] {
        assert (r + [x])[1..] == r[1..] + [x];
        SubsequenceSnocBoth(r[1..], s[1..], x);
      } else if |r| > 0 {
        SubsequenceSnocBoth(r, s[1..], x);
      } else if s[0] != x {
        SubsequenceSnocBoth(r, s[1..], x);
      }
    }
  }
}
