/** Order-preserving selection and removal over sequences, used by the column
    ordering and by the board. */
module Seqs {

  /** The elements x of `s` with `p(x) == keep`, in their original order. */
  function Filter<T>(s: seq<T>, p: T -> bool, keep: bool): (r: seq<T>)
    ensures |r| <= |s|
    ensures forall i :: 0 <= i < |r| ==> p(r[i]) == keep
  {
    if s == [] then []
    else
      assert s == [s[0]] + s[1..];
      if p(s[0]) == keep then [s[0]] + Filter(s[1..], p, keep)
      else Filter(s[1..], p, keep)
  }

  /** Filtering distributes over concatenation. */
  lemma {:induction false} FilterConcat<T>(a: seq<T>, b: seq<T>, p: T -> bool, keep: bool)
    ensures Filter(a + b, p, keep) == Filter(a, p, keep) + Filter(b, p, keep)
  {
    if a == [] {
      assert a + b == b;
    } else {
      assert (a + b)[1..] == a[1..] + b;
      FilterConcat(a[1..], b, p, keep);
    }
  }

  /** Filtering a sequence with one distinguished element in the middle. */
  lemma {:induction false} FilterAround<T>(before: seq<T>, x: T, after: seq<T>, p: T -> bool, keep: bool)
    ensures Filter(before + [x] + after, p, keep)
         == Filter(before, p, keep) + (if p(x) == keep then [x] else []) + Filter(after, p, keep)
  {
    FilterConcat(before + [x], after, p, keep);
    FilterConcat(before, [x], p, keep);
    FilterSingleton(x, p, keep);
  }

  /** One element that passes `p` among elements that all fail it. */
  lemma {:induction false} FilterOneAmongOthers<T>(before: seq<T>, x: T, after: seq<T>, p: T -> bool)
    requires forall i :: 0 <= i < |before| ==> !p(before[i])
    requires forall i :: 0 <= i < |after| ==> !p(after[i])
    requires p(x)
    ensures Filter(before + [x] + after, p, false) == before + after
    ensures Filter(before + [x] + after, p, true) == [x]
  {
    FilterAround(before, x, after, p, false);
    FilterAround(before, x, after, p, true);
    FilterKeepsAll(before, p, false);
    FilterKeepsAll(after, p, false);
    FilterKeepsNone(before, p, true);
    FilterKeepsNone(after, p, true);
  }

  lemma {:induction false} FilterSingleton<T>(x: T, p: T -> bool, keep: bool)
    ensures Filter([x], p, keep) == (if p(x) == keep then [x] else [])
  {
    assert [x][1..] == [];
    assert [x][0] == x;
  }

  /** The two halves of a filter together hold every element exactly once. */
  lemma {:induction false} FilterSplits<T>(s: seq<T>, p: T -> bool)
    ensures multiset(Filter(s, p, false)) + multiset(Filter(s, p, true)) == multiset(s)
    ensures |Filter(s, p, false)| + |Filter(s, p, true)| == |s|
  {
    if s != [] {
      FilterSplits(s[1..], p);
      assert s == [s[0]] + s[1..];
    }
  }

  /** A filter that rejects nothing is the identity. */
  lemma {:induction false} FilterKeepsAll<T>(s: seq<T>, p: T -> bool, keep: bool)
    requires forall i :: 0 <= i < |s| ==> p(s[i]) == keep
    ensures Filter(s, p, keep) == s
  {
    if s != [] {
      FilterKeepsAll(s[1..], p, keep);
      assert s == [s[0]] + s[1..];
    }
  }

  /** A filter that accepts nothing yields the empty sequence. */
  lemma {:induction false} FilterKeepsNone<T>(s: seq<T>, p: T -> bool, keep: bool)
    requires forall i :: 0 <= i < |s| ==> p(s[i]) != keep
    ensures Filter(s, p, keep) == []
  {
    if s != [] {
      FilterKeepsNone(s[1..], p, keep);
    }
  }

  /** Every element of `s` has a distinct key. */
  ghost predicate UniqueKeys<T>(s: seq<T>, key: T -> int) {
    forall i, j :: 0 <= i < j < |s| ==> key(s[i]) != key(s[j])
  }

  /** `s` without its elements whose key is `k`, order preserved. */
  function RemoveKey<T>(s: seq<T>, key: T -> int, k: int): (r: seq<T>)
    ensures forall i :: 0 <= i < |r| ==> r[i] in s && key(r[i]) != k
    ensures forall i :: 0 <= i < |s| && key(s[i]) != k ==> s[i] in r
    ensures |r| <= |s|
  {
    if s == [] then []
    else if key(s[0]) == k then RemoveKey(s[1..], key, k)
    else [s[0]] + RemoveKey(s[1..], key, k)
  }

  /** Removing a key that does not occur changes nothing. */
  lemma {:induction false} RemoveKeyAbsent<T>(s: seq<T>, key: T -> int, k: int)
    requires forall i :: 0 <= i < |s| ==> key(s[i]) != k
    ensures RemoveKey(s, key, k) == s
  {
    if s != [] {
      RemoveKeyAbsent(s[1..], key, k);
      assert s == [s[0]] + s[1..];
    }
  }

  /** The rest of a sequence with distinct keys has distinct keys, none of them the
      first element's. */
  lemma UniqueKeysTail<T>(s: seq<T>, key: T -> int)
    requires s != [] && UniqueKeys(s, key)
    ensures UniqueKeys(s[1..], key)
    ensures forall i :: 0 <= i < |s[1..]| ==> key(s[1..][i]) != key(s[0])
  {
    var rest := s[1..];
    forall i, j | 0 <= i < j < |rest| ensures key(rest[i]) != key(rest[j]) {
      assert rest[i] == s[i + 1] && rest[j] == s[j + 1];
    }
    forall i | 0 <= i < |rest| ensures key(rest[i]) != key(s[0]) {
      assert rest[i] == s[i + 1];
    }
  }

  /** Removing from a sequence with distinct keys keeps the keys distinct. */
  lemma {:induction false} RemoveKeyUnique<T>(s: seq<T>, key: T -> int, k: int)
    requires UniqueKeys(s, key)
    ensures UniqueKeys(RemoveKey(s, key, k), key)
  {
    if s != [] {
      var rest := s[1..];
      UniqueKeysTail(s, key);
      RemoveKeyUnique(rest, key, k);
      if key(s[0]) != k {
        var r' := RemoveKey(rest, key, k);
        var r := [s[0]] + r';
        forall i, j | 0 <= i < j < |r| ensures key(r[i]) != key(r[j]) {
          assert r[j] == r'[j - 1];
          if i == 0 {
            assert r'[j - 1] in rest;
          } else {
            assert r[i] == r'[i - 1];
          }
        }
      }
    }
  }

  /** An element that passes the filter is in its result. */
  lemma {:induction false} FilterContains<T>(s: seq<T>, i: nat, p: T -> bool, keep: bool)
    requires i < |s| && p(s[i]) == keep
    ensures s[i] in Filter(s, p, keep)
  {
    if i > 0 {
      FilterContains(s[1..], i - 1, p, keep);
    }
  }
}
