/**
 * The two Array methods the pages chain over catalog entries:
 * `filter(p)` and `slice(0, n)`, with the facts the page lemmas rely on.
 */
module JsArray {

  /** No element occurs twice. */
  predicate NoDuplicates<T(==)>(s: seq<T>)
  {
    forall i, j :: 0 <= i < j < |s| ==> s[i] != s[j]
  }

  /** `s.filter(p)`: the elements of `s` that satisfy `p`, in their original order. */
  function Filter<T>(s: seq<T>, p: T -> bool): (r: seq<T>)
    ensures |r| <= |s|
    ensures forall x :: x in r ==> x in s && p(x)
    decreases |s|
  {
    if s == [] then []
    else (if p(s[0]) then [s[0]] else []) + Filter(s[1..], p)
  }

  /** `s.slice(0, n)`: the first `n` elements, or all of `s` when it is shorter. */
  function Take<T>(s: seq<T>, n: nat): (r: seq<T>)
    ensures |r| == if |s| <= n then |s| else n
    ensures r == s[..|r|]
  {
    if |s| <= n then s else s[..n]
  }

  /** Filtering a concatenation filters each part. */
  lemma {:induction false} FilterAppend<T>(s: seq<T>, t: seq<T>, p: T -> bool)
    ensures Filter(s + t, p) == Filter(s, p) + Filter(t, p)
    decreases |s|
  {
    if s == [] {
      assert s + t == t;
    } else {
      assert (s + t)[0] == s[0];
      assert (s + t)[1..] == s[1..] + t;
      FilterAppend(s[1..], t, p);
    }
  }

  /** Every element that satisfies `p` survives the filter. */
  lemma {:induction false} FilterKeeps<T>(s: seq<T>, p: T -> bool, i: nat)
    requires i < |s| && p(s[i])
    ensures s[i] in Filter(s, p)
    decreases |s|
  {
    if i > 0 {
      assert s[1..][i - 1] == s[i];
      FilterKeeps(s[1..], p, i - 1);
    }
  }

  /** Filters with predicates that agree on every element give the same result. */
  lemma {:induction false} FilterAgreeing<T>(s: seq<T>, p: T -> bool, q: T -> bool)
    requires forall x :: x in s ==> p(x) == q(x)
    ensures Filter(s, p) == Filter(s, q)
    decreases |s|
  {
    if s != [] {
      assert s[0] in s;
      forall x | x in s[1..] ensures p(x) == q(x) {
        assert x in s;
      }
      FilterAgreeing(s[1..], p, q);
    }
  }

  /** Filtering a sequence without repeats gives a sequence without repeats. */
  lemma {:induction false} FilterNoDuplicates<T>(s: seq<T>, p: T -> bool)
    requires NoDuplicates(s)
    ensures NoDuplicates(Filter(s, p))
    decreases |s|
  {
    if s != [] {
      var rest := Filter(s[1..], p);
      FilterNoDuplicates(s[1..], p);
      if p(s[0]) {
        assert s[0] !in s[1..];
        assert s[0] !in rest;
        var r := [s[0]] + rest;
        forall i, j | 0 <= i < j < |r| ensures r[i] != r[j] {
          if i == 0 {
            assert r[j] == rest[j - 1];
            assert rest[j - 1] in rest;
          } else {
            assert r[i] == rest[i - 1] && r[j] == rest[j - 1];
          }
        }
      }
    }
  }

  /** The positions, from `from` on, of the elements of `s` that satisfy `p`, in increasing order. */
  ghost function MatchPositions<T>(s: seq<T>, p: T -> bool, from: nat): seq<nat>
    requires from <= |s|
    decreases |s| - from
  {
    if from == |s| then []
    else (if p(s[from]) then [from] else []) + MatchPositions(s, p, from + 1)
  }

  lemma {:induction false} MatchPositionsIncrease<T>(s: seq<T>, p: T -> bool, from: nat)
    requires from <= |s|
    ensures forall j :: 0 <= j < |MatchPositions(s, p, from)| ==> from <= MatchPositions(s, p, from)[j] < |s|
    ensures forall j, k :: 0 <= j < k < |MatchPositions(s, p, from)| ==>
              MatchPositions(s, p, from)[j] < MatchPositions(s, p, from)[k]
    decreases |s| - from
  {
    if from < |s| {
      MatchPositionsIncrease(s, p, from + 1);
      var m, m' := MatchPositions(s, p, from), MatchPositions(s, p, from + 1);
      if p(s[from]) {
        assert m == [from] + m';
        forall j | 0 <= j < |m| ensures from <= m[j] < |s| {
          if j > 0 {
            assert m[j] == m'[j - 1];
          }
        }
        forall j, k | 0 <= j < k < |m| ensures m[j] < m[k] {
          assert m[k] == m'[k - 1];
          if j > 0 {
            assert m[j] == m'[j - 1];
          }
        }
      }
    }
  }

  lemma {:induction false} MatchPositionsComplete<T>(s: seq<T>, p: T -> bool, from: nat)
    requires from <= |s|
    ensures forall i :: from <= i < |s| && p(s[i]) ==> i in MatchPositions(s, p, from)
    decreases |s| - from
  {
    if from < |s| {
      MatchPositionsComplete(s, p, from + 1);
    }
  }

  lemma {:induction false} FilterAtMatchPositions<T>(s: seq<T>, p: T -> bool, from: nat)
    requires from <= |s|
    ensures var r, m := Filter(s[from..], p), MatchPositions(s, p, from);
      |m| == |r| && forall j :: 0 <= j < |m| ==> m[j] < |s| && r[j] == s[m[j]]
    decreases |s| - from
  {
    if from < |s| {
      FilterAtMatchPositions(s, p, from + 1);
      assert s[from..][0] == s[from];
      assert s[from..][1..] == s[from + 1..];
      var r', m' := Filter(s[from + 1..], p), MatchPositions(s, p, from + 1);
      var r, m := Filter(s[from..], p), MatchPositions(s, p, from);
      if p(s[from]) {
        assert r == [s[from]] + r';
        assert m == [from] + m';
        assert forall j :: 0 < j < |m| ==> m[j] == m'[j - 1] && r[j] == r'[j - 1];
      } else {
        assert r == r' && m == m';
      }
    }
  }

  /**
   * `Filter(s[from..], p)` is the subsequence of `s` taken at `MatchPositions(s, p, from)`:
   * strictly increasing positions that cover every element satisfying `p`. So filtering keeps
   * exactly the matching elements and keeps them in their original order.
   */
  lemma FilterIsOrderedSubsequence<T>(s: seq<T>, p: T -> bool, from: nat)
    requires from <= |s|
    ensures var r, m := Filter(s[from..], p), MatchPositions(s, p, from);
      && |m| == |r|
      && (forall j :: 0 <= j < |m| ==> from <= m[j] < |s| && r[j] == s[m[j]])
      && (forall j, k :: 0 <= j < k < |m| ==> m[j] < m[k])
      && (forall i :: from <= i < |s| && p(s[i]) ==> i in m)
  {
    MatchPositionsIncrease(s, p, from);
    MatchPositionsComplete(s, p, from);
    FilterAtMatchPositions(s, p, from);
  }

  /** One unfolding of `Filter` on a non-empty sequence. */
  lemma FilterHead<T>(s: seq<T>, p: T -> bool)
    requires s != []
    ensures Filter(s, p) == (if p(s[0]) then [s[0]] else []) + Filter(s[1..], p)
  {
  }

  /**
   * The length `k` of the prefix of `s` whose filter is `s.filter(p).slice(0, n)`; it is all
   * of `s` when at most `n` elements match.
   */
  lemma {:induction false} TakeFilterPrefix<T>(s: seq<T>, p: T -> bool, n: nat) returns (k: nat)
    ensures k <= |s| && Take(Filter(s, p), n) == Filter(s[..k], p)
    ensures |Filter(s, p)| <= n ==> k == |s|
    decreases |s|
  {
    if |Filter(s, p)| <= n {
      k := |s|;
      assert s[..k] == s;
    } else if n == 0 {
      k := 0;
      assert s[..0] == [];
    } else {
      var n' := if p(s[0]) then n - 1 else n;
      var k' := TakeFilterPrefix(s[1..], p, n');
      k := k' + 1;
      var f, f' := Filter(s, p), Filter(s[1..], p);
      FilterHead(s, p);
      FilterHead(s[..k], p);
      assert s[..k][0] == s[0];
      assert s[..k][1..] == s[1..][..k'];
      if p(s[0]) {
        assert f == [s[0]] + f';
        assert Take(f, n) == [s[0]] + Take(f', n');
      } else {
        assert f == f';
      }
    }
  }

  /**
   * `s.filter(p).slice(0, n)` is everything `p` keeps from some prefix `s[..k]` of `s`:
   * the first matches in order. When fewer than `n` elements match, that prefix is all of `s`.
   */
  lemma TakeFilterIsFilterOfPrefix<T>(s: seq<T>, p: T -> bool, n: nat)
    ensures exists k :: (0 <= k <= |s| && Take(Filter(s, p), n) == Filter(s[..k], p)
                         && (|Filter(s, p)| <= n ==> k == |s|))
  {
    var k := TakeFilterPrefix(s, p, n);
  }
}
