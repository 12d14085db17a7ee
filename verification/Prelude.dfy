/** Shared vocabulary: optional values, results, and counting over sequences. */
module Prelude {

  datatype Option<+T> = None | Some(value: T)

  datatype Result<+T, +E> = Ok(value: T) | Err(error: E)

  function Max(a: int, b: int): (m: int)
    ensures m == a || m == b
    ensures a <= m && b <= m
  {
    if a < b then b else a
  }

  lemma SubsetSize<T>(a: set<T>, b: set<T>)
    requires a <= b
    ensures |a| <= |b|
  {
    assert b == a + (b - a);
  }

  /** How many elements of `s` satisfy `p`. */
  function Count<T>(s: seq<T>, p: T -> bool): (n: nat)
    ensures n <= |s|
  {
    if s == [] then 0 else Count(s[..|s| - 1], p) + if p(s[|s| - 1]) then 1 else 0
  }

  lemma {:induction false} CountAppend<T>(s: seq<T>, x: T, p: T -> bool)
    ensures Count(s + [x], p) == Count(s, p) + if p(x) then 1 else 0
  {
    assert (s + [x])[..|s|] == s;
  }

  lemma {:induction false} CountUpdate<T>(s: seq<T>, i: nat, x: T, p: T -> bool)
    requires i < |s|
    ensures Count(s[i := x], p) == Count(s, p) - (if p(s[i]) then 1 else 0) + (if p(x) then 1 else 0)
  {
    var n := |s| - 1;
    if i == n {
      assert s[i := x][..n] == s[..n];
    } else {
      assert s[i := x][..n] == s[..n][i := x];
      CountUpdate(s[..n], i, x, p);
    }
  }

  lemma {:induction false} CountRemove<T>(s: seq<T>, i: nat, p: T -> bool)
    requires i < |s|
    ensures Count(s[..i] + s[i + 1..], p) == Count(s, p) - if p(s[i]) then 1 else 0
  {
    var n := |s| - 1;
    var r := s[..i] + s[i + 1..];
    if i == n {
      assert r == s[..n];
    } else {
      assert r[..|r| - 1] == s[..n][..i] + s[..n][i + 1..];
      CountRemove(s[..n], i, p);
    }
  }

  /** Pointwise implication bounds the count; one strict position makes it strict. */
  lemma {:induction false} CountMonotone<T>(s: seq<T>, s': seq<T>, p: T -> bool, q: T -> bool)
    requires |s| == |s'|
    requires forall i :: 0 <= i < |s| ==> q(s'[i]) ==> p(s[i])
    ensures Count(s', q) <= Count(s, p)
    ensures (forall i :: 0 <= i < |s| ==> (p(s[i]) ==> q(s'[i]))) ==> Count(s', q) == Count(s, p)
    ensures (exists i :: 0 <= i < |s| && p(s[i]) && !q(s'[i])) ==> Count(s', q) < Count(s, p)
  {
    if s != [] {
      CountMonotone(s[..|s| - 1], s'[..|s| - 1], p, q);
      assert forall i :: 0 <= i < |s| - 1 ==> s[..|s| - 1][i] == s[i] && s'[..|s| - 1][i] == s'[i];
    }
  }

  lemma {:induction false} CountPositive<T>(s: seq<T>, p: T -> bool)
    ensures Count(s, p) > 0 <==> exists i :: 0 <= i < |s| && p(s[i])
  {
    if s != [] {
      var t := s[..|s| - 1];
      CountPositive(t, p);
      if i :| 0 <= i < |s| && p(s[i]) {
        assert i < |t| ==> p(t[i]);
      }
    }
  }

  lemma {:induction false} CountSplit<T>(s: seq<T>, p: T -> bool, q: T -> bool, r: T -> bool)
    requires forall x :: x in s ==> (r(x) <==> p(x) || q(x)) && !(p(x) && q(x))
    ensures Count(s, r) == Count(s, p) + Count(s, q)
  {
    if s != [] {
      CountSplit(s[..|s| - 1], p, q, r);
    }
  }

  lemma {:induction false} CountAll<T>(s: seq<T>, p: T -> bool)
    requires forall x :: x in s ==> p(x)
    ensures Count(s, p) == |s|
  {
    if s != [] {
      CountAll(s[..|s| - 1], p);
    }
  }

  lemma NextPrefix<T>(s: seq<T>, k: nat)
    requires k < |s|
    ensures s[..k + 1] == s[..k] + [s[k]]
  {
  }

  function SumBy<T>(s: seq<T>, f: T -> int): int {
    if s == [] then 0 else SumBy(s[..|s| - 1], f) + f(s[|s| - 1])
  }

  lemma {:induction false} SumUpdate<T>(s: seq<T>, i: nat, x: T, f: T -> int)
    requires i < |s|
    ensures SumBy(s[i := x], f) == SumBy(s, f) - f(s[i]) + f(x)
  {
    var n := |s| - 1;
    if i == n {
      assert s[i := x][..n] == s[..n];
    } else {
      assert s[i := x][..n] == s[..n][i := x];
      SumUpdate(s[..n], i, x, f);
    }
  }

  lemma {:induction false} SumRemove<T>(s: seq<T>, i: nat, f: T -> int)
    requires i < |s|
    ensures SumBy(s[..i] + s[i + 1..], f) == SumBy(s, f) - f(s[i])
  {
    var n := |s| - 1;
    var r := s[..i] + s[i + 1..];
    if i == n {
      assert r == s[..n];
    } else {
      assert r[..|r| - 1] == s[..n][..i] + s[..n][i + 1..];
      SumRemove(s[..n], i, f);
    }
  }

  lemma {:induction false} SumPointwise<T, U>(s: seq<T>, s': seq<U>, f: T -> int, g: U -> int)
    requires |s| == |s'| && forall i :: 0 <= i < |s| ==> f(s[i]) == g(s'[i])
    ensures SumBy(s, f) == SumBy(s', g)
  {
    if s != [] {
      SumPointwise(s[..|s| - 1], s'[..|s| - 1], f, g);
    }
  }

  lemma {:induction false} SumZero<T>(s: seq<T>, f: T -> int)
    requires forall x :: x in s ==> f(x) == 0
    ensures SumBy(s, f) == 0
  {
    if s != [] {
      SumZero(s[..|s| - 1], f);
    }
  }

  function Identity(): int -> int { (n: int) => n }

  function KeyIs<T>(key: T -> int, k: int): T -> bool { (x: T) => key(x) == k }

  /** How often each key below `n` occurs in `s`. */
  function Tally<T>(s: seq<T>, key: T -> int, n: nat): seq<int> {
    seq(n, k => Count(s, KeyIs(key, k)))
  }

  /** Counting by key loses nothing when every key is in range. */
  lemma {:induction false} TallyTotal<T>(s: seq<T>, key: T -> int, n: nat)
    requires forall x :: x in s ==> 0 <= key(x) < n
    ensures SumBy(Tally(s, key, n), Identity()) == |s|
  {
    if s == [] {
      SumZero(Tally(s, key, n), Identity());
    } else {
      var t, x := s[..|s| - 1], s[|s| - 1];
      TallyTotal(t, key, n);
      var k := key(x);
      var before := Tally(t, key, n);
      assert Tally(s, key, n) == before[k := before[k] + 1];
      SumUpdate(before, k, before[k] + 1, Identity());
    }
  }

  function MapSeq<T, U>(s: seq<T>, f: T -> U): (r: seq<U>)
    ensures |r| == |s| && forall i :: 0 <= i < |s| ==> r[i] == f(s[i])
  {
    seq(|s|, i requires 0 <= i < |s| => f(s[i]))
  }
}
