/** Latency figures of a run: least, greatest, average and nearest-rank percentiles of the recorded values. */
module Latency {
  import opened Prelude
  import opened Ordering

  datatype Figures = Figures(min: int, p50: int, p95: int, p99: int, max: int, avg: real)

  function ByNumber(): Order<int> { (a: int, b: int) => a <= b }

  function Ceiling(x: real): int { -((-x).Floor) }

  /** The value at a rank, which is first brought into range. */
  function AtRank(sorted: seq<int>, rank: int): int
    requires sorted != []
  {
    sorted[Max(0, if rank < |sorted| - 1 then rank else |sorted| - 1)]
  }

  function RankOf(n: nat, pct: int): int { Ceiling((pct as real / 100.0) * n as real) - 1 }

  function Percentile(sorted: seq<int>, pct: int): int {
    if sorted == [] then 0 else AtRank(sorted, RankOf(|sorted|, pct))
  }

  function FiguresOf(values: seq<int>): Figures {
    var sorted := SortBy(values, ByNumber());
    SortPermutes(values, ByNumber());
    if values == [] then Figures(0, 0, 0, 0, 0, 0.0) else
      Figures(sorted[0], Percentile(sorted, 50), Percentile(sorted, 95), Percentile(sorted, 99), sorted[|sorted| - 1],
              SumBy(sorted, Identity()) as real / |sorted| as real)
  }

  lemma NumbersSort(values: seq<int>)
    ensures Sorted(SortBy(values, ByNumber()), ByNumber()) && TiesAreEqual(SortBy(values, ByNumber()), ByNumber())
  {
    var sorted := SortBy(values, ByNumber());
    SortSorts(values, ByNumber());
    forall x | x in sorted ensures TiesAt(sorted, ByNumber(), x) {
    }
  }

  /** The order in which jobs finish does not matter. */
  lemma FiguresForgetOrder(a: seq<int>, b: seq<int>)
    requires multiset(a) == multiset(b)
    ensures FiguresOf(a) == FiguresOf(b)
  {
    NumbersSort(a);
    NumbersSort(b);
    SortPermutes(a, ByNumber());
    SortPermutes(b, ByNumber());
    SortedUnique(SortBy(a, ByNumber()), SortBy(b, ByNumber()), ByNumber());
    SameMultiset(a, b);
  }

  function AtMost(x: int): int -> bool { (v: int) => v <= x }
  function Below(x: int): int -> bool { (v: int) => v < x }

  lemma {:induction false} CountPrefix(s: seq<int>, k: nat, p: int -> bool)
    requires k <= |s|
    ensures (forall i :: 0 <= i < k ==> p(s[i])) ==> Count(s, p) >= k
    ensures (forall i :: k <= i < |s| ==> !p(s[i])) ==> Count(s, p) <= k
  {
    if |s| > k {
      CountPrefix(s[..|s| - 1], k, p);
    } else if k > 0 {
      CountPrefix(s[..|s| - 1], k - 1, p);
    }
  }

  lemma RankCounts(sorted: seq<int>, rank: nat)
    requires rank < |sorted| && Sorted(sorted, ByNumber())
    ensures Count(sorted, AtMost(sorted[rank])) >= rank + 1 && Count(sorted, Below(sorted[rank])) <= rank
  {
    var p := sorted[rank];
    forall i | 0 <= i < |sorted| ensures (i <= rank ==> sorted[i] <= p) && (i >= rank ==> p <= sorted[i]) {
      assert i < rank ==> ByNumber()(sorted[i], sorted[rank]);
      assert rank < i ==> ByNumber()(sorted[rank], sorted[i]);
    }
    CountPrefix(sorted, rank + 1, AtMost(p));
    CountPrefix(sorted, rank, Below(p));
  }

  lemma CeilingBounds(x: real)
    ensures x <= Ceiling(x) as real < x + 1.0
  {
  }

  lemma PercentileRank(sorted: seq<int>, pct: int) returns (rank: nat)
    requires sorted != [] && 1 <= pct <= 100
    ensures rank < |sorted| && Percentile(sorted, pct) == sorted[rank]
    ensures var share := (pct as real / 100.0) * |sorted| as real; rank as real < share <= rank as real + 1.0
  {
    var share := (pct as real / 100.0) * |sorted| as real;
    ShareBounds(pct, |sorted|);
    CeilingBounds(share);
    rank := Ceiling(share) - 1;
  }

  /** The nearest-rank definition: at least the given share of the values is at most the percentile, and less than
      that share is below it. */
  lemma PercentileIsNearestRank(sorted: seq<int>, pct: int)
    requires sorted != [] && 1 <= pct <= 100 && Sorted(sorted, ByNumber())
    ensures var p := Percentile(sorted, pct); var share := (pct as real / 100.0) * |sorted| as real;
            p in sorted && Count(sorted, AtMost(p)) as real >= share && (Count(sorted, Below(p)) as real) < share
  {
    var rank := PercentileRank(sorted, pct);
    RankCounts(sorted, rank);
  }

  lemma ShareBounds(pct: int, n: int)
    requires 1 <= pct <= 100 && n >= 1
    ensures 0.0 < (pct as real / 100.0) * n as real <= n as real
  {
    var x := pct as real / 100.0;
    assert 0.0 < x <= 1.0;
    ScaleAtMost(x, n as real);
  }

  lemma ScaleAtMost(x: real, y: real)
    requires 0.0 < x <= 1.0 && y > 0.0
    ensures 0.0 < x * y <= y
  {
  }

  // ---------------------------------------------------------------- the ranks in floating point

  /** Multiples of 1/128, which are exact in double precision below 2^46. */
  function Grid(j: int): real { j as real / 128.0 }

  /** Rounding to double precision, as far as it matters here: it keeps the order and leaves exact numbers alone. */
  ghost predicate Rounds(round: real -> real) {
    && (forall x, y {:trigger round(x), round(y)} :: x <= y ==> round(x) <= round(y))
    && (forall j {:trigger Grid(j)} :: 0 <= j < 0x20_0000_0000_0000 ==> round(Grid(j)) == Grid(j))
  }

  /** The double next to pct / 100. */
  function Share(pct: int): real
    requires pct == 50 || pct == 95 || pct == 99
  {
    (if pct == 50 then 4503599627370496.0 else if pct == 95 then 8556839292003942.0 else 8917127262193582.0)
      / 9007199254740992.0
  }

  function FloatRank(n: nat, share: real, round: real -> real): int { Ceiling(round(share * n as real)) - 1 }

  function FloatPercentile(sorted: seq<int>, share: real, round: real -> real): int {
    if sorted == [] then 0 else AtRank(sorted, FloatRank(|sorted|, share, round))
  }

  lemma ShareIsNearest(pct: int)
    requires pct == 50 || pct == 95 || pct == 99
    ensures 0.0 <= pct as real / 100.0 - Share(pct) <= 1.0 / 18014398509481984.0
  {
  }

  /** Rounding a number a little below a whole one, or well inside a unit, does not change its ceiling. */
  lemma CeilingOfRounded(round: real -> real, x: real, k: nat, whole: bool)
    requires Rounds(round) && k < 0x100_0000_0001 && (whole ==> k > 0)
    requires if whole then Grid(128 * k - 1) <= x <= Grid(128 * k) else Grid(128 * k + 1) <= x <= Grid(128 * k + 128)
    ensures Ceiling(round(x)) == if whole then k else k + 1
  {
    if whole {
      assert round(Grid(128 * k - 1)) <= round(x) <= round(Grid(128 * k));
    } else {
      assert round(Grid(128 * k + 1)) <= round(x) <= round(Grid(128 * k + 128));
    }
  }

  lemma ShareSplits(pct: int, n: nat) returns (k: nat, r: nat)
    requires 1 <= pct <= 100 && n >= 1
    ensures r < 100 && pct * n == 100 * k + r && k <= n && (r == 0 ==> k > 0)
    ensures (pct as real / 100.0) * n as real == k as real + r as real / 100.0
    ensures Ceiling((pct as real / 100.0) * n as real) == if r == 0 then k else k + 1
  {
    k, r := pct * n / 100, pct * n % 100;
    assert (pct as real / 100.0) * n as real == (pct * n) as real / 100.0;
  }

  /** Up to 2^40 values the percentiles in floating point are the exact ones. */
  lemma FloatPercentileIsExact(sorted: seq<int>, pct: int, round: real -> real)
    requires (pct == 50 || pct == 95 || pct == 99) && |sorted| <= 0x100_0000_0000 && Rounds(round)
    ensures FloatPercentile(sorted, Share(pct), round) == Percentile(sorted, pct)
  {
    ShareIsNearest(pct);
    PercentilesAgree(sorted, pct, Share(pct), round);
  }

  lemma PercentilesAgree(sorted: seq<int>, pct: int, share: real, round: real -> real)
    requires 1 <= pct <= 100 && |sorted| <= 0x100_0000_0000 && Rounds(round)
    requires 0.0 <= pct as real / 100.0 - share <= 1.0 / 18014398509481984.0
    ensures FloatPercentile(sorted, share, round) == Percentile(sorted, pct)
  {
    if sorted != [] {
      RanksAgree(pct, share, |sorted|, round);
    }
  }

  lemma RanksAgree(pct: int, share: real, n: nat, round: real -> real)
    requires 1 <= pct <= 100 && 1 <= n <= 0x100_0000_0000 && Rounds(round)
    requires 0.0 <= pct as real / 100.0 - share <= 1.0 / 18014398509481984.0
    ensures FloatRank(n, share, round) == RankOf(n, pct)
  {
    var k, r := ShareSplits(pct, n);
    var p := pct as real / 100.0;
    ShareError(p, share, n);
    RoundedShare(round, p * n as real, share * n as real, k, r);
  }

  lemma RoundedShare(round: real -> real, exact: real, x: real, k: nat, r: nat)
    requires Rounds(round) && r < 100 && k <= 0x100_0000_0000 && (r == 0 ==> k > 0)
    requires exact == k as real + r as real / 100.0 && 0.0 <= exact - x <= 1.0 / 16384.0
    ensures Ceiling(round(x)) == if r == 0 then k else k + 1
  {
    CeilingOfRounded(round, x, k, r == 0);
  }

  lemma ShareError(exact: real, share: real, n: nat)
    requires 0.0 <= exact - share <= 1.0 / 18014398509481984.0 && n <= 0x100_0000_0000
    ensures 0.0 <= exact * n as real - share * n as real <= 1.0 / 16384.0
  {
    var e, m := exact - share, n as real;
    assert exact * m - share * m == e * m;
    ScaleBoth(e, 1.0 / 18014398509481984.0, m, 1099511627776.0);
  }

  lemma ScaleBoth(a: real, b: real, m: real, n: real)
    requires 0.0 <= a <= b && 0.0 <= m <= n
    ensures 0.0 <= a * m <= b * n
  {
    assert a * m <= b * m;
    assert b * m <= b * n;
  }
}
