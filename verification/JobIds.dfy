/** Job identifiers: a decimal sequence number padded with zeros to twelve places. */
module JobIds {
  import opened Arithmetic
  import opened Decimals
  import opened Ordering

  const WIDTH: nat := 12

  function Zeros(n: nat): (s: string)
    ensures |s| == n
  {
    seq(n, _ => '0')
  }

  function Padded(n: nat): (s: string) {
    var value := Decimal(n);
    Zeros(WIDTH - if |value| < WIDTH then |value| else WIDTH) + value
  }

  function JobId(n: nat): (s: string) { "job-" + Padded(n) }

  // ---------------------------------------------------------------- identifiers are distinct

  lemma {:induction false} ZerosAddNothing(k: nat, s: string)
    ensures Value(Zeros(k) + s) == Value(s)
  {
    var t := Zeros(k) + s;
    if s != [] {
      assert t[..|t| - 1] == Zeros(k) + s[..|s| - 1];
      ZerosAddNothing(k, s[..|s| - 1]);
    } else if k > 0 {
      assert t[..|t| - 1] == Zeros(k - 1) + s;
      ZerosAddNothing(k - 1, s);
    }
  }

  lemma JobIdInjective(m: nat, n: nat)
    requires JobId(m) == JobId(n)
    ensures m == n
  {
    assert JobId(m)[4..] == Padded(m) && JobId(n)[4..] == Padded(n);
    DecimalValue(m);
    DecimalValue(n);
    ZerosAddNothing(|Padded(m)| - |Decimal(m)|, Decimal(m));
    ZerosAddNothing(|Padded(n)| - |Decimal(n)|, Decimal(n));
  }

  // ---------------------------------------------------------------- identifier order

  function Power10(k: nat): nat {
    if k == 0 then 1 else 10 * Power10(k - 1)
  }

  /** The last k decimal digits of n. */
  function Fixed(n: nat, k: nat): (s: string)
    ensures |s| == k
  {
    if k == 0 then "" else Fixed(n / 10, k - 1) + [Digit(n % 10)]
  }

  lemma {:induction false} FixedZero(k: nat)
    ensures Fixed(0, k) == Zeros(k)
  {
    if k > 0 {
      FixedZero(k - 1);
      assert Zeros(k) == Zeros(k - 1) + ['0'];
    }
  }

  lemma {:induction false} FixedIsPadded(n: nat, k: nat)
    requires k >= 1 && n < Power10(k)
    ensures |Decimal(n)| <= k && Fixed(n, k) == Zeros(k - |Decimal(n)|) + Decimal(n)
    decreases k
  {
    if n < 10 {
      FixedZero(k - 1);
    } else {
      assert k >= 2;
      FixedIsPadded(n / 10, k - 1);
    }
  }

  lemma {:induction false} StrLeSnoc(a: string, x: char, b: string, y: char)
    requires |a| == |b|
    ensures StrLe(a + [x], b + [y]) <==> if a == b then x <= y else StrLe(a, b)
  {
    if a != [] {
      assert (a + [x])[1..] == a[1..] + [x] && (b + [y])[1..] == b[1..] + [y];
      StrLeSnoc(a[1..], x, b[1..], y);
      assert a == [a[0]] + a[1..] && b == [b[0]] + b[1..];
    }
  }

  lemma {:induction false} FixedOrder(m: nat, n: nat, k: nat)
    requires m < Power10(k) && n < Power10(k)
    ensures StrLe(Fixed(m, k), Fixed(n, k)) <==> m <= n
    ensures Fixed(m, k) == Fixed(n, k) ==> m == n
  {
    if k > 0 {
      FixedOrder(m / 10, n / 10, k - 1);
      StrLeSnoc(Fixed(m / 10, k - 1), Digit(m % 10), Fixed(n / 10, k - 1), Digit(n % 10));
      assert Fixed(m, k)[..k - 1] == Fixed(m / 10, k - 1) && Fixed(n, k)[..k - 1] == Fixed(n / 10, k - 1);
      assert Fixed(m, k)[k - 1] == Digit(m % 10) && Fixed(n, k)[k - 1] == Digit(n % 10);
    }
  }

  lemma {:induction false} StrLePrefix(p: string, a: string, b: string)
    ensures StrLe(p + a, p + b) <==> StrLe(a, b)
  {
    if p == [] {
      assert p + a == a && p + b == b;
    } else {
      assert (p + a)[1..] == p[1..] + a && (p + b)[1..] == p[1..] + b;
      StrLePrefix(p[1..], a, b);
    }
  }

  lemma TenToTheTwelve()
    ensures Power10(WIDTH) == 1_000_000_000_000
  {
    assert Power10(6) == 1_000_000;
    assert Power10(7) == 10 * Power10(6) && Power10(8) == 10 * Power10(7) && Power10(9) == 10 * Power10(8);
  }

  /** The number of places that an identifier takes. */
  function Width(n: nat): nat { if |Decimal(n)| < WIDTH then WIDTH else |Decimal(n)| }

  lemma {:induction false} DecimalBound(n: nat)
    ensures n < Power10(|Decimal(n)|)
  {
    if n >= 10 {
      DecimalBound(n / 10);
    } else {
      assert Power10(1) == 10;
    }
  }

  lemma {:induction false} PowerGrows(k: nat, m: nat)
    requires k <= m
    ensures Power10(k) <= Power10(m)
  {
    if k < m {
      PowerGrows(k, m - 1);
    }
  }

  lemma PaddedIsFixed(n: nat)
    ensures n < Power10(Width(n)) && Padded(n) == Fixed(n, Width(n))
  {
    DecimalBound(n);
    PowerGrows(|Decimal(n)|, Width(n));
    FixedIsPadded(n, Width(n));
  }

  /** What is left of a number without its last j digits. */
  function Shift(n: nat, j: nat): nat {
    if j == 0 then n else Shift(n / 10, j - 1)
  }

  lemma {:induction false} ShiftDivides(n: nat, j: nat)
    ensures Power10(j) > 0 && Shift(n, j) == n / Power10(j)
  {
    if j > 0 {
      ShiftDivides(n / 10, j - 1);
      DivideTwice(n, 10, Power10(j - 1));
    }
  }

  lemma {:induction false} FixedTop(n: nat, k: nat, j: nat)
    requires n < Power10(k + j)
    ensures Fixed(n, k + j)[..k] == Fixed(Shift(n, j), k) && Shift(n, j) < Power10(k)
  {
    if j > 0 {
      FixedTop(n / 10, k, j - 1);
      assert Fixed(n, k + j)[..k] == Fixed(n / 10, k + j - 1)[..k];
    }
  }

  /** A shorter text comes first exactly when it does so against the beginning of the longer one. */
  lemma {:induction false} StrLeLonger(a: string, b: string)
    requires |a| <= |b|
    ensures StrLe(a, b) <==> StrLe(a, b[..|a|])
    ensures StrLe(b, a) <==> StrLe(b[..|a|], a) && (a == b[..|a|] ==> a == b)
  {
    if a != [] {
      assert b[..|a|][1..] == b[1..][..|a| - 1];
      StrLeLonger(a[1..], b[1..]);
      assert a == [a[0]] + a[1..] && b == [b[0]] + b[1..];
      assert b[..|a|] == [b[0]] + b[1..][..|a| - 1];
    } else {
      assert b[..0] == [];
    }
  }

  /** The order of any two identifiers: that of the numbers, the longer one cut to the width of the shorter. */
  lemma JobIdOrderExactly(m: nat, n: nat)
    requires Width(m) <= Width(n)
    ensures Power10(Width(n) - Width(m)) > 0
    ensures StrLe(JobId(m), JobId(n)) <==> m <= n / Power10(Width(n) - Width(m))
    ensures StrLe(JobId(n), JobId(m)) <==>
            n / Power10(Width(n) - Width(m)) < m || (Width(m) == Width(n) && m == n)
  {
    var k, j := Width(m), Width(n) - Width(m);
    ShiftDivides(n, j);
    PaddedOrder(m, n, k, j);
    StrLePrefix("job-", Padded(m), Padded(n));
    StrLePrefix("job-", Padded(n), Padded(m));
  }

  /** A text of k digits against a longer one that begins with k digits. */
  lemma CutOrder(x: string, y: string, k: nat, m: nat, top: nat)
    requires k <= |y| && x == Fixed(m, k) && y[..k] == Fixed(top, k) && m < Power10(k) && top < Power10(k)
    ensures StrLe(x, y) <==> m <= top
    ensures StrLe(y, x) <==> top < m || (top == m && x == y)
  {
    FixedOrder(m, top, k);
    FixedOrder(top, m, k);
    StrLeLonger(x, y);
  }

  lemma PaddedOrder(m: nat, n: nat, k: nat, j: nat)
    requires Width(m) == k && Width(n) == k + j
    ensures StrLe(Padded(m), Padded(n)) <==> m <= Shift(n, j)
    ensures StrLe(Padded(n), Padded(m)) <==> Shift(n, j) < m || (j == 0 && m == n)
  {
    PaddedIsFixed(m);
    PaddedIsFixed(n);
    FixedTop(n, k, j);
    CutOrder(Padded(m), Padded(n), k, m, Shift(n, j));
    assert |Padded(m)| == k && |Padded(n)| == k + j;
  }

  lemma TwelvePlaces(n: nat)
    ensures Width(n) == WIDTH <==> n < 1_000_000_000_000
  {
    TenToTheTwelve();
    DecimalBound(n);
    if n < 1_000_000_000_000 {
      FixedIsPadded(n, WIDTH);
    } else if |Decimal(n)| <= WIDTH {
      PowerGrows(|Decimal(n)|, WIDTH);
    }
  }

  /** Below 10^12 the order of identifiers is the order of their numbers. */
  lemma JobIdOrder(m: nat, n: nat)
    requires m < 1_000_000_000_000 && n < 1_000_000_000_000
    ensures StrLe(JobId(m), JobId(n)) <==> m <= n
  {
    TwelvePlaces(m);
    TwelvePlaces(n);
    JobIdOrderExactly(m, n);
    assert Power10(0) == 1;
  }

  lemma {:induction false} PowerStartsWithOne(k: nat)
    ensures Power10(k) > 0 && |Decimal(Power10(k))| == k + 1 && Decimal(Power10(k))[0] == '1'
  {
    if k > 0 {
      PowerStartsWithOne(k - 1);
    }
  }

  lemma {:induction false} NinesStartWithNine(k: nat)
    requires k >= 1
    ensures Power10(k) > 0 && |Decimal(Power10(k) - 1)| == k && Decimal(Power10(k) - 1)[0] == '9'
  {
    if k > 1 {
      NinesStartWithNine(k - 1);
    }
  }

  /** At 10^12 the two orders part: the later identifier comes first. */
  lemma JobIdOrderEnds()
    ensures !StrLe(JobId(999_999_999_999), JobId(1_000_000_000_000))
  {
    TenToTheTwelve();
    PowerStartsWithOne(WIDTH);
    NinesStartWithNine(WIDTH);
    StrLePrefix("job-", Padded(999_999_999_999), Padded(1_000_000_000_000));
    assert Padded(999_999_999_999) == Decimal(999_999_999_999);
    assert Padded(1_000_000_000_000) == Decimal(1_000_000_000_000);
  }

  // ---------------------------------------------------------------- identifiers in use

  ghost predicate Issued(id: string, sequence: nat) {
    exists k: nat {:trigger JobId(k)} :: k < sequence && id == JobId(k)
  }

  /** Every identifier in use was drawn, and none of those still pending is in use. */
  ghost predicate Ids(used: set<string>, pending: set<string>, sequence: nat) {
    && (forall id {:trigger Issued(id, sequence)} :: id in used + pending ==> Issued(id, sequence))
    && pending !! used
  }

  lemma IssueKeepsIds(used: set<string>, pending: set<string>, n: nat)
    requires Ids(used, pending, n)
    ensures Ids(used, pending + {JobId(n)}, n + 1)
  {
    forall id | id in used + (pending + {JobId(n)}) ensures Issued(id, n + 1) {
      if id in used + pending {
        assert Issued(id, n);
      }
    }
    if JobId(n) in used {
      assert Issued(JobId(n), n);
      var k: nat :| k < n && JobId(n) == JobId(k);
      JobIdInjective(n, k);
      assert false;
    }
  }

  lemma SubmitKeepsIds(used: set<string>, pending: set<string>, n: nat, id: string)
    requires Ids(used, pending, n) && id in pending
    ensures id !in used && Ids(used + {id}, pending - {id}, n)
  {
    forall i | i in (used + {id}) + (pending - {id}) ensures Issued(i, n) {
      assert i in used + pending;
    }
  }
}
