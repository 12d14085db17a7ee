/** The fixed-window rate limiter and the bound it gives over sliding intervals. */
module RateLimiter {

  datatype Bucket = Bucket(windowStart: int, count: int)

  type Buckets = map<string, Bucket>

  function Key(subject: string, operation: string): string { subject + ":" + operation }

  /** A bucket that has never been used starts at zero, which also marks it as unused. */
  function BucketOf(buckets: Buckets, key: string): Bucket {
    if key in buckets then buckets[key] else Bucket(0, 0)
  }

  function Counted(b: Bucket, window: int, now: int): Bucket {
    if b.windowStart == 0 || now - b.windowStart >= window then Bucket(now, 1) else b.(count := b.count + 1)
  }

  class PlatformRateLimiter {
    var buckets: Buckets

    constructor ()
      ensures buckets == map[]
    {
      buckets := map[];
    }

    method Allow(subject: string, operation: string, limit: int, window: int, now: int) returns (allowed: bool)
      modifies this`buckets
      ensures limit <= 0 || window <= 0 ==> allowed && buckets == old(buckets)
      ensures limit > 0 && window > 0 ==>
                && var key, was := Key(subject, operation), old(buckets);
                && buckets == was[key := Counted(BucketOf(was, key), window, now)]
                && allowed == (buckets[key].count <= limit)
    {
      if limit <= 0 || window <= 0 {
        return true;
      }
      var key := subject + ":" + operation;
      if key !in buckets {
        buckets := buckets[key := Bucket(0, 0)];
      }
      if buckets[key].windowStart == 0 || now - buckets[key].windowStart >= window {
        buckets := buckets[key := Bucket(now, 0)];
      }
      buckets := buckets[key := buckets[key].(count := buckets[key].count + 1)];
      allowed := buckets[key].count <= limit;
    }
  }

  // ---------------------------------------------------------------- keys do not interfere

  datatype Call = Call(subject: string, operation: string, now: int)

  function KeyOf(c: Call): string { Key(c.subject, c.operation) }

  /** The buckets after a run of calls. */
  function After(calls: seq<Call>, window: int): Buckets {
    if calls == [] then map[] else
      var was, c := After(calls[..|calls| - 1], window), calls[|calls| - 1];
      was[KeyOf(c) := Counted(BucketOf(was, KeyOf(c)), window, c.now)]
  }

  /** The answer to the last call of a run. */
  predicate Answer(calls: seq<Call>, limit: int, window: int)
    requires calls != []
  {
    BucketOf(After(calls, window), KeyOf(calls[|calls| - 1])).count <= limit
  }

  /** One bucket alone. */
  function BucketAfter(times: seq<int>, window: int): Bucket {
    if times == [] then Bucket(0, 0) else
      Counted(BucketAfter(times[..|times| - 1], window), window, times[|times| - 1])
  }

  function TimesOf(calls: seq<Call>, key: string): seq<int> {
    if calls == [] then [] else
      var c := calls[|calls| - 1];
      TimesOf(calls[..|calls| - 1], key) + if KeyOf(c) == key then [c.now] else []
  }

  /** What happens to a key depends on its own calls only. */
  lemma {:induction false} KeysAreIndependent(calls: seq<Call>, key: string, window: int)
    ensures BucketOf(After(calls, window), key) == BucketAfter(TimesOf(calls, key), window)
  {
    if calls != [] {
      KeysAreIndependent(calls[..|calls| - 1], key, window);
      var before, times := TimesOf(calls[..|calls| - 1], key), TimesOf(calls, key);
      if KeyOf(calls[|calls| - 1]) == key {
        assert times[..|times| - 1] == before;
      } else {
        assert times == before;
      }
    }
  }

  /** Two pairs share a key exactly when they are equal or a colon inside one operation could be read as the
      separator; with colon-free operations they never do. */
  lemma KeysCollideExactly(s: string, o: string, s': string, o': string)
    requires |o'| <= |o|
    ensures Key(s, o) == Key(s', o') <==>
            if |o| == |o'| then s == s' && o == o'
            else var m := |o| - |o'| - 1; o[m..] == ":" + o' && s' == s + ":" + o[..m]
    ensures ':' !in o && Key(s, o) == Key(s', o') ==> s == s' && o == o'
  {
    var m := |o| - |o'| - 1;
    if m >= 0 {
      assert o == o[..m] + o[m..];
      assert Key(s, o) == (s + ":" + o[..m]) + o[m..];
      assert Key(s', o') == s' + (":" + o');
      if Key(s, o) == Key(s', o') {
        SameSplit(s + ":" + o[..m], o[m..], s', ":" + o');
        assert o[m] == o[m..][0];
      }
    } else if Key(s, o) == Key(s', o') {
      SameSplit(s + ":", o, s' + ":", o');
      SameSplit(s, ":", s', ":");
    }
  }

  lemma SameSplit(a: string, b: string, a': string, b': string)
    requires a + b == a' + b' && |b| == |b'|
    ensures a == a' && b == b'
  {
    assert (a + b)[..|a|] == a && (a' + b')[..|a'|] == a';
    assert (a + b)[|a|..] == b && (a' + b')[|a'|..] == b';
  }

  // ---------------------------------------------------------------- windows

  ghost predicate Forward(times: seq<int>) {
    forall i, j :: 0 <= i < j < |times| ==> times[i] <= times[j]
  }

  /** The call that opened the window in which call `i` falls: a call opens a window when its time is at least
      a window length after the previous opening. */
  function Opening(times: seq<int>, window: int, i: nat): (j: nat)
    requires i < |times|
    ensures j <= i
  {
    if i == 0 then 0 else
      var j := Opening(times, window, i - 1);
      if times[i] - times[j] >= window then i else j
  }

  /** A second call falls into a window that was opened at time zero. The bucket takes it for the first one. */
  ghost predicate Reopens(times: seq<int>, window: int, i: nat) {
    i < |times| && Opening(times, window, i) < i && times[Opening(times, window, i)] == 0
  }

  /** No window that is opened at time zero gets a second call. A clock that is never zero is steady. */
  ghost predicate Steady(times: seq<int>, window: int) {
    forall i: nat {:trigger Reopens(times, window, i)} :: !Reopens(times, window, i)
  }

  lemma NeverZeroIsSteady(times: seq<int>, window: int)
    requires forall i :: 0 <= i < |times| ==> times[i] != 0
    ensures Steady(times, window)
  {
  }

  /** The bucket holds the time at which the window of call `n` was opened, and the number of calls since. */
  ghost predicate Tracks(times: seq<int>, window: int, n: nat) {
    n < |times| ==>
      var j := Opening(times, window, n); BucketAfter(times[..n + 1], window) == Bucket(times[j], n + 1 - j)
  }

  lemma {:induction false} BucketIsWindow(times: seq<int>, window: int, n: nat)
    requires n < |times| && Steady(times, window)
    ensures Tracks(times, window, n)
  {
    assert times[..n + 1][..n] == times[..n];
    if n > 0 {
      BucketIsWindow(times, window, n - 1);
      assert !Reopens(times, window, n);
    }
  }

  /** The bucket follows the windows at every call exactly when the clock is steady. */
  lemma TracksExactly(times: seq<int>, window: int)
    ensures (forall n: nat {:trigger Tracks(times, window, n)} :: Tracks(times, window, n)) <==> Steady(times, window)
  {
    if Steady(times, window) {
      forall n: nat ensures Tracks(times, window, n) {
        if n < |times| {
          BucketIsWindow(times, window, n);
        }
      }
    } else {
      var i: nat :| Reopens(times, window, i);
      if Tracks(times, window, i - 1) {
        ReopeningLosesTrack(times, window, i);
      }
    }
  }

  lemma ReopeningLosesTrack(times: seq<int>, window: int, i: nat)
    requires Reopens(times, window, i) && Tracks(times, window, i - 1)
    ensures !Tracks(times, window, i)
  {
    assert times[..i + 1][..i] == times[..i];
    assert Opening(times, window, i) == Opening(times, window, i - 1);
  }

  predicate Admitted(times: seq<int>, limit: int, window: int, i: nat)
    requires i < |times|
  {
    BucketAfter(times[..i + 1], window).count <= limit
  }

  /** Exactly the first `limit` calls of each window are admitted. */
  lemma AdmitsFirstOfWindow(times: seq<int>, limit: int, window: int, i: nat)
    requires i < |times| && Steady(times, window)
    ensures Admitted(times, limit, window, i) <==> i - Opening(times, window, i) < limit
  {
    BucketIsWindow(times, window, i);
    assert Tracks(times, window, i);
  }

  /** The admitted calls among the first `n` with a time in [a, a + window). */
  function AdmittedIn(times: seq<int>, limit: int, window: int, a: int, n: nat): (r: nat)
    requires n <= |times|
    ensures r <= n
  {
    if n == 0 then 0 else
      AdmittedIn(times, limit, window, a, n - 1)
      + if a <= times[n - 1] < a + window && Admitted(times, limit, window, n - 1) then 1 else 0
  }

  lemma {:induction false} NoneBefore(times: seq<int>, limit: int, window: int, a: int, n: nat)
    requires n <= |times| && forall i :: 0 <= i < n ==> times[i] < a
    ensures AdmittedIn(times, limit, window, a, n) == 0
  {
    if n > 0 {
      NoneBefore(times, limit, window, a, n - 1);
    }
  }

  function Min(a: int, b: int): int { if a < b then a else b }

  /** The count so far, by where the current window opened relative to the interval. */
  lemma {:induction false} SlidingCount(times: seq<int>, limit: int, window: int, a: int, n: nat)
    requires limit > 0 && window > 0 && Forward(times) && Steady(times, window) && n < |times|
    ensures var j := Opening(times, window, n); var r := AdmittedIn(times, limit, window, a, n + 1);
            r <= (if times[j] < a then Min(n + 1 - j, limit) - 1
                  else if times[j] < a + window then limit - 1 + Min(n + 1 - j, limit)
                  else 2 * limit - 1)
  {
    AdmitsFirstOfWindow(times, limit, window, n);
    if n > 0 {
      SlidingCount(times, limit, window, a, n - 1);
      if times[n] < a {
        NoneBefore(times, limit, window, a, n + 1);
      }
    }
  }

  /** The run of a key seen from the mixed run: which of its calls in the interval were admitted. */
  function CallsAdmitted(calls: seq<Call>, key: string, limit: int, window: int, a: int): nat {
    if calls == [] then 0 else
      var c := calls[|calls| - 1];
      CallsAdmitted(calls[..|calls| - 1], key, limit, window, a)
      + if KeyOf(c) == key && a <= c.now < a + window && Answer(calls, limit, window) then 1 else 0
  }

  lemma {:induction false} AdmittedPrefix(times: seq<int>, more: seq<int>, limit: int, window: int, a: int, n: nat)
    requires n <= |times|
    ensures AdmittedIn(times + more, limit, window, a, n) == AdmittedIn(times, limit, window, a, n)
  {
    if n > 0 {
      AdmittedPrefix(times, more, limit, window, a, n - 1);
      assert (times + more)[..n] == times[..n];
    }
  }

  lemma OneMoreCall(before: seq<int>, now: int, limit: int, window: int, a: int)
    ensures AdmittedIn(before + [now], limit, window, a, |before| + 1) ==
            AdmittedIn(before, limit, window, a, |before|)
            + if a <= now < a + window && BucketAfter(before + [now], window).count <= limit then 1 else 0
  {
    AdmittedPrefix(before, [now], limit, window, a, |before|);
    assert (before + [now])[..|before| + 1] == before + [now];
  }

  lemma {:induction false} CallsSeenByKey(calls: seq<Call>, key: string, limit: int, window: int, a: int)
    ensures var times := TimesOf(calls, key);
            CallsAdmitted(calls, key, limit, window, a) == AdmittedIn(times, limit, window, a, |times|)
  {
    if calls != [] {
      var front, c := calls[..|calls| - 1], calls[|calls| - 1];
      CallsSeenByKey(front, key, limit, window, a);
      if KeyOf(c) == key {
        OneMoreCall(TimesOf(front, key), c.now, limit, window, a);
        KeysAreIndependent(calls, key, window);
      } else {
        assert TimesOf(calls, key) == TimesOf(front, key);
      }
    }
  }

  /** Over any run of calls on any keys, any interval of window length admits fewer than twice the limit of one
      key's calls, provided the clock does not run backwards and is steady. */
  lemma SlidingBound(calls: seq<Call>, key: string, limit: int, window: int, a: int)
    requires limit > 0 && window > 0 && Forward(TimesOf(calls, key)) && Steady(TimesOf(calls, key), window)
    ensures CallsAdmitted(calls, key, limit, window, a) <= 2 * limit - 1
  {
    var times := TimesOf(calls, key);
    CallsSeenByKey(calls, key, limit, window, a);
    if times != [] {
      SlidingCount(times, limit, window, a, |times| - 1);
    }
  }

  // ---------------------------------------------------------------- the bound is sharp

  /** One call opens a window, the rest of its limit arrives at its last moment, and a full limit follows. */
  function Burst(limit: nat, window: nat): (times: seq<int>)
    requires limit > 0 && window > 1
    ensures |times| == 2 * limit
  {
    seq(2 * limit, i => if i == 0 then 1 else if i < limit then window else 1 + window)
  }

  lemma {:induction false} BurstOpenings(limit: nat, window: nat, i: nat)
    requires limit > 0 && window > 1 && i < 2 * limit
    ensures Opening(Burst(limit, window), window, i) == if i < limit then 0 else limit
  {
    if i > 0 {
      BurstOpenings(limit, window, i - 1);
    }
  }

  lemma {:induction false} BurstCount(limit: nat, window: nat, n: nat)
    requires limit > 0 && window > 1 && 1 <= n <= 2 * limit
    ensures AdmittedIn(Burst(limit, window), limit, window, 2, n) == n - 1
  {
    var times := Burst(limit, window);
    NeverZeroIsSteady(times, window);
    if n > 1 {
      BurstCount(limit, window, n - 1);
    }
    BurstOpenings(limit, window, n - 1);
    AdmitsFirstOfWindow(times, limit, window, n - 1);
  }

  /** For every limit, and every window of at least two seconds, the bound is reached. */
  lemma BoundIsReached(limit: nat, window: nat)
    requires limit > 0 && window > 1
    ensures Forward(Burst(limit, window)) && Steady(Burst(limit, window), window)
    ensures AdmittedIn(Burst(limit, window), limit, window, 2, 2 * limit) == 2 * limit - 1
  {
    NeverZeroIsSteady(Burst(limit, window), window);
    BurstCount(limit, window, 2 * limit);
  }

  // ---------------------------------------------------------------- a window of one second

  /** With a window of one second an interval meets one window only. */
  lemma {:induction false} SecondCount(times: seq<int>, limit: int, a: int, n: nat)
    requires limit > 0 && Forward(times) && Steady(times, 1) && n < |times|
    ensures var j := Opening(times, 1, n); var r := AdmittedIn(times, limit, 1, a, n + 1);
            r <= (if times[j] < a then 0 else if times[j] == a then Min(n + 1 - j, limit) else limit)
  {
    AdmitsFirstOfWindow(times, limit, 1, n);
    if n > 0 {
      SecondCount(times, limit, a, n - 1);
      if times[n] < a {
        NoneBefore(times, limit, 1, a, n + 1);
      }
    }
  }

  /** There the bound is the limit itself. */
  lemma SecondBound(calls: seq<Call>, key: string, limit: int, a: int)
    requires limit > 0 && Forward(TimesOf(calls, key)) && Steady(TimesOf(calls, key), 1)
    ensures CallsAdmitted(calls, key, limit, 1, a) <= limit
  {
    var times := TimesOf(calls, key);
    CallsSeenByKey(calls, key, limit, 1, a);
    if times != [] {
      SecondCount(times, limit, a, |times| - 1);
    }
  }

  function Ones(n: nat): (times: seq<int>)
    ensures |times| == n && forall i :: 0 <= i < n ==> times[i] == 1
  {
    seq(n, _ => 1)
  }

  lemma {:induction false} OnesOpen(n: nat, i: nat)
    requires i < n
    ensures Opening(Ones(n), 1, i) == 0
  {
    if i > 0 {
      OnesOpen(n, i - 1);
    }
  }

  /** And it is reached. */
  lemma {:induction false} SecondBoundIsReached(limit: nat, n: nat)
    requires 0 < limit && n <= limit
    ensures Forward(Ones(limit)) && Steady(Ones(limit), 1) && AdmittedIn(Ones(limit), limit, 1, 1, n) == n
  {
    NeverZeroIsSteady(Ones(limit), 1);
    if n > 0 {
      SecondBoundIsReached(limit, n - 1);
      OnesOpen(limit, n - 1);
      AdmitsFirstOfWindow(Ones(limit), limit, 1, n - 1);
    }
  }

  // ---------------------------------------------------------------- the clock must not be zero

  function Still(n: nat): (times: seq<int>)
    ensures |times| == n && forall i :: 0 <= i < n ==> times[i] == 0
  {
    seq(n, _ => 0)
  }

  lemma {:induction false} ZeroClockReopens(n: nat, window: int)
    requires n > 0
    ensures BucketAfter(Still(n), window) == Bucket(0, 1)
  {
    assert Still(n)[..n - 1] == Still(n - 1);
    if n > 1 {
      ZeroClockReopens(n - 1, window);
    }
  }

  /** At time zero every call opens a new window, so nothing is ever refused. */
  lemma {:induction false} ZeroClockIsUnlimited(times: seq<int>, limit: int, window: int, n: nat)
    requires limit > 0 && window > 0 && n <= |times| && times == Still(|times|)
    ensures AdmittedIn(times, limit, window, 0, n) == n
  {
    if n > 0 {
      ZeroClockIsUnlimited(times, limit, window, n - 1);
      assert times[..n] == Still(n);
      ZeroClockReopens(n, window);
    }
  }
}
