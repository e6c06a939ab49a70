/**
 The per-IP sliding-window limiter of the dashboard: one bucket of timestamps
 per IP, pruned at the front, full at RATE_LIMIT_MAX.

 The clock is read before the lock is taken, so requests reach the bucket in an
 order that may disagree with their timestamps. The run model therefore carries
 a skew: how far a timestamp may lag behind an earlier one of the same IP.
 */
module RateLimiter {
  import opened Common

  const RATE_LIMIT_MAX: nat := 100
  const RATE_LIMIT_WINDOW: real := 60.0

  datatype Request = Request(ip: string, now: real)

  /** Drop timestamps from the front while they lie before the cutoff. */
  function Prune(bucket: seq<real>, cutoff: real): seq<real> {
    if bucket == [] || bucket[0] >= cutoff then bucket else Prune(bucket[1..], cutoff)
  }

  predicate Full(bucket: seq<real>, now: real) {
    |Prune(bucket, now - RATE_LIMIT_WINDOW)| >= RATE_LIMIT_MAX
  }

  function Serve(bucket: seq<real>, now: real): seq<real> {
    var kept := Prune(bucket, now - RATE_LIMIT_WINDOW);
    if |kept| >= RATE_LIMIT_MAX then kept else kept + [now]
  }

  /** The bucket of ip after the requests in reqs. */
  function Bucket(reqs: seq<Request>, ip: string): seq<real> {
    if reqs == [] then []
    else
      var earlier, r := reqs[..|reqs| - 1], reqs[|reqs| - 1];
      if r.ip == ip then Serve(Bucket(earlier, ip), r.now) else Bucket(earlier, ip)
  }

  /** Every timestamp of ip the limiter let through, oldest arrival first. */
  function Admitted(reqs: seq<Request>, ip: string): seq<real> {
    if reqs == [] then []
    else
      var earlier, r := reqs[..|reqs| - 1], reqs[|reqs| - 1];
      if r.ip == ip && !Full(Bucket(earlier, ip), r.now) then Admitted(earlier, ip) + [r.now]
      else Admitted(earlier, ip)
  }

  lemma OneMore(reqs: seq<Request>, r: Request, ip: string)
    ensures r.ip != ip ==>
      Bucket(reqs + [r], ip) == Bucket(reqs, ip) && Admitted(reqs + [r], ip) == Admitted(reqs, ip)
    ensures r.ip == ip ==>
      && Bucket(reqs + [r], ip) == Serve(Bucket(reqs, ip), r.now)
      && Admitted(reqs + [r], ip)
         == if Full(Bucket(reqs, ip), r.now) then Admitted(reqs, ip) else Admitted(reqs, ip) + [r.now]
  {
    assert (reqs + [r])[..|reqs|] == reqs;
  }

  function Within(lo: real, hi: real): real -> bool {
    x => lo <= x <= hi
  }

  /** How many of the timestamps lie in the closed interval [lo, hi]. */
  function CountWithin(history: seq<real>, lo: real, hi: real): nat {
    |Filter(Within(lo, hi), history)|
  }

  /** How many of the timestamps lie in the window of the given length that ends at t. */
  function InWindow(history: seq<real>, length: real, t: real): nat {
    CountWithin(history, t - length, t)
  }

  /** No request is stamped more than skew seconds before an earlier one of its IP. */
  ghost predicate SkewAtMost(reqs: seq<Request>, skew: real) {
    forall i, j :: 0 <= i < j < |reqs| && reqs[i].ip == reqs[j].ip ==> reqs[i].now - skew <= reqs[j].now
  }

  class Limiter {
    var buckets: map<string, seq<real>>
    ghost var served: seq<Request>

    ghost predicate Valid()
      reads this
    {
      forall ip :: (if ip in buckets then buckets[ip] else []) == Bucket(served, ip)
    }

    constructor ()
      ensures Valid() && served == []
    {
      buckets := map[];
      served := [];
    }

    /** True when the request must be rejected. */
    method CheckRateLimit(ip: string, now: real) returns (rejected: bool)
      requires Valid()
      modifies this
      ensures Valid()
      ensures served == old(served) + [Request(ip, now)]
      ensures rejected <==> Full(Bucket(old(served), ip), now)
    {
      var bucket := if ip in buckets then buckets[ip] else [];
      var cutoff := now - RATE_LIMIT_WINDOW;
      while bucket != [] && bucket[0] < cutoff
        invariant Prune(bucket, cutoff) == Prune(Bucket(served, ip), cutoff)
        decreases |bucket|
      {
        bucket := bucket[1..];
      }
      rejected := |bucket| >= RATE_LIMIT_MAX;
      if !rejected {
        bucket := bucket + [now];
      }
      buckets := buckets[ip := bucket];
      served := served + [Request(ip, now)];
      forall other ensures (if other in buckets then buckets[other] else []) == Bucket(served, other) {
        OneMore(old(served), Request(ip, now), other);
      }
    }
  }

  // ---- The bucket is a suffix of the admitted history ----

  lemma {:induction false} PruneDropsPrefix(bucket: seq<real>, cutoff: real) returns (k: nat)
    ensures k <= |bucket| && Prune(bucket, cutoff) == bucket[k..]
    ensures forall i :: 0 <= i < k ==> bucket[i] < cutoff
    ensures k < |bucket| ==> bucket[k] >= cutoff
  {
    k := 0;
    if bucket != [] && bucket[0] < cutoff {
      var m := PruneDropsPrefix(bucket[1..], cutoff);
      k := m + 1;
      assert forall i :: 1 <= i < k ==> bucket[i] == bucket[1..][i - 1];
    }
  }

  lemma {:induction false} PruneMeaning(bucket: seq<real>, cutoff: real, k: nat)
    requires k <= |bucket| && (forall i :: 0 <= i < k ==> bucket[i] < cutoff)
    requires k < |bucket| ==> bucket[k] >= cutoff
    ensures Prune(bucket, cutoff) == bucket[k..]
  {
    if k > 0 {
      PruneMeaning(bucket[1..], cutoff, k - 1);
    }
  }

  /** A request is turned away exactly when 100 timestamps stand from the first on that is at most 60 seconds old. */
  lemma FullMeaning(bucket: seq<real>, now: real, k: nat)
    requires k <= |bucket| && (forall i :: 0 <= i < k ==> bucket[i] < now - 60.0)
    requires k < |bucket| ==> bucket[k] >= now - 60.0
    ensures Full(bucket, now) <==> |bucket| - k >= 100
    ensures Serve(bucket, now) == if |bucket| - k >= 100 then bucket[k..] else bucket[k..] + [now]
  {
    PruneMeaning(bucket, now - 60.0, k);
  }

  /** x lies before the window of some request already served to ip. */
  ghost predicate Expired(reqs: seq<Request>, ip: string, x: real) {
    exists i :: 0 <= i < |reqs| && reqs[i].ip == ip && x < reqs[i].now - RATE_LIMIT_WINDOW
  }

  lemma ExpiredEarlier(reqs: seq<Request>, ip: string, x: real)
    requires reqs != [] && Expired(reqs[..|reqs| - 1], ip, x)
    ensures Expired(reqs, ip, x)
  {
    var earlier := reqs[..|reqs| - 1];
    var w :| 0 <= w < |earlier| && earlier[w].ip == ip && x < earlier[w].now - RATE_LIMIT_WINDOW;
    assert reqs[w] == earlier[w];
  }

  /** Pruning what is a suffix from k on leaves a suffix from k + m on. */
  lemma PruneSuffix(h: seq<real>, k: nat, cutoff: real) returns (n: nat)
    requires k <= |h|
    ensures k <= n <= |h| && Prune(h[k..], cutoff) == h[n..]
    ensures forall i :: k <= i < n ==> h[i] < cutoff
  {
    var m := PruneDropsPrefix(h[k..], cutoff);
    n := k + m;
    assert h[k..][m..] == h[n..];
    assert forall i :: k <= i < n ==> h[i] == h[k..][i - k];
  }

  /** The bucket is a suffix of the history, and whatever it lost had expired. */
  lemma {:induction false} BucketIsSuffix(reqs: seq<Request>, ip: string) returns (k: nat)
    ensures k <= |Admitted(reqs, ip)| && Bucket(reqs, ip) == Admitted(reqs, ip)[k..]
    ensures forall i :: 0 <= i < k ==> Expired(reqs, ip, Admitted(reqs, ip)[i])
    ensures |Bucket(reqs, ip)| <= RATE_LIMIT_MAX
  {
    k := 0;
    if reqs != [] {
      var n := |reqs| - 1;
      var earlier, r := reqs[..n], reqs[n];
      var h := Admitted(earlier, ip);
      k := BucketIsSuffix(earlier, ip);
      var before := k;
      if r.ip == ip {
        k := PruneSuffix(h, k, r.now - RATE_LIMIT_WINDOW);
        assert Prune(Bucket(earlier, ip), r.now - RATE_LIMIT_WINDOW) == h[k..];
      }
      forall i | 0 <= i < k ensures Expired(reqs, ip, Admitted(reqs, ip)[i]) {
        assert Admitted(reqs, ip)[i] == h[i];
        if i < before {
          ExpiredEarlier(reqs, ip, h[i]);
        } else {
          assert reqs[n].ip == ip && h[i] < reqs[n].now - RATE_LIMIT_WINDOW;
        }
      }
    }
  }

  // ---- Every window of the history ----

  lemma {:induction false} NoneWithin(s: seq<real>, lo: real, hi: real)
    requires forall i :: 0 <= i < |s| ==> s[i] < lo
    ensures CountWithin(s, lo, hi) == 0
  {
    if s != [] {
      NoneWithin(s[1..], lo, hi);
    }
  }

  /** When the last request of ip is let in, what its bucket has lost lies before any window it can share. */
  lemma LostIsOlder(reqs: seq<Request>, ip: string, skew: real, x: real)
    requires SkewAtMost(reqs, skew) && skew >= 0.0 && Expired(reqs, ip, x)
    requires reqs != [] && reqs[|reqs| - 1].ip == ip
    ensures x < reqs[|reqs| - 1].now - (RATE_LIMIT_WINDOW - skew)
  {
    var n := |reqs| - 1;
    var w :| 0 <= w < |reqs| && reqs[w].ip == ip && x < reqs[w].now - RATE_LIMIT_WINDOW;
    assert w < n ==> reqs[w].now - skew <= reqs[n].now;
  }

  lemma OldPrefixDoesNotCount(h: seq<real>, k: nat, lo: real, hi: real)
    requires k <= |h| && forall i :: 0 <= i < k ==> h[i] < lo
    ensures CountWithin(h, lo, hi) <= |h| - k
  {
    assert h == h[..k] + h[k..];
    FilterConcat(Within(lo, hi), h[..k], h[k..]);
    NoneWithin(h[..k], lo, hi);
    FilterMembers(Within(lo, hi), h[k..]);
  }

  /** Whatever window the last request of ip falls into, only its bucket counts. */
  lemma BucketBoundsWindow(reqs: seq<Request>, ip: string, skew: real, t: real)
    requires SkewAtMost(reqs, skew) && skew >= 0.0
    requires reqs != [] && reqs[|reqs| - 1].ip == ip && reqs[|reqs| - 1].now <= t
    ensures InWindow(Admitted(reqs, ip), RATE_LIMIT_WINDOW - skew, t) <= RATE_LIMIT_MAX
  {
    var lo, h := t - (RATE_LIMIT_WINDOW - skew), Admitted(reqs, ip);
    var k := BucketIsSuffix(reqs, ip);
    forall i | 0 <= i < k ensures h[i] < lo {
      assert Expired(reqs, ip, h[i]);
      LostIsOlder(reqs, ip, skew, h[i]);
    }
    OldPrefixDoesNotCount(h, k, lo, t);
    assert |Bucket(reqs, ip)| == |h| - k;
  }

  lemma OutsideDoesNotCount(h: seq<real>, x: real, lo: real, hi: real)
    ensures x > hi ==> CountWithin(h + [x], lo, hi) == CountWithin(h, lo, hi)
  {
    FilterConcat(Within(lo, hi), h, [x]);
  }

  /** With skew d, a window of length 60 - d holds at most RATE_LIMIT_MAX admissions. */
  lemma {:induction false} WindowBound(reqs: seq<Request>, ip: string, skew: real, t: real)
    requires SkewAtMost(reqs, skew) && skew >= 0.0
    ensures InWindow(Admitted(reqs, ip), RATE_LIMIT_WINDOW - skew, t) <= RATE_LIMIT_MAX
  {
    if reqs != [] {
      var n := |reqs| - 1;
      var r := reqs[n];
      if r.ip == ip && r.now <= t {
        BucketBoundsWindow(reqs, ip, skew, t);
      } else {
        WindowBound(reqs[..n], ip, skew, t);
        OutsideDoesNotCount(Admitted(reqs[..n], ip), r.now, t - (RATE_LIMIT_WINDOW - skew), t);
      }
    }
  }

  /** In clock order, every 60-second window of every IP is bounded. */
  lemma EveryWindowBounded(reqs: seq<Request>)
    requires SkewAtMost(reqs, 0.0)
    ensures forall ip, t :: InWindow(Admitted(reqs, ip), 60.0, t) <= 100
  {
    forall ip, t ensures InWindow(Admitted(reqs, ip), RATE_LIMIT_WINDOW, t) <= RATE_LIMIT_MAX {
      WindowBound(reqs, ip, 0.0, t);
      assert RATE_LIMIT_WINDOW - 0.0 == RATE_LIMIT_WINDOW;
    }
  }

  // ---- Exactly which windows are bounded when timestamps may lag ----

  function Zeros(n: nat): seq<real> {
    if n == 0 then [] else Zeros(n - 1) + [0.0]
  }

  lemma {:induction false} ZerosMeaning(n: nat)
    ensures |Zeros(n)| == n && forall i :: 0 <= i < n ==> Zeros(n)[i] == 0.0
  {
    if n > 0 {
      ZerosMeaning(n - 1);
    }
  }

  lemma ServeZeros(n: nat)
    requires n < RATE_LIMIT_MAX
    ensures !Full(Zeros(n), 0.0) && Serve(Zeros(n), 0.0) == Zeros(n + 1)
  {
    ZerosMeaning(n);
    assert Prune(Zeros(n), 0.0 - RATE_LIMIT_WINDOW) == Zeros(n);
  }

  /** n requests of ip at time 0. */
  lemma {:induction false} Burst(n: nat, ip: string) returns (reqs: seq<Request>)
    requires n <= RATE_LIMIT_MAX
    ensures |reqs| == n && forall i :: 0 <= i < n ==> reqs[i] == Request(ip, 0.0)
    ensures Admitted(reqs, ip) == Zeros(n) && Bucket(reqs, ip) == Zeros(n)
  {
    reqs := [];
    if n > 0 {
      var earlier := Burst(n - 1, ip);
      ServeZeros(n - 1);
      reqs := earlier + [Request(ip, 0.0)];
    }
  }

  /** A burst at 0, one request that empties the bucket, one late request stamped `length`. */
  lemma OverfullWindow(ip: string, skew: real, length: real) returns (reqs: seq<Request>)
    requires skew >= 0.0 && length >= 0.0 && length > RATE_LIMIT_WINDOW - skew
    ensures SkewAtMost(reqs, skew)
    ensures InWindow(Admitted(reqs, ip), length, length) > RATE_LIMIT_MAX
  {
    reqs := LateBurst(ip, skew, length);
    var zeros := Zeros(RATE_LIMIT_MAX);
    ZerosMeaning(RATE_LIMIT_MAX);
    FilterConcat(Within(0.0, length), zeros + [length + skew], [length]);
    FilterConcat(Within(0.0, length), zeros, [length + skew]);
    FilterAll(Within(0.0, length), zeros);
    assert Filter(Within(0.0, length), [length]) == [length];
    assert length - length == 0.0;
  }

  lemma LateBurst(ip: string, skew: real, length: real) returns (reqs: seq<Request>)
    requires skew >= 0.0 && length >= 0.0 && length > RATE_LIMIT_WINDOW - skew
    ensures SkewAtMost(reqs, skew)
    ensures Admitted(reqs, ip) == Zeros(RATE_LIMIT_MAX) + [length + skew] + [length]
  {
    var burst := Burst(RATE_LIMIT_MAX, ip);
    var zeros := Zeros(RATE_LIMIT_MAX);
    var early := burst + [Request(ip, length + skew)];
    reqs := early + [Request(ip, length)];
    ZerosMeaning(RATE_LIMIT_MAX);
    PruneMeaning(zeros, length + skew - RATE_LIMIT_WINDOW, |zeros|);
    assert Admitted(early, ip) == zeros + [length + skew];
    assert Bucket(early, ip) == [length + skew];
    assert !Full([length + skew], length);
  }

  ghost predicate WindowsBounded(skew: real, length: real) {
    forall reqs, ip, t :: SkewAtMost(reqs, skew) ==> InWindow(Admitted(reqs, ip), length, t) <= RATE_LIMIT_MAX
  }

  /** Shorter windows hold no more. */
  lemma {:induction false} CountMonotone(s: seq<real>, lo: real, lower: real, hi: real)
    requires lower <= lo
    ensures CountWithin(s, lo, hi) <= CountWithin(s, lower, hi)
  {
    if s != [] {
      CountMonotone(s[1..], lo, lower, hi);
    }
  }

  /** The bound holds for windows of a given length exactly when length + skew <= 60. */
  lemma WindowsBoundedIff(skew: real, length: real)
    requires skew >= 0.0 && length >= 0.0
    ensures WindowsBounded(skew, length) <==> length + skew <= RATE_LIMIT_WINDOW
  {
    if length + skew <= RATE_LIMIT_WINDOW {
      forall reqs, ip, t | SkewAtMost(reqs, skew)
        ensures InWindow(Admitted(reqs, ip), length, t) <= RATE_LIMIT_MAX
      {
        WindowBound(reqs, ip, skew, t);
        CountMonotone(Admitted(reqs, ip), t - length, t - (RATE_LIMIT_WINDOW - skew), t);
      }
    } else {
      var reqs := OverfullWindow("10.0.0.1", skew, length);
      assert InWindow(Admitted(reqs, "10.0.0.1"), length, length) > RATE_LIMIT_MAX;
    }
  }

  // ---- The naive limiter that rescans everything ----

  /** A limiter that keeps the whole admitted history and counts the last window. */
  function NaiveAdmitted(reqs: seq<Request>, ip: string): seq<real> {
    if reqs == [] then []
    else
      var earlier, r := reqs[..|reqs| - 1], reqs[|reqs| - 1];
      var h := NaiveAdmitted(earlier, ip);
      if r.ip == ip && CountWithin(h, r.now - RATE_LIMIT_WINDOW, r.now) < RATE_LIMIT_MAX then h + [r.now] else h
  }

  lemma {:induction false} AdmittedFromRequests(reqs: seq<Request>, ip: string, x: real)
    requires x in Admitted(reqs, ip)
    ensures exists i :: 0 <= i < |reqs| && reqs[i].ip == ip && reqs[i].now == x
  {
    var n := |reqs| - 1;
    var earlier := reqs[..n];
    if x in Admitted(earlier, ip) {
      AdmittedFromRequests(earlier, ip, x);
      var i :| 0 <= i < n && earlier[i].ip == ip && earlier[i].now == x;
      assert reqs[i] == earlier[i];
    } else {
      assert reqs[n].ip == ip && reqs[n].now == x;
    }
  }

  /** In clock order, pruning the bucket leaves exactly the last window of the history. */
  lemma PrunedBucketIsWindow(reqs: seq<Request>, ip: string, now: real)
    requires SkewAtMost(reqs + [Request(ip, now)], 0.0)
    ensures Prune(Bucket(reqs, ip), now - RATE_LIMIT_WINDOW)
         == Filter(Within(now - RATE_LIMIT_WINDOW, now), Admitted(reqs, ip))
  {
    var lo, all := now - RATE_LIMIT_WINDOW, reqs + [Request(ip, now)];
    var h := Admitted(reqs, ip);
    var k := BucketIsSuffix(reqs, ip);
    var m := PruneDropsPrefix(h[k..], lo);
    var n := k + m;
    assert h[k..][m..] == h[n..];
    assert forall i :: k <= i < n ==> h[i] == h[k..][i - k];
    assert n < |h| ==> h[n] == h[k..][m];
    assert all[|reqs|].now == now && forall w :: 0 <= w < |reqs| ==> all[w] == reqs[w];
    assert SkewAtMost(reqs, 0.0);
    HistoryOrdered(reqs, ip);
    forall i | 0 <= i < n ensures h[i] < lo {
      if i < k {
        assert Expired(reqs, ip, h[i]);
        var w :| 0 <= w < |reqs| && reqs[w].ip == ip && h[i] < reqs[w].now - RATE_LIMIT_WINDOW;
        assert all[w].now <= now;
      }
    }
    forall i | n <= i < |h| ensures lo <= h[i] <= now {
      AdmittedFromRequests(reqs, ip, h[i]);
      var w :| 0 <= w < |reqs| && reqs[w].ip == ip && reqs[w].now == h[i];
      assert all[w].now <= now;
      assert n < i ==> h[n] <= h[i];
    }
    SplitIsWindow(h, n, lo, now);
  }

  lemma SplitIsWindow(h: seq<real>, n: nat, lo: real, hi: real)
    requires n <= |h| && (forall i :: 0 <= i < n ==> h[i] < lo) && forall i :: n <= i < |h| ==> lo <= h[i] <= hi
    ensures Filter(Within(lo, hi), h) == h[n..]
  {
    assert h == h[..n] + h[n..];
    FilterConcat(Within(lo, hi), h[..n], h[n..]);
    NoneWithin(h[..n], lo, hi);
    FilterAll(Within(lo, hi), h[n..]);
  }

  /** In clock order the admitted history is sorted. */
  lemma {:induction false} HistoryOrdered(reqs: seq<Request>, ip: string)
    requires SkewAtMost(reqs, 0.0)
    ensures forall i, j :: 0 <= i < j < |Admitted(reqs, ip)| ==> Admitted(reqs, ip)[i] <= Admitted(reqs, ip)[j]
  {
    if reqs != [] {
      var n := |reqs| - 1;
      HistoryOrdered(reqs[..n], ip);
      var h := Admitted(reqs[..n], ip);
      if reqs[n].ip == ip {
        forall i | 0 <= i < |h| ensures h[i] <= reqs[n].now {
          AdmittedFromRequests(reqs[..n], ip, h[i]);
          var w :| 0 <= w < n && reqs[..n][w].ip == ip && reqs[..n][w].now == h[i];
          assert reqs[w] == reqs[..n][w];
        }
      }
    }
  }

  /** In clock order the pruned bucket decides every request as the full rescan does. */
  lemma SameAnswerAsRescan(reqs: seq<Request>, ip: string, now: real)
    requires SkewAtMost(reqs + [Request(ip, now)], 0.0)
    ensures Full(Bucket(reqs, ip), now) <==> InWindow(NaiveAdmitted(reqs, ip), RATE_LIMIT_WINDOW, now) >= RATE_LIMIT_MAX
  {
    PrunedBucketIsWindow(reqs, ip, now);
    var all := reqs + [Request(ip, now)];
    assert SkewAtMost(reqs, 0.0) by {
      assert forall i :: 0 <= i < |reqs| ==> all[i] == reqs[i];
    }
    SameAsNaive(reqs, ip);
  }

  /** In clock order the limiter and the naive limiter admit the same requests. */
  lemma {:induction false} SameAsNaive(reqs: seq<Request>, ip: string)
    requires SkewAtMost(reqs, 0.0)
    ensures Admitted(reqs, ip) == NaiveAdmitted(reqs, ip)
  {
    if reqs != [] {
      var n := |reqs| - 1;
      SameAsNaive(reqs[..n], ip);
      if reqs[n].ip == ip {
        assert reqs == reqs[..n] + [Request(ip, reqs[n].now)];
        PrunedBucketIsWindow(reqs[..n], ip, reqs[n].now);
      }
    }
  }

  function From(ip: string): Request -> bool {
    (r: Request) => r.ip == ip
  }

  /** One IP cannot use up another's allowance. */
  lemma {:induction false} OtherIpsIrrelevant(reqs: seq<Request>, ip: string)
    ensures Bucket(reqs, ip) == Bucket(Filter(From(ip), reqs), ip)
    ensures Admitted(reqs, ip) == Admitted(Filter(From(ip), reqs), ip)
  {
    if reqs != [] {
      var n := |reqs| - 1;
      var earlier, r := reqs[..n], reqs[n];
      OtherIpsIrrelevant(earlier, ip);
      assert reqs == earlier + [r];
      FilterSnoc(From(ip), earlier, r);
    }
  }
}
