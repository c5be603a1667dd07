/** Rate limiting (RateLimit.cpp): a token bucket that is refilled in whole
    periods, a cache of buckets that is flushed when full, and a plain counter. */
module Limits {

  /** `/` on int64_t truncates towards zero. */
  function TruncatedDiv(a: int, b: int): int
    requires b > 0
  {
    if a >= 0 then a / b else -((-a) / b)
  }

  datatype Limiter = Limiter(burst: int, refillTime: int)

  datatype Bucket = Bucket(tokens: int, lastTime: int)

  const NEW_BUCKET := Bucket(0, 0)

  /** The readings of the clock during one call, in order. */
  datatype Readings = Readings(first: int, second: int, third: int)

  datatype Call = Call(n: int, now: Readings)

  /** `TimeLimiter::AllowN`; the clock is read before filling a new bucket, for
      the refill count, and before capping a full bucket. */
  function AllowN(lim: Limiter, b: Bucket, call: Call): (Bucket, bool)
    requires lim.refillTime > 0
  {
    var used := if b.lastTime == 0 then Bucket(lim.burst, call.now.first) else b;
    var refill := TruncatedDiv(call.now.second - used.lastTime, lim.refillTime);
    var refilled := Bucket(used.tokens + refill * lim.burst, used.lastTime + refill * lim.refillTime);
    var capped := if refilled.tokens >= lim.burst then Bucket(lim.burst, call.now.third) else refilled;
    if call.n > capped.tokens then (capped, false) else (Bucket(capped.tokens - call.n, capped.lastTime), true)
  }

  /** A run of calls on one bucket: its final state and the tokens granted. */
  function RunCalls(lim: Limiter, b: Bucket, calls: seq<Call>): (Bucket, int)
    requires lim.refillTime > 0
  {
    if calls == [] then (b, 0)
    else
      var (before, granted) := RunCalls(lim, b, calls[..|calls| - 1]);
      var call := calls[|calls| - 1];
      var (after, ok) := AllowN(lim, before, call);
      (after, if ok then granted + call.n else granted)
  }

  ghost function EndOf(start: int, calls: seq<Call>): int {
    if calls == [] then start else calls[|calls| - 1].now.third
  }

  /** The clock is positive and does not go back; requests are not negative. */
  ghost predicate Ordered(start: int, calls: seq<Call>) {
    calls != [] ==>
      var call := calls[|calls| - 1];
      Ordered(start, calls[..|calls| - 1]) && call.n >= 0
      && EndOf(start, calls[..|calls| - 1]) <= call.now.first <= call.now.second <= call.now.third
  }

  predicate Sound(lim: Limiter) {
    lim.burst >= 1 && lim.refillTime > 0
  }

  // ----- arithmetic

  lemma DivAddMultiple(x: int, r: int, d: int)
    requires d > 0
    ensures (x + r * d) / d == x / d + r
  {
    var q, m := x / d, x % d;
    assert x + r * d == (q + r) * d + m;
    DivUnique(x + r * d, d, q + r, m);
  }

  /** Multiples of `d` that are less than `d` apart are the same multiple. */
  lemma SameMultiple(p: int, q: int, d: int)
    requires d > 0 && -d < p * d - q * d < d
    ensures p == q
  {
    if p > q {
      MulMonotone(d, q + 1, p);
    } else if p < q {
      MulMonotone(d, p + 1, q);
    }
  }

  lemma DivUnique(x: int, d: int, q: int, m: int)
    requires d > 0 && 0 <= m < d && x == q * d + m
    ensures x / d == q
  {
    var p := x / d;
    assert x == p * d + x % d;
    SameMultiple(p, q, d);
  }

  lemma DivMonotone(x: int, y: int, d: int)
    requires d > 0 && x <= y
    ensures x / d <= y / d
  {
    var q, p := x / d, y / d;
    assert x == q * d + x % d && y == p * d + y % d;
    if p < q {
      MulMonotone(d, p + 1, q);
    }
  }

  lemma MulMonotone(b: int, x: int, y: int)
    requires b >= 0 && x <= y
    ensures b * x <= b * y
  {
  }

  // ----- one call

  /** `granted` tokens since `ref` are covered by one burst and one more for every
      full period that the bucket has accounted for. */
  ghost predicate Covered(lim: Limiter, ref: int, b: Bucket, granted: int)
    requires lim.refillTime > 0
  {
    0 <= b.tokens <= lim.burst && 0 < ref <= b.lastTime
    && granted + b.tokens <= lim.burst * (1 + (b.lastTime - ref) / lim.refillTime)
  }

  lemma RefillKeepsCovered(lim: Limiter, ref: int, b: Bucket, granted: int, now: int)
    requires Sound(lim) && Covered(lim, ref, b, granted) && b.lastTime <= now
    ensures var refill := TruncatedDiv(now - b.lastTime, lim.refillTime);
            var last := b.lastTime + refill * lim.refillTime;
            && 0 <= refill && 0 < ref <= b.lastTime <= last <= now && 0 <= b.tokens <= b.tokens + refill * lim.burst
            && granted + b.tokens + refill * lim.burst <= lim.burst * (1 + (last - ref) / lim.refillTime)
            && (refill >= 1 ==> b.tokens + refill * lim.burst >= lim.burst)
            && (refill == 0 ==> last == b.lastTime)
  {
    var d := lim.refillTime;
    var refill := (now - b.lastTime) / d;
    DivAddMultiple(b.lastTime - ref, refill, d);
    var periods := (b.lastTime - ref) / d;
    assert b.lastTime + refill * d - ref == (b.lastTime - ref) + refill * d;
    assert lim.burst * (1 + (periods + refill)) == lim.burst * (1 + periods) + refill * lim.burst;
    if refill >= 1 {
      MulMonotone(lim.burst, 1, refill);
    }
    MulMonotone(d, 0, refill);
    MulMonotone(lim.burst, 0, refill);
  }

  lemma CallKeepsCovered(lim: Limiter, ref: int, b: Bucket, granted: int, call: Call)
    requires Sound(lim) && Covered(lim, ref, b, granted) && call.n >= 0
    requires b.lastTime <= call.now.first <= call.now.second <= call.now.third
    ensures var (b', ok) := AllowN(lim, b, call);
            Covered(lim, ref, b', if ok then granted + call.n else granted) && b'.lastTime <= call.now.third
  {
    hide TruncatedDiv, Covered;
    RefillKeepsCovered(lim, ref, b, granted, call.now.second);
    var refill := TruncatedDiv(call.now.second - b.lastTime, lim.refillTime);
    var refilled := Bucket(b.tokens + refill * lim.burst, b.lastTime + refill * lim.refillTime);
    CapKeepsCovered(lim, ref, refilled, granted, call.now.third);
    var capped := if refilled.tokens >= lim.burst then Bucket(lim.burst, call.now.third) else refilled;
    if call.n <= capped.tokens {
      TakeKeepsCovered(lim, ref, capped, granted, call.n);
    }
  }

  lemma TakeKeepsCovered(lim: Limiter, ref: int, b: Bucket, granted: int, n: int)
    requires lim.refillTime > 0 && Covered(lim, ref, b, granted) && 0 <= n <= b.tokens
    ensures Covered(lim, ref, Bucket(b.tokens - n, b.lastTime), granted + n)
  {
  }

  /** Capping a full bucket only takes tokens away and time forward. */
  lemma CapKeepsCovered(lim: Limiter, ref: int, b: Bucket, granted: int, now: int)
    requires Sound(lim) && 0 < ref <= b.lastTime <= now && 0 <= b.tokens
    requires granted + b.tokens <= lim.burst * (1 + (b.lastTime - ref) / lim.refillTime)
    ensures Covered(lim, ref, if b.tokens >= lim.burst then Bucket(lim.burst, now) else b, granted)
  {
    var p, q := (b.lastTime - ref) / lim.refillTime, (now - ref) / lim.refillTime;
    DivMonotone(b.lastTime - ref, now - ref, lim.refillTime);
    MulMonotone(lim.burst, 1 + p, 1 + q);
    if b.tokens >= lim.burst {
      assert granted + lim.burst <= lim.burst * (1 + q);
    }
  }

  /** The first call on a new bucket fills it. */
  lemma FirstCallCovered(lim: Limiter, call: Call)
    requires Sound(lim) && call.n >= 0 && 0 < call.now.first <= call.now.second <= call.now.third
    ensures var (b', ok) := AllowN(lim, NEW_BUCKET, call);
            Covered(lim, call.now.first, b', if ok then call.n else 0) && b'.lastTime <= call.now.third
  {
    var filled := Bucket(lim.burst, call.now.first);
    assert (filled.lastTime - call.now.first) / lim.refillTime == 0;
    CallKeepsCovered(lim, call.now.first, filled, 0, call);
    assert AllowN(lim, NEW_BUCKET, call) == AllowN(lim, filled, call);
  }

  // ----- whole runs

  lemma CoveredBound(lim: Limiter, ref: int, b: Bucket, granted: int, end: int)
    requires Sound(lim) && Covered(lim, ref, b, granted) && b.lastTime <= end
    ensures granted <= lim.burst * (1 + (end - ref) / lim.refillTime)
  {
    DivMonotone(b.lastTime - ref, end - ref, lim.refillTime);
    MulMonotone(lim.burst, 1 + (b.lastTime - ref) / lim.refillTime, 1 + (end - ref) / lim.refillTime);
  }

  lemma {:induction false} RunSplits(lim: Limiter, b: Bucket, calls: seq<Call>, more: seq<Call>)
    requires lim.refillTime > 0
    ensures var (mid, g) := RunCalls(lim, b, calls);
            var (end, h) := RunCalls(lim, mid, more);
            RunCalls(lim, b, calls + more) == (end, g + h)
  {
    hide AllowN;
    if more == [] {
      assert calls + more == calls;
    } else {
      var n := |more| - 1;
      RunSplits(lim, b, calls, more[..n]);
      assert (calls + more)[..|calls + more| - 1] == calls + more[..n];
    }
  }

  lemma {:induction false} OrderedSplits(start: int, calls: seq<Call>, more: seq<Call>)
    requires Ordered(start, calls + more)
    ensures Ordered(start, calls) && Ordered(EndOf(start, calls), more)
    ensures EndOf(EndOf(start, calls), more) == EndOf(start, calls + more)
  {
    if more == [] {
      assert calls + more == calls;
    } else {
      var n := |more| - 1;
      assert (calls + more)[..|calls + more| - 1] == calls + more[..n];
      OrderedSplits(start, calls, more[..n]);
    }
  }

  lemma {:induction false} OrderedEnds(start: int, calls: seq<Call>)
    requires Ordered(start, calls)
    ensures start <= EndOf(start, calls)
    ensures calls != [] ==> start <= calls[0].now.first <= EndOf(start, calls) && calls[0].n >= 0
                            && calls[0].now.first <= calls[0].now.second <= calls[0].now.third
  {
    if calls != [] {
      OrderedEnds(start, calls[..|calls| - 1]);
    }
  }

  /** From first use at `t0` until `T`, a bucket grants at most one burst plus one
      for every full refill period in between; its tokens stay in range. */
  lemma GrantsFromFirstUse(lim: Limiter, start: int, calls: seq<Call>)
    requires Sound(lim) && 0 < start && Ordered(start, calls) && calls != []
    ensures var (b, granted) := RunCalls(lim, NEW_BUCKET, calls);
            var t0, T := calls[0].now.first, EndOf(start, calls);
            0 <= b.tokens <= lim.burst && granted <= lim.burst * (1 + (T - t0) / lim.refillTime)
  {
    hide AllowN;
    var first, rest := calls[..1], calls[1..];
    var t0 := calls[0].now.first;
    assert calls == first + rest && first[..0] == [];
    OrderedEnds(start, calls);
    OrderedSplits(start, first, rest);
    RunSplits(lim, NEW_BUCKET, first, rest);
    FirstCallCovered(lim, calls[0]);
    var (b1, g1) := RunCalls(lim, NEW_BUCKET, first);
    RunContinuesCovered(lim, t0, b1, g1, EndOf(start, first), rest);
    var (b, granted) := RunCalls(lim, NEW_BUCKET, calls);
    CoveredBound(lim, t0, b, granted, EndOf(start, calls));
  }

  lemma {:induction false} RunContinuesCovered(lim: Limiter, ref: int, b: Bucket, already: int, start: int,
                                               calls: seq<Call>)
    requires Sound(lim) && Covered(lim, ref, b, already) && b.lastTime <= start && Ordered(start, calls)
    ensures var (b', granted) := RunCalls(lim, b, calls);
            Covered(lim, ref, b', already + granted) && b'.lastTime <= EndOf(start, calls)
  {
    hide AllowN, Covered;
    if calls != [] {
      var before := calls[..|calls| - 1];
      RunContinuesCovered(lim, ref, b, already, start, before);
      var (b', granted) := RunCalls(lim, b, before);
      CallKeepsCovered(lim, ref, b', already + granted, calls[|calls| - 1]);
    }
  }

  /** After any run from a new bucket the bucket is new or in range. */
  lemma BucketInRange(lim: Limiter, start: int, calls: seq<Call>)
    requires Sound(lim) && 0 < start && Ordered(start, calls)
    ensures var b := RunCalls(lim, NEW_BUCKET, calls).0;
            if calls == [] then b == NEW_BUCKET
            else 0 <= b.tokens <= lim.burst && 0 < b.lastTime <= EndOf(start, calls)
  {
    hide AllowN;
    if calls != [] {
      var first, rest := calls[..1], calls[1..];
      assert calls == first + rest && first[..0] == [];
      OrderedEnds(start, calls);
      OrderedSplits(start, first, rest);
      RunSplits(lim, NEW_BUCKET, first, rest);
      FirstCallCovered(lim, calls[0]);
      var (b1, g1) := RunCalls(lim, NEW_BUCKET, first);
      RunContinuesCovered(lim, calls[0].now.first, b1, g1, EndOf(start, first), rest);
    }
  }

  /** A call that finds at least one period due starts over with a full bucket. */
  lemma DueCallStartsOver(lim: Limiter, b: Bucket, call: Call)
    requires Sound(lim) && 0 <= b.tokens <= lim.burst && 0 < b.lastTime && call.n >= 0
    requires b.lastTime <= call.now.first <= call.now.second <= call.now.third
    requires call.now.second - b.lastTime >= lim.refillTime
    ensures var (b', ok) := AllowN(lim, b, call);
            Covered(lim, call.now.third, b', if ok then call.n else 0) && b'.lastTime == call.now.third
  {
    var refill := TruncatedDiv(call.now.second - b.lastTime, lim.refillTime);
    DivMonotone(lim.refillTime, call.now.second - b.lastTime, lim.refillTime);
    DivUnique(lim.refillTime, lim.refillTime, 1, 0);
    MulMonotone(lim.burst, 1, refill);
    assert (call.now.third - call.now.third) / lim.refillTime == 0;
  }

  lemma WindowArithmetic(lim: Limiter, ref: int, s: int, end: int)
    requires Sound(lim) && s <= end && s - ref < lim.refillTime
    ensures lim.burst * (1 + (end - ref) / lim.refillTime) <= lim.burst * (2 + (end - s) / lim.refillTime)
  {
    var d := lim.refillTime;
    DivMonotone(end - ref, (end - s) + 1 * d, d);
    DivAddMultiple(end - s, 1, d);
    MulMonotone(lim.burst, 1 + (end - ref) / d, 2 + (end - s) / d);
  }

  /** In any window of length L of any run, at most two bursts plus one for every
      full period in L are granted. */
  lemma GrantsInWindow(lim: Limiter, start: int, earlier: seq<Call>, window: seq<Call>)
    requires Sound(lim) && 0 < start && Ordered(start, earlier + window) && window != []
    ensures var b := RunCalls(lim, NEW_BUCKET, earlier).0;
            var length := EndOf(start, earlier + window) - window[0].now.first;
            RunCalls(lim, b, window).1 <= lim.burst * (2 + length / lim.refillTime)
  {
    hide AllowN;
    OrderedSplits(start, earlier, window);
    OrderedEnds(start, earlier);
    var from := EndOf(start, earlier);
    OrderedEnds(from, window);
    BucketInRange(lim, start, earlier);
    var b := RunCalls(lim, NEW_BUCKET, earlier).0;
    var s, end, call := window[0].now.first, EndOf(start, earlier + window), window[0];
    var (b', granted) := RunCalls(lim, b, window);
    if earlier == [] {
      GrantsFromFirstUse(lim, from, window);
      WindowArithmetic(lim, s, s, end);
    } else if call.now.second - b.lastTime < lim.refillTime {
      assert (b.lastTime - b.lastTime) / lim.refillTime == 0;
      RunContinuesCovered(lim, b.lastTime, b, 0, from, window);
      CoveredBound(lim, b.lastTime, b', granted, end);
      WindowArithmetic(lim, b.lastTime, s, end);
    } else {
      var first, rest := window[..1], window[1..];
      assert window == first + rest && first[..0] == [];
      OrderedSplits(from, first, rest);
      RunSplits(lim, b, first, rest);
      DueCallStartsOver(lim, b, call);
      var (b1, g1) := RunCalls(lim, b, first);
      RunContinuesCovered(lim, call.now.third, b1, g1, call.now.third, rest);
      CoveredBound(lim, call.now.third, b', granted, end);
      WindowArithmetic(lim, call.now.third, s, end);
    }
  }

  // ----- what is granted at least

  /** The request finds the bucket new, or a full period after it was last accounted for. */
  predicate Fills(lim: Limiter, b: Bucket, call: Call) {
    b.lastTime == 0 || call.now.second - b.lastTime >= lim.refillTime
  }

  /** A request is granted exactly if it asks for no more than there is: a whole burst if the
      bucket is filled for it, else what is left; and that much less is left after.  A bucket
      that was full is accounted for as of now. */
  lemma AnswerIff(lim: Limiter, b: Bucket, call: Call)
    requires Sound(lim) && call.n >= 0 && 0 < call.now.first <= call.now.second <= call.now.third
    requires b == NEW_BUCKET || (0 <= b.tokens <= lim.burst && 0 < b.lastTime <= call.now.first)
    ensures var (b', ok) := AllowN(lim, b, call);
            var available := if Fills(lim, b, call) then lim.burst else b.tokens;
            && (ok <==> call.n <= available)
            && b'.tokens == available - (if ok then call.n else 0)
            && b'.lastTime == if available == lim.burst then call.now.third else b.lastTime
  {
    hide TruncatedDiv;
    var used := if b.lastTime == 0 then Bucket(lim.burst, call.now.first) else b;
    RefillCount(lim, call.now.second - used.lastTime);
    var refill := TruncatedDiv(call.now.second - used.lastTime, lim.refillTime);
    if refill >= 1 {
      MulMonotone(lim.burst, 1, refill);
    }
  }

  lemma RefillCount(lim: Limiter, elapsed: int)
    requires Sound(lim) && 0 <= elapsed
    ensures TruncatedDiv(elapsed, lim.refillTime) >= 0
    ensures TruncatedDiv(elapsed, lim.refillTime) == 0 <==> elapsed < lim.refillTime
  {
    if elapsed < lim.refillTime {
      DivUnique(elapsed, lim.refillTime, 0, elapsed);
    } else {
      DivMonotone(lim.refillTime, elapsed, lim.refillTime);
      DivUnique(lim.refillTime, lim.refillTime, 1, 0);
    }
  }

  /** What was granted since the bucket was last filled. */
  function GrantedSinceFill(lim: Limiter, calls: seq<Call>): int
    requires lim.refillTime > 0
  {
    if calls == [] then 0
    else
      var before, call := calls[..|calls| - 1], calls[|calls| - 1];
      var b := RunCalls(lim, NEW_BUCKET, before).0;
      (if Fills(lim, b, call) then 0 else GrantedSinceFill(lim, before)) + if AllowN(lim, b, call).1 then call.n else 0
  }

  /** The bucket of a run before its last request is one that `AnswerIff` speaks of. */
  lemma BeforeLast(lim: Limiter, start: int, calls: seq<Call>)
    requires Sound(lim) && 0 < start && Ordered(start, calls) && calls != []
    ensures var call, b := calls[|calls| - 1], RunCalls(lim, NEW_BUCKET, calls[..|calls| - 1]).0;
            call.n >= 0 && 0 < call.now.first <= call.now.second <= call.now.third
            && (b == NEW_BUCKET || (0 <= b.tokens <= lim.burst && 0 < b.lastTime <= call.now.first))
  {
    hide RunCalls;
    BucketInRange(lim, start, calls[..|calls| - 1]);
    OrderedEnds(start, calls[..|calls| - 1]);
  }

  /** What is left is the burst less what was granted since it was filled. */
  lemma {:induction false} TokensAreLeft(lim: Limiter, start: int, calls: seq<Call>)
    requires Sound(lim) && 0 < start && Ordered(start, calls) && calls != []
    ensures RunCalls(lim, NEW_BUCKET, calls).0.tokens == lim.burst - GrantedSinceFill(lim, calls)
  {
    hide AllowN;
    var before, call := calls[..|calls| - 1], calls[|calls| - 1];
    BeforeLast(lim, start, calls);
    AnswerIff(lim, RunCalls(lim, NEW_BUCKET, before).0, call);
    if before != [] {
      TokensAreLeft(lim, start, before);
    }
  }

  /** So a request is refused exactly if, with what was granted since the bucket was last
      filled, it would exceed the burst. */
  lemma GrantedIff(lim: Limiter, start: int, calls: seq<Call>)
    requires Sound(lim) && 0 < start && Ordered(start, calls) && calls != []
    ensures var before, call := calls[..|calls| - 1], calls[|calls| - 1];
            var b := RunCalls(lim, NEW_BUCKET, before).0;
            AllowN(lim, b, call).1 <==>
              call.n + (if Fills(lim, b, call) then 0 else GrantedSinceFill(lim, before)) <= lim.burst
  {
    hide AllowN, GrantedSinceFill;
    var before, call := calls[..|calls| - 1], calls[|calls| - 1];
    BeforeLast(lim, start, calls);
    AnswerIff(lim, RunCalls(lim, NEW_BUCKET, before).0, call);
    if before != [] {
      TokensAreLeft(lim, start, before);
    }
  }

  function Total(calls: seq<Call>): int {
    if calls == [] then 0 else Total(calls[..|calls| - 1]) + calls[|calls| - 1].n
  }

  /** From first use on, requests for no more than a burst in all are all granted. */
  lemma {:induction false} BurstIsGranted(lim: Limiter, start: int, calls: seq<Call>)
    requires Sound(lim) && 0 < start && Ordered(start, calls) && Total(calls) <= lim.burst
    ensures RunCalls(lim, NEW_BUCKET, calls).1 == Total(calls)
    ensures calls != [] ==> RunCalls(lim, NEW_BUCKET, calls).0.tokens >= lim.burst - Total(calls)
  {
    hide AllowN;
    if calls != [] {
      var before, call := calls[..|calls| - 1], calls[|calls| - 1];
      BurstIsGranted(lim, start, before);
      BeforeLast(lim, start, calls);
      AnswerIff(lim, RunCalls(lim, NEW_BUCKET, before).0, call);
      TotalIsPositive(start, before);
    }
  }

  lemma {:induction false} TotalIsPositive(start: int, calls: seq<Call>)
    requires Ordered(start, calls)
    ensures Total(calls) >= 0
  {
    if calls != [] {
      TotalIsPositive(start, calls[..|calls| - 1]);
    }
  }

  // ----- the cache of buckets

  type Cache = map<string, Bucket>

  datatype KeyedCall = KeyedCall(key: string, call: Call)

  function BucketOf(cache: Cache, key: string): Bucket {
    if key in cache then cache[key] else NEW_BUCKET
  }

  /** A new key that would exceed the capacity flushes the cache and passes. */
  predicate Flushes(capacity: nat, cache: Cache, key: string) {
    key !in cache && |cache| + 1 > capacity
  }

  /** A request that does not flush: the key's bucket, and no other, is charged. */
  function Charged(lim: Limiter, cache: Cache, request: KeyedCall): (Cache, bool)
    requires lim.refillTime > 0
  {
    var (b, ok) := AllowN(lim, BucketOf(cache, request.key), request.call);
    (cache[request.key := b], ok)
  }

  /** `RateLimitCache::Allow`. */
  function Answer(capacity: nat, lim: Limiter, cache: Cache, request: KeyedCall): (Cache, bool)
    requires lim.refillTime > 0
  {
    if Flushes(capacity, cache, request.key) then (map[], true) else Charged(lim, cache, request)
  }

  class RateLimitCache {
    const capacity: nat
    const limiter: Limiter
    var cache: Cache

    ghost predicate Valid()
      reads this
    {
      limiter.refillTime > 0 && |cache| <= capacity
    }

    constructor (capacity: nat, limiter: Limiter)
      requires limiter.refillTime > 0
      ensures Valid() && cache == map[] && this.capacity == capacity && this.limiter == limiter
    {
      this.capacity, this.limiter, cache := capacity, limiter, map[];
    }

    /** One request, for one token; the cache never exceeds its capacity. */
    method Allow(key: string, now: Readings) returns (ok: bool)
      requires Valid()
      modifies this`cache
      ensures Valid()
      ensures (cache, ok) == Answer(capacity, limiter, old(cache), KeyedCall(key, Call(1, now)))
    {
      var inserted := key !in cache;
      if inserted {
        cache := cache[key := NEW_BUCKET];
      }
      if inserted && |cache| > capacity {
        cache := map[];
        return true;
      }
      var (b, allowed) := AllowN(limiter, cache[key], Call(1, now));
      ok := allowed;
      cache := cache[key := b];
      assert cache == old(cache)[key := b];
    }
  }

  /** The cache after requests none of which flushed, and what a key was granted. */
  function RunCache(lim: Limiter, calls: seq<KeyedCall>): Cache
    requires lim.refillTime > 0
  {
    if calls == [] then map[]
    else
      Charged(lim, RunCache(lim, calls[..|calls| - 1]), calls[|calls| - 1]).0
  }

  function GrantedTo(lim: Limiter, calls: seq<KeyedCall>, key: string): int
    requires lim.refillTime > 0
  {
    if calls == [] then 0
    else
      var before, last := calls[..|calls| - 1], calls[|calls| - 1];
      GrantedTo(lim, before, key)
      + if last.key == key && Charged(lim, RunCache(lim, before), last).1 then last.call.n else 0
  }

  function CallsOf(calls: seq<KeyedCall>, key: string): seq<Call> {
    if calls == [] then []
    else
      var before, last := calls[..|calls| - 1], calls[|calls| - 1];
      if last.key == key then CallsOf(before, key) + [last.call] else CallsOf(before, key)
  }

  function AllCalls(calls: seq<KeyedCall>): seq<Call> {
    if calls == [] then [] else AllCalls(calls[..|calls| - 1]) + [calls[|calls| - 1].call]
  }

  /** Between flushes every key has a bucket of its own. */
  lemma {:induction false} KeysAreIndependent(lim: Limiter, calls: seq<KeyedCall>, key: string)
    requires lim.refillTime > 0
    ensures RunCalls(lim, NEW_BUCKET, CallsOf(calls, key))
              == (BucketOf(RunCache(lim, calls), key), GrantedTo(lim, calls, key))
  {
    hide AllowN;
    if calls != [] {
      var before, last := calls[..|calls| - 1], calls[|calls| - 1];
      KeysAreIndependent(lim, before, key);
      if last.key == key {
        var mine := CallsOf(calls, key);
        assert mine[..|mine| - 1] == CallsOf(before, key);
      }
    }
  }

  lemma {:induction false} OrderedForKey(start: int, calls: seq<KeyedCall>, key: string)
    requires Ordered(start, AllCalls(calls))
    ensures Ordered(start, CallsOf(calls, key)) && EndOf(start, CallsOf(calls, key)) <= EndOf(start, AllCalls(calls))
  {
    if calls != [] {
      var before, all, mine := calls[..|calls| - 1], AllCalls(calls), CallsOf(calls, key);
      assert all[..|all| - 1] == AllCalls(before);
      OrderedForKey(start, before, key);
      if calls[|calls| - 1].key == key {
        assert mine[..|mine| - 1] == CallsOf(before, key);
      }
    }
  }

  /** So between flushes every key meets the bound of a single bucket. */
  lemma KeyGrants(lim: Limiter, start: int, calls: seq<KeyedCall>, key: string)
    requires Sound(lim) && 0 < start && Ordered(start, AllCalls(calls)) && CallsOf(calls, key) != []
    ensures var t0, T := CallsOf(calls, key)[0].now.first, EndOf(start, AllCalls(calls));
            GrantedTo(lim, calls, key) <= lim.burst * (1 + (T - t0) / lim.refillTime)
  {
    var mine := CallsOf(calls, key);
    KeysAreIndependent(lim, calls, key);
    OrderedForKey(start, calls, key);
    GrantsFromFirstUse(lim, start, mine);
    var t0, T, T' := mine[0].now.first, EndOf(start, mine), EndOf(start, AllCalls(calls));
    DivMonotone(T - t0, T' - t0, lim.refillTime);
    MulMonotone(lim.burst, 1 + (T - t0) / lim.refillTime, 1 + (T' - t0) / lim.refillTime);
  }

  // ----- requests with flushes in between

  /** The cache after any requests. */
  function RunRequests(capacity: nat, lim: Limiter, calls: seq<KeyedCall>): Cache
    requires lim.refillTime > 0
  {
    if calls == [] then map[]
    else Answer(capacity, lim, RunRequests(capacity, lim, calls[..|calls| - 1]), calls[|calls| - 1]).0
  }

  predicate LastFlushes(capacity: nat, lim: Limiter, calls: seq<KeyedCall>)
    requires lim.refillTime > 0 && calls != []
  {
    Flushes(capacity, RunRequests(capacity, lim, calls[..|calls| - 1]), calls[|calls| - 1].key)
  }

  /** The requests after the last flush, and when that was. */
  function SinceFlush(capacity: nat, lim: Limiter, calls: seq<KeyedCall>): seq<KeyedCall>
    requires lim.refillTime > 0
  {
    if calls == [] || LastFlushes(capacity, lim, calls) then []
    else SinceFlush(capacity, lim, calls[..|calls| - 1]) + [calls[|calls| - 1]]
  }

  ghost function FlushTime(start: int, capacity: nat, lim: Limiter, calls: seq<KeyedCall>): int
    requires lim.refillTime > 0
  {
    if calls == [] then start
    else if LastFlushes(capacity, lim, calls) then EndOf(start, AllCalls(calls))
    else FlushTime(start, capacity, lim, calls[..|calls| - 1])
  }

  /** The tokens that the answers since the last flush have granted to a key. */
  function GrantedSinceFlush(capacity: nat, lim: Limiter, calls: seq<KeyedCall>, key: string): int
    requires lim.refillTime > 0
  {
    if calls == [] || LastFlushes(capacity, lim, calls) then 0
    else
      var before, last := calls[..|calls| - 1], calls[|calls| - 1];
      GrantedSinceFlush(capacity, lim, before, key)
      + if last.key == key && Answer(capacity, lim, RunRequests(capacity, lim, before), last).1 then last.call.n else 0
  }

  /** A flush starts over: what counts is the run since then. */
  lemma {:induction false} FlushStartsOver(capacity: nat, lim: Limiter, calls: seq<KeyedCall>, key: string)
    requires lim.refillTime > 0
    ensures var since := SinceFlush(capacity, lim, calls);
            && RunRequests(capacity, lim, calls) == RunCache(lim, since) && |RunCache(lim, since)| <= capacity
            && GrantedSinceFlush(capacity, lim, calls, key) == GrantedTo(lim, since, key)
  {
    hide AllowN;
    if calls != [] {
      var before, last := calls[..|calls| - 1], calls[|calls| - 1];
      FlushStartsOver(capacity, lim, before, key);
      if !LastFlushes(capacity, lim, calls) {
        var since := SinceFlush(capacity, lim, calls);
        assert since[..|since| - 1] == SinceFlush(capacity, lim, before);
        StaysSmall(capacity, lim, RunRequests(capacity, lim, before), last);
      }
    }
  }

  lemma StaysSmall(capacity: nat, lim: Limiter, cache: Cache, request: KeyedCall)
    requires lim.refillTime > 0 && |cache| <= capacity && !Flushes(capacity, cache, request.key)
    ensures |Charged(lim, cache, request).0| <= capacity
  {
    hide AllowN;
    var cache' := Charged(lim, cache, request).0;
    assert cache'.Keys == cache.Keys + {request.key};
    assert request.key in cache ==> cache'.Keys == cache.Keys;
    assert |cache| == |cache.Keys| && |cache'| == |cache'.Keys|;
  }

  lemma {:induction false} OrderedSinceFlush(start: int, capacity: nat, lim: Limiter, calls: seq<KeyedCall>)
    requires lim.refillTime > 0 && Ordered(start, AllCalls(calls))
    ensures var from, since := FlushTime(start, capacity, lim, calls), AllCalls(SinceFlush(capacity, lim, calls));
            start <= from && Ordered(from, since) && EndOf(from, since) == EndOf(start, AllCalls(calls))
  {
    hide LastFlushes, Ordered, AllCalls, EndOf;
    if calls == [] {
      AllCallsSnoc(calls);
      NoCalls(start);
    } else {
      var before, last, all := calls[..|calls| - 1], calls[|calls| - 1], AllCalls(calls);
      AllCallsSnoc(calls);
      OrderedSnoc(start, AllCalls(before), last.call);
      OrderedSinceFlush(start, capacity, lim, before);
      OrderedEnds(start, all);
      if LastFlushes(capacity, lim, calls) {
        AllCallsSnoc([]);
        NoCalls(EndOf(start, all));
      } else {
        var since := SinceFlush(capacity, lim, calls);
        AllCallsSnoc(since);
        assert since[..|since| - 1] == SinceFlush(capacity, lim, before);
        OrderedSnoc(FlushTime(start, capacity, lim, before), AllCalls(SinceFlush(capacity, lim, before)), last.call);
      }
    }
  }

  lemma NoCalls(start: int)
    ensures Ordered(start, []) && EndOf(start, []) == start
  {
  }

  lemma AllCallsSnoc(calls: seq<KeyedCall>)
    ensures AllCalls(calls) == if calls == [] then [] else AllCalls(calls[..|calls| - 1]) + [calls[|calls| - 1].call]
  {
  }

  lemma OrderedSnoc(start: int, calls: seq<Call>, call: Call)
    ensures Ordered(start, calls + [call]) <==>
              Ordered(start, calls) && call.n >= 0
                  && EndOf(start, calls) <= call.now.first <= call.now.second <= call.now.third
    ensures EndOf(start, calls + [call]) == call.now.third
  {
    assert (calls + [call])[..|calls|] == calls;
  }

  /** Over any requests with any flushes, the cache stays within its capacity, and since
      the last flush every key meets the bound of a single bucket. */
  lemma KeyGrantsSinceFlush(capacity: nat, lim: Limiter, start: int, calls: seq<KeyedCall>, key: string)
    requires Sound(lim) && 0 < start && Ordered(start, AllCalls(calls))
    ensures |RunRequests(capacity, lim, calls)| <= capacity
    ensures var mine := CallsOf(SinceFlush(capacity, lim, calls), key);
            mine != [] ==>
              GrantedSinceFlush(capacity, lim, calls, key)
                <= lim.burst * (1 + (EndOf(start, AllCalls(calls)) - mine[0].now.first) / lim.refillTime)
  {
    hide LastFlushes, RunRequests, GrantedSinceFlush, RunCache, GrantedTo;
    FlushStartsOver(capacity, lim, calls, key);
    OrderedSinceFlush(start, capacity, lim, calls);
    var since := SinceFlush(capacity, lim, calls);
    if CallsOf(since, key) != [] {
      KeyGrants(lim, FlushTime(start, capacity, lim, calls), since, key);
    }
  }

  lemma {:induction false} CallsOfConcat(a: seq<KeyedCall>, b: seq<KeyedCall>, key: string)
    ensures CallsOf(a + b, key) == CallsOf(a, key) + CallsOf(b, key)
  {
    if b == [] {
      assert a + b == a;
    } else {
      var n := |b| - 1;
      CallsOfConcat(a, b[..n], key);
      assert (a + b)[..|a + b| - 1] == a + b[..n];
    }
  }

  /** What a key is granted in a part of the run since a flush is what its own bucket
      grants in that part. */
  lemma WindowOfKey(lim: Limiter, earlier: seq<KeyedCall>, window: seq<KeyedCall>, key: string)
    requires lim.refillTime > 0
    ensures var b := RunCalls(lim, NEW_BUCKET, CallsOf(earlier, key)).0;
            GrantedTo(lim, earlier + window, key) - GrantedTo(lim, earlier, key)
              == RunCalls(lim, b, CallsOf(window, key)).1
  {
    hide RunCalls, GrantedTo, RunCache, CallsOf;
    KeysAreIndependent(lim, earlier, key);
    KeysAreIndependent(lim, earlier + window, key);
    CallsOfConcat(earlier, window, key);
    RunSplits(lim, NEW_BUCKET, CallsOf(earlier, key), CallsOf(window, key));
  }

  /** Over any requests, a window in which the cache is not flushed grants every key at most
      two bursts and one more for every full period in it. */
  lemma KeyGrantsInWindow(capacity: nat, lim: Limiter, start: int, earlier: seq<KeyedCall>, window: seq<KeyedCall>,
                          key: string)
    requires Sound(lim) && 0 < start && Ordered(start, AllCalls(earlier + window)) && CallsOf(window, key) != []
    requires SinceFlush(capacity, lim, earlier + window) == SinceFlush(capacity, lim, earlier) + window
    ensures var length := EndOf(start, AllCalls(earlier + window)) - CallsOf(window, key)[0].now.first;
            GrantedSinceFlush(capacity, lim, earlier + window, key) - GrantedSinceFlush(capacity, lim, earlier, key)
              <= lim.burst * (2 + length / lim.refillTime)
  {
    hide LastFlushes, RunRequests, GrantedSinceFlush, RunCache, GrantedTo, SinceFlush, FlushTime, RunCalls, CallsOf,
      Ordered, AllCalls, EndOf;
    var all, since := earlier + window, SinceFlush(capacity, lim, earlier);
    var from, mine := FlushTime(start, capacity, lim, all), CallsOf(window, key);
    FlushStartsOver(capacity, lim, earlier, key);
    FlushStartsOver(capacity, lim, all, key);
    WindowOfKey(lim, since, window, key);
    OrderedSinceFlush(start, capacity, lim, all);
    OrderedForKey(from, since + window, key);
    CallsOfConcat(since, window, key);
    GrantsInWindow(lim, from, CallsOf(since, key), mine);
    var s, end, end' := mine[0].now.first, EndOf(from, CallsOf(since + window, key)), EndOf(start, AllCalls(all));
    DivMonotone(end - s, end' - s, lim.refillTime);
    MulMonotone(lim.burst, 2 + (end - s) / lim.refillTime, 2 + (end' - s) / lim.refillTime);
  }

  // ----- what the cache grants at least

  ghost function KeysOf(calls: seq<KeyedCall>): set<string> {
    set i | 0 <= i < |calls| :: calls[i].key
  }

  lemma KeysOfSnoc(calls: seq<KeyedCall>)
    requires calls != []
    ensures KeysOf(calls) == KeysOf(calls[..|calls| - 1]) + {calls[|calls| - 1].key}
  {
    var before := calls[..|calls| - 1];
    assert forall i :: 0 <= i < |before| ==> before[i] == calls[i];
  }

  lemma {:induction false} Fewer(a: set<string>, b: set<string>)
    requires a <= b
    ensures |a| <= |b|
  {
    if a != {} {
      var x :| x in a;
      Fewer(a - {x}, b - {x});
    }
  }

  /** Requests of no more keys than the capacity never flush. */
  lemma {:induction false} FewKeysDoNotFlush(capacity: nat, lim: Limiter, calls: seq<KeyedCall>)
    requires lim.refillTime > 0 && |KeysOf(calls)| <= capacity
    ensures SinceFlush(capacity, lim, calls) == calls && RunRequests(capacity, lim, calls).Keys == KeysOf(calls)
  {
    hide AllowN, KeysOf;
    if calls == [] {
      NoKeys();
    } else {
      var before, last := calls[..|calls| - 1], calls[|calls| - 1];
      KeysOfSnoc(calls);
      Fewer(KeysOf(before), KeysOf(calls));
      FewKeysDoNotFlush(capacity, lim, before);
      var cache := RunRequests(capacity, lim, before);
      assert |cache| == |cache.Keys|;
      if last.key !in cache {
        assert |KeysOf(calls)| == |cache.Keys| + 1;
      }
      assert before + [last] == calls;
    }
  }

  lemma NoKeys()
    ensures KeysOf([]) == {}
  {
  }

  /** With no more keys than the capacity, each key gets at least its burst. */
  lemma KeyGetsBurst(capacity: nat, lim: Limiter, start: int, calls: seq<KeyedCall>, key: string)
    requires Sound(lim) && 0 < start && Ordered(start, AllCalls(calls)) && |KeysOf(calls)| <= capacity
    requires Total(CallsOf(calls, key)) <= lim.burst
    ensures GrantedSinceFlush(capacity, lim, calls, key) == Total(CallsOf(calls, key))
  {
    hide AllowN, RunCalls, RunCache, GrantedTo, GrantedSinceFlush, KeysOf, Total, CallsOf;
    FewKeysDoNotFlush(capacity, lim, calls);
    FlushStartsOver(capacity, lim, calls, key);
    KeysAreIndependent(lim, calls, key);
    OrderedForKey(start, calls, key);
    BurstIsGranted(lim, start, CallsOf(calls, key));
  }

  /** A key that finds the cache full is granted, and empties it; any other request leaves the
      buckets of the other keys alone. */
  lemma AnswerToKey(capacity: nat, lim: Limiter, cache: Cache, request: KeyedCall, other: string)
    requires lim.refillTime > 0 && |cache| <= capacity
    ensures var (cache', ok) := Answer(capacity, lim, cache, request);
            && (request.key !in cache && |cache| == capacity ==> ok && cache' == map[])
            && (request.key in cache || |cache| < capacity ==>
                  && request.key in cache'
                  && (other != request.key ==> (other in cache' <==> other in cache)
                                               && (other in cache ==> cache'[other] == cache[other])))
  {
    hide AllowN;
  }

  // ----- the counter

  function Count(m: map<string, int>, key: string): int {
    if key in m then m[key] else 0
  }

  /** The count of `key`, and no other, went up by one. */
  ghost predicate OneMore(before: map<string, int>, after: map<string, int>, key: string) {
    forall c :: Count(after, c) == Count(before, c) + if c == key then 1 else 0
  }

  class CountLimiter {
    const count: int
    var cache: map<string, int>

    constructor (count: int)
      ensures this.count == count && cache == map[]
    {
      this.count, cache := count, map[];
    }

    /** Counts the request and allows the first `count` of each key. */
    method Allow(key: string) returns (ok: bool)
      modifies this`cache
      ensures OneMore(old(cache), cache, key)
      ensures ok <==> Count(old(cache), key) < count
    {
      if key !in cache {
        cache := cache[key := 0];
      }
      cache := cache[key := cache[key] + 1];
      ok := cache[key] <= count;
    }
  }
}
