/**
 * The fixed-window limiter: a map of buckets, swept lazily.
 *
 * Two implementations share this arithmetic: the middleware limiter here and the per-(agent, connection)
 * limiter of the connection proxy. They differ only in when a sweep is due.
 */
module RateLimiter {
  import opened Arithmetic
  import opened Common

  datatype Bucket = Bucket(count: int, resetAt: int)

  type Buckets = map<string, Bucket>

  datatype Answer = Answer(allowed: bool, retryAfterSeconds: int)

  /** When a sweep is due: strictly later than a window ago (middleware), or at least one ago (proxy). */
  datatype SweepRule = AfterWindow | FromWindow

  predicate SweepDue(rule: SweepRule, window: int, lastSweep: int, t: int) {
    match rule
    case AfterWindow => t - lastSweep > window
    case FromWindow => t - lastSweep >= window
  }

  function Swept(buckets: Buckets, t: int): Buckets {
    map k | k in buckets && buckets[k].resetAt > t :: buckets[k]
  }

  /** Rounding up; `d` is positive. */
  function CeilDiv(n: int, d: int): int
    requires d > 0
  {
    -((-n) / d)
  }

  /** The bucket a hit at `t` counts against: the live one, or a new one that opens now. */
  function Current(buckets: Buckets, window: int, key: string, t: int): Bucket {
    if key in buckets && buckets[key].resetAt > t then buckets[key] else Bucket(0, t + window)
  }

  function Judge(bucket: Bucket, t: int, limit: int): Answer {
    if bucket.count > limit then Answer(false, Max(1, CeilDiv(bucket.resetAt - t, MILLIS))) else Answer(true, 0)
  }

  /** One hit on a limiter that never sweeps. */
  function Hit(buckets: Buckets, window: int, call: Call): (Buckets, Answer) {
    var current := Current(buckets, window, call.key, call.t);
    var bucket := current.(count := current.count + 1);
    (buckets[call.key := bucket], Judge(bucket, call.t, call.limit))
  }

  /** A call to `check`: the key, the clock, and the limit read at that moment. */
  datatype Call = Call(key: string, t: int, limit: int)

  datatype State = State(buckets: Buckets, lastSweep: int)

  /** One call on the sweeping limiter. */
  function Check(rule: SweepRule, window: int, s: State, call: Call): (State, Answer) {
    var due := SweepDue(rule, window, s.lastSweep, call.t);
    var buckets := if due then Swept(s.buckets, call.t) else s.buckets;
    var (next, answer) := Hit(buckets, window, call);
    (State(next, if due then call.t else s.lastSweep), answer)
  }

  class FixedWindowLimiter {
    const windowMs: int
    var buckets: Buckets
    var lastSweep: int

    ghost function Abstract(): State
      reads this
    {
      State(buckets, lastSweep)
    }

    constructor (windowMs: int, now: int)
      ensures this.windowMs == windowMs && Abstract() == State(map[], now)
    {
      this.windowMs := windowMs;
      buckets, lastSweep := map[], now;
    }

    method Sweep(t: int)
      modifies this`buckets
      ensures buckets == Swept(old(buckets), t)
    {
      var todo := buckets.Keys;
      while todo != {}
        invariant todo <= old(buckets).Keys
        invariant buckets == map k | k in old(buckets) && (k in todo || old(buckets)[k].resetAt > t) :: old(buckets)[k]
      {
        var k :| k in todo;
        if buckets[k].resetAt <= t {
          buckets := buckets - {k};
        }
        todo := todo - {k};
      }
    }

    method CheckKey(key: string, t: int, limit: int) returns (answer: Answer)
      modifies this
      ensures (Abstract(), answer) == Check(AfterWindow, windowMs, old(Abstract()), Call(key, t, limit))
      ensures lastSweep == if t - old(lastSweep) > windowMs then t else old(lastSweep)
    {
      if t - lastSweep > windowMs {
        Sweep(t);
        lastSweep := t;
      }
      ghost var base := buckets;
      if key !in buckets || buckets[key].resetAt <= t {
        buckets := buckets[key := Bucket(0, t + windowMs)];
      }
      var bucket := buckets[key].(count := buckets[key].count + 1);
      buckets := buckets[key := bucket];
      assert buckets == base[key := bucket];
      if bucket.count > limit {
        return Answer(false, Max(1, CeilDiv(bucket.resetAt - t, MILLIS)));
      }
      return Answer(true, 0);
    }
  }

  // ---------------------------------------------------------------- runs

  function Init<T>(s: seq<T>): seq<T>
    requires s != []
  {
    s[..|s| - 1]
  }

  function Last<T>(s: seq<T>): T
    requires s != []
  {
    s[|s| - 1]
  }

  ghost predicate Monotone(calls: seq<Call>) {
    forall i, j :: 0 <= i < j < |calls| ==> calls[i].t <= calls[j].t
  }

  /** Buckets of the limiter that never sweeps, after the calls. */
  function After(window: int, calls: seq<Call>): Buckets {
    if calls == [] then map[] else Hit(After(window, Init(calls)), window, Last(calls)).0
  }

  function Answers(window: int, calls: seq<Call>): (answers: seq<Answer>)
    ensures |answers| == |calls|
  {
    if calls == [] then []
    else Answers(window, Init(calls)) + [Hit(After(window, Init(calls)), window, Last(calls)).1]
  }

  /** State of the sweeping limiter created at `start`. */
  function SweptAfter(rule: SweepRule, window: int, start: int, calls: seq<Call>): State {
    if calls == [] then State(map[], start)
    else Check(rule, window, SweptAfter(rule, window, start, Init(calls)), Last(calls)).0
  }

  function SweptAnswers(rule: SweepRule, window: int, start: int, calls: seq<Call>): (answers: seq<Answer>)
    ensures |answers| == |calls|
  {
    if calls == [] then []
    else SweptAnswers(rule, window, start, Init(calls)) +
         [Check(rule, window, SweptAfter(rule, window, start, Init(calls)), Last(calls)).1]
  }

  // ---------------------------------------------------------------- sweeping is invisible

  /** The swept map differs from the full one only by buckets that are over at `t`. */
  ghost predicate Forgets(swept: Buckets, full: Buckets, t: int) {
    && (forall k :: k in swept ==> k in full && swept[k] == full[k])
    && (forall k :: k in full && k !in swept ==> full[k].resetAt <= t)
  }

  /** A hit sees the same bucket in both maps, so it gets the same answer and keeps them related. */
  lemma HitForgetsNothingLive(swept: Buckets, full: Buckets, window: int, call: Call)
    requires Forgets(swept, full, call.t)
    ensures Hit(swept, window, call).1 == Hit(full, window, call).1
    ensures Forgets(Hit(swept, window, call).0, Hit(full, window, call).0, call.t)
  {
    assert Current(swept, window, call.key, call.t) == Current(full, window, call.key, call.t);
  }

  lemma {:induction false} SweepForgetsOnlyDead(rule: SweepRule, window: int, start: int, calls: seq<Call>)
    requires calls != [] && Monotone(calls)
    ensures Forgets(SweptAfter(rule, window, start, calls).buckets, After(window, calls), Last(calls).t)
    ensures SweptAnswers(rule, window, start, calls) == Answers(window, calls)
  {
    var prefix, call := Init(calls), Last(calls);
    var s, full := SweptAfter(rule, window, start, prefix), After(window, prefix);
    if prefix != [] {
      SweepForgetsOnlyDead(rule, window, start, prefix);
      assert Last(prefix).t <= call.t;
    }
    assert Forgets(s.buckets, full, call.t);
    var swept := if SweepDue(rule, window, s.lastSweep, call.t) then Swept(s.buckets, call.t) else s.buckets;
    HitForgetsNothingLive(swept, full, window, call);
  }

  /** Under a non-decreasing clock both limiters answer every call as one that never sweeps. */
  lemma SweepingIsInvisible(rule: SweepRule, window: int, start: int, calls: seq<Call>)
    requires Monotone(calls)
    ensures SweptAnswers(rule, window, start, calls) == Answers(window, calls)
  {
    if calls != [] {
      SweepForgetsOnlyDead(rule, window, start, calls);
    }
  }

  /** Some call opened the bucket of `key` that ends at `resetAt`. */
  ghost predicate Opened(window: int, calls: seq<Call>, key: string, resetAt: int) {
    exists call :: call in calls && call.key == key && resetAt == call.t + window
  }

  /** Every bucket was opened by a call and was alive at the last sweep, which is at most a window ago. */
  ghost predicate Recent(window: int, s: State, calls: seq<Call>, t: int) {
    && s.lastSweep <= t <= s.lastSweep + window
    && forall k :: k in s.buckets ==>
         s.lastSweep <= s.buckets[k].resetAt && Opened(window, calls, k, s.buckets[k].resetAt)
  }

  lemma RecentStep(rule: SweepRule, window: nat, s: State, calls: seq<Call>, t: int, call: Call)
    requires Recent(window, s, calls, t) && t <= call.t
    ensures Recent(window, Check(rule, window, s, call).0, calls + [call], call.t)
  {
    var next, more := Check(rule, window, s, call).0, calls + [call];
    assert call in more;
    forall k | k in next.buckets
      ensures s.lastSweep <= next.lastSweep <= next.buckets[k].resetAt
      ensures Opened(window, more, k, next.buckets[k].resetAt)
    {
      if k in s.buckets && next.buckets[k].resetAt == s.buckets[k].resetAt {
        var opener :| opener in calls && opener.key == k && s.buckets[k].resetAt == opener.t + window;
        assert opener in more;
      }
    }
  }

  lemma {:induction false} AlwaysRecent(rule: SweepRule, window: nat, start: int, calls: seq<Call>)
    requires Monotone(calls) && (calls != [] ==> start <= calls[0].t)
    ensures Recent(window, SweptAfter(rule, window, start, calls), calls, if calls == [] then start else Last(calls).t)
  {
    if calls != [] {
      AlwaysRecent(rule, window, start, Init(calls));
      RecentStep(rule, window, SweptAfter(rule, window, start, Init(calls)), Init(calls),
                 if Init(calls) == [] then start else Last(Init(calls)).t, Last(calls));
      assert Init(calls) + [Last(calls)] == calls;
    }
  }

  /** The map does not grow without bound: every retained key was hit within the last two windows. */
  lemma RetainedKeysAreRecent(rule: SweepRule, window: nat, start: int, calls: seq<Call>, key: string)
    requires calls != [] && Monotone(calls) && start <= calls[0].t
    requires key in SweptAfter(rule, window, start, calls).buckets
    ensures exists call :: call in calls && call.key == key && Last(calls).t - 2 * window <= call.t
  {
    AlwaysRecent(rule, window, start, calls);
  }

  // ---------------------------------------------------------------- an answer, read off the calls

  /** The last of the first `n` calls with this key. */
  function Previous(calls: seq<Call>, n: nat, key: string): (last: Option<nat>)
    requires n <= |calls|
    ensures last.Some? ==> last.value < n && calls[last.value].key == key
    ensures forall i :: (if last.Some? then last.value + 1 else 0) <= i < n ==> calls[i].key != key
  {
    if n == 0 then None else if calls[n - 1].key == key then Some(n - 1) else Previous(calls, n - 1, key)
  }

  /** The call that opened the window call `k` falls in: the one before it did, unless that window is over. */
  function Opener(window: int, calls: seq<Call>, k: nat): (opener: nat)
    requires k < |calls|
    ensures opener <= k && calls[opener].key == calls[k].key
  {
    var last := Previous(calls, k, calls[k].key);
    if last.Some? && calls[k].t < calls[Opener(window, calls, last.value)].t + window
    then Opener(window, calls, last.value) else k
  }

  /** How many calls from the one at `from` up to and without the one at `to` have this key. */
  function CountOf(calls: seq<Call>, key: string, from: nat, to: nat): nat
    requires to <= |calls|
  {
    if to <= from then 0 else CountOf(calls, key, from, to - 1) + if calls[to - 1].key == key then 1 else 0
  }

  /** The bucket of the key counts the calls of its window, and ends with it. */
  ghost predicate BucketTellsHistory(buckets: Buckets, window: int, calls: seq<Call>, n: nat, key: string)
    requires n <= |calls|
  {
    var last := Previous(calls, n, key);
    && (key in buckets <==> last.Some?)
    && (last.Some? ==>
          var opener := Opener(window, calls, last.value);
          buckets[key] == Bucket(CountOf(calls, key, opener, n), calls[opener].t + window))
  }

  lemma AfterOneMore(window: int, calls: seq<Call>, n: nat)
    requires n < |calls|
    ensures After(window, calls[..n + 1]) == Hit(After(window, calls[..n]), window, calls[n]).0
  {
    assert Init(calls[..n + 1]) == calls[..n];
  }

  lemma {:induction false} BucketsTellHistory(window: int, calls: seq<Call>, n: nat, key: string)
    requires window > 0 && n <= |calls|
    ensures BucketTellsHistory(After(window, calls[..n]), window, calls, n, key)
  {
    if n > 0 {
      BucketsTellHistory(window, calls, n - 1, key);
      AfterOneMore(window, calls, n - 1);
    }
  }

  /**
   * A call is allowed exactly when no more calls of its key than its limit, itself included, fall in its window,
   * which is the fixed one opened by the first call after the window before. Calls of other keys do not matter.
   */
  lemma AllowedExactlyWhen(rule: SweepRule, window: int, start: int, calls: seq<Call>, k: nat)
    requires window > 0 && k < |calls| && Monotone(calls)
    ensures SweptAnswers(rule, window, start, calls)[k].allowed <==>
            CountOf(calls, calls[k].key, Opener(window, calls, k), k + 1) <= calls[k].limit
  {
    SweepingIsInvisible(rule, window, start, calls);
    BucketsTellHistory(window, calls, k + 1, calls[k].key);
    AnswerAt(window, calls, k);
  }

  lemma {:induction false} AnswerAt(window: int, calls: seq<Call>, k: nat)
    requires k < |calls|
    ensures Answers(window, calls)[k] ==
            Judge(Hit(After(window, calls[..k]), window, calls[k]).0[calls[k].key], calls[k].t, calls[k].limit)
    ensures After(window, calls[..k + 1]) == Hit(After(window, calls[..k]), window, calls[k]).0
  {
    AfterOneMore(window, calls, k);
    if k + 1 == |calls| {
      assert Init(calls) == calls[..k];
    } else {
      AnswerAt(window, Init(calls), k);
      assert Init(calls)[..k] == calls[..k];
    }
  }

  // ---------------------------------------------------------------- how many hits pass

  /** Allowed hits of `key` with `a <= t <= b`. */
  function AllowedIn(calls: seq<Call>, answers: seq<Answer>, key: string, a: int, b: int): nat
    requires |calls| == |answers|
  {
    if calls == [] then 0
    else AllowedIn(Init(calls), Init(answers), key, a, b) +
         if Last(calls).key == key && a <= Last(calls).t <= b && Last(answers).allowed then 1 else 0
  }

  /** What one more call adds to the count of the sweeping limiter. */
  lemma AllowedStep(rule: SweepRule, window: int, start: int, calls: seq<Call>, call: Call, key: string, a: int, b: int)
    ensures AllowedIn(calls + [call], SweptAnswers(rule, window, start, calls + [call]), key, a, b) ==
            AllowedIn(calls, SweptAnswers(rule, window, start, calls), key, a, b) +
            if call.key == key && a <= call.t <= b
               && Check(rule, window, SweptAfter(rule, window, start, calls), call).1.allowed then 1 else 0
  {
    var run := calls + [call];
    assert Init(run) == calls && Last(run) == call;
    assert Init(SweptAnswers(rule, window, start, run)) == SweptAnswers(rule, window, start, calls);
  }

  /** The limit is read at every call, and may change; for this key it is never above `max`. */
  ghost predicate LimitedBy(calls: seq<Call>, key: string, max: int) {
    forall c :: c in calls && c.key == key ==> c.limit <= max
  }

  /** It is `max` in every call. */
  ghost predicate FixedLimit(calls: seq<Call>, max: int) {
    forall c :: c in calls ==> c.limit == max
  }

  /** How many whole windows fit in `n`. */
  function Floors(n: int, window: int): nat
    requires window > 0
    decreases Max(0, n)
  {
    if n < window then 0 else 1 + Floors(n - window, window)
  }

  /** How many windows it takes to cover `n`. */
  function Ceils(n: int, window: int): nat
    requires window > 0
    decreases Max(0, n)
  {
    if n <= 0 then 0 else 1 + Ceils(n - window, window)
  }

  lemma {:induction false} CountsGrow(x: int, y: int, window: int)
    requires window > 0 && x <= y
    ensures Floors(x, window) <= Floors(y, window) && Ceils(x, window) <= Ceils(y, window)
    decreases Max(0, y)
  {
    if y > 0 {
      CountsGrow(x - window, y - window, window);
    }
  }

  /** The bound, as an account of the bucket `key` was last counted in. */
  ghost predicate Accounted(buckets: Buckets, window: int, max: nat, key: string, a: int, allowed: nat)
    requires window > 0
  {
    if key !in buckets then allowed == 0
    else
      var bucket := buckets[key];
      var openAt := bucket.resetAt - window;
      var used := Min(bucket.count, max);
      && bucket.count >= 1
      && (bucket.resetAt <= a ==> allowed == 0)
      && (openAt < a ==> allowed <= Max(0, used - 1))
      && (openAt >= a ==> allowed <= max * Ceils(openAt - a, window) + used)
      && (openAt >= a ==> allowed <= max * Floors(openAt - a, window) + used + Max(0, max - 1))
  }

  /** Opening a new bucket at `to` after one opened at `from` makes room for one more window of hits. */
  lemma RoomForAWindow(max: nat, from: int, to: int, window: int)
    requires window > 0 && from + window <= to && 0 <= from
    ensures max * Ceils(from, window) + max <= max * Ceils(to, window)
    ensures max * Floors(from, window) + max <= max * Floors(to, window)
  {
    CountsGrow(from, to - window, window);
    MulStep(max, Ceils(from, window), Ceils(to, window));
    MulStep(max, Floors(from, window), Floors(to, window));
  }

  lemma AccountedStep(buckets: Buckets, window: int, max: nat, call: Call, key: string, a: int, allowed: nat)
    requires window > 0 && Accounted(buckets, window, max, key, a, allowed)
    requires call.key == key && call.limit <= max
    requires call.t < a ==> allowed == 0
    ensures var (next, answer) := Hit(buckets, window, call);
            Accounted(next, window, max, key, a, allowed + if a <= call.t && answer.allowed then 1 else 0)
  {
    if key in buckets && buckets[key].resetAt <= call.t && a <= call.t {
      var openAt := buckets[key].resetAt - window;
      if openAt >= a {
        RoomForAWindow(max, openAt - a, call.t - a, window);
      } else if buckets[key].resetAt > a {
        MulMonotone(max, 1, Ceils(call.t - a, window));
      }
    }
  }

  lemma AccountedElsewhere(buckets: Buckets, window: int, max: nat, call: Call, key: string, a: int, allowed: nat)
    requires window > 0 && Accounted(buckets, window, max, key, a, allowed) && call.key != key
    ensures Accounted(Hit(buckets, window, call).0, window, max, key, a, allowed)
  {
    var next := Hit(buckets, window, call).0;
    assert key in next <==> key in buckets;
    assert key in next ==> next[key] == buckets[key];
  }

  lemma {:induction false} AllowedBeforeStart(calls: seq<Call>, answers: seq<Answer>, key: string, a: int, b: int)
    requires |calls| == |answers| && forall c :: c in calls ==> c.t < a
    ensures AllowedIn(calls, answers, key, a, b) == 0
  {
    if calls != [] {
      assert Last(calls) in calls;
      AllowedBeforeStart(Init(calls), Init(answers), key, a, b);
    }
  }

  lemma {:induction false} AccountedAlong(window: int, max: nat, calls: seq<Call>, key: string, a: int, b: int)
    requires window > 0 && Monotone(calls) && LimitedBy(calls, key, max)
    requires calls != [] ==> Last(calls).t <= b
    ensures Accounted(After(window, calls), window, max, key, a, AllowedIn(calls, Answers(window, calls), key, a, b))
  {
    if calls != [] {
      var prefix, call := Init(calls), Last(calls);
      AccountedAlong(window, max, prefix, key, a, b);
      assert Init(Answers(window, calls)) == Answers(window, prefix);
      assert call in calls;
      var before, allowed := After(window, prefix), AllowedIn(prefix, Answers(window, prefix), key, a, b);
      if call.key == key {
        if call.t < a {
          AllowedBeforeStart(prefix, Answers(window, prefix), key, a, b);
        }
        AccountedStep(before, window, max, call, key, a, allowed);
      } else {
        AccountedElsewhere(before, window, max, call, key, a, allowed);
      }
    }
  }

  lemma {:induction false} OpenedByNow(window: int, calls: seq<Call>, key: string)
    requires window > 0 && Monotone(calls) && key in After(window, calls)
    ensures calls != [] && After(window, calls)[key].resetAt - window <= Last(calls).t
  {
    var prefix := Init(calls);
    if key in After(window, prefix) {
      OpenedByNow(window, prefix, key);
    }
  }

  /** The most a span of `d` milliseconds (both ends included) lets through for one key. */
  function Worst(window: int, max: nat, d: nat): nat
    requires window > 0
  {
    if max == 0 then 0
    else if d % window == 0 then max * (d / window + 1)
    else max * (d / window + 1) + max - 1
  }

  /** The counts are the usual quotients. */
  lemma {:induction false} CountsAreQuotients(n: nat, window: int)
    requires window > 0
    ensures Floors(n, window) == n / window
    ensures Ceils(n, window) == n / window + if n % window == 0 then 0 else 1
    decreases n
  {
    if n >= window {
      QuotientStep(n, window);
      CountsAreQuotients(n - window, window);
    } else {
      SmallQuotient(n, window);
    }
  }

  /** Both accounts of a bucket opened at most `d` after the span began stay within `Worst`. */
  lemma AccountedMeansWorst(window: int, max: nat, age: int, d: nat)
    requires window > 0 && age <= d
    ensures age >= 0 && d % window == 0 ==> max * Ceils(age, window) + max <= Worst(window, max, d)
    ensures age >= 0 && max > 0 ==> max * Floors(age, window) + 2 * max - 1 <= max * (d / window + 1) + max - 1
    ensures max > 0 ==> max <= Worst(window, max, d)
  {
    CountsAreQuotients(d, window);
    CountsGrow(age, d, window);
    MulStep(max, -1, 0);
    MulStep(max, 0, d / window + 1);
    if age >= 0 {
      MulStep(max, Floors(age, window), d / window + 1);
      MulStep(max, Ceils(age, window), Ceils(d, window) + 1);
    }
  }

  lemma {:induction false} SpanBoundNoSweep(window: int, max: nat, calls: seq<Call>, key: string, a: int, d: nat)
    requires window > 0 && Monotone(calls) && LimitedBy(calls, key, max)
    ensures AllowedIn(calls, Answers(window, calls), key, a, a + d) <= Worst(window, max, d)
  {
    if calls == [] {
    } else if Last(calls).t > a + d {
      assert Init(Answers(window, calls)) == Answers(window, Init(calls));
      SpanBoundNoSweep(window, max, Init(calls), key, a, d);
    } else {
      AccountedAlong(window, max, calls, key, a, a + d);
      if key in After(window, calls) {
        OpenedByNow(window, calls, key);
        var openAt := After(window, calls)[key].resetAt - window;
        AccountedMeansWorst(window, max, openAt - a, d);
      }
    }
  }

  /** Both limiters: no run lets more than `Worst` hits of a key through in any span. */
  lemma SpanBound(rule: SweepRule, window: int, start: int, max: nat, calls: seq<Call>, key: string, a: int, d: nat)
    requires window > 0 && Monotone(calls) && LimitedBy(calls, key, max)
    ensures AllowedIn(calls, SweptAnswers(rule, window, start, calls), key, a, a + d) <= Worst(window, max, d)
  {
    SweepingIsInvisible(rule, window, start, calls);
    SpanBoundNoSweep(window, max, calls, key, a, d);
  }

  /** In particular any half-open interval of one window contains at most twice the limit. */
  lemma TwiceTheLimitPerWindow(rule: SweepRule, window: int, start: int, max: nat, calls: seq<Call>, key: string,
      a: int)
    requires window > 0 && Monotone(calls) && LimitedBy(calls, key, max)
    ensures AllowedIn(calls, SweptAnswers(rule, window, start, calls), key, a, a + window - 1) <= 2 * max
  {
    SpanBound(rule, window, start, max, calls, key, a, window - 1);
    CountsAreQuotients(window - 1, window);
  }

  // ---------------------------------------------------------------- the bound is reached

  function Repeat(calls: seq<Call>, call: Call, m: nat): seq<Call> {
    if m == 0 then calls else Repeat(calls, call, m - 1) + [call]
  }

  /** The run is a legal one: time goes forward, the limit is `max`, and nothing happens after `t`. */
  ghost predicate Legal(calls: seq<Call>, max: int, t: int) {
    Monotone(calls) && forall c :: c in calls ==> c.limit == max && c.t <= t
  }

  lemma {:induction false} RepeatIsLegal(calls: seq<Call>, call: Call, m: nat)
    requires Legal(calls, call.limit, call.t)
    ensures Legal(Repeat(calls, call, m), call.limit, call.t)
  {
    if m > 0 {
      RepeatIsLegal(calls, call, m - 1);
    }
  }

  /** Allowed hits of the key in `[a, b]` over a run. */
  function Passed(window: int, calls: seq<Call>, key: string, a: int, b: int): nat {
    AllowedIn(calls, Answers(window, calls), key, a, b)
  }

  lemma PassedStep(window: int, calls: seq<Call>, call: Call, a: int, b: int)
    ensures Passed(window, calls + [call], call.key, a, b) ==
            Passed(window, calls, call.key, a, b) +
            if a <= call.t <= b && Hit(After(window, calls), window, call).1.allowed then 1 else 0
    ensures After(window, calls + [call]) == Hit(After(window, calls), window, call).0
  {
    var run := calls + [call];
    assert Init(run) == calls && Last(run) == call;
    assert Init(Answers(window, run)) == Answers(window, calls);
  }

  /** As long as the budget lasts, `m` more hits at one instant all pass. */
  lemma {:induction false} RepeatCounts(window: int, calls: seq<Call>, call: Call, m: nat, a: int, b: int)
    requires window > 0 && Current(After(window, calls), window, call.key, call.t).count + m <= call.limit
    ensures var run, first := Repeat(calls, call, m), Current(After(window, calls), window, call.key, call.t);
            && Current(After(window, run), window, call.key, call.t) == first.(count := first.count + m)
            && (m > 0 ==> call.key in After(window, run) && After(window, run)[call.key].resetAt == first.resetAt)
            && Passed(window, run, call.key, a, b) ==
               Passed(window, calls, call.key, a, b) + (if a <= call.t <= b then m else 0)
  {
    if m > 0 {
      RepeatCounts(window, calls, call, m - 1, a, b);
      PassedStep(window, Repeat(calls, call, m - 1), call, a, b);
    }
  }

  /** One hit early in a window, the rest of the budget `lead` later, then a full budget at every reset. */
  function Train(window: int, max: nat, lead: int, steps: nat): seq<Call>
    requires max > 0
  {
    if steps == 0 then Repeat([Call("k", 0, max)], Call("k", lead, max), max - 1)
    else Repeat(Train(window, max, lead, steps - 1), Call("k", steps * window, max), max)
  }

  lemma {:induction false} TrainIsLegal(window: int, max: nat, lead: int, steps: nat)
    requires max > 0 && 0 <= lead < window
    ensures Legal(Train(window, max, lead, steps), max, if steps == 0 then lead else steps * window)
  {
    if steps == 0 {
      RepeatIsLegal([Call("k", 0, max)], Call("k", lead, max), max - 1);
    } else {
      NextMultiple(window, steps - 1);
      TrainIsLegal(window, max, lead, steps - 1);
      MulMonotone(window, 0, steps - 1);
      RepeatIsLegal(Train(window, max, lead, steps - 1), Call("k", steps * window, max), max);
    }
  }

  lemma FirstHit(window: int, max: nat, lead: int, b: int)
    requires max > 0 && 0 <= lead < window && lead <= b
    ensures var first := [Call("k", 0, max)];
            && After(window, first) == map["k" := Bucket(1, window)]
            && Passed(window, first, "k", lead, b) == if lead == 0 then 1 else 0
  {
    var first := [Call("k", 0, max)];
    assert [] + first == first;
    assert After(window, []) == map[];
    PassedStep(window, [], first[0], lead, b);
  }

  lemma FirstCarCounts(window: int, max: nat, lead: int, b: int)
    requires max > 0 && 0 <= lead < window && lead <= b
    ensures var run := Train(window, max, lead, 0);
            && "k" in After(window, run) && After(window, run)["k"].resetAt == window
            && Passed(window, run, "k", lead, b) == max - (if lead == 0 then 0 else 1)
  {
    var first := [Call("k", 0, max)];
    FirstHit(window, max, lead, b);
    RepeatCounts(window, first, Call("k", lead, max), max - 1, lead, b);
    if max == 1 {
      assert Repeat(first, Call("k", lead, max), 0) == first;
    }
  }

  /** A full budget spent in one new window. */
  lemma CarCounts(window: int, max: nat, run: seq<Call>, t: int, a: int, b: int)
    requires window > 0 && max > 0 && a <= t <= b
    requires "k" in After(window, run) && After(window, run)["k"].resetAt <= t
    ensures var longer := Repeat(run, Call("k", t, max), max);
            && "k" in After(window, longer) && After(window, longer)["k"].resetAt == t + window
            && Passed(window, longer, "k", a, b) == Passed(window, run, "k", a, b) + max
  {
    RepeatCounts(window, run, Call("k", t, max), max, a, b);
  }

  lemma {:induction false} TrainCounts(window: int, max: nat, lead: int, steps: nat, b: int)
    requires max > 0 && 0 <= lead < window && steps * window <= b && lead <= b
    ensures var run := Train(window, max, lead, steps);
            && "k" in After(window, run) && After(window, run)["k"].resetAt == steps * window + window
            && Passed(window, run, "k", lead, b) == steps * max + max - (if lead == 0 then 0 else 1)
  {
    if steps == 0 {
      FirstCarCounts(window, max, lead, b);
    } else {
      NextMultiple(window, steps - 1);
      NextMultiple(max, steps - 1);
      MulMonotone(window, 0, steps - 1);
      TrainCounts(window, max, lead, steps - 1, b);
      CarCounts(window, max, Train(window, max, lead, steps - 1), steps * window, lead, b);
    }
  }

  /** When the train's budget starts to count, so that the span of `d` ends on its last car. */
  function Lead(window: int, r: nat): int {
    if r == 0 then 0 else window - r
  }

  lemma TrainReaches(window: int, max: nat, d: nat, q: nat, r: nat)
    requires r < window && max > 0 && q * window + r == d
    ensures var lead := Lead(window, r);
            var run := Train(window, max, lead, if r == 0 then q else q + 1);
            && Monotone(run) && FixedLimit(run, max)
            && Passed(window, run, "k", lead, lead + d) == if r == 0 then max * (q + 1) else max * (q + 1) + max - 1
  {
    NextMultiple(window, q);
    NextMultiple(max, q);
    var lead, steps := Lead(window, r), if r == 0 then q else q + 1;
    MulMonotone(window, 0, q);
    TrainIsLegal(window, max, lead, steps);
    TrainCounts(window, max, lead, steps, lead + d);
  }

  /** The run that spends the most in a span of `d`. */
  function WorstRun(window: int, max: nat, d: nat): seq<Call>
    requires window > 0 && max > 0
  {
    Train(window, max, Lead(window, d % window), if d % window == 0 then d / window else d / window + 1)
  }

  lemma WorstByParts(window: int, max: nat, d: nat, q: nat, r: nat)
    requires window > 0 && max > 0 && q == d / window && r == d % window
    ensures WorstRun(window, max, d) == Train(window, max, Lead(window, r), if r == 0 then q else q + 1)
    ensures Worst(window, max, d) == if r == 0 then max * (q + 1) else max * (q + 1) + max - 1
  {
  }

  /** `Worst` is exact: for every limit, window and span there is a run, with that limit throughout, that reaches it. */
  lemma WorstIsReached(window: int, max: nat, d: nat)
    requires window > 0 && max > 0
    ensures var run, lead := WorstRun(window, max, d), Lead(window, d % window);
            && Monotone(run) && FixedLimit(run, max)
            && Passed(window, run, "k", lead, lead + d) == Worst(window, max, d)
  {
    var q, r := Divide(d, window);
    WorstByParts(window, max, d, q, r);
    TrainReaches(window, max, d, q, r);
  }

  /** At most `max` hits of the key per window started in the span of `d` beginning at `a`. */
  predicate MaxPerStartedWindow(window: int, max: nat, calls: seq<Call>, key: string, a: int, d: nat)
    requires window > 0
  {
    Passed(window, calls, key, a, a + d) <= max * (d / window + 1)
  }

  lemma WorstPerStartedWindow(window: int, max: nat, d: nat)
    requires window > 0
    ensures Worst(window, max, d) <= max * (d / window + 1) <==> d % window == 0 || max <= 1
  {
    QuotientForm(d, window);
    MulMonotone(max, 0, d / window + 1);
  }

  /** `M * (floor(D / W) + 1)` bounds every run iff W divides D or M is at most 1. */
  lemma PerStartedWindowExactlyWhen(window: int, max: nat, d: nat)
    requires window > 0
    ensures (forall calls, key, a :: Monotone(calls) && LimitedBy(calls, key, max)
                                     ==> MaxPerStartedWindow(window, max, calls, key, a, d))
            <==> d % window == 0 || max <= 1
  {
    if d % window == 0 || max <= 1 {
      forall calls, key, a | Monotone(calls) && LimitedBy(calls, key, max)
        ensures MaxPerStartedWindow(window, max, calls, key, a, d)
      {
        SpanBoundNoSweep(window, max, calls, key, a, d);
        WorstPerStartedWindow(window, max, d);
      }
    } else {
      WorstIsReached(window, max, d);
      WorstPerStartedWindow(window, max, d);
      assert !MaxPerStartedWindow(window, max, WorstRun(window, max, d), "k", Lead(window, d % window), d);
    }
  }

  // ---------------------------------------------------------------- after a denial

  /** Until the reset, later hits (denied as well) leave the end of the window where it is. */
  lemma {:induction false} ExhaustedStays(window: int, before: seq<Call>, more: seq<Call>, key: string, max: int)
    requires key in After(window, before) && After(window, before)[key].count > max
    requires forall c :: c in more && c.key == key ==> c.t < After(window, before)[key].resetAt
    ensures key in After(window, before + more)
    ensures After(window, before + more)[key].resetAt == After(window, before)[key].resetAt
    ensures After(window, before + more)[key].count > max
  {
    if more == [] {
      assert before + more == before;
    } else {
      assert Init(before + more) == before + Init(more) && Last(before + more) == Last(more);
      assert Last(more) in more;
      ExhaustedStays(window, before, Init(more), key, max);
    }
  }

  /**
   * A denial at `calls`' end names the number of seconds `r` after which the key is served again: whatever
   * other hits came before the reset, the next hit is allowed once the reset has come and, the limit not having
   * been raised, not before. The reset comes within `r` seconds of the denial and, when `r > 1`, not one earlier.
   */
  lemma RetryAfterIsExact(window: int, calls: seq<Call>, more: seq<Call>, next: Call)
    requires calls != [] && !Last(Answers(window, calls)).allowed
    requires next.key == Last(calls).key && next.limit >= 1
    requires forall c :: c in more && c.key == next.key ==> c.t < After(window, calls)[next.key].resetAt
    ensures var denied, r := Last(calls), Last(Answers(window, calls)).retryAfterSeconds;
            var run := calls + more + [next];
            var resetAt := After(window, calls)[next.key].resetAt;
            && (resetAt <= next.t ==> Last(Answers(window, run)).allowed)
            && (next.limit <= denied.limit && next.t < resetAt ==> !Last(Answers(window, run)).allowed)
            && resetAt <= denied.t + r * MILLIS
            && (r > 1 ==> denied.t + (r - 1) * MILLIS < resetAt)
  {
    var run := calls + more + [next];
    ExhaustedStays(window, calls, more, next.key, Last(calls).limit);
    assert Init(run) == calls + more && Last(run) == next;
  }
}
