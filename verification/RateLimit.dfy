/**
  The fixed-window rate limiter: a counter per key and window start, where the start is the current second or minute
  truncated to a multiple of the window.
 */
module RateLimit {
  import opened Common

  // Python's `//` on non-negative numbers, and the clock fields of a UTC instant.

  function SecondOf(now: Time): int {
    (now / SECOND) % 60
  }

  function MinuteOf(now: Time): int {
    (now / MINUTE) % 60
  }

  /** The start of the window `now` falls in, for windows of `window` seconds. */
  function WindowStart(now: Time, window: nat): Time
    requires window >= 1
  {
    if window < 60 then
      // now.replace(second=second // window * window, microsecond=0)
      now - now % SECOND - (SecondOf(now) % window) * SECOND
    else
      // now.replace(minute=minute // m * m, second=0, microsecond=0), with m = window // 60
      now - now % MINUTE - (MinuteOf(now) % (window / 60)) * MINUTE
  }

  /** The window divides the minute, or is a whole number of minutes that divides the hour. */
  predicate Aligned(window: nat) {
    window >= 1 && ((window < 60 && 60 % window == 0) || (window >= 60 && window % 60 == 0 && 3600 % window == 0))
  }

  // ------------------------------------------------------------------------------------------
  // Windows
  // ------------------------------------------------------------------------------------------

  /** Whatever the window, an instant lies less than one window after its start. */
  lemma StartIsRecent(now: Time, window: nat)
    requires window >= 1
    ensures WindowStart(now, window) <= now < WindowStart(now, window) + window * SECOND
  {
    if window < 60 {
      assert 0 <= now % SECOND < SECOND;
      assert 0 <= SecondOf(now) % window < window;
    } else {
      assert 0 <= now % MINUTE < MINUTE;
      assert 0 <= MinuteOf(now) % (window / 60) < window / 60;
      assert (window / 60) * 60 <= window;
    }
  }

  lemma ModOfMod(y: int, n: int, w: int)
    requires n > 0 && w > 0 && n % w == 0
    ensures (y % n) % w == y % w
  {
    var k, q := n / w, y / n;
    assert y == q * n + y % n;
    assert n == k * w;
    assert q * n == (q * k) * w by {
      assert q * (k * w) == (q * k) * w;
    }
    AddMultiple(y % n, q * k, w);
  }

  lemma AddMultiple(x: int, k: int, w: int)
    requires w > 0
    ensures (x + k * w) % w == x % w
  {
    var a, b := x / w, x % w;
    assert x + k * w == (a + k) * w + b by {
      assert (a + k) * w == a * w + k * w;
    }
    QuotientIsUnique(x + k * w, w, a + k, b);
  }

  lemma MultipleIsLarge(k: int, w: int)
    requires k >= 1 && w > 0
    ensures k * w >= w
  {
    assert (k - 1) * w >= 0;
  }

  lemma ProductsDiffer(q: int, p: int, w: int)
    ensures (q - p) * w == q * w - p * w
  {
  }

  lemma QuotientIsUnique(x: int, w: int, q: int, r: int)
    requires w > 0 && x == q * w + r && 0 <= r < w
    ensures x / w == q && x % w == r
  {
    var p, s := x / w, x % w;
    assert x == p * w + s;
    if q > p {
      ProductsDiffer(q, p, w);
      MultipleIsLarge(q - p, w);
    } else if p > q {
      ProductsDiffer(p, q, w);
      MultipleIsLarge(p - q, w);
    }
  }

  lemma Regroup(q: int, r: int, a: int, b: int)
    ensures (q * b + r) * a == q * (a * b) + a * r
  {
    assert (q * b + r) * a == (q * b) * a + r * a;
    assert (q * b) * a == q * (a * b);
  }

  lemma ProductIsNatural(a: int, k: int)
    requires a >= 0 && k >= 0
    ensures a * k >= 0
  {
  }

  lemma Distribute(a: int, r: int, k: int)
    ensures a * (r + 1 + k) == a * r + a + a * k
  {
  }

  lemma RemainderBound(s: int, r: int, a: int, b: int)
    requires 0 <= s < a && 0 <= r < b
    ensures 0 <= s + a * r < a * b
  {
    var k := b - 1 - r;
    Distribute(a, r, k);
    ProductIsNatural(a, r);
    ProductIsNatural(a, k);
  }

  /** Truncating to a unit and then to `b` units is truncating to `a * b`. */
  lemma ModOfProduct(x: int, a: int, b: int)
    requires a > 0 && b > 0
    ensures a * b > 0 && x % (a * b) == x % a + a * ((x / a) % b)
  {
    var y := x / a;
    var q, r := y / b, y % b;
    Regroup(q, r, a, b);
    assert x == q * (a * b) + (x % a + a * r);
    RemainderBound(x % a, r, a, b);
    QuotientIsUnique(x, a * b, q, x % a + a * r);
  }

  /** For aligned windows, the start is the last multiple of the window: the windows tile the time line. */
  lemma AlignedStart(now: Time, window: nat)
    requires Aligned(window)
    ensures window * SECOND > 0 && WindowStart(now, window) == now - now % (window * SECOND)
  {
    if window < 60 {
      ModOfMod(now / SECOND, 60, window);
      ModOfProduct(now, SECOND, window);
      assert SECOND * window == window * SECOND;
    } else {
      var m := window / 60;
      assert window == m * 60;
      HourDivides(window);
      ModOfMod(now / MINUTE, 60, m);
      ModOfProduct(now, MINUTE, m);
      assert MINUTE * m == window * SECOND;
    }
  }

  lemma HourDivides(window: nat)
    requires window >= 60 && window % 60 == 0 && 3600 % window == 0
    ensures 60 % (window / 60) == 0
  {
    var m, k := window / 60, 3600 / window;
    assert window == 60 * m && 3600 == k * window;
    assert k * (60 * m) == (k * m) * 60;
    assert k * m == 60;
    QuotientIsUnique(60, m, k, 0);
  }

  /** Windows start at the multiples of their length exactly if it divides the minute, or the hour in whole minutes. */
  lemma {:induction false} WindowsTileIff(window: nat)
    requires window >= 1
    ensures window * SECOND > 0
    ensures (forall now: Time :: WindowStart(now, window) == now - now % (window * SECOND)) <==> Aligned(window)
  {
    assert window * SECOND >= SECOND;
    if Aligned(window) {
      forall now: Time ensures WindowStart(now, window) == now - now % (window * SECOND) {
        AlignedStart(now, window);
      }
    } else {
      var seconds := if window < 60 then 60 else if window % 60 != 0 && window < 3600 then window / 60 * 60 else 3600;
      WholeSeconds(seconds, window);
      OddStart(window, seconds);
      assert WindowStart(seconds * SECOND, window) != seconds * SECOND - (seconds * SECOND) % (window * SECOND);
    }
  }

  lemma WholeSeconds(seconds: nat, window: nat)
    requires window >= 1
    ensures (seconds * SECOND) % (window * SECOND) == (seconds % window) * SECOND
  {
    var q, r := seconds / window, seconds % window;
    assert seconds * SECOND == q * (window * SECOND) + r * SECOND by {
      assert (q * window + r) * SECOND == q * (window * SECOND) + r * SECOND;
    }
    assert r * SECOND < window * SECOND;
    QuotientIsUnique(seconds * SECOND, window * SECOND, q, r * SECOND);
  }

  /** An unaligned window has a start of its own that is not a multiple of the window. */
  lemma OddStart(window: nat, seconds: nat)
    requires window >= 1 && !Aligned(window)
    requires seconds == if window < 60 then 60 else if window % 60 != 0 && window < 3600 then window / 60 * 60 else 3600
    ensures WindowStart(seconds * SECOND, window) == seconds * SECOND && seconds % window != 0
  {
    var now := seconds * SECOND;
    if window < 60 {
      assert SecondOf(now) == 0 && now % SECOND == 0;
      assert 0 % window == 0;
    } else {
      var m := window / 60;
      assert now % MINUTE == 0;
      if window % 60 != 0 && window < 3600 {
        assert MinuteOf(now) == m;
        QuotientIsUnique(m, m, 1, 0);
        QuotientIsUnique(seconds, window, 0, seconds);
      } else {
        assert MinuteOf(now) == 0;
        assert 0 % m == 0;
        if window > 3600 {
          QuotientIsUnique(3600, window, 0, 3600);
        }
      }
    }
  }

  /** Every window the limiters are configured with is aligned. */
  const CONFIGURED_WINDOWS: set<nat> := {60, 300, 900, 3600}

  lemma ConfiguredWindowsAreAligned()
    ensures forall w :: w in CONFIGURED_WINDOWS ==> Aligned(w)
  {
  }

  /** In an interval of one window's length, an instant lies in the window of the interval's start or in the next. */
  lemma IntervalMeetsTwoWindows(a: Time, now: Time, window: nat)
    requires Aligned(window) && a <= now < a + window * SECOND
    ensures || WindowStart(now, window) == WindowStart(a, window)
            || WindowStart(now, window) == WindowStart(a, window) + window * SECOND
  {
    AlignedStart(a, window);
    AlignedStart(now, window);
    NextMultiple(a, now, window * SECOND);
  }

  lemma NextMultiple(a: int, x: int, w: int)
    requires w > 0 && a <= x < a + w
    ensures x - x % w == a - a % w || x - x % w == a - a % w + w
  {
    var q := a / w;
    assert a == q * w + a % w;
    if x < q * w + w {
      QuotientIsUnique(x, w, q, x - q * w);
    } else {
      assert (q + 1) * w == q * w + w;
      QuotientIsUnique(x, w, q + 1, x - (q + 1) * w);
    }
  }

  // ------------------------------------------------------------------------------------------
  // Retry-After
  // ------------------------------------------------------------------------------------------

  /** `max(int((window_start + window - now).total_seconds()), 1)`. */
  function RetryAfter(now: Time, window: nat): int
    requires window >= 1
  {
    var seconds := (WindowStart(now, window) + window * SECOND - now) / SECOND;
    if seconds > 1 then seconds else 1
  }

  /**
    The header lies between 1 and the window. For aligned windows, waiting that long reaches a new window exactly when
    the refused request came on a whole second or in the last second of its window: truncation makes it a second short.
   */
  lemma {:induction false} RetryAfterSufficesIff(now: Time, window: nat)
    requires window >= 1
    ensures 1 <= RetryAfter(now, window) <= window
    ensures Aligned(window) ==>
              (WindowStart(now + RetryAfter(now, window) * SECOND, window) != WindowStart(now, window) <==>
               now % SECOND == 0 || WindowStart(now, window) + window * SECOND - now < SECOND)
  {
    StartIsRecent(now, window);
    var left, r := WindowStart(now, window) + window * SECOND - now, RetryAfter(now, window);
    assert 0 < left <= window * SECOND;
    assert left / SECOND <= window;
    if Aligned(window) {
      var later := now + r * SECOND;
      StartIsRecent(later, window);
      AlignedStart(now, window);
      if later < now + left {
        IntervalMeetsTwoWindows(WindowStart(now, window), later, window);
        StartIsItsOwn(now, window);
      }
      WholeStart(now, window);
    }
  }

  /** When the window of `now` ends. */
  function WindowEnd(now: Time, window: nat): Time
    requires window >= 1
  {
    WindowStart(now, window) + window * SECOND
  }

  /** The seconds to the end of the window, rounded down, but at least one. */
  predicate TightRetry(now: Time, window: nat, retryAfter: int)
    requires window >= 1
  {
    var end := WindowEnd(now, window);
    if end - now >= 1_000_000 then
      now + retryAfter * 1_000_000 <= end < now + (retryAfter + 1) * 1_000_000
    else
      retryAfter == 1
  }

  /** A client that waits as long as it was told misses the new window by less than a second, or is in it. */
  lemma {:induction false} RetryAfterIsTight(now: Time, window: nat)
    requires window >= 1
    ensures TightRetry(now, window, RetryAfter(now, window))
    ensures WindowEnd(now, window) < now + (RetryAfter(now, window) + 1) * 1_000_000
  {
    var left := WindowEnd(now, window) - now;
    assert left == (left / SECOND) * SECOND + left % SECOND;
  }

  lemma StartIsItsOwn(now: Time, window: nat)
    requires Aligned(window)
    ensures WindowStart(WindowStart(now, window), window) == WindowStart(now, window)
  {
    AlignedStart(now, window);
    var w, start := window * SECOND, WindowStart(now, window);
    AlignedStart(start, window);
    assert start == (now / w) * w;
    QuotientIsUnique(start, w, now / w, 0);
  }

  /** A window starts on a whole second, so what is left of it has the fraction that `now` lacks. */
  lemma WholeStart(now: Time, window: nat)
    requires window >= 1
    ensures (WindowStart(now, window) + window * SECOND - now) % SECOND == 0 <==> now % SECOND == 0
  {
    var k := if window < 60 then now / SECOND - SecondOf(now) % window
             else (now / MINUTE - MinuteOf(now) % (window / 60)) * 60;
    assert WindowStart(now, window) == k * SECOND;
  }

  // ------------------------------------------------------------------------------------------
  // Counting
  // ------------------------------------------------------------------------------------------

  type Key = string

  datatype Limit = Limit(limit: nat, window: nat)

  /** The fixed limit behind each key (a key begins with its endpoint's name). */
  type Policy = Key -> Limit

  /** One request: its key, its arrival, and whether the handler behind the limiter commits its transaction. */
  datatype Request = Request(key: Key, now: Time, commits: bool)

  /** `rate_limit_counters`, unique on (key, window_start). */
  type Counters = map<(Key, Time), nat>

  datatype Verdict = Admitted | TooManyRequests(retryAfter: int)

  ghost predicate Sane(policy: Policy) {
    forall key :: policy(key).window >= 1
  }

  function Slot(policy: Policy, q: Request): (Key, Time)
    requires policy(q.key).window >= 1
  {
    (q.key, WindowStart(q.now, policy(q.key).window))
  }

  function CountAt(counters: Counters, slot: (Key, Time)): nat {
    if slot in counters then counters[slot] else 0
  }

  predicate Admits(policy: Policy, counters: Counters, q: Request)
    requires policy(q.key).window >= 1
  {
    CountAt(counters, Slot(policy, q)) + 1 <= policy(q.key).limit
  }

  /** A refused request, like one whose handler raises, rolls its increment back. */
  function After(policy: Policy, counters: Counters, q: Request): Counters
    requires policy(q.key).window >= 1
  {
    if Admits(policy, counters, q) && q.commits
    then counters[Slot(policy, q) := CountAt(counters, Slot(policy, q)) + 1]
    else counters
  }

  ghost function Run(policy: Policy, requests: seq<Request>): Counters
    requires Sane(policy)
  {
    if requests == [] then map[] else After(policy, Run(policy, requests[..|requests| - 1]), requests[|requests| - 1])
  }

  /** The last request of the run is admitted and commits. */
  ghost predicate Commits(policy: Policy, requests: seq<Request>)
    requires Sane(policy) && requests != []
  {
    var n := |requests| - 1;
    requests[n].commits && Admits(policy, Run(policy, requests[..n]), requests[n])
  }

  /** How many committed admissions of the key start in the window beginning at `start`. */
  ghost function InWindow(policy: Policy, requests: seq<Request>, key: Key, start: Time): nat
    requires Sane(policy)
  {
    if requests == [] then 0
    else
      var q := requests[|requests| - 1];
      InWindow(policy, requests[..|requests| - 1], key, start)
      + if Commits(policy, requests) && Slot(policy, q) == (key, start) then 1 else 0
  }

  /** How many committed admissions of the key arrive in `[a, b)`. */
  ghost function InInterval(policy: Policy, requests: seq<Request>, key: Key, a: Time, b: Time): nat
    requires Sane(policy)
  {
    if requests == [] then 0
    else
      var q := requests[|requests| - 1];
      InInterval(policy, requests[..|requests| - 1], key, a, b)
      + if Commits(policy, requests) && q.key == key && a <= q.now < b then 1 else 0
  }

  /**
    In every run, in whatever order requests arrive, a counter counts its window's committed admissions and never
    passes the limit.
   */
  lemma {:induction false} WindowsHoldTheLimit(policy: Policy, requests: seq<Request>, key: Key, start: Time)
    requires Sane(policy)
    ensures CountAt(Run(policy, requests), (key, start)) == InWindow(policy, requests, key, start)
    ensures InWindow(policy, requests, key, start) <= policy(key).limit
  {
    if requests != [] {
      WindowsHoldTheLimit(policy, requests[..|requests| - 1], key, start);
    }
  }

  /**
    Over every run, any interval of one window's length holds at most twice the limit of committed admissions of one
    key, when its window is aligned.
   */
  lemma {:induction false} IntervalsHoldTwiceTheLimit(policy: Policy, requests: seq<Request>, key: Key, a: Time)
    requires Sane(policy) && Aligned(policy(key).window)
    ensures InInterval(policy, requests, key, a, a + policy(key).window * SECOND) <= 2 * policy(key).limit
  {
    var w := policy(key).window;
    var start := WindowStart(a, w);
    IntervalIsInTwoWindows(policy, requests, key, a);
    WindowsHoldTheLimit(policy, requests, key, start);
    WindowsHoldTheLimit(policy, requests, key, start + w * SECOND);
  }

  lemma {:induction false} IntervalIsInTwoWindows(policy: Policy, requests: seq<Request>, key: Key, a: Time)
    requires Sane(policy) && Aligned(policy(key).window)
    ensures var w := policy(key).window;
            InInterval(policy, requests, key, a, a + w * SECOND) <=
            InWindow(policy, requests, key, WindowStart(a, w))
            + InWindow(policy, requests, key, WindowStart(a, w) + w * SECOND)
  {
    if requests != [] {
      var q := requests[|requests| - 1];
      IntervalIsInTwoWindows(policy, requests[..|requests| - 1], key, a);
      if q.key == key && a <= q.now < a + policy(key).window * SECOND {
        IntervalMeetsTwoWindows(a, q.now, policy(key).window);
      }
    }
  }

  /** The request, `n` times. */
  function Copies(q: Request, n: nat): seq<Request> {
    seq(n, _ => q)
  }

  /** As long as the limit allows, a burst of committing requests is admitted, each counted in its own window only. */
  lemma {:induction false} CommittingBurst(policy: Policy, before: seq<Request>, q: Request, n: nat, a: Time, b: Time)
    requires Sane(policy) && q.commits
    requires CountAt(Run(policy, before), Slot(policy, q)) + n <= policy(q.key).limit
    ensures var after := Run(policy, before + Copies(q, n));
            && CountAt(after, Slot(policy, q)) == CountAt(Run(policy, before), Slot(policy, q)) + n
            && (forall slot :: slot != Slot(policy, q) ==> CountAt(after, slot) == CountAt(Run(policy, before), slot))
    ensures InInterval(policy, before + Copies(q, n), q.key, a, b) ==
            InInterval(policy, before, q.key, a, b) + if a <= q.now < b then n else 0
    decreases n
  {
    if n == 0 {
      assert before + Copies(q, 0) == before;
    } else {
      OneMore(policy, before, q, a, b);
      CommittingBurst(policy, before + [q], q, n - 1, a, b);
      assert before + [q] + Copies(q, n - 1) == before + Copies(q, n);
    }
  }

  /** A committing request below the limit is counted once, in its own window and in each interval that holds it. */
  lemma {:induction false} OneMore(policy: Policy, before: seq<Request>, q: Request, a: Time, b: Time)
    requires Sane(policy) && q.commits && CountAt(Run(policy, before), Slot(policy, q)) < policy(q.key).limit
    ensures var after := Run(policy, before + [q]);
            && CountAt(after, Slot(policy, q)) == CountAt(Run(policy, before), Slot(policy, q)) + 1
            && (forall slot :: slot != Slot(policy, q) ==> CountAt(after, slot) == CountAt(Run(policy, before), slot))
    ensures InInterval(policy, before + [q], q.key, a, b) ==
            InInterval(policy, before, q.key, a, b) + if a <= q.now < b then 1 else 0
  {
    assert (before + [q])[..|before|] == before;
  }

  /** Twice the limit is reached, for every limit and every aligned window: one burst on either side of any edge. */
  lemma {:induction false} TwiceTheLimitIsReached(policy: Policy, key: Key, edge: Time)
    requires Sane(policy) && Aligned(policy(key).window) && WindowStart(edge, policy(key).window) == edge
    ensures var limit, window := policy(key).limit, policy(key).window;
            var requests := Copies(Request(key, edge - 1, true), limit) + Copies(Request(key, edge, true), limit);
            InInterval(policy, requests, key, edge - 1, edge - 1 + window * SECOND) == 2 * limit
  {
    var limit, window := policy(key).limit, policy(key).window;
    var first, second := Request(key, edge - 1, true), Request(key, edge, true);
    var a, b := edge - 1, edge - 1 + window * SECOND;
    assert b > edge;
    StartIsRecent(edge - 1, window);
    assert Slot(policy, first) != Slot(policy, second);
    assert Run(policy, []) == map[] && InInterval(policy, [], key, a, b) == 0;
    CommittingBurst(policy, [], first, limit, a, b);
    assert [] + Copies(first, limit) == Copies(first, limit);
    CommittingBurst(policy, Copies(first, limit), second, limit, a, b);
  }

  /**
    A client can wait as long as it was told and be refused again, whatever the limit, in every aligned window of three
    seconds or more.
   */
  lemma {:induction false} RetryAfterCanFallShort(policy: Policy, key: Key)
    requires Sane(policy) && Aligned(policy(key).window) && policy(key).window >= 3
    ensures var early := Copies(Request(key, SECOND / 2, true), policy(key).limit);
            var refused := Request(key, 3 * SECOND / 2, true);
            var retried := Request(key, refused.now + RetryAfter(refused.now, policy(key).window) * SECOND, true);
            && !Admits(policy, Run(policy, early), refused)
            && !Admits(policy, Run(policy, early + [refused]), retried)
  {
    var limit, window := policy(key).limit, policy(key).window;
    var q, refused := Request(key, SECOND / 2, true), Request(key, 3 * SECOND / 2, true);
    FirstWindow(q.now, window);
    FirstWindow(refused.now, window);
    assert RetryAfter(refused.now, window) == window - 2;
    var retried := Request(key, refused.now + (window - 2) * SECOND, true);
    FirstWindow(retried.now, window);
    assert Run(policy, []) == map[];
    CommittingBurst(policy, [], q, limit, 0, 0);
    assert [] + Copies(q, limit) == Copies(q, limit);
    assert (Copies(q, limit) + [refused])[..limit] == Copies(q, limit);
  }

  lemma FirstWindow(now: Time, window: nat)
    requires Aligned(window) && 0 <= now < window * SECOND
    ensures WindowStart(now, window) == 0
  {
    AlignedStart(now, window);
    QuotientIsUnique(now, window * SECOND, 0, now);
  }

  // ------------------------------------------------------------------------------------------
  // Requests that fail
  // ------------------------------------------------------------------------------------------

  /** The last request of the run is admitted, whether or not its handler then raises. */
  ghost predicate Admitted(policy: Policy, requests: seq<Request>)
    requires Sane(policy) && requests != []
  {
    Admits(policy, Run(policy, requests[..|requests| - 1]), requests[|requests| - 1])
  }

  /** How many requests of the key are admitted in the window beginning at `start`. */
  ghost function AdmittedInWindow(policy: Policy, requests: seq<Request>, key: Key, start: Time): nat
    requires Sane(policy)
  {
    if requests == [] then 0
    else
      AdmittedInWindow(policy, requests[..|requests| - 1], key, start)
      + if Admitted(policy, requests) && Slot(policy, requests[|requests| - 1]) == (key, start) then 1 else 0
  }

  /** Every admitted request of the window commits. */
  ghost predicate AllCommit(policy: Policy, requests: seq<Request>, key: Key, start: Time)
    requires Sane(policy)
  {
    requests == [] ||
    (AllCommit(policy, requests[..|requests| - 1], key, start)
     && (Admitted(policy, requests) && Slot(policy, requests[|requests| - 1]) == (key, start) ==>
           requests[|requests| - 1].commits))
  }

  /**
    The counter counts exactly the admitted requests of its window if and only if all of them commit; the window then
    admits no more than the limit.
   */
  lemma {:induction false} AdmissionsAreCountedIff(policy: Policy, requests: seq<Request>, key: Key, start: Time)
    requires Sane(policy)
    ensures InWindow(policy, requests, key, start) <= AdmittedInWindow(policy, requests, key, start)
    ensures AdmittedInWindow(policy, requests, key, start) == CountAt(Run(policy, requests), (key, start)) <==>
              AllCommit(policy, requests, key, start)
    ensures AllCommit(policy, requests, key, start) ==>
              AdmittedInWindow(policy, requests, key, start) <= policy(key).limit
  {
    WindowsHoldTheLimit(policy, requests, key, start);
    if requests != [] {
      AdmissionsAreCountedIff(policy, requests[..|requests| - 1], key, start);
      WindowsHoldTheLimit(policy, requests[..|requests| - 1], key, start);
    }
  }

  /**
    Failing requests escape the limiter: after any run, any number of them in one window are all admitted if the
    counter is still below the limit, and none is otherwise; the counters stay as they were.
   */
  lemma {:induction false} FailuresEscapeIff(policy: Policy, before: seq<Request>, q: Request, n: nat)
    requires Sane(policy) && !q.commits
    ensures Run(policy, before + Copies(q, n)) == Run(policy, before)
    ensures var start := WindowStart(q.now, policy(q.key).window);
            AdmittedInWindow(policy, before + Copies(q, n), q.key, start) ==
            AdmittedInWindow(policy, before, q.key, start)
            + if CountAt(Run(policy, before), Slot(policy, q)) < policy(q.key).limit then n else 0
  {
    if n == 0 {
      assert before + Copies(q, 0) == before;
    } else {
      FailuresEscapeIff(policy, before, q, n - 1);
      var shorter := before + Copies(q, n - 1);
      assert before + Copies(q, n) == shorter + [q];
      assert (shorter + [q])[..|shorter|] == shorter;
    }
  }

  class RateLimiter {
    var counters: Counters

    constructor ()
      ensures counters == map[]
    {
      counters := map[];
    }

    /** A request behind the limiter: increment, compare, and commit or roll back. */
    method Handle(policy: Policy, q: Request) returns (v: Verdict)
      requires policy(q.key).window >= 1
      modifies this
      ensures counters == After(policy, old(counters), q)
      ensures v == if Admits(policy, old(counters), q) then Admitted
                   else TooManyRequests(RetryAfter(q.now, policy(q.key).window))
      ensures v.TooManyRequests? ==> TightRetry(q.now, policy(q.key).window, v.retryAfter)
    {
      RetryAfterIsTight(q.now, policy(q.key).window);
      var saved := counters;
      var slot := (q.key, WindowStart(q.now, policy(q.key).window));
      var count := 1;
      if slot in counters {
        count := counters[slot] + 1;
      }
      counters := counters[slot := count];
      if count > policy(q.key).limit {
        counters := saved;
        return TooManyRequests(RetryAfter(q.now, policy(q.key).window));
      }
      if !q.commits {
        counters := saved;
      }
      v := Admitted;
    }
  }
}
