/** Fixed-window rate limiting of administrators over an expiring shared counter. */
module FixedWindow {
  import opened Arithmetic
  import opened Outcomes
  import opened Text

  const DEFAULT_LIMIT: nat := 30
  const WINDOW_SECONDS: nat := 60

  /** A configured value that is not positive falls back to the default. */
  function Configured(value: int, default: nat): nat {
    if value > 0 then value else default
  }

  /** A counter and the millisecond from which on it may be gone. */
  datatype Entry = Entry(count: nat, expiresAt: nat)

  type Counters = map<string, Entry>

  /** A request: when the filter read the clock, and when its increment reached the shared counter. */
  datatype Request = Request(user: nat, nowMs: nat, countedMs: nat)

  /** The second at which the current aligned window began. */
  function WindowStart(nowMs: nat, windowSeconds: nat): nat
    requires windowSeconds > 0
  {
    nowMs / 1000 / windowSeconds * windowSeconds
  }

  function WindowReset(window: nat, windowSeconds: nat): nat {
    window + windowSeconds
  }

  function Key(user: nat, window: nat): string {
    "rate:admin:" + Decimal(user) + ":" + Decimal(window)
  }

  /** The counter script: increment, and give a new counter its time to live; one atomic step. */
  function Incremented(counters: Counters, key: string, ttlSeconds: nat, nowMs: nat): (Counters, nat) {
    if key in counters && nowMs < counters[key].expiresAt then
      (counters[key := counters[key].(count := counters[key].count + 1)], counters[key].count + 1)
    else
      (counters[key := Entry(1, nowMs + ttlSeconds * 1000)], 1)
  }

  function Filtered(counters: Counters, windowSeconds: nat, request: Request): (Counters, nat)
    requires windowSeconds > 0
  {
    var window := WindowStart(request.nowMs, windowSeconds);
    Incremented(counters, Key(request.user, window), windowSeconds, request.countedMs)
  }

  /** The answer to a request: passed on, or rejected until `reset` with a retry delay. */
  datatype Verdict = Admitted | Rejected(limit: nat, reset: nat, retryAfter: nat)

  /** `max(1, reset - now)` in whole seconds, by a second reading of the clock. */
  function RetryAfter(reset: nat, laterMs: nat): nat {
    var left := reset - laterMs / 1000;
    if left > 1 then left else 1
  }

  class RedisCounter {
    var counters: Counters

    method IncrWithExpire(key: string, ttlSeconds: nat, nowMs: nat) returns (count: nat)
      modifies this
      ensures (counters, count) == Incremented(old(counters), key, ttlSeconds, nowMs)
    {
      if key in counters && nowMs < counters[key].expiresAt {
        count := counters[key].count + 1;
        counters := counters[key := counters[key].(count := count)];
      } else {
        count := 1;
        counters := counters[key := Entry(1, nowMs + ttlSeconds * 1000)];
      }
    }

    /**
     * `doFilter` for a request under `/api/admin/` that carries a user id; `laterMs` is the clock as
     * a rejection reads it again.
     */
    method DoFilter(request: Request, laterMs: nat, configuredWindow: int, configuredLimit: int)
      returns (verdict: Verdict)
      modifies this
      ensures var windowSeconds := Configured(configuredWindow, WINDOW_SECONDS);
        var limit := Configured(configuredLimit, DEFAULT_LIMIT);
        var reset := WindowReset(WindowStart(request.nowMs, windowSeconds), windowSeconds);
        var (after, count) := Filtered(old(counters), windowSeconds, request);
        && counters == after
        && verdict == if count <= limit then Admitted else Rejected(limit, reset, RetryAfter(reset, laterMs))
    {
      var windowSeconds := Configured(configuredWindow, WINDOW_SECONDS);
      var window := WindowStart(request.nowMs, windowSeconds);
      var key := Key(request.user, window);
      var limit := Configured(configuredLimit, DEFAULT_LIMIT);
      var count := IncrWithExpire(key, windowSeconds, request.countedMs);
      if count > limit {
        var reset := WindowReset(window, windowSeconds);
        return Rejected(limit, reset, RetryAfter(reset, laterMs));
      }
      return Admitted;
    }
  }

  lemma WindowHolds(nowMs: nat, windowSeconds: nat)
    requires windowSeconds > 0
    ensures var window := WindowStart(nowMs, windowSeconds);
      && window <= nowMs / 1000 < window + windowSeconds
      && window * 1000 <= nowMs < (window + windowSeconds) * 1000
  {
    var seconds := nowMs / 1000;
    assert seconds == seconds / windowSeconds * windowSeconds + seconds % windowSeconds;
  }

  lemma WindowIs(nowMs: nat, windowSeconds: nat, index: nat)
    requires windowSeconds > 0
    requires index * windowSeconds <= nowMs / 1000 < index * windowSeconds + windowSeconds
    ensures WindowStart(nowMs, windowSeconds) == index * windowSeconds
  {
    QuotientUnique(nowMs / 1000, windowSeconds, index);
  }

  lemma NextWindow(index: nat, windowSeconds: nat)
    ensures (index + 1) * windowSeconds == index * windowSeconds + windowSeconds
  {
  }

  lemma WindowsOrdered(nowMs: nat, laterMs: nat, windowSeconds: nat)
    requires windowSeconds > 0 && nowMs <= laterMs
    ensures WindowStart(nowMs, windowSeconds) <= WindowStart(laterMs, windowSeconds)
  {
    var now, later := nowMs / 1000, laterMs / 1000;
    QuotientOrder(now, later, windowSeconds);
    MulOrder(now / windowSeconds, later / windowSeconds, windowSeconds);
  }

  /**
   * Waiting as long as a rejection says leads into the next window at least, and exactly there when
   * the rejection is written in the window that the request was counted in.
   */
  lemma RetryReachesNextWindow(nowMs: nat, laterMs: nat, windowSeconds: nat)
    requires windowSeconds > 0 && nowMs <= laterMs
    ensures var window := WindowStart(nowMs, windowSeconds);
      var retryAfter := RetryAfter(WindowReset(window, windowSeconds), laterMs);
      var retried := WindowStart((laterMs / 1000 + retryAfter) * 1000, windowSeconds);
      && 1 <= retryAfter <= windowSeconds
      && retried >= window + windowSeconds
      && (WindowStart(laterMs, windowSeconds) == window ==> retried == window + windowSeconds)
  {
    var window := WindowStart(nowMs, windowSeconds);
    WindowHolds(nowMs, windowSeconds);
    WindowHolds(laterMs, windowSeconds);
    var index := nowMs / 1000 / windowSeconds;
    NextWindow(index, windowSeconds);
    var retryMs := (laterMs / 1000 + RetryAfter(WindowReset(window, windowSeconds), laterMs)) * 1000;
    WindowIs((window + windowSeconds) * 1000, windowSeconds, index + 1);
    WindowsOrdered((window + windowSeconds) * 1000, retryMs, windowSeconds);
  }

  lemma DigitRunsAgree(a: string, b: string, x: string, y: string)
    requires AllDigits(a) && AllDigits(b) && a + ":" + x == b + ":" + y
    ensures a == b && x == y
  {
    var text := a + ":" + x;
    assert text[|a|] == ':' && text[|b|] == ':';
    assert forall k :: 0 <= k < |a| ==> IsDigit(a[k]) && text[k] == a[k];
    assert forall k :: 0 <= k < |b| ==> IsDigit(b[k]) && text[k] == b[k];
    assert |a| == |b|;
    assert a == text[..|a|] && b == text[..|b|];
    assert x == text[|a| + 1..] && y == text[|b| + 1..];
  }

  /** Distinct users or windows never share a counter. */
  lemma KeysAreDistinct(user: nat, window: nat, user': nat, window': nat)
    requires Key(user, window) == Key(user', window')
    ensures user == user' && window == window'
  {
    DecimalDenotes(user);
    DecimalDenotes(user');
    var prefix := "rate:admin:";
    assert Key(user, window)[|prefix|..] == Decimal(user) + ":" + Decimal(window);
    assert Key(user', window')[|prefix|..] == Decimal(user') + ":" + Decimal(window');
    DigitRunsAgree(Decimal(user), Decimal(user'), Decimal(window), Decimal(window'));
    DecimalInjective(user, user');
    DecimalInjective(window, window');
  }

  function CountersAfter(history: seq<Request>, windowSeconds: nat): Counters
    requires windowSeconds > 0
  {
    if history == [] then map[]
    else Filtered(CountersAfter(history[..|history| - 1], windowSeconds), windowSeconds, history[|history| - 1]).0
  }

  /** Whether the last request of the history passes. */
  predicate LastAdmitted(history: seq<Request>, windowSeconds: nat, limit: nat)
    requires windowSeconds > 0 && history != []
  {
    var before := history[..|history| - 1];
    Filtered(CountersAfter(before, windowSeconds), windowSeconds, history[|history| - 1]).1 <= limit
  }

  predicate InWindow(request: Request, windowSeconds: nat, user: nat, window: nat)
    requires windowSeconds > 0
  {
    request.user == user && WindowStart(request.nowMs, windowSeconds) == window
  }

  /** How many requests a user has made in one aligned window. */
  function Made(history: seq<Request>, windowSeconds: nat, user: nat, window: nat): nat
    requires windowSeconds > 0
  {
    if history == [] then 0
    else
      var n := |history| - 1;
      Made(history[..n], windowSeconds, user, window) +
      if InWindow(history[n], windowSeconds, user, window) then 1 else 0
  }

  /** How many of them were admitted. */
  function AdmittedInWindow(history: seq<Request>, windowSeconds: nat, limit: nat, user: nat, window: nat): nat
    requires windowSeconds > 0
  {
    if history == [] then 0
    else
      var n := |history| - 1;
      AdmittedInWindow(history[..n], windowSeconds, limit, user, window) +
      if InWindow(history[n], windowSeconds, user, window) && LastAdmitted(history, windowSeconds, limit) then 1 else 0
  }

  /** Admitted requests of a user in the half-open interval of one window length. */
  function AdmittedFrom(history: seq<Request>, windowSeconds: nat, limit: nat, user: nat, fromMs: nat): nat
    requires windowSeconds > 0
  {
    if history == [] then 0
    else
      var n := |history| - 1;
      AdmittedFrom(history[..n], windowSeconds, limit, user, fromMs) +
      if history[n].user == user && fromMs <= history[n].nowMs < fromMs + windowSeconds * 1000
         && LastAdmitted(history, windowSeconds, limit) then 1 else 0
  }

  /** When the first increment of a user's window reached the counter, if any did. */
  function FirstCounted(history: seq<Request>, windowSeconds: nat, user: nat, window: nat): Option<nat>
    requires windowSeconds > 0
  {
    if history == [] then None
    else
      var n := |history| - 1;
      var first := FirstCounted(history[..n], windowSeconds, user, window);
      if first.None? && InWindow(history[n], windowSeconds, user, window) then Some(history[n].countedMs) else first
  }

  /** Every increment of the window reached the counter within one window length of the first one. */
  predicate Alive(history: seq<Request>, windowSeconds: nat, user: nat, window: nat)
    requires windowSeconds > 0
  {
    history != [] ==>
      var n := |history| - 1;
      var first := FirstCounted(history[..n], windowSeconds, user, window);
      && Alive(history[..n], windowSeconds, user, window)
      && (InWindow(history[n], windowSeconds, user, window) && first.Some? ==>
           history[n].countedMs < first.value + windowSeconds * 1000)
  }

  /** The window's counter holds the number of requests made in it. */
  predicate CountedExactly(history: seq<Request>, windowSeconds: nat, user: nat, window: nat)
    requires windowSeconds > 0
  {
    var counters, key := CountersAfter(history, windowSeconds), Key(user, window);
    var made := Made(history, windowSeconds, user, window);
    if made == 0 then key !in counters else key in counters && counters[key].count == made
  }

  /** Only the requests of a window touch its counter. */
  lemma OneMoreRequest(history: seq<Request>, windowSeconds: nat, user: nat, window: nat)
    requires windowSeconds > 0 && history != []
    ensures var n, key := |history| - 1, Key(user, window);
      var before, after := CountersAfter(history[..n], windowSeconds), CountersAfter(history, windowSeconds);
      if InWindow(history[n], windowSeconds, user, window)
      then after == Incremented(before, key, windowSeconds, history[n].countedMs).0
      else (key in after <==> key in before) && (key in before ==> after[key] == before[key])
  {
    var request := history[|history| - 1];
    var current := WindowStart(request.nowMs, windowSeconds);
    if Key(request.user, current) == Key(user, window) {
      KeysAreDistinct(request.user, current, user, window);
    }
  }

  /** What the counter of a window holds: all of its requests, or fewer for good once its key has run out. */
  lemma {:induction false} WindowCounter(history: seq<Request>, windowSeconds: nat, user: nat, window: nat)
    requires windowSeconds > 0
    ensures var counters, key := CountersAfter(history, windowSeconds), Key(user, window);
      var made, first := Made(history, windowSeconds, user, window), FirstCounted(history, windowSeconds, user, window);
      var alive := Alive(history, windowSeconds, user, window);
      && (made > 0 <==> first.Some?)
      && (made > 0 <==> key in counters)
      && (made == 0 ==> alive)
      && (made > 0 && alive ==> counters[key] == Entry(made, first.value + windowSeconds * 1000))
      && (made > 0 && !alive ==> counters[key].count < made)
  {
    if history != [] {
      WindowCounter(history[..|history| - 1], windowSeconds, user, window);
      OneMoreRequest(history, windowSeconds, user, window);
    }
  }

  /**
   * The counter of a window is exact exactly while every increment of the window has reached it
   * within one window length of the first: then its key has never run out, and nothing else touches it.
   */
  lemma CounterIsExact(history: seq<Request>, windowSeconds: nat, user: nat, window: nat)
    requires windowSeconds > 0
    ensures CountedExactly(history, windowSeconds, user, window) <==> Alive(history, windowSeconds, user, window)
  {
    WindowCounter(history, windowSeconds, user, window);
  }

  /**
   * As long as its window's key has not run out, a request passes exactly when fewer than `limit` of
   * its user came before it in its window; the first one after that starts a new count and passes.
   */
  lemma AdmittedIffEarly(history: seq<Request>, windowSeconds: nat, limit: nat)
    requires windowSeconds > 0 && history != []
    requires var n := |history| - 1;
      Alive(history[..n], windowSeconds, history[n].user, WindowStart(history[n].nowMs, windowSeconds))
    ensures var n := |history| - 1;
      var user, window := history[n].user, WindowStart(history[n].nowMs, windowSeconds);
      LastAdmitted(history, windowSeconds, limit) <==>
        || Made(history[..n], windowSeconds, user, window) < limit
        || (limit > 0 && !Alive(history, windowSeconds, user, window))
  {
    var n := |history| - 1;
    WindowCounter(history[..n], windowSeconds, history[n].user, WindowStart(history[n].nowMs, windowSeconds));
  }

  /** The window's key has not run out, or there are too few requests for that to matter. */
  predicate Limited(history: seq<Request>, windowSeconds: nat, limit: nat, user: nat, window: nat)
    requires windowSeconds > 0
  {
    || limit == 0
    || Made(history, windowSeconds, user, window) <= limit
    || Alive(history, windowSeconds, user, window)
  }

  function Least(a: nat, b: nat): nat {
    if a <= b then a else b
  }

  /**
   * In an aligned window a user is admitted for exactly its first `limit` requests if the window is
   * `Limited`, and for more than `limit` of them if it is not.
   */
  lemma {:induction false} WindowAdmitsLimit(history: seq<Request>, windowSeconds: nat, limit: nat, user: nat,
                                             window: nat)
    requires windowSeconds > 0
    ensures var admitted := AdmittedInWindow(history, windowSeconds, limit, user, window);
      if Limited(history, windowSeconds, limit, user, window)
      then admitted == Least(Made(history, windowSeconds, user, window), limit)
      else admitted > limit
  {
    if history != [] {
      var n := |history| - 1;
      WindowAdmitsLimit(history[..n], windowSeconds, limit, user, window);
      WindowCounter(history[..n], windowSeconds, user, window);
      if InWindow(history[n], windowSeconds, user, window) && Alive(history[..n], windowSeconds, user, window) {
        AdmittedIffEarly(history, windowSeconds, limit);
      }
    }
  }

  /** Counted no earlier than the clock was read, and before the window it belongs to has ended. */
  predicate Prompt(request: Request, windowSeconds: nat)
    requires windowSeconds > 0
  {
    request.nowMs <= request.countedMs < (WindowStart(request.nowMs, windowSeconds) + windowSeconds) * 1000
  }

  predicate AllPrompt(history: seq<Request>, windowSeconds: nat)
    requires windowSeconds > 0
  {
    forall k :: 0 <= k < |history| ==> Prompt(history[k], windowSeconds)
  }

  /** Increments that reach the counter inside their window find its key alive. */
  lemma {:induction false} PromptIsAlive(history: seq<Request>, windowSeconds: nat, user: nat, window: nat)
    requires windowSeconds > 0 && AllPrompt(history, windowSeconds)
    ensures Alive(history, windowSeconds, user, window)
    ensures var first := FirstCounted(history, windowSeconds, user, window);
      first.Some? ==> first.value >= window * 1000
  {
    if history != [] {
      var n := |history| - 1;
      PromptIsAlive(history[..n], windowSeconds, user, window);
      WindowHolds(history[n].nowMs, windowSeconds);
      assert Prompt(history[n], windowSeconds);
    }
  }

  /** Two aligned windows cover any interval of one window length. */
  lemma IntervalMeetsTwoWindows(fromMs: nat, nowMs: nat, windowSeconds: nat)
    requires windowSeconds > 0 && fromMs <= nowMs < fromMs + windowSeconds * 1000
    ensures var first := WindowStart(fromMs, windowSeconds);
      WindowStart(nowMs, windowSeconds) == first || WindowStart(nowMs, windowSeconds) == first + windowSeconds
  {
    var index := fromMs / 1000 / windowSeconds;
    WindowHolds(fromMs, windowSeconds);
    NextWindow(index, windowSeconds);
    if nowMs / 1000 < index * windowSeconds + windowSeconds {
      WindowIs(nowMs, windowSeconds, index);
    } else {
      WindowIs(nowMs, windowSeconds, index + 1);
    }
  }

  lemma {:induction false} IntervalWithinTwoWindows(history: seq<Request>, windowSeconds: nat, limit: nat, user: nat,
                                                    fromMs: nat)
    requires windowSeconds > 0
    ensures var first := WindowStart(fromMs, windowSeconds);
      AdmittedFrom(history, windowSeconds, limit, user, fromMs) <=
        AdmittedInWindow(history, windowSeconds, limit, user, first) +
        AdmittedInWindow(history, windowSeconds, limit, user, first + windowSeconds)
  {
    if history != [] {
      var n := |history| - 1;
      IntervalWithinTwoWindows(history[..n], windowSeconds, limit, user, fromMs);
      if fromMs <= history[n].nowMs < fromMs + windowSeconds * 1000 {
        IntervalMeetsTwoWindows(fromMs, history[n].nowMs, windowSeconds);
      }
    }
  }

  /** In any interval of one window length a user is admitted at most `2 * limit` times, if its windows are limited. */
  lemma IntervalAdmitsTwiceLimit(history: seq<Request>, windowSeconds: nat, limit: nat, user: nat, fromMs: nat)
    requires windowSeconds > 0
    requires var first := WindowStart(fromMs, windowSeconds);
      && Limited(history, windowSeconds, limit, user, first)
      && Limited(history, windowSeconds, limit, user, first + windowSeconds)
    ensures AdmittedFrom(history, windowSeconds, limit, user, fromMs) <= 2 * limit
  {
    var first := WindowStart(fromMs, windowSeconds);
    IntervalWithinTwoWindows(history, windowSeconds, limit, user, fromMs);
    WindowAdmitsLimit(history, windowSeconds, limit, user, first);
    WindowAdmitsLimit(history, windowSeconds, limit, user, first + windowSeconds);
  }

  /** So both bounds hold of every history whose increments reach the counter inside their windows. */
  lemma PromptHistoriesAreLimited(history: seq<Request>, windowSeconds: nat, limit: nat, user: nat, fromMs: nat)
    requires windowSeconds > 0 && AllPrompt(history, windowSeconds)
    ensures forall window :: AdmittedInWindow(history, windowSeconds, limit, user, window) <= limit
    ensures AdmittedFrom(history, windowSeconds, limit, user, fromMs) <= 2 * limit
  {
    forall window ensures Limited(history, windowSeconds, limit, user, window)
      && AdmittedInWindow(history, windowSeconds, limit, user, window) <= limit
    {
      PromptIsAlive(history, windowSeconds, user, window);
      WindowAdmitsLimit(history, windowSeconds, limit, user, window);
    }
    IntervalAdmitsTwiceLimit(history, windowSeconds, limit, user, fromMs);
  }

  function BurstRequest(windowSeconds: nat, late: bool): Request
    requires windowSeconds > 0
  {
    var time := if late then windowSeconds * 1000 else windowSeconds * 1000 - 1;
    Request(1, time, time)
  }

  /** A burst at the end of one window and another at the start of the next. */
  function Bursts(windowSeconds: nat, a: nat, b: nat): seq<Request>
    requires windowSeconds > 0
  {
    if b > 0 then Bursts(windowSeconds, a, b - 1) + [BurstRequest(windowSeconds, true)]
    else if a > 0 then Bursts(windowSeconds, a - 1, 0) + [BurstRequest(windowSeconds, false)]
    else []
  }

  lemma BurstWindows(windowSeconds: nat)
    requires windowSeconds > 0
    ensures WindowStart(windowSeconds * 1000 - 1, windowSeconds) == 0
    ensures WindowStart(windowSeconds * 1000, windowSeconds) == windowSeconds
  {
    WindowIs(windowSeconds * 1000 - 1, windowSeconds, 0);
    WindowIs(windowSeconds * 1000, windowSeconds, 1);
  }

  lemma BurstRequestPlace(windowSeconds: nat, late: bool)
    requires windowSeconds > 0
    ensures var request := BurstRequest(windowSeconds, late);
      && Prompt(request, windowSeconds)
      && WindowStart(request.nowMs, windowSeconds) == (if late then windowSeconds else 0)
  {
    BurstWindows(windowSeconds);
  }

  lemma {:induction false} BurstsMade(windowSeconds: nat, a: nat, b: nat)
    requires windowSeconds > 0
    ensures var history := Bursts(windowSeconds, a, b);
      && AllPrompt(history, windowSeconds)
      && Made(history, windowSeconds, 1, 0) == a
      && Made(history, windowSeconds, 1, windowSeconds) == b
    decreases a + b
  {
    if a + b > 0 {
      var before := if b > 0 then Bursts(windowSeconds, a, b - 1) else Bursts(windowSeconds, a - 1, 0);
      var last := BurstRequest(windowSeconds, b > 0);
      assert Bursts(windowSeconds, a, b)[..|before|] == before;
      BurstRequestPlace(windowSeconds, b > 0);
      if b > 0 {
        BurstsMade(windowSeconds, a, b - 1);
      } else {
        BurstsMade(windowSeconds, a - 1, 0);
      }
    }
  }

  /** All requests are the user's, and in the interval of one window length from `fromMs`. */
  predicate AllFrom(history: seq<Request>, windowSeconds: nat, user: nat, fromMs: nat) {
    forall k :: 0 <= k < |history| ==>
      history[k].user == user && fromMs <= history[k].nowMs < fromMs + windowSeconds * 1000
  }

  lemma {:induction false} IntervalIsTwoWindows(history: seq<Request>, windowSeconds: nat, limit: nat, user: nat,
                                                fromMs: nat)
    requires windowSeconds > 0 && AllFrom(history, windowSeconds, user, fromMs)
    ensures var first := WindowStart(fromMs, windowSeconds);
      AdmittedFrom(history, windowSeconds, limit, user, fromMs) ==
        AdmittedInWindow(history, windowSeconds, limit, user, first) +
        AdmittedInWindow(history, windowSeconds, limit, user, first + windowSeconds)
  {
    if history != [] {
      var n := |history| - 1;
      IntervalIsTwoWindows(history[..n], windowSeconds, limit, user, fromMs);
      IntervalMeetsTwoWindows(fromMs, history[n].nowMs, windowSeconds);
    }
  }

  lemma {:induction false} BurstsInInterval(windowSeconds: nat, a: nat, b: nat)
    requires windowSeconds > 0
    ensures AllFrom(Bursts(windowSeconds, a, b), windowSeconds, 1, windowSeconds * 1000 - 1)
    decreases a + b
  {
    if b > 0 {
      BurstsInInterval(windowSeconds, a, b - 1);
    } else if a > 0 {
      BurstsInInterval(windowSeconds, a - 1, 0);
    }
  }

  /** The bound is attained: two adjoining bursts of `limit` requests are all admitted. */
  lemma TwiceLimitIsReached(windowSeconds: nat, limit: nat)
    requires windowSeconds > 0
    ensures exists history, fromMs ::
      AllPrompt(history, windowSeconds) && AdmittedFrom(history, windowSeconds, limit, 1, fromMs) == 2 * limit
  {
    BurstsMade(windowSeconds, limit, limit);
    BurstsInInterval(windowSeconds, limit, limit);
    BurstWindows(windowSeconds);
    var history, fromMs := Bursts(windowSeconds, limit, limit), windowSeconds * 1000 - 1;
    IntervalIsTwoWindows(history, windowSeconds, limit, 1, fromMs);
    PromptIsAlive(history, windowSeconds, 1, 0);
    PromptIsAlive(history, windowSeconds, 1, windowSeconds);
    WindowAdmitsLimit(history, windowSeconds, limit, 1, 0);
    WindowAdmitsLimit(history, windowSeconds, limit, 1, windowSeconds);
    assert AdmittedFrom(history, windowSeconds, limit, 1, fromMs) == 2 * limit;
  }

  /**
   * The condition can fail: an increment that arrives after its window's key has run out starts a new
   * count, and a limit of one admits two requests of one window.
   */
  lemma LateIncrementIsAdmitted()
    ensures var history := [Request(1, 0, 0), Request(1, 59999, 60000)];
      !Limited(history, 60, 1, 1, 0) && AdmittedInWindow(history, 60, 1, 1, 0) == 2
  {
    var first := Request(1, 0, 0);
    var history := [first, Request(1, 59999, 60000)];
    assert history[..1] == [first] && [first][..0] == [];
    WindowIs(0, 60, 0);
    WindowIs(59999, 60, 0);
    var key := Key(1, 0);
    assert CountersAfter([first], 60) == map[key := Entry(1, 60000)];
    assert LastAdmitted([first], 60, 1);
    assert AdmittedInWindow([first], 60, 1, 1, 0) == 1;
    assert FirstCounted([first], 60, 1, 0) == Some(0);
    assert Made([first], 60, 1, 0) == 1;
  }

  /** What an administrator's configuration means, for histories whose increments reach the counter in time. */
  lemma ConfigurationIsEnforced(history: seq<Request>, configuredWindow: int, configuredLimit: int, user: nat,
                                window: nat)
    requires AllPrompt(history, Configured(configuredWindow, WINDOW_SECONDS))
    ensures configuredWindow > 0 ==> Configured(configuredWindow, WINDOW_SECONDS) == configuredWindow
    ensures configuredWindow <= 0 ==> Configured(configuredWindow, WINDOW_SECONDS) == 60
    ensures var seconds := Configured(configuredWindow, WINDOW_SECONDS);
      AdmittedInWindow(history, seconds, Configured(configuredLimit, DEFAULT_LIMIT), user, window) ==
        Least(Made(history, seconds, user, window), if configuredLimit > 0 then configuredLimit else 30)
  {
    var seconds := Configured(configuredWindow, WINDOW_SECONDS);
    PromptIsAlive(history, seconds, user, window);
    WindowAdmitsLimit(history, seconds, Configured(configuredLimit, DEFAULT_LIMIT), user, window);
  }
}
