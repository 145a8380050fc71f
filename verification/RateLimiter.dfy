/** The fixed-window limiter of server/backend/app/core/rate_limit.py, with real-valued time. */
module RateLimiter {
  import opened Decimal
  import opened Wrappers

  datatype RateLimitRule = RateLimitRule(limit: int, windowSeconds: int)

  datatype WindowState = WindowState(count: int, startedAt: real)

  datatype CheckResult = Accepted | Exceeded(retryAfter: int) | ValueError(message: string)

  type Windows = map<string, WindowState>

  // ---- window numbers in keys ----

  /** The ASCII characters str.strip removes. */
  predicate IsBlank(c: char) { c == ' ' || '\t' <= c <= '\r' || '\U{1c}' <= c <= '\U{1f}' }

  /** Digits with single underscores between them, as int accepts them. */
  predicate IsNumeral(s: string) {
    s != "" && IsDigit(s[|s| - 1])
    && (|s| == 1 || IsNumeral(s[..|s| - 1])
        || (s[|s| - 2] == '_' && IsNumeral(s[..|s| - 2])))
  }

  function NumeralValue(s: string): nat
    requires IsNumeral(s)
    decreases |s|
  {
    var d: nat := s[|s| - 1] as int - '0' as int;
    if |s| == 1 then d
    else if IsNumeral(s[..|s| - 1]) then 10 * NumeralValue(s[..|s| - 1]) + d
    else 10 * NumeralValue(s[..|s| - 2]) + d
  }

  function Strip(s: string): string
    decreases |s|
  {
    if s != "" && IsBlank(s[0]) then Strip(s[1..])
    else if s != "" && IsBlank(s[|s| - 1]) then Strip(s[..|s| - 1])
    else s
  }

  /** int of a string; None is its ValueError. */
  function ParseInt(text: string): Option<int> {
    var s := Strip(text);
    if IsNumeral(s) then Some(NumeralValue(s))
    else if s != "" && s[0] == '-' && IsNumeral(s[1..]) then Some(0 - NumeralValue(s[1..]))
    else if s != "" && s[0] == '+' && IsNumeral(s[1..]) then Some(NumeralValue(s[1..]))
    else None
  }

  /** The part before the first separator, or the whole string. */
  function BeforeColon(s: string): string {
    if s == "" || s[0] == ':' then "" else [s[0]] + BeforeColon(s[1..])
  }

  function WindowSecondsFromKey(key: string): int {
    match ParseInt(BeforeColon(key)) case Some(n) => n case None => 1
  }

  function BuildRateLimitKey(scope: string, callerType: string, callerId: string): string {
    scope + ":" + callerType + ":" + callerId
  }

  function BuildWindowedKey(scope: string, callerType: string, callerId: string, rule: RateLimitRule): string {
    PrintInt(rule.windowSeconds) + ":" + BuildRateLimitKey(scope, callerType, callerId)
  }

  lemma {:induction false} PrintedNumeral(n: nat)
    ensures IsNumeral(PrintNat(n)) && NumeralValue(PrintNat(n)) == n
  {
    PrintsDigits(n);
    if n >= 10 {
      PrintedNumeral(n / 10);
      var s := PrintNat(n);
      assert s[..|s| - 1] == PrintNat(n / 10);
    }
  }

  lemma {:induction false} BeforeFirstColon(s: string, rest: string)
    requires ':' !in s
    ensures BeforeColon(s + ":" + rest) == s
  {
    if s == "" {
      assert s + ":" + rest == ":" + rest;
    } else {
      assert (s + ":" + rest)[1..] == s[1..] + ":" + rest;
      BeforeFirstColon(s[1..], rest);
    }
  }

  lemma PrintedParses(w: int)
    ensures ParseInt(PrintInt(w)) == Some(w)
    ensures ':' !in PrintInt(w)
  {
    hide PrintNat, IsNumeral, NumeralValue;
    var digits := PrintNat(if w < 0 then -w else w);
    PrintedNumeral(if w < 0 then -w else w);
    PrintsDigits(if w < 0 then -w else w);
    var text := PrintInt(w);
    assert text[|text| - 1] in digits;
    assert w >= 0 ==> text[0] in digits;
    assert Strip(text) == text;
    if w < 0 {
      assert text[1..] == digits;
      NoSignInNumeral(text);
    }
  }

  /** The window number survives printing into a key and parsing out of it. */
  lemma WindowSurvivesKey(scope: string, callerType: string, callerId: string, rule: RateLimitRule)
    ensures WindowSecondsFromKey(BuildWindowedKey(scope, callerType, callerId, rule)) == rule.windowSeconds
  {
    hide PrintInt, ParseInt, BeforeColon, BuildRateLimitKey;
    PrintedParses(rule.windowSeconds);
    BeforeFirstColon(PrintInt(rule.windowSeconds), BuildRateLimitKey(scope, callerType, callerId));
  }

  /** The parts before the first colon and after it are determined by the text. */
  lemma FirstColonSplits(a: string, b: string, s: string, t: string)
    requires ':' !in a && ':' !in b && a + ":" + s == b + ":" + t
    ensures a == b && s == t
  {
    BeforeFirstColon(a, s);
    BeforeFirstColon(b, t);
    var k := a + ":" + s;
    assert s == k[|a| + 1..] && t == k[|b| + 1..];
  }

  lemma KeyLayout(scope: string, callerType: string, callerId: string, rule: RateLimitRule)
    ensures BuildWindowedKey(scope, callerType, callerId, rule)
      == PrintInt(rule.windowSeconds) + ":" + (scope + ":" + (callerType + ":" + callerId))
  {
    hide PrintInt;
    assert scope + ":" + callerType + ":" + callerId == scope + ":" + (callerType + ":" + callerId);
  }

  /** Keys separate windows, scopes, kinds of callers and callers, when scopes and kinds hold no colon, as those of the
      endpoints; the callers' ids may, as IPv6 addresses do. */
  lemma KeysSeparateCallers(scope: string, callerType: string, callerId: string, rule: RateLimitRule,
      scope2: string, callerType2: string, callerId2: string, rule2: RateLimitRule)
    requires ':' !in scope && ':' !in callerType && ':' !in scope2 && ':' !in callerType2
    ensures BuildWindowedKey(scope, callerType, callerId, rule)
         == BuildWindowedKey(scope2, callerType2, callerId2, rule2)
      <==> rule.windowSeconds == rule2.windowSeconds && scope == scope2 && callerType == callerType2
           && callerId == callerId2
  {
    KeyLayout(scope, callerType, callerId, rule);
    KeyLayout(scope2, callerType2, callerId2, rule2);
    var key := BuildWindowedKey(scope, callerType, callerId, rule);
    var key2 := BuildWindowedKey(scope2, callerType2, callerId2, rule2);
    hide BuildWindowedKey, PrintInt;
    if key == key2 {
      PrintedParses(rule.windowSeconds);
      PrintedParses(rule2.windowSeconds);
      var tail, tail2 := callerType + ":" + callerId, callerType2 + ":" + callerId2;
      FirstColonSplits(PrintInt(rule.windowSeconds), PrintInt(rule2.windowSeconds), scope + ":" + tail,
        scope2 + ":" + tail2);
      FirstColonSplits(scope, scope2, tail, tail2);
      FirstColonSplits(callerType, callerType2, callerId, callerId2);
    }
  }

  /** A scope with a colon shares its keys with another scope and kind of caller. */
  lemma ColonScopeMeets(a: string, b: string, callerType: string, callerId: string, rule: RateLimitRule)
    ensures BuildWindowedKey(a + ":" + b, callerType, callerId, rule)
         == BuildWindowedKey(a, b, callerType + ":" + callerId, rule)
  {
    hide PrintInt;
    assert (a + ":" + b) + ":" + callerType + ":" + callerId == a + ":" + b + ":" + (callerType + ":" + callerId);
  }

  lemma {:induction false} NoSignInNumeral(s: string)
    requires s != "" && s[0] == '-'
    ensures !IsNumeral(s)
    decreases |s|
  {
    if |s| > 1 {
      NoSignInNumeral(s[..|s| - 1]);
    }
    if |s| > 2 {
      NoSignInNumeral(s[..|s| - 2]);
    }
  }

  // ---- the specification of one call ----

  function Ceil(x: real): int { -((-x).Floor) }

  predicate Expired(w: WindowState, seconds: int, now: real) { now >= w.startedAt + seconds as real }

  /** What _cleanup_expired keeps. */
  function Cleaned(s: Windows, now: real): Windows {
    map k | k in s && !Expired(s[k], WindowSecondsFromKey(k), now) :: s[k]
  }

  /** One call on a key's own window, without any cleaning. */
  function CheckWindow(w: Option<WindowState>, rule: RateLimitRule, now: real): (WindowState, CheckResult) {
    if w.None? || Expired(w.value, rule.windowSeconds, now) then (WindowState(1, now), Accepted)
    else if w.value.count >= rule.limit then
      (w.value, Exceeded(var r := Ceil(w.value.startedAt + rule.windowSeconds as real - now); if r < 1 then 1 else r))
    else (w.value.(count := w.value.count + 1), Accepted)
  }

  function Get(s: Windows, key: string): Option<WindowState> { if key in s then Some(s[key]) else None }

  datatype Request = Request(key: string, rule: RateLimitRule, now: real)

  predicate ValidRule(rule: RateLimitRule) { rule.limit >= 1 && rule.windowSeconds >= 1 }

  /** A call of a limiter that never cleans up. */
  function CheckKept(s: Windows, q: Request): (Windows, CheckResult) {
    var (w, r) := CheckWindow(Get(s, q.key), q.rule, q.now);
    (s[q.key := w], r)
  }

  /** A call of the limiter as it is: first clean, then check. */
  function CheckCleaned(s: Windows, q: Request): (Windows, CheckResult) { CheckKept(Cleaned(s, q.now), q) }

  class InMemoryRateLimiter {
    var state: Windows

    constructor ()
      ensures state == map[]
    {
      state := map[];
    }

    method CleanupExpired(now: real)
      modifies this
      ensures state == Cleaned(old(state), now)
    {
      hide WindowSecondsFromKey, Expired;
      var keys := state.Keys;
      var expiredKeys: seq<string> := [];
      while keys != {}
        invariant keys <= state.Keys && state == old(state)
        invariant forall k :: k in state && k !in keys ==>
          (k in expiredKeys <==> Expired(state[k], WindowSecondsFromKey(k), now))
        invariant forall k :: k in expiredKeys ==> k in state && k !in keys
        decreases keys
      {
        var k :| k in keys;
        keys := keys - {k};
        if Expired(state[k], WindowSecondsFromKey(k), now) {
          expiredKeys := expiredKeys + [k];
        }
      }
      for i := 0 to |expiredKeys|
        invariant forall k :: k in state <==> k in old(state) && k !in expiredKeys[..i]
        invariant forall k :: k in state ==> state[k] == old(state)[k]
      {
        state := state - {expiredKeys[i]};
      }
      assert expiredKeys[..|expiredKeys|] == expiredKeys;
    }

    /** Accepted is a normal return; the other results are the exceptions. */
    method Check(key: string, rule: RateLimitRule, enabled: bool, now: real) returns (r: CheckResult)
      modifies this
      ensures !enabled ==> r == Accepted && state == old(state)
      ensures enabled && !ValidRule(rule) ==> r.ValueError? && state == old(state)
      ensures enabled && ValidRule(rule) ==> (state, r) == CheckCleaned(old(state), Request(key, rule, now))
    {
      hide Cleaned;
      if !enabled {
        return Accepted;
      }
      if rule.limit < 1 {
        return ValueError("Rate limit must be at least 1.");
      }
      if rule.windowSeconds < 1 {
        return ValueError("Rate-limit window must be at least 1 second.");
      }
      CleanupExpired(now);
      if key !in state || now >= state[key].startedAt + rule.windowSeconds as real {
        state := state[key := WindowState(1, now)];
        return Accepted;
      }
      if state[key].count >= rule.limit {
        var windowEndsAt := state[key].startedAt + rule.windowSeconds as real;
        var retryAfter := Ceil(windowEndsAt - now);
        assert state == state[key := state[key]];
        return Exceeded(if retryAfter < 1 then 1 else retryAfter);
      }
      state := state[key := state[key].(count := state[key].count + 1)];
      r := Accepted;
    }
  }

  // ---- cleaning is invisible ----

  predicate Ordered(qs: seq<Request>) { forall i :: 0 < i < |qs| ==> qs[i - 1].now <= qs[i].now }

  /** The key announces a window no shorter than the rule's. */
  predicate KeyCovers(q: Request) { ValidRule(q.rule) && WindowSecondsFromKey(q.key) >= q.rule.windowSeconds }

  function KeptResults(s: Windows, qs: seq<Request>): seq<CheckResult>
    decreases |qs|
  {
    if qs == [] then [] else [CheckKept(s, qs[0]).1] + KeptResults(CheckKept(s, qs[0]).0, qs[1..])
  }

  function CleanedResults(s: Windows, qs: seq<Request>): seq<CheckResult>
    decreases |qs|
  {
    if qs == [] then [] else [CheckCleaned(s, qs[0]).1] + CleanedResults(CheckCleaned(s, qs[0]).0, qs[1..])
  }

  /** What cleaning has removed by time now was already over for its key. */
  ghost predicate CleanedFrom(e: Windows, s: Windows, now: real) {
    && (forall k :: k in e ==> k in s && e[k] == s[k])
    && (forall k :: k in s && k !in e ==> Expired(s[k], WindowSecondsFromKey(k), now))
  }

  lemma OneCallSame(e: Windows, s: Windows, q: Request, before: real)
    requires CleanedFrom(e, s, before) && before <= q.now && KeyCovers(q)
    ensures CheckCleaned(e, q).1 == CheckKept(s, q).1
    ensures CleanedFrom(CheckCleaned(e, q).0, CheckKept(s, q).0, q.now)
  {
    hide WindowSecondsFromKey;
  }

  lemma {:induction false} ResultsSame(e: Windows, s: Windows, qs: seq<Request>, before: real)
    requires CleanedFrom(e, s, before) && Ordered(qs) && (qs != [] ==> before <= qs[0].now)
    requires forall q :: q in qs ==> KeyCovers(q)
    ensures CleanedResults(e, qs) == KeptResults(s, qs)
    decreases |qs|
  {
    if qs != [] {
      hide CheckCleaned, CheckKept, WindowSecondsFromKey, CleanedFrom;
      OneCallSame(e, s, qs[0], before);
      ResultsSame(CheckCleaned(e, qs[0]).0, CheckKept(s, qs[0]).0, qs[1..], qs[0].now);
    }
  }

  /** Cleaning before every call changes no answer. */
  lemma CleaningInvisible(qs: seq<Request>)
    requires Ordered(qs) && forall q :: q in qs ==> KeyCovers(q)
    ensures CleanedResults(map[], qs) == KeptResults(map[], qs)
  {
    ResultsSame(map[], map[], qs, if qs == [] then 0.0 else qs[0].now);
  }

  /** After a call every stored window is still live at the time of the call. */
  lemma StoredWindowsLive(s: Windows, q: Request)
    requires KeyCovers(q)
    ensures forall k :: k in CheckCleaned(s, q).0 ==>
      !Expired(CheckCleaned(s, q).0[k], WindowSecondsFromKey(k), q.now)
  {
    hide WindowSecondsFromKey;
  }

  // ---- one key ----

  /** Calls on one key under one rule: how many are accepted between a and e. */
  function AcceptedBetween(w: Option<WindowState>, rule: RateLimitRule, times: seq<real>, a: real, e: real): nat
    decreases |times|
  {
    if times == [] then 0
    else
      var (next, r) := CheckWindow(w, rule, times[0]);
      (if r == Accepted && a <= times[0] <= e then 1 else 0) + AcceptedBetween(Some(next), rule, times[1..], a, e)
  }

  predicate OrderedTimes(times: seq<real>) { forall i :: 0 < i < |times| ==> times[i - 1] <= times[i] }

  /** How many windows of length w fit one after the other, the first starting at p, the last by e. */
  function Fitting(p: real, e: real, w: int): nat
    requires w >= 1
    decreases if p > e then 0 else (e - p).Floor + 1
  {
    if p > e then 0 else 1 + Fitting(p + w as real, e, w)
  }

  lemma {:induction false} FittingFewer(p: real, q: real, e: real, w: int)
    requires w >= 1 && p <= q
    ensures Fitting(q, e, w) <= Fitting(p, e, w)
    decreases if q > e then 0 else (e - q).Floor + 1
  {
    if q <= e {
      FittingFewer(p + w as real, q + w as real, e, w);
    }
  }

  lemma {:induction false} FittingAtMost(p: real, e: real, w: int, n: nat)
    requires w >= 1 && e - p < (n * w) as real
    ensures Fitting(p, e, w) <= n
    decreases n
  {
    if p <= e {
      assert n > 0;
      assert (n - 1) * w == n * w - w;
      FittingAtMost(p + w as real, e, w, n - 1);
    }
  }

  predicate GoodWindow(w: WindowState, rule: RateLimitRule, now: real) {
    1 <= w.count <= rule.limit && w.startedAt <= now
  }

  lemma WindowStaysGood(w: Option<WindowState>, rule: RateLimitRule, now: real)
    requires ValidRule(rule) && (w.Some? ==> GoodWindow(w.value, rule, now))
    ensures GoodWindow(CheckWindow(w, rule, now).0, rule, now)
  {
  }

  /** A live window's remaining quota plus a full quota for each window that can still start. */
  function Allowance(w: WindowState, rule: RateLimitRule, e: real): int
    requires ValidRule(rule)
  {
    rule.limit - w.count + rule.limit * Fitting(w.startedAt + rule.windowSeconds as real, e, rule.windowSeconds)
  }

  lemma QuotaScales(limit: int, m: nat, n: nat)
    requires limit >= 0 && m <= n
    ensures limit * m <= limit * n
  {
    assert limit * (n - m) >= 0;
  }

  /** One call inside the interval uses up its share of the allowance. */
  lemma AllowancePaysCall(w: WindowState, rule: RateLimitRule, now: real, e: real)
    requires ValidRule(rule) && GoodWindow(w, rule, now) && now <= e
    ensures var (next, r) := CheckWindow(Some(w), rule, now);
      Allowance(next, rule, e) + (if r == Accepted then 1 else 0) <= Allowance(w, rule, e)
  {
    var p, seconds := w.startedAt + rule.windowSeconds as real, rule.windowSeconds;
    if now >= p {
      FittingFewer(p, now, e, seconds);
      QuotaScales(rule.limit, Fitting(now, e, seconds), Fitting(p, e, seconds));
      var n := Fitting(now + seconds as real, e, seconds);
      assert Fitting(now, e, seconds) == 1 + n;
      assert rule.limit * (1 + n) == rule.limit + rule.limit * n;
    }
  }

  lemma {:induction false} NothingAfter(w: Option<WindowState>, rule: RateLimitRule, times: seq<real>, a: real, e: real)
    requires OrderedTimes(times) && (times != [] ==> times[0] > e)
    ensures AcceptedBetween(w, rule, times, a, e) == 0
    decreases |times|
  {
    hide CheckWindow;
    if times != [] {
      NothingAfter(Some(CheckWindow(w, rule, times[0]).0), rule, times[1..], a, e);
    }
  }

  lemma {:induction false} AcceptedWithinAllowance(w: WindowState, rule: RateLimitRule, times: seq<real>, a: real,
      e: real)
    requires ValidRule(rule) && OrderedTimes(times) && (times != [] ==> GoodWindow(w, rule, times[0]))
    requires w.count <= rule.limit
    ensures AcceptedBetween(Some(w), rule, times, a, e) <= Allowance(w, rule, e)
    decreases |times|
  {
    hide CheckWindow, Fitting;
    if times == [] || times[0] > e {
      QuotaScales(rule.limit, 0, Fitting(w.startedAt + rule.windowSeconds as real, e, rule.windowSeconds));
      NothingAfter(Some(w), rule, times, a, e);
    } else {
      AllowancePaysCall(w, rule, times[0], e);
      WindowStaysGood(Some(w), rule, times[0]);
      AcceptedWithinAllowance(CheckWindow(Some(w), rule, times[0]).0, rule, times[1..], a, e);
    }
  }

  /** The sharp bound for an interval of length at most n windows. */
  function MostAccepted(rule: RateLimitRule, length: real, n: nat): int {
    if length == (n * rule.windowSeconds) as real then rule.limit * (n + 1) else rule.limit * (n + 1) - 1
  }

  /** The first call at or after the interval's start finds no window, an expired one, or a live one whose
      opening call lies before the interval. */
  lemma {:induction false} AcceptedAtMost(w: Option<WindowState>, rule: RateLimitRule, times: seq<real>, a: real,
      e: real, n: nat)
    requires ValidRule(rule) && OrderedTimes(times)
    requires w.Some? ==> 1 <= w.value.count <= rule.limit && (times != [] ==> w.value.startedAt <= times[0])
    requires w.Some? ==> w.value.startedAt < a
    requires 0.0 <= e - a <= (n * rule.windowSeconds) as real
    ensures AcceptedBetween(w, rule, times, a, e) <= MostAccepted(rule, e - a, n)
    decreases |times|
  {
    hide Fitting;
    var seconds := rule.windowSeconds;
    if times == [] || times[0] > e {
      QuotaScales(rule.limit, 1, n + 1);
      NothingAfter(w, rule, times, a, e);
    } else {
      var now := times[0];
      WindowStaysGood(w, rule, now);
      var (next, r) := CheckWindow(w, rule, now);
      if now < a {
        AcceptedAtMost(Some(next), rule, times[1..], a, e, n);
      } else {
        AcceptedWithinAllowance(next, rule, times[1..], a, e);
        if w.None? || Expired(w.value, seconds, now) {
          FirstWindowInside(rule, now, a, e, n);
        } else {
          LiveWindowBefore(w.value, rule, now, a, e, n);
        }
      }
    }
  }

  lemma FirstWindowInside(rule: RateLimitRule, now: real, a: real, e: real, n: nat)
    requires ValidRule(rule) && a <= now <= e && 0.0 <= e - a <= (n * rule.windowSeconds) as real
    ensures 1 + Allowance(WindowState(1, now), rule, e) <= MostAccepted(rule, e - a, n)
  {
    var w := rule.windowSeconds;
    var rest := Fitting(now + w as real, e, w);
    if e - a == (n * w) as real {
      FittingAtMost(now + w as real, e, w, n);
      QuotaScales(rule.limit, rest, n);
      assert rule.limit * (n + 1) == rule.limit + rule.limit * n;
    } else {
      assert n > 0;
      assert (n - 1) * w == n * w - w;
      FittingAtMost(now + w as real, e, w, n - 1);
      QuotaScales(rule.limit, rest, n - 1);
      assert rule.limit * (n + 1) == rule.limit + rule.limit + rule.limit * (n - 1);
    }
  }

  lemma LiveWindowBefore(w: WindowState, rule: RateLimitRule, now: real, a: real, e: real, n: nat)
    requires ValidRule(rule) && GoodWindow(w, rule, now) && !Expired(w, rule.windowSeconds, now)
    requires w.startedAt < a <= now <= e && 0.0 <= e - a <= (n * rule.windowSeconds) as real
    ensures var (next, r) := CheckWindow(Some(w), rule, now);
      (if r == Accepted then 1 else 0) + Allowance(next, rule, e) <= MostAccepted(rule, e - a, n)
  {
    var p, seconds := w.startedAt + rule.windowSeconds as real, rule.windowSeconds;
    AllowancePaysCall(w, rule, now, e);
    FittingAtMost(p, e, seconds, n);
    QuotaScales(rule.limit, Fitting(p, e, seconds), n);
    assert rule.limit * (n + 1) == rule.limit + rule.limit * n;
  }

  /** For every trace in time order, a closed interval of at most n windows' length accepts at most
      limit * (n + 1) calls, and one fewer unless the length is exactly n windows. */
  lemma IntervalBound(rule: RateLimitRule, times: seq<real>, a: real, e: real, n: nat)
    requires ValidRule(rule) && OrderedTimes(times) && 0.0 <= e - a <= (n * rule.windowSeconds) as real
    ensures AcceptedBetween(None, rule, times, a, e) <= MostAccepted(rule, e - a, n) <= rule.limit * (n + 1)
  {
    AcceptedAtMost(None, rule, times, a, e, n);
  }

  /** ... with n as the quotient rounded up. */
  lemma IntervalBoundRounded(rule: RateLimitRule, times: seq<real>, a: real, e: real)
    requires ValidRule(rule) && OrderedTimes(times) && a <= e
    ensures AcceptedBetween(None, rule, times, a, e) <= rule.limit * (Ceil((e - a) / rule.windowSeconds as real) + 1)
  {
    var x, w := (e - a) / rule.windowSeconds as real, rule.windowSeconds as real;
    assert x * w == e - a && x >= 0.0;
    var n := Ceil(x);
    assert x <= n as real;
    RealScales(x, n as real, w);
    assert n as real * w == (n * rule.windowSeconds) as real;
    IntervalBound(rule, times, a, e, n);
  }

  lemma RealScales(x: real, y: real, w: real)
    requires x <= y && w > 0.0
    ensures x * w <= y * w
  {
    assert (y - x) * w >= 0.0;
  }

  // ---- the bound is attained ----

  function Repeat(t: real, k: nat): (times: seq<real>)
    ensures |times| == k
  {
    if k == 0 then [] else [t] + Repeat(t, k - 1)
  }

  /** m full quotas, one window apart. */
  function Bursts(rule: RateLimitRule, start: real, m: nat): seq<real>
    requires ValidRule(rule)
    decreases m
  {
    if m == 0 then [] else Repeat(start, rule.limit) + Bursts(rule, start + rule.windowSeconds as real, m - 1)
  }

  lemma {:induction false} RepeatOrdered(t: real, k: nat, rest: seq<real>)
    requires OrderedTimes(rest) && (rest != [] ==> t <= rest[0])
    ensures OrderedTimes(Repeat(t, k) + rest)
    ensures Repeat(t, k) + rest != [] ==> t <= (Repeat(t, k) + rest)[0]
  {
    if k == 0 {
      assert Repeat(t, k) + rest == rest;
    } else {
      RepeatOrdered(t, k - 1, rest);
      assert Repeat(t, k) + rest == [t] + (Repeat(t, k - 1) + rest);
    }
  }

  lemma {:induction false} BurstsOrdered(rule: RateLimitRule, start: real, m: nat)
    requires ValidRule(rule)
    ensures OrderedTimes(Bursts(rule, start, m))
    ensures Bursts(rule, start, m) != [] ==> start <= Bursts(rule, start, m)[0]
    decreases m
  {
    if m > 0 {
      BurstsOrdered(rule, start + rule.windowSeconds as real, m - 1);
      RepeatOrdered(start, rule.limit, Bursts(rule, start + rule.windowSeconds as real, m - 1));
    }
  }

  lemma {:induction false} RepeatAccepted(w: WindowState, rule: RateLimitRule, t: real, k: nat, rest: seq<real>,
      a: real, e: real)
    requires ValidRule(rule) && w.count + k <= rule.limit && !Expired(w, rule.windowSeconds, t) && a <= t <= e
    ensures AcceptedBetween(Some(w), rule, Repeat(t, k) + rest, a, e)
      == k + AcceptedBetween(Some(w.(count := w.count + k)), rule, rest, a, e)
    decreases k
  {
    if k == 0 {
      assert Repeat(t, k) + rest == rest;
    } else {
      assert Repeat(t, k) + rest == [t] + (Repeat(t, k - 1) + rest);
      RepeatAccepted(w.(count := w.count + 1), rule, t, k - 1, rest, a, e);
    }
  }

  lemma {:induction false} BurstsAccepted(w: Option<WindowState>, rule: RateLimitRule, start: real, m: nat, a: real,
      e: real)
    requires ValidRule(rule) && (w.Some? ==> Expired(w.value, rule.windowSeconds, start))
    requires a <= start && start + ((m - 1) * rule.windowSeconds) as real <= e
    ensures AcceptedBetween(w, rule, Bursts(rule, start, m), a, e) == rule.limit * m
    decreases m
  {
    hide OrderedTimes;
    if m > 0 {
      var next := start + rule.windowSeconds as real;
      var rest := Bursts(rule, next, m - 1);
      assert (m - 2) * rule.windowSeconds == (m - 1) * rule.windowSeconds - rule.windowSeconds;
      NonNegativeProduct(m - 1, rule.windowSeconds);
      assert Bursts(rule, start, m) == [start] + (Repeat(start, rule.limit - 1) + rest);
      RepeatAccepted(WindowState(1, start), rule, start, rule.limit - 1, rest, a, e);
      BurstsAccepted(Some(WindowState(rule.limit, start)), rule, next, m - 1, a, e);
      assert rule.limit * m == rule.limit + rule.limit * (m - 1);
    }
  }

  lemma NonNegativeProduct(x: int, y: int)
    requires x >= 0 && y >= 0
    ensures x * y >= 0
  {
  }

  lemma OpeningCallOutside(rule: RateLimitRule, t: real, times: seq<real>, a: real, e: real)
    requires t < a
    ensures AcceptedBetween(None, rule, [t] + times, a, e)
      == AcceptedBetween(Some(WindowState(1, t)), rule, times, a, e)
  {
    assert ([t] + times)[1..] == times;
  }

  /** A window opened at time 0, the rest of its quota at time lead, and n further quotas. */
  function LeadingCall(rule: RateLimitRule, lead: real, n: nat): seq<real>
    requires ValidRule(rule)
  {
    [0.0] + (Repeat(lead, rule.limit - 1) + Bursts(rule, rule.windowSeconds as real, n))
  }

  lemma LeadingCallOrdered(rule: RateLimitRule, lead: real, n: nat)
    requires ValidRule(rule) && 0.0 < lead < rule.windowSeconds as real
    ensures OrderedTimes(LeadingCall(rule, lead, n))
  {
    hide Bursts, OrderedTimes, Repeat;
    var rest := Bursts(rule, rule.windowSeconds as real, n);
    BurstsOrdered(rule, rule.windowSeconds as real, n);
    RepeatOrdered(lead, rule.limit - 1, rest);
    OrderedAfter(0.0, Repeat(lead, rule.limit - 1) + rest);
  }

  lemma LeadingCallAccepted(rule: RateLimitRule, lead: real, n: nat, e: real)
    requires ValidRule(rule) && 0.0 < lead < rule.windowSeconds as real <= e
    requires rule.windowSeconds as real + ((n - 1) * rule.windowSeconds) as real <= e
    ensures AcceptedBetween(None, rule, LeadingCall(rule, lead, n), lead, e) == rule.limit - 1 + rule.limit * n
  {
    hide Bursts, AcceptedBetween, Repeat;
    var w := rule.windowSeconds as real;
    var rest := Bursts(rule, w, n);
    OpeningCallOutside(rule, 0.0, Repeat(lead, rule.limit - 1) + rest, lead, e);
    RepeatAccepted(WindowState(1, 0.0), rule, lead, rule.limit - 1, rest, lead, e);
    BurstsAccepted(Some(WindowState(rule.limit, 0.0)), rule, w, n, lead, e);
  }

  lemma OrderedAfter(t: real, times: seq<real>)
    requires OrderedTimes(times) && (times != [] ==> t <= times[0])
    ensures OrderedTimes([t] + times)
  {
  }

  /** Some trace reaches the bound, for every rule and every length: a whole quota at each of n + 1 window
      starts, or, between two multiples of the window, a window opened by one call before the interval. */
  lemma BoundIsAttained(rule: RateLimitRule, length: real, n: nat) returns (times: seq<real>, a: real)
    requires ValidRule(rule) && 0.0 <= length <= (n * rule.windowSeconds) as real
    requires n > 0 ==> ((n - 1) * rule.windowSeconds) as real < length
    ensures OrderedTimes(times)
    ensures AcceptedBetween(None, rule, times, a, a + length) == MostAccepted(rule, length, n)
  {
    hide AcceptedBetween, Bursts, OrderedTimes, LeadingCall;
    if length == (n * rule.windowSeconds) as real {
      a := 0.0;
      times := Bursts(rule, a, n + 1);
      BurstsOrdered(rule, a, n + 1);
      BurstsAccepted(None, rule, a, n + 1, a, a + length);
    } else {
      assert n > 0 && (n - 1) * rule.windowSeconds == n * rule.windowSeconds - rule.windowSeconds;
      a := (n * rule.windowSeconds) as real - length;
      times := LeadingCall(rule, a, n);
      NonNegativeProduct(n - 1, rule.windowSeconds);
      LeadingCallOrdered(rule, a, n);
      LeadingCallAccepted(rule, a, n, a + length);
      assert rule.limit * (n + 1) == rule.limit + rule.limit * n;
    }
  }

  // ---- all keys ----

  function StateAfter(s: Windows, qs: seq<Request>): Windows
    decreases |qs|
  {
    if qs == [] then s else StateAfter(CheckCleaned(s, qs[0]).0, qs[1..])
  }

  /** How many calls on this key were accepted between a and e. */
  function AcceptedOn(qs: seq<Request>, results: seq<CheckResult>, key: string, a: real, e: real): nat
    requires |qs| == |results|
    decreases |qs|
  {
    if qs == [] then 0
    else
      (if qs[0].key == key && results[0] == Accepted && a <= qs[0].now <= e then 1 else 0)
      + AcceptedOn(qs[1..], results[1..], key, a, e)
  }

  function TimesOf(qs: seq<Request>, key: string): seq<real>
    decreases |qs|
  {
    if qs == [] then []
    else if qs[0].key == key then [qs[0].now] + TimesOf(qs[1..], key)
    else TimesOf(qs[1..], key)
  }

  lemma {:induction false} TimesOrdered(qs: seq<Request>, key: string)
    requires Ordered(qs)
    ensures OrderedTimes(TimesOf(qs, key))
    ensures TimesOf(qs, key) != [] ==> qs != [] && qs[0].now <= TimesOf(qs, key)[0]
    decreases |qs|
  {
    if qs != [] {
      TimesOrdered(qs[1..], key);
    }
  }

  /** Calls on other keys do not touch a key's window. */
  lemma {:induction false} KeysIndependent(s: Windows, qs: seq<Request>, key: string, rule: RateLimitRule, a: real,
      e: real)
    requires forall q :: q in qs && q.key == key ==> q.rule == rule
    ensures |KeptResults(s, qs)| == |qs|
    ensures AcceptedOn(qs, KeptResults(s, qs), key, a, e) == AcceptedBetween(Get(s, key), rule, TimesOf(qs, key), a, e)
    decreases |qs|
  {
    if qs != [] {
      hide CheckWindow;
      KeysIndependent(CheckKept(s, qs[0]).0, qs[1..], key, rule, a, e);
    }
  }

  /** The limiter as it is, on any interleaving of keys: every closed interval accepts at most
      limit * (length / window rounded up + 1) calls of a key. */
  lemma LimiterBound(qs: seq<Request>, key: string, rule: RateLimitRule, a: real, e: real)
    requires Ordered(qs) && a <= e && ValidRule(rule)
    requires forall q :: q in qs ==> KeyCovers(q)
    requires forall q :: q in qs && q.key == key ==> q.rule == rule
    ensures |CleanedResults(map[], qs)| == |qs|
    ensures AcceptedOn(qs, CleanedResults(map[], qs), key, a, e)
      <= rule.limit * (Ceil((e - a) / rule.windowSeconds as real) + 1)
  {
    CleaningInvisible(qs);
    KeysIndependent(map[], qs, key, rule, a, e);
    TimesOrdered(qs, key);
    IntervalBoundRounded(rule, TimesOf(qs, key), a, e);
  }

  // ---- retry_after ----

  lemma {:induction false} StartsInPast(s: Windows, qs: seq<Request>, now: real)
    requires Ordered(qs) && (qs != [] ==> qs[|qs| - 1].now <= now)
    requires forall k :: k in s ==> s[k].startedAt <= if qs == [] then now else qs[0].now
    ensures forall k :: k in StateAfter(s, qs) ==> StateAfter(s, qs)[k].startedAt <= now
    decreases |qs|
  {
    if qs != [] {
      hide WindowSecondsFromKey;
      var t := CheckCleaned(s, qs[0]).0;
      var next := if |qs| == 1 then now else qs[1].now;
      assert qs[0].now <= next;
      assert qs[1..] != [] ==> qs[1..][|qs| - 2] == qs[|qs| - 1];
      StartsInPast(t, qs[1..], now);
    }
  }

  /** A rejected call learns a whole number of seconds between 1 and the window; a call after that long is
      accepted, and one at least a second earlier is not. */
  lemma RetryAfterExact(qs: seq<Request>, q: Request, t: real)
    requires Ordered(qs) && (qs != [] ==> qs[|qs| - 1].now <= q.now) && KeyCovers(q) && q.now <= t
    requires CheckCleaned(StateAfter(map[], qs), q).1.Exceeded?
    ensures var (s, r) := CheckCleaned(StateAfter(map[], qs), q);
      1 <= r.retryAfter <= q.rule.windowSeconds
      && (t >= q.now + r.retryAfter as real ==> CheckCleaned(s, q.(now := t)).1 == Accepted)
      && (t <= q.now + (r.retryAfter - 1) as real ==> CheckCleaned(s, q.(now := t)).1.Exceeded?)
  {
    hide WindowSecondsFromKey, StateAfter;
    StartsInPast(map[], qs, q.now);
  }

  // ---- when cleaning is invisible ----

  function RequestsAt(key: string, rule: RateLimitRule, times: seq<real>): (qs: seq<Request>)
    ensures |qs| == |times|
  {
    seq(|times|, i requires 0 <= i < |times| => Request(key, rule, times[i]))
  }

  function KeptAfter(s: Windows, qs: seq<Request>): Windows
    decreases |qs|
  {
    if qs == [] then s else KeptAfter(CheckKept(s, qs[0]).0, qs[1..])
  }

  lemma {:induction false} LastResults(s: Windows, z: Windows, qs: seq<Request>, q: Request)
    ensures CleanedResults(s, qs + [q]) == CleanedResults(s, qs) + [CheckCleaned(StateAfter(s, qs), q).1]
    ensures KeptResults(z, qs + [q]) == KeptResults(z, qs) + [CheckKept(KeptAfter(z, qs), q).1]
    decreases |qs|
  {
    hide CheckCleaned, CheckKept;
    if qs == [] {
      assert [q][1..] == [];
    } else {
      assert (qs + [q])[1..] == qs[1..] + [q];
      LastResults(CheckCleaned(s, qs[0]).0, CheckKept(z, qs[0]).0, qs[1..], q);
    }
  }

  lemma RepeatedRequests(key: string, rule: RateLimitRule, k: nat)
    requires k > 0
    ensures var qs := RequestsAt(key, rule, Repeat(0.0, k));
      qs[0] == Request(key, rule, 0.0) && qs[1..] == RequestsAt(key, rule, Repeat(0.0, k - 1))
  {
  }

  lemma CleanedCallAtZero(s: Windows, key: string, rule: RateLimitRule)
    requires key in s ==> s[key].startedAt == 0.0
    ensures var t := CheckCleaned(s, Request(key, rule, 0.0)).0; key in t ==> t[key].startedAt == 0.0
  {
    hide WindowSecondsFromKey;
  }

  lemma KeptCallAtZero(z: Windows, key: string, rule: RateLimitRule)
    requires ValidRule(rule) && (key in z ==> z[key].startedAt == 0.0 && z[key].count < rule.limit)
    ensures var t := CheckKept(z, Request(key, rule, 0.0)).0;
      key in t && t[key] == WindowState(if key in z then z[key].count + 1 else 1, 0.0)
  {
  }

  /** Cleaned or not, after calls at time 0 a key's window starts at 0. */
  lemma {:induction false} CleanedBurstAtZero(s: Windows, key: string, rule: RateLimitRule, k: nat)
    requires key in s ==> s[key].startedAt == 0.0
    ensures var t := StateAfter(s, RequestsAt(key, rule, Repeat(0.0, k))); key in t ==> t[key].startedAt == 0.0
    decreases k
  {
    hide CheckCleaned, RequestsAt, Repeat;
    if k > 0 {
      RepeatedRequests(key, rule, k);
      CleanedCallAtZero(s, key, rule);
      CleanedBurstAtZero(CheckCleaned(s, Request(key, rule, 0.0)).0, key, rule, k - 1);
    } else {
      NoRequests(s, key, rule);
    }
  }

  lemma NoRequests(s: Windows, key: string, rule: RateLimitRule)
    ensures StateAfter(s, RequestsAt(key, rule, Repeat(0.0, 0))) == s
    ensures KeptAfter(s, RequestsAt(key, rule, Repeat(0.0, 0))) == s
  {
  }

  /** Uncleaned, k calls at time 0 fill the key's window. */
  lemma {:induction false} KeptBurstAtZero(z: Windows, key: string, rule: RateLimitRule, k: nat)
    requires ValidRule(rule) && k > 0
    requires (if key in z then z[key].count else 0) + k <= rule.limit && (key in z ==> z[key].startedAt == 0.0)
    ensures Get(KeptAfter(z, RequestsAt(key, rule, Repeat(0.0, k))), key)
      == Some(WindowState((if key in z then z[key].count else 0) + k, 0.0))
    decreases k
  {
    hide CheckKept, RequestsAt, Repeat;
    RepeatedRequests(key, rule, k);
    KeptCallAtZero(z, key, rule);
    var next := CheckKept(z, Request(key, rule, 0.0)).0;
    if k > 1 {
      KeptBurstAtZero(next, key, rule, k - 1);
    } else {
      NoRequests(next, key, rule);
    }
  }

  /** Cleaning changes no answer on any trace of a key exactly when the key announces at least the rule's
      window, as keys from build_windowed_key do. */
  lemma CleaningInvisibleExactly(key: string, rule: RateLimitRule)
    requires ValidRule(rule)
    ensures WindowSecondsFromKey(key) >= rule.windowSeconds <==>
      forall times | OrderedTimes(times) :: !CleaningShows(key, rule, times)
  {
    hide WindowSecondsFromKey, CleanedResults, KeptResults;
    if WindowSecondsFromKey(key) >= rule.windowSeconds {
      forall times | OrderedTimes(times)
        ensures !CleaningShows(key, rule, times)
      {
        CleaningInvisible(RequestsAt(key, rule, times));
      }
    } else {
      EarlyCleaningShows(key, rule);
    }
  }

  predicate CleaningShows(key: string, rule: RateLimitRule, times: seq<real>) {
    CleanedResults(map[], RequestsAt(key, rule, times)) != KeptResults(map[], RequestsAt(key, rule, times))
  }

  lemma EarlyCleaningShows(key: string, rule: RateLimitRule)
    requires ValidRule(rule) && WindowSecondsFromKey(key) < rule.windowSeconds
    ensures exists times :: OrderedTimes(times) && CleaningShows(key, rule, times)
  {
    hide WindowSecondsFromKey, CleanedResults, KeptResults, StateAfter, KeptAfter;
    var announced := WindowSecondsFromKey(key);
    var t := if announced < 0 then 0.0 else announced as real;
    var times := Repeat(0.0, rule.limit) + [t];
    RepeatOrdered(0.0, rule.limit, [t]);
    var qs, q := RequestsAt(key, rule, Repeat(0.0, rule.limit)), Request(key, rule, t);
    assert RequestsAt(key, rule, times) == qs + [q];
    CleanedBurstAtZero(map[], key, rule, rule.limit);
    KeptBurstAtZero(map[], key, rule, rule.limit);
    LastResults(map[], map[], qs, q);
    assert CheckCleaned(StateAfter(map[], qs), q).1 == Accepted;
    assert CheckKept(KeptAfter(map[], qs), q).1.Exceeded?;
    var cleaned, kept := CleanedResults(map[], qs + [q]), KeptResults(map[], qs + [q]);
    assert cleaned[|cleaned| - 1] != kept[|kept| - 1];
    assert CleaningShows(key, rule, times);
  }
}
