/** The fixed-window limiter (internal/ratelimit/redis.go).  Each Allow runs one atomic script,
    so any interleaving of concurrent calls is a sequence of script runs. */
module RateLimit {
  import opened Base

  datatype Scope =
    | Login | LoginIP | PasteCreate | ChallengeIssue | Unlock | UnlockIP | Verify | VerifyGlobal | Delete

  function Text(scope: Scope): (s: string)
    ensures ':' !in s
  {
    match scope
    case Login => "login"
    case LoginIP => "login_ip"
    case PasteCreate => "paste_create"
    case ChallengeIssue => "challenge_issue"
    case Unlock => "unlock"
    case UnlockIP => "unlock_ip"
    case Verify => "verify"
    case VerifyGlobal => "verify_global"
    case Delete => "delete"
  }

  datatype Rule = Rule(limit: int, window: int)

  datatype Decision = Decision(allowed: bool, retryAfter: int)

  function FailClosed(): Decision {
    Decision(false, 5 * SECOND)
  }

  function RedisKey(scope: Scope, key: string): string {
    "rl:" + (Text(scope) + (":" + key))
  }

  lemma TextsDiffer(a: Scope, b: Scope)
    ensures Text(a) == Text(b) ==> a == b
  {
    var s, t := Text(a), Text(b);
    if s == t {
      assert |s| == |t| && (|s| > 0 ==> s[0] == t[0]);
    }
  }

  /** The text before the first separator. */
  function Head(s: string): string {
    if s == "" || s[0] == ':' then "" else [s[0]] + Head(s[1..])
  }

  lemma {:induction false} HeadOfJoined(s: string, rest: string)
    requires ':' !in s
    ensures Head(s + (":" + rest)) == s
  {
    if s != "" {
      assert (s + (":" + rest))[1..] == s[1..] + (":" + rest);
      HeadOfJoined(s[1..], rest);
    }
  }

  lemma JoinedInjective(s: string, a: string, t: string, b: string)
    requires ':' !in s && ':' !in t && s + (":" + a) == t + (":" + b)
    ensures s == t && a == b
  {
    HeadOfJoined(s, a);
    HeadOfJoined(t, b);
    assert (s + (":" + a))[|s| + 1..] == a;
    assert (t + (":" + b))[|t| + 1..] == b;
  }

  lemma PrefixInjective(prefix: string, a: string, b: string)
    requires prefix + a == prefix + b
    ensures a == b
  {
    assert (prefix + a)[|prefix|..] == a && (prefix + b)[|prefix|..] == b;
  }

  /** Distinct scope and key pairs never share a counter. */
  lemma CountersDistinct(a: Scope, k: string, b: Scope, l: string)
    ensures RedisKey(a, k) == RedisKey(b, l) <==> a == b && k == l
  {
    if RedisKey(a, k) == RedisKey(b, l) {
      PrefixInjective("rl:", Text(a) + (":" + k), Text(b) + (":" + l));
      JoinedInjective(Text(a), k, Text(b), l);
      TextsDiffer(a, b);
    }
  }

  // --- The script and the reading of its reply ---------------------------------------------

  /** A counter key: times are Redis milliseconds. */
  datatype Counter = Counter(count: int, deadline: int)

  datatype Any = Int64(n: int) | Other

  /** INCR, PEXPIRE on the first hit, PTTL. */
  function Script(c: Option<Counter>, clock: int, windowMillis: int): Counter {
    if c.None? then Counter(1, clock + windowMillis) else Counter(c.value.count + 1, c.value.deadline)
  }

  function ScriptReply(c: Counter, clock: int): seq<Any> {
    [Int64(c.count), Int64(c.deadline - clock)]
  }

  /** parseWindowResult: two positive integers or nothing. */
  function ParseReply(result: seq<Any>): (r: Option<(int, int)>)
    ensures r.Some? <==> exists n, m :: result == [Int64(n), Int64(m)] && n > 0 && m > 0
  {
    if |result| == 2 && result[0].Int64? && result[1].Int64? && result[0].n > 0 && result[1].n > 0 then
      assert result == [Int64(result[0].n), Int64(result[1].n)];
      Some((result[0].n, result[1].n))
    else None
  }

  /** How the call to Redis ends.  A garbled reply is one that does not parse. */
  datatype Backend = Answered | Refused | AnswerLost | Garbled(result: seq<Any>)

  function Judge(rule: Rule, parsed: Option<(int, int)>): Decision {
    if parsed.None? then FailClosed()
    else if parsed.value.0 > rule.limit then Decision(false, parsed.value.1 * MILLISECOND)
    else Decision(true, 0)
  }

  // --- All calls on all keys ---------------------------------------------------------------

  /** What has happened on one key: when each window opened, and the calls allowed in it. */
  datatype History = History(starts: seq<int>, grants: seq<seq<int>>)

  datatype State = State(clock: int, counters: map<string, Counter>, history: map<string, History>)

  datatype Step = Tick(elapsed: nat) | Expire(redisKey: string) | Call(scope: Scope, key: string, backend: Backend)

  type Rules = map<Scope, Rule>

  /** A rule under which calls reach the script. */
  predicate Enabled(rules: Rules, scope: Scope) {
    scope in rules && rules[scope].limit > 0 && rules[scope].window / 1_000_000 > 0
  }

  function HistoryOf(s: State, redisKey: string): History {
    if redisKey in s.history then s.history[redisKey] else History([], [])
  }

  function CounterOf(s: State, redisKey: string): Option<Counter> {
    if redisKey in s.counters then Some(s.counters[redisKey]) else None
  }

  function Opened(h: History, at: int): History {
    History(h.starts + [at], h.grants + [[]])
  }

  function Granted(h: History, at: int): History {
    if h.grants == [] then h
    else h.(grants := h.grants[|h.grants| - 1 := h.grants[|h.grants| - 1] + [at]])
  }

  /** A script run that took effect; `allowed` is what its caller then decides. */
  function AfterScript(s: State, redisKey: string, windowMillis: int, allowed: bool): State {
    var c := CounterOf(s, redisKey);
    var h := if c.None? then Opened(HistoryOf(s, redisKey), s.clock) else HistoryOf(s, redisKey);
    State(s.clock, s.counters[redisKey := Script(c, s.clock, windowMillis)],
          s.history[redisKey := if allowed then Granted(h, s.clock) else h])
  }

  function Outcome(rules: Rules, s: State, scope: Scope, key: string, backend: Backend): (State, Decision) {
    if scope !in rules || rules[scope].limit <= 0 then (s, Decision(true, 0))
    else
      var rule, redisKey := rules[scope], RedisKey(scope, key);
      var windowMillis := rule.window / 1_000_000;
      if windowMillis <= 0 || backend.Refused? then (s, FailClosed())
      else
        var after := Script(CounterOf(s, redisKey), s.clock, windowMillis);
        var parsed := if backend.Answered? then ParseReply(ScriptReply(after, s.clock)) else None;
        var decision := Judge(rule, parsed);
        (AfterScript(s, redisKey, windowMillis, decision.allowed), decision)
  }

  function Next(rules: Rules, s: State, step: Step): State {
    match step
    case Tick(d) => s.(clock := s.clock + d)
    case Expire(k) =>
      if k in s.counters && s.counters[k].deadline <= s.clock then s.(counters := s.counters - {k}) else s
    case Call(scope, key, backend) => Outcome(rules, s, scope, key, backend).0
  }

  function Run(rules: Rules, s: State, steps: seq<Step>): State {
    if steps == [] then s else Next(rules, Run(rules, s, steps[..|steps| - 1]), steps[|steps| - 1])
  }

  // --- What every run keeps on one key -----------------------------------------------------

  predicate Separated(starts: seq<int>, windowMillis: int) {
    forall i, j :: 0 <= i < j < |starts| ==> starts[i] + windowMillis <= starts[j]
  }

  predicate GrantsFit(h: History, limit: int, windowMillis: int) {
    && |h.grants| == |h.starts|
    && (forall i :: 0 <= i < |h.grants| ==> |h.grants[i]| <= limit)
    && (forall i, j :: 0 <= i < |h.grants| && 0 <= j < |h.grants[i]| ==>
          h.starts[i] <= h.grants[i][j] < h.starts[i] + windowMillis)
  }

  predicate CounterFits(c: Option<Counter>, h: History, clock: int, windowMillis: int)
    requires |h.grants| == |h.starts|
  {
    var n := |h.starts|;
    && (n > 0 ==> h.starts[n - 1] <= clock)
    && (c.None? && n > 0 ==> h.starts[n - 1] + windowMillis <= clock)
    && (c.Some? ==> n > 0 && c.value.count >= 1 && c.value.deadline == h.starts[n - 1] + windowMillis
                    && |h.grants[n - 1]| <= c.value.count)
  }

  predicate Books(c: Option<Counter>, h: History, clock: int, limit: int, windowMillis: int) {
    Separated(h.starts, windowMillis) && GrantsFit(h, limit, windowMillis) && CounterFits(c, h, clock, windowMillis)
  }

  predicate KeyInv(s: State, redisKey: string, limit: int, windowMillis: int) {
    Books(CounterOf(s, redisKey), HistoryOf(s, redisKey), s.clock, limit, windowMillis)
  }

  lemma OpenWindow(s: State, redisKey: string, limit: int, windowMillis: int)
    requires KeyInv(s, redisKey, limit, windowMillis) && limit > 0 && windowMillis > 0
    requires redisKey !in s.counters
    ensures var h := Opened(HistoryOf(s, redisKey), s.clock);
            Separated(h.starts, windowMillis) && GrantsFit(h, limit, windowMillis)
  {
    var h := HistoryOf(s, redisKey);
    var n := |h.starts|;
    forall i | 0 <= i < n ensures h.starts[i] + windowMillis <= s.clock {
      if i < n - 1 {
        assert h.starts[i] + windowMillis <= h.starts[n - 1];
      }
    }
  }

  lemma ScriptKeepsInv(s: State, redisKey: string, limit: int, windowMillis: int, allowed: bool)
    requires KeyInv(s, redisKey, limit, windowMillis) && limit > 0 && windowMillis > 0
    requires var after := Script(CounterOf(s, redisKey), s.clock, windowMillis);
             allowed ==> after.count <= limit && s.clock < after.deadline
    ensures KeyInv(AfterScript(s, redisKey, windowMillis, allowed), redisKey, limit, windowMillis)
  {
    if redisKey !in s.counters {
      OpenWindow(s, redisKey, limit, windowMillis);
    }
  }

  lemma CallKeepsInv(rules: Rules, s: State, scope: Scope, key: string, backend: Backend, windowMillis: int)
    requires Enabled(rules, scope) && windowMillis == rules[scope].window / 1_000_000
    requires KeyInv(s, RedisKey(scope, key), rules[scope].limit, windowMillis)
    ensures KeyInv(Outcome(rules, s, scope, key, backend).0, RedisKey(scope, key), rules[scope].limit, windowMillis)
  {
    if !backend.Refused? {
      var redisKey := RedisKey(scope, key);
      var after := Script(CounterOf(s, redisKey), s.clock, windowMillis);
      assert ScriptReply(after, s.clock) == [Int64(after.count), Int64(after.deadline - s.clock)];
      ScriptKeepsInv(s, redisKey, rules[scope].limit, windowMillis, Outcome(rules, s, scope, key, backend).1.allowed);
    }
  }

  /** A call leaves the counters of all other scopes and keys alone. */
  lemma CallTouchesOneKey(rules: Rules, s: State, scope: Scope, key: string, backend: Backend, redisKey: string)
    requires redisKey != RedisKey(scope, key)
    ensures var after := Outcome(rules, s, scope, key, backend).0;
            CounterOf(after, redisKey) == CounterOf(s, redisKey)
            && HistoryOf(after, redisKey) == HistoryOf(s, redisKey) && after.clock == s.clock
  {
  }

  /** Every step keeps the books of every enabled key. */
  lemma StepKeepsInv(rules: Rules, s: State, step: Step, scope: Scope, key: string, windowMillis: int)
    requires Enabled(rules, scope) && windowMillis == rules[scope].window / 1_000_000
    requires KeyInv(s, RedisKey(scope, key), rules[scope].limit, windowMillis)
    ensures KeyInv(Next(rules, s, step), RedisKey(scope, key), rules[scope].limit, windowMillis)
  {
    if step.Call? {
      CountersDistinct(scope, key, step.scope, step.key);
      if step.scope == scope && step.key == key {
        CallKeepsInv(rules, s, scope, key, step.backend, windowMillis);
      } else {
        CallTouchesOneKey(rules, s, step.scope, step.key, step.backend, RedisKey(scope, key));
      }
    }
  }

  lemma {:induction false} RunKeepsInv(rules: Rules, s: State, steps: seq<Step>, scope: Scope, key: string,
                                       windowMillis: int)
    requires Enabled(rules, scope) && windowMillis == rules[scope].window / 1_000_000
    requires KeyInv(s, RedisKey(scope, key), rules[scope].limit, windowMillis)
    ensures KeyInv(Run(rules, s, steps), RedisKey(scope, key), rules[scope].limit, windowMillis)
  {
    if steps != [] {
      RunKeepsInv(rules, s, steps[..|steps| - 1], scope, key, windowMillis);
      StepKeepsInv(rules, Run(rules, s, steps[..|steps| - 1]), steps[|steps| - 1], scope, key, windowMillis);
    }
  }

  // --- The sliding bound -------------------------------------------------------------------

  /** How many of the instants (in milliseconds) lie in [from, to), in nanoseconds. */
  function CountIn(times: seq<int>, from: int, to: int): (n: nat)
    ensures n <= |times|
    ensures (forall i :: 0 <= i < |times| ==> !(from <= times[i] * MILLISECOND < to)) ==> n == 0
    ensures n > 0 ==> exists i :: 0 <= i < |times| && from <= times[i] * MILLISECOND < to
  {
    if times == [] then 0
    else
      var rest := times[..|times| - 1];
      var last := times[|times| - 1];
      assert forall i :: 0 <= i < |rest| ==> rest[i] == times[i];
      CountIn(rest, from, to) + if from <= last * MILLISECOND < to then 1 else 0
  }

  function Total(grants: seq<seq<int>>, from: int, to: int): nat {
    if grants == [] then 0
    else Total(grants[..|grants| - 1], from, to) + CountIn(grants[|grants| - 1], from, to)
  }

  /** Two allowed calls that are two windows apart are more than one window length apart. */
  lemma TwoWindowsApart(h: History, limit: int, windowMillis: int, i: nat, j: nat, from: int, to: int)
    requires Separated(h.starts, windowMillis) && GrantsFit(h, limit, windowMillis)
    requires to <= from + (windowMillis + 1) * MILLISECOND
    requires i + 2 <= j < |h.grants| && CountIn(h.grants[j], from, to) > 0
    ensures CountIn(h.grants[i], from, to) == 0
  {
    var b :| 0 <= b < |h.grants[j]| && from <= h.grants[j][b] * MILLISECOND < to;
    assert h.starts[i] + windowMillis <= h.starts[i + 1];
    assert h.starts[i + 1] + windowMillis <= h.starts[j];
    forall a | 0 <= a < |h.grants[i]| ensures !(from <= h.grants[i][a] * MILLISECOND < to) {
      assert h.grants[i][a] + 1 + windowMillis <= h.grants[j][b];
    }
  }

  lemma {:induction false} TotalIsZero(grants: seq<seq<int>>, n: nat, from: int, to: int)
    requires n <= |grants|
    requires forall i :: 0 <= i < n ==> CountIn(grants[i], from, to) == 0
    ensures Total(grants[..n], from, to) == 0
  {
    if n > 0 {
      TotalIsZero(grants, n - 1, from, to);
      TotalUpTo(grants, n, from, to);
    }
  }

  lemma TotalUpTo(grants: seq<seq<int>>, n: nat, from: int, to: int)
    requires 0 < n <= |grants|
    ensures Total(grants[..n], from, to) == Total(grants[..n - 1], from, to) + CountIn(grants[n - 1], from, to)
  {
    assert grants[..n][..n - 1] == grants[..n - 1];
  }

  /** When the last of the first `n` windows has a call in the interval, at most one other has. */
  lemma LastTwoWindows(h: History, n: nat, limit: int, windowMillis: int, from: int, to: int)
    requires Separated(h.starts, windowMillis) && GrantsFit(h, limit, windowMillis) && limit > 0
    requires to <= from + (windowMillis + 1) * MILLISECOND
    requires 0 < n <= |h.grants| && CountIn(h.grants[n - 1], from, to) > 0
    ensures Total(h.grants[..n], from, to) <= 2 * limit
  {
    TotalUpTo(h.grants, n, from, to);
    if n >= 2 {
      TotalUpTo(h.grants, n - 1, from, to);
      forall i | 0 <= i < n - 2 ensures CountIn(h.grants[i], from, to) == 0 {
        TwoWindowsApart(h, limit, windowMillis, i, n - 1, from, to);
      }
      TotalIsZero(h.grants, n - 2, from, to);
    }
  }

  lemma {:induction false} SlidingBound(h: History, n: nat, limit: int, windowMillis: int, from: int, to: int)
    requires Separated(h.starts, windowMillis) && GrantsFit(h, limit, windowMillis) && limit > 0
    requires to <= from + (windowMillis + 1) * MILLISECOND
    requires n <= |h.grants|
    ensures Total(h.grants[..n], from, to) <= 2 * limit
  {
    if n > 0 {
      if CountIn(h.grants[n - 1], from, to) > 0 {
        LastTwoWindows(h, n, limit, windowMillis, from, to);
      } else {
        SlidingBound(h, n - 1, limit, windowMillis, from, to);
        TotalUpTo(h.grants, n, from, to);
      }
    }
  }

  /** From an empty store, over any run of concurrent calls: each window of an enabled scope
      and key allows at most `limit` calls, and any half-open interval of one window length
      allows at most twice that. */
  lemma AllowedAtMost(rules: Rules, clock: int, steps: seq<Step>, scope: Scope, key: string, from: int, to: int)
    requires Enabled(rules, scope) && to <= from + rules[scope].window
    ensures var h := HistoryOf(Run(rules, State(clock, map[], map[]), steps), RedisKey(scope, key));
            && (forall i :: 0 <= i < |h.grants| ==> |h.grants[i]| <= rules[scope].limit)
            && Total(h.grants, from, to) <= 2 * rules[scope].limit
  {
    var w := rules[scope].window / 1_000_000;
    RunKeepsInv(rules, State(clock, map[], map[]), steps, scope, key, w);
    var h := HistoryOf(Run(rules, State(clock, map[], map[]), steps), RedisKey(scope, key));
    assert h.grants[..|h.grants|] == h.grants;
    SlidingBound(h, |h.grants|, rules[scope].limit, w, from, to);
  }

  /** A call refused for being over the limit is told to wait exactly until its window ends. */
  lemma RetryAfterEndsWindow(rules: Rules, s: State, scope: Scope, key: string)
    requires Enabled(rules, scope)
    requires KeyInv(s, RedisKey(scope, key), rules[scope].limit, rules[scope].window / 1_000_000)
    ensures var (after, d) := Outcome(rules, s, scope, key, Answered);
            var c := after.counters[RedisKey(scope, key)];
            !d.allowed && c.count > rules[scope].limit && s.clock < c.deadline ==>
              0 < d.retryAfter <= rules[scope].window
                && s.clock * MILLISECOND + d.retryAfter == c.deadline * MILLISECOND
  {
    var c := Script(CounterOf(s, RedisKey(scope, key)), s.clock, rules[scope].window / 1_000_000);
    assert ScriptReply(c, s.clock) == [Int64(c.count), Int64(c.deadline - s.clock)];
  }

  /** The limiter object; nothing in Redis or in its reply can turn an error into permission. */
  class RedisLimiter {
    const rules: Rules
    var s: State

    constructor (rules: Rules, initial: State)
      ensures this.rules == rules && s == initial
    {
      this.rules := rules;
      s := initial;
    }

    method Allow(scope: Scope, key: string, backend: Backend) returns (d: Decision)
      requires backend.Garbled? ==> ParseReply(backend.result).None?
      modifies this
      ensures s == Next(rules, old(s), Call(scope, key, backend))
      ensures d == Outcome(rules, old(s), scope, key, backend).1
      ensures Enabled(rules, scope) && !backend.Answered? ==> d == FailClosed()
      ensures Enabled(rules, scope) && d.allowed ==>
                RedisKey(scope, key) in s.counters && s.counters[RedisKey(scope, key)].count <= rules[scope].limit
    {
      if scope !in rules || rules[scope].limit <= 0 {
        return Decision(true, 0);
      }
      var rule := rules[scope];
      var windowMillis := rule.window / 1_000_000;
      if windowMillis <= 0 || backend.Refused? {
        return FailClosed();
      }
      var redisKey := RedisKey(scope, key);
      var after := Script(CounterOf(s, redisKey), s.clock, windowMillis);
      var result := match backend
        case Answered => ScriptReply(after, s.clock)
        case Garbled(result) => result
        case _ => [];
      var parsed := ParseReply(result);
      if parsed.None? {
        s := AfterScript(s, redisKey, windowMillis, false);
        return FailClosed();
      }
      if parsed.value.0 > rule.limit {
        s := AfterScript(s, redisKey, windowMillis, false);
        return Decision(false, parsed.value.1 * MILLISECOND);
      }
      s := AfterScript(s, redisKey, windowMillis, true);
      return Decision(true, 0);
    }
  }
}
