// Fixed-window rate limits (api/src/tabayyun/services/rate_limits.py). Times and windows count
// microseconds; the counter always answers.
module RateLimits {
  import opened Arithmetic

  const SECOND := 1_000_000
  const MINUTE := 60 * SECOND
  const HOUR := 60 * MINUTE
  const KEEP_FOR := 24 * HOUR

  datatype Rule = Rule(limit: int, window: int) {
    predicate Valid() {
      limit >= 0 && 0 < window <= KEEP_FOR
    }
  }

  const RULES: map<string, Rule> := map[
    "auth.login" := Rule(20, MINUTE), "auth.callback" := Rule(20, MINUTE), "auth.backchannel" := Rule(60, MINUTE),
    "auth.sessions" := Rule(30, MINUTE), "admin.write" := Rule(60, MINUTE), "admin.invite" := Rule(50, HOUR),
    "source.write" := Rule(60, MINUTE), "source.fetch" := Rule(30, MINUTE)]

  ghost predicate ValidRules(rules: map<string, Rule>) {
    forall b :: b in rules ==> rules[b].Valid()
  }

  // At most n requests of a bucket in so many seconds.
  predicate Allows(bucket: string, n: int, seconds: int) {
    bucket in RULES && RULES[bucket].limit == n && RULES[bucket].window == seconds * 1_000_000
  }

  lemma RulesAreValid()
    ensures ValidRules(RULES)
  {
  }

  lemma RuleTable()
    ensures Allows("auth.login", 20, 60) && Allows("auth.callback", 20, 60) && Allows("auth.backchannel", 60, 60)
    ensures Allows("auth.sessions", 30, 60) && Allows("admin.write", 60, 60) && Allows("admin.invite", 50, 3600)
    ensures Allows("source.write", 60, 60) && Allows("source.fetch", 30, 60)
  {
  }

  // ---- Windows --------------------------------------------------------------------------------

  // Windows are numbered from the epoch.
  function WindowOf(now: int, window: int): int
    requires window > 0
  {
    now / window
  }

  function WindowStart(now: int, window: int): int
    requires window > 0
  {
    WindowOf(now, window) * window
  }

  function CeilSeconds(micros: int): int {
    -(-micros / SECOND)
  }

  function SecondsLeft(now: int, window: int): int
    requires window > 0
  {
    var left := CeilSeconds(WindowStart(now, window) + window - now);
    if left >= 1 then left else 1
  }

  lemma WindowBracket(now: int, window: int)
    requires window > 0
    ensures WindowStart(now, window) <= now < WindowStart(now, window) + window
  {
  }

  // Waiting the returned number of seconds reaches a later window; one second less might not.
  lemma RetryReachesLaterWindow(now: int, window: int, later: int)
    requires window > 0 && later >= now + SecondsLeft(now, window) * SECOND
    ensures WindowStart(later, window) >= WindowStart(now, window) + window
    ensures SecondsLeft(now, window) >= 1
    ensures now + (SecondsLeft(now, window) - 1) * SECOND < WindowStart(now, window) + window
  {
    WindowBracket(now, window);
    WindowBracket(later, window);
    var q, r := WindowOf(now, window), WindowOf(later, window);
    hide WindowOf;
    Distribute(q, 1, window);
    Distribute(r, 1, window);
    ProductOrder(q + 1, r + 1, window);
    ProductOrder(r, q + 1, window);
  }

  // The instants of an interval as long as the window lie in two neighbouring windows.
  lemma TwoWindows(a: int, t: int, window: int)
    requires window > 0 && a <= t < a + window
    ensures || WindowStart(t, window) == WindowStart(a, window)
            || WindowStart(t, window) == WindowStart(a, window) + window
  {
    WindowBracket(a, window);
    WindowBracket(t, window);
    var q, r := WindowOf(a, window), WindowOf(t, window);
    hide WindowOf;
    Distribute(q, 1, window);
    Distribute(q, 2, window);
    Distribute(r, 1, window);
    ProductOrder(r, q + 2, window);
    ProductOrder(q, r + 1, window);
    assert r == q || r == q + 1;
  }

  // ---- Counters -----------------------------------------------------------------------------------

  datatype Key = Key(bucket: string, key: string, start: int)

  type Counters = map<Key, nat>

  function Get(m: Counters, k: Key): nat {
    if k in m then m[k] else 0
  }

  function AfterHit(m: Counters, k: Key): Counters {
    m[k := Get(m, k) + 1]
  }

  function AfterPrune(m: Counters, now: int): Counters {
    map k | k in m && k.start >= now - KEEP_FOR :: m[k]
  }

  datatype Decision = Decision(allowed: bool, hits: nat, retryAfter: int)

  class RateLimiter {
    var counters: Counters

    constructor ()
      ensures counters == map[]
    {
      counters := map[];
    }

    // Count one request; a refused one counts too.
    method Hit(bucket: string, rule: Rule, key: string, now: int) returns (d: Decision)
      requires rule.window > 0
      modifies this
      ensures counters == AfterHit(old(counters), Key(bucket, key, WindowStart(now, rule.window)))
      ensures d.hits == Get(counters, Key(bucket, key, WindowStart(now, rule.window)))
      ensures d.allowed <==> d.hits <= rule.limit
      ensures d.retryAfter == if d.allowed then 0 else SecondsLeft(now, rule.window)
      ensures IsHit(old(counters), counters, bucket, rule, key, now, d)
    {
      WindowIs(now, rule.window);
      LeftIs(now, rule.window);
      hide WindowStart, SecondsLeft;
      var k := Key(bucket, key, WindowStart(now, rule.window));
      if k in counters {
        counters := counters[k := counters[k] + 1];
      } else {
        counters := counters[k := 1];
      }
      var hits := counters[k];
      var allowed := hits <= rule.limit;
      d := Decision(allowed, hits, if allowed then 0 else SecondsLeft(now, rule.window));
    }

    // Delete the windows that started more than a day ago.
    method Prune(now: int) returns (n: nat)
      modifies this
      ensures counters == AfterPrune(old(counters), now)
      ensures n == |old(counters)| - |counters|
      ensures forall k :: k in counters <==> k in old(counters) && k.start >= now - 86_400_000_000
      ensures forall k :: k in counters ==> counters[k] == old(counters)[k]
    {
      var kept := map k | k in counters && k.start >= now - KEEP_FOR :: counters[k];
      KeysKept(counters, kept);
      n := |counters| - |kept|;
      counters := kept;
    }
  }

  // ---- The same of times ----------------------------------------------------------------------

  // The window of `now` starts at a multiple of its length.
  predicate StartsWindow(start: int, now: int, window: int)
    requires window > 0
  {
    start % window == 0 && start <= now < start + window
  }

  // The seconds to wait: at least one, enough to reach the window's end, and no more than needed.
  predicate Waits(start: int, now: int, window: int, seconds: int) {
    && seconds >= 1 && now + seconds * 1_000_000 >= start + window
    && (seconds > 1 ==> now + (seconds - 1) * 1_000_000 < start + window)
  }

  // One request counts in its window, is allowed while the window holds at most `limit`, and is told how
  // long to wait otherwise.
  ghost predicate IsHit(before: Counters, after: Counters, bucket: string, rule: Rule, key: string, now: int,
                        d: Decision)
    requires rule.window > 0
  {
    exists start :: StartsWindow(start, now, rule.window) &&
      var k := Key(bucket, key, start);
      && d.hits == (if k in before then before[k] + 1 else 1)
      && after == before[k := d.hits]
      && (d.allowed <==> d.hits <= rule.limit)
      && (if d.allowed then d.retryAfter == 0 else Waits(start, now, rule.window, d.retryAfter))
  }

  lemma WindowIs(now: int, window: int)
    requires window > 0
    ensures StartsWindow(WindowStart(now, window), now, window)
  {
    WindowBracket(now, window);
    MultipleModulo(WindowOf(now, window), window);
  }

  lemma LeftIs(now: int, window: int)
    requires window > 0
    ensures Waits(WindowStart(now, window), now, window, SecondsLeft(now, window))
  {
    WindowBracket(now, window);
    hide WindowStart;
  }

  lemma KeysKept(m: Counters, kept: Counters)
    requires kept.Keys <= m.Keys
    ensures |kept| <= |m|
  {
    FewerKeys(kept.Keys, m.Keys);
    assert |kept| == |kept.Keys| && |m| == |m.Keys|;
  }

  lemma {:induction false} FewerKeys(a: set<Key>, b: set<Key>)
    requires a <= b
    ensures |a| <= |b|
  {
    if a != {} {
      var k :| k in a;
      FewerKeys(a - {k}, b - {k});
    }
  }

  // ---- Runs ----------------------------------------------------------------------------------------

  datatype Event = Hit(bucket: string, key: string, now: int) | Prune(now: int)

  ghost predicate ValidRun(rules: map<string, Rule>, events: seq<Event>) {
    && ValidRules(rules)
    && (forall i :: 0 <= i < |events| && events[i].Hit? ==> events[i].bucket in rules)
    && (forall i, j :: 0 <= i < j < |events| ==> events[i].now <= events[j].now)
  }

  function KeyOf(rules: map<string, Rule>, e: Event): Key
    requires e.Hit? && e.bucket in rules && rules[e.bucket].Valid()
  {
    Key(e.bucket, e.key, WindowStart(e.now, rules[e.bucket].window))
  }

  ghost predicate HitsKey(rules: map<string, Rule>, e: Event, k: Key)
  {
    e.Hit? && e.bucket in rules && rules[e.bucket].Valid() && KeyOf(rules, e) == k
  }

  // The counters after a run.
  ghost function CountersAfter(rules: map<string, Rule>, events: seq<Event>): Counters
    requires ValidRun(rules, events)
  {
    if events == [] then map[]
    else
      var e := events[|events| - 1];
      var before := CountersAfter(rules, events[..|events| - 1]);
      match e
      case Hit(b, k, now) => AfterHit(before, KeyOf(rules, e))
      case Prune(now) => AfterPrune(before, now)
  }

  // Whether request i of a run was allowed.
  ghost predicate Allowed(rules: map<string, Rule>, events: seq<Event>, i: nat)
    requires ValidRun(rules, events) && i < |events|
  {
    && events[i].Hit?
    && Get(CountersAfter(rules, events[..i]), KeyOf(rules, events[i])) + 1 <= rules[events[i].bucket].limit
  }

  // How many requests hit the window k, and how many of them were allowed.
  ghost function HitCount(rules: map<string, Rule>, events: seq<Event>, k: Key): nat {
    if events == [] then 0
    else
      HitCount(rules, events[..|events| - 1], k) + (if HitsKey(rules, events[|events| - 1], k) then 1 else 0)
  }

  ghost function AllowedCount(rules: map<string, Rule>, events: seq<Event>, k: Key): nat
    requires ValidRun(rules, events)
  {
    if events == [] then 0
    else
      var n := |events| - 1;
      AllowedCount(rules, events[..n], k)
      + (if HitsKey(rules, events[n], k) && Allowed(rules, events, n) then 1 else 0)
  }

  // Pruning never resets a window young enough to be hit: counters of the last day are exact.
  lemma {:induction false} CountersExact(rules: map<string, Rule>, events: seq<Event>, k: Key, now: int)
    requires ValidRun(rules, events) && k.start >= now - KEEP_FOR
    requires forall i :: 0 <= i < |events| ==> events[i].now <= now
    ensures Get(CountersAfter(rules, events), k) == HitCount(rules, events, k)
  {
    if events != [] { CountersExact(rules, events[..|events| - 1], k, now); }
  }

  // A request is allowed exactly when fewer than `limit` requests hit its window before it.
  lemma AllowedIffBelowLimit(rules: map<string, Rule>, events: seq<Event>, i: nat)
    requires ValidRun(rules, events) && i < |events| && events[i].Hit?
    ensures Allowed(rules, events, i) <==>
              HitCount(rules, events[..i], KeyOf(rules, events[i])) < rules[events[i].bucket].limit
  {
    var e := events[i];
    WindowBracket(e.now, rules[e.bucket].window);
    CountersExact(rules, events[..i], KeyOf(rules, e), e.now);
  }

  // Of the requests that hit a window exactly the first `limit` are allowed.
  lemma {:induction false} WindowAllowsLimit(rules: map<string, Rule>, events: seq<Event>, k: Key)
    requires ValidRun(rules, events) && k.bucket in rules
    ensures var n, limit := HitCount(rules, events, k), rules[k.bucket].limit;
            AllowedCount(rules, events, k) == if n <= limit then n else limit
  {
    if events != [] {
      var n := |events| - 1;
      WindowAllowsLimit(rules, events[..n], k);
      if events[n].Hit? { AllowedIffBelowLimit(rules, events, n); }
    }
  }

  // Allowed requests of a bucket and key in [a, a + window).
  ghost function AllowedWithin(rules: map<string, Rule>, events: seq<Event>, bucket: string, key: string, a: int): nat
    requires ValidRun(rules, events) && bucket in rules
  {
    if events == [] then 0
    else
      var n := |events| - 1;
      AllowedWithin(rules, events[..n], bucket, key, a)
      + (if InInterval(events[n], bucket, key, a, rules[bucket].window) && Allowed(rules, events, n) then 1 else 0)
  }

  predicate InInterval(e: Event, bucket: string, key: string, a: int, window: int) {
    e.Hit? && e.bucket == bucket && e.key == key && a <= e.now < a + window
  }

  lemma {:induction false} IntervalInTwoWindows(rules: map<string, Rule>, events: seq<Event>, bucket: string,
                                                key: string, a: int)
    requires ValidRun(rules, events) && bucket in rules && rules[bucket].window > 0
    ensures var start, w := WindowStart(a, rules[bucket].window), rules[bucket].window;
            AllowedWithin(rules, events, bucket, key, a) <=
              AllowedCount(rules, events, Key(bucket, key, start))
              + AllowedCount(rules, events, Key(bucket, key, start + w))
  {
    if events != [] {
      var n := |events| - 1;
      IntervalInTwoWindows(rules, events[..n], bucket, key, a);
      var w := rules[bucket].window;
      if InInterval(events[n], bucket, key, a, w) { TwoWindows(a, events[n].now, w); }
      hide WindowStart, WindowOf;
    }
  }

  // At most `limit` requests are allowed in a fixed window, and 2 * limit in any interval as long as it.
  lemma IntervalAllowsTwiceLimit(rules: map<string, Rule>, events: seq<Event>, bucket: string, key: string, a: int)
    requires ValidRun(rules, events) && bucket in rules
    ensures AllowedWithin(rules, events, bucket, key, a) <= 2 * rules[bucket].limit
  {
    var w := rules[bucket].window;
    assert rules[bucket].Valid();
    IntervalInTwoWindows(rules, events, bucket, key, a);
    WindowAllowsLimit(rules, events, Key(bucket, key, WindowStart(a, w)));
    WindowAllowsLimit(rules, events, Key(bucket, key, WindowStart(a, w) + w));
  }
}
