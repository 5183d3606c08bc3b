/**
The in-memory sliding-window limiter: a bounded queue of acceptance times per
key, and a background pass that evicts idle keys. Its decisions are compared
with the rule over the full history of accepted requests.
*/
module RateLimiter {
  import opened Prelude

  /** The limit and the window, in whole seconds, that a caller passes for its keys. */
  datatype Rule = Rule(limit: int, duration: int)

  /** Callers share one limiter, each with its own keys and rule. Keys are evicted only if the
      limiter was started with a positive eviction age. */
  datatype Config = Config(rules: string -> Rule, evicts: bool, expiration: nat)

  datatype Event = Ask(key: string, now: int) | Evict(now: int)

  type Store = map<string, seq<int>>

  function QueueOf(store: Store, key: string): Option<seq<int>> {
    if key in store then Some(store[key]) else None
  }

  // ---------- the code ----------

  /** The decision of `Request` on the queue of its key. */
  predicate Accepts(queue: Option<seq<int>>, limit: int, duration: int, now: int) {
    queue.None? || |queue.value| < limit || (queue.value != [] && now - queue.value[0] >= duration)
  }

  /** The queue after an accepted request: full queues drop their oldest entry. */
  function Admit(queue: Option<seq<int>>, limit: int, now: int): seq<int> {
    if queue.None? then [now]
    else if |queue.value| < limit || queue.value == [] then queue.value + [now]
    else queue.value[1..] + [now]
  }

  predicate Idle(queue: seq<int>, expiration: int, now: int) {
    queue == [] || now - queue[|queue| - 1] > expiration
  }

  function Evicted(store: Store, expiration: int, now: int): Store {
    map k | k in store && !Idle(store[k], expiration, now) :: store[k]
  }

  class InMemoryRateLimiter {
    var store: Store
    const evicts: bool
    const expiration: nat

    /** Init, with the eviction age in nanoseconds; the eviction loop counts whole seconds. */
    constructor (nanoseconds: int)
      ensures store == map[] && Valid()
      ensures evicts == (nanoseconds > 0)
      ensures evicts ==> expiration * 1_000_000_000 <= nanoseconds < (expiration + 1) * 1_000_000_000
    {
      store := map[];
      evicts := nanoseconds > 0;
      expiration := if nanoseconds > 0 then nanoseconds / 1_000_000_000 else 0;
    }

    /** No queue is ever empty. */
    ghost predicate Valid()
      reads this
    {
      forall k :: k in store ==> store[k] != []
    }

    method Request(key: string, limit: int, duration: int, now: int) returns (accepted: bool)
      requires Valid()
      modifies this
      ensures accepted == Accepts(QueueOf(old(store), key), limit, duration, now)
      ensures store == if accepted then old(store)[key := Admit(QueueOf(old(store), key), limit, now)] else old(store)
      ensures Valid()
    {
      if key in store {
        var queue := store[key];
        if |queue| < limit {
          store := store[key := queue + [now]];
          return true;
        }
        if now - queue[0] >= duration {
          queue := queue[1..];
          store := store[key := queue + [now]];
          return true;
        }
        return false;
      }
      store := store[key := []];
      store := store[key := store[key] + [now]];
      assert [] + [now] == [now];
      return true;
    }

    /** One turn of clearExpiredItems, which runs only if the limiter evicts. */
    method ClearExpired(now: int)
      requires Valid() && evicts
      modifies this
      ensures store == Evicted(old(store), expiration, now)
      ensures Valid()
    {
      var todo := store.Keys;
      while todo != {}
        invariant todo <= old(store).Keys
        invariant store == map k | k in old(store) && (k in todo || !Idle(old(store)[k], expiration, now)) :: old(store)[k]
        decreases |todo|
      {
        var key :| key in todo;
        var queue := store[key];
        if |queue| == 0 || now - queue[|queue| - 1] > expiration {
          store := store - {key};
        }
        todo := todo - {key};
      }
    }
  }

  /** The code as a transition: a decision for a request, none for an eviction. */
  function CodeStep(store: Store, e: Event, c: Config): (Store, Option<bool>) {
    match e
    case Evict(now) => (if c.evicts then Evicted(store, c.expiration, now) else store, None)
    case Ask(key, now) =>
      var r := c.rules(key);
      var ok := Accepts(QueueOf(store, key), r.limit, r.duration, now);
      (if ok then store[key := Admit(QueueOf(store, key), r.limit, now)] else store, Some(ok))
  }

  function CodeRun(store: Store, events: seq<Event>, c: Config): seq<Option<bool>>
    decreases |events|
  {
    if events == [] then []
    else [CodeStep(store, events[0], c).1] + CodeRun(CodeStep(store, events[0], c).0, events[1..], c)
  }

  // ---------- the rule over the full history ----------

  function HistoryOf(history: Store, key: string): seq<int> {
    if key in history then history[key] else []
  }

  /** The accepted requests younger than the window. */
  function Young(times: seq<int>, duration: int, now: int): nat {
    if times == [] then 0
    else Young(times[..|times| - 1], duration, now) + (if now - times[|times| - 1] < duration then 1 else 0)
  }

  function RuleStep(history: Store, e: Event, c: Config): (Store, Option<bool>) {
    match e
    case Evict(now) => (history, None)
    case Ask(key, now) =>
      var ok := Young(HistoryOf(history, key), c.rules(key).duration, now) < c.rules(key).limit;
      (if ok then history[key := HistoryOf(history, key) + [now]] else history, Some(ok))
  }

  function RuleRun(history: Store, events: seq<Event>, c: Config): seq<Option<bool>>
    decreases |events|
  {
    if events == [] then []
    else [RuleStep(history, events[0], c).1] + RuleRun(RuleStep(history, events[0], c).0, events[1..], c)
  }

  /** A clock that never runs backwards. */
  predicate Monotone(events: seq<Event>, clock: int)
    decreases |events|
  {
    events == [] || (events[0].now >= clock && Monotone(events[1..], events[0].now))
  }

  // ---------- agreement on one key ----------

  predicate Sorted(times: seq<int>, clock: int) {
    (forall i, j :: 0 <= i < j < |times| ==> times[i] <= times[j]) && (forall i :: 0 <= i < |times| ==> times[i] <= clock)
  }

  /** The queue is the end of the history; what it no longer holds is too old to matter, unless it is full. */
  predicate Tracks(queue: Option<seq<int>>, times: seq<int>, clock: int, r: Rule) {
    && Sorted(times, clock)
    && match queue
       case None => forall i :: 0 <= i < |times| ==> clock - times[i] >= r.duration
       case Some(q) =>
         && 0 < |q| <= |times| && |q| <= r.limit && q == times[|times| - |q|..]
         && (|q| < r.limit ==> forall i :: 0 <= i < |times| - |q| ==> clock - times[i] >= r.duration)
  }

  /** Only the last n times can be young if the one before them is not. */
  lemma {:induction false} YoungAtMost(times: seq<int>, n: nat, duration: int, now: int)
    requires n <= |times| && forall i :: 0 <= i < |times| - n ==> now - times[i] >= duration
    ensures Young(times, duration, now) <= n
    decreases |times|
  {
    if times != [] {
      YoungAtMost(times[..|times| - 1], if n == 0 then 0 else n - 1, duration, now);
    }
  }

  lemma {:induction false} YoungAtLeast(times: seq<int>, n: nat, duration: int, now: int)
    requires n <= |times| && forall i :: |times| - n <= i < |times| ==> now - times[i] < duration
    ensures Young(times, duration, now) >= n
    decreases |times|
  {
    if n > 0 {
      YoungAtLeast(times[..|times| - 1], n - 1, duration, now);
    }
  }

  lemma SameDecision(queue: Option<seq<int>>, times: seq<int>, clock: int, now: int, r: Rule)
    requires Tracks(queue, times, clock, r) && now >= clock && r.limit >= 1
    ensures Accepts(queue, r.limit, r.duration, now) <==> Young(times, r.duration, now) < r.limit
  {
    match queue
    case None => YoungAtMost(times, 0, r.duration, now);
    case Some(q) =>
      if |q| < r.limit {
        YoungAtMost(times, |q|, r.duration, now);
      } else if now - q[0] >= r.duration {
        YoungAtMost(times, |q| - 1, r.duration, now);
      } else {
        YoungAtLeast(times, |q|, r.duration, now);
      }
  }

  lemma AdmitTracks(queue: Option<seq<int>>, times: seq<int>, clock: int, now: int, r: Rule)
    requires Tracks(queue, times, clock, r) && now >= clock && r.limit >= 1
    ensures Tracks(Some(Admit(queue, r.limit, now)), times + [now], now, r)
  {
    SortedAppend(times, clock, now);
    if queue.Some? {
      AdmitIsSuffix(queue.value, times, now, r);
    }
  }

  lemma SortedAppend(times: seq<int>, clock: int, now: int)
    requires Sorted(times, clock) && now >= clock
    ensures Sorted(times + [now], now)
  {
  }

  lemma AdmitIsSuffix(q: seq<int>, times: seq<int>, now: int, r: Rule)
    requires 0 < |q| <= |times| && |q| <= r.limit && q == times[|times| - |q|..]
    ensures var q', times' := Admit(Some(q), r.limit, now), times + [now];
      && |q'| == (if |q| < r.limit then |q| + 1 else |q|)
      && q' == times'[|times'| - |q'|..]
  {
    assert (times + [now])[|times| - |q|..] == q + [now];
    assert (times + [now])[|times| - |q| + 1..] == q[1..] + [now];
  }

  lemma TimePasses(queue: Option<seq<int>>, times: seq<int>, clock: int, now: int, r: Rule)
    requires Tracks(queue, times, clock, r) && now >= clock
    ensures Tracks(queue, times, now, r)
  {
  }

  lemma EvictionTracks(q: seq<int>, times: seq<int>, clock: int, now: int, r: Rule, expiration: nat)
    requires Tracks(Some(q), times, clock, r) && now >= clock && r.duration <= expiration + 1
    requires Idle(q, expiration, now)
    ensures Tracks(None, times, now, r)
  {
    assert times[|times| - 1] == q[|q| - 1];
  }

  /** A rule the limiter can keep: a positive limit, and a window that an eviction cannot cut short. */
  predicate Kept(c: Config, key: string) {
    c.rules(key).limit >= 1 && (c.evicts ==> c.rules(key).duration <= c.expiration + 1)
  }

  /** The limiter's queue for the key matches the full history. */
  predicate TracksKey(store: Store, history: Store, clock: int, c: Config, key: string) {
    Tracks(QueueOf(store, key), HistoryOf(history, key), clock, c.rules(key))
  }

  predicate Asks(e: Event, key: string) { e.Ask? && e.key == key }

  /** What a step does to the queue and to the history of one key. */
  lemma QueueAfter(store: Store, e: Event, c: Config, key: string)
    ensures var q, r := QueueOf(store, key), c.rules(key);
      QueueOf(CodeStep(store, e, c).0, key) ==
        if Asks(e, key) then (if Accepts(q, r.limit, r.duration, e.now) then Some(Admit(q, r.limit, e.now)) else q)
        else if e.Evict? && c.evicts && q.Some? && Idle(q.value, c.expiration, e.now) then None else q
  {
  }

  lemma HistoryAfter(history: Store, e: Event, c: Config, key: string)
    ensures var h, r := HistoryOf(history, key), c.rules(key);
      HistoryOf(RuleStep(history, e, c).0, key) ==
        if Asks(e, key) && Young(h, r.duration, e.now) < r.limit then h + [e.now] else h
  {
  }

  lemma StepAgrees(store: Store, history: Store, clock: int, e: Event, c: Config, key: string)
    requires TracksKey(store, history, clock, c, key) && e.now >= clock && Kept(c, key)
    ensures Asks(e, key) ==> CodeStep(store, e, c).1 == RuleStep(history, e, c).1
    ensures TracksKey(CodeStep(store, e, c).0, RuleStep(history, e, c).0, e.now, c, key)
  {
    var q, h, r := QueueOf(store, key), HistoryOf(history, key), c.rules(key);
    QueueAfter(store, e, c, key);
    HistoryAfter(history, e, c, key);
    TimePasses(q, h, clock, e.now, r);
    if Asks(e, key) {
      SameDecision(q, h, clock, e.now, r);
      if Accepts(q, r.limit, r.duration, e.now) { AdmitTracks(q, h, clock, e.now, r); }
    } else if e.Evict? && c.evicts && q.Some? && Idle(q.value, c.expiration, e.now) {
      EvictionTracks(q.value, h, clock, e.now, r, c.expiration);
    }
  }

  /** The decisions on the requests of one key are the same. */
  predicate SameFor(key: string, events: seq<Event>, a: seq<Option<bool>>, b: seq<Option<bool>>) {
    && |a| == |events| == |b|
    && forall i :: 0 <= i < |events| && Asks(events[i], key) ==> a[i] == b[i]
  }

  lemma SameForCons(key: string, e: Event, events: seq<Event>, x: Option<bool>, a: seq<Option<bool>>, y: Option<bool>, b: seq<Option<bool>>)
    ensures SameFor(key, [e] + events, [x] + a, [y] + b) <==> (Asks(e, key) ==> x == y) && SameFor(key, events, a, b)
  {
    var es, xs, ys := [e] + events, [x] + a, [y] + b;
    assert es[0] == e && xs[0] == x && ys[0] == y;
    if SameFor(key, es, xs, ys) {
      forall i | 0 <= i < |events| && Asks(events[i], key) ensures a[i] == b[i] {
        assert es[i + 1] == events[i] && xs[i + 1] == a[i] && ys[i + 1] == b[i];
      }
    }
  }

  /** Over every run, with evictions and requests of other keys in between, the decisions on a key
      whose rule can be kept are those of the full-history rule. */
  lemma {:induction false} RunAgrees(store: Store, history: Store, clock: int, events: seq<Event>, c: Config, key: string)
    requires TracksKey(store, history, clock, c, key) && Monotone(events, clock) && Kept(c, key)
    ensures SameFor(key, events, CodeRun(store, events, c), RuleRun(history, events, c))
    decreases |events|
  {
    if events != [] {
      var e, rest := events[0], events[1..];
      var (store', x) := CodeStep(store, e, c);
      var (history', y) := RuleStep(history, e, c);
      StepAgrees(store, history, clock, e, c, key);
      RunAgrees(store', history', e.now, rest, c, key);
      SameForCons(key, e, rest, x, CodeRun(store', rest, c), y, RuleRun(history', rest, c));
      assert events == [e] + rest;
    }
  }

  // ---------- exactly when the limiter follows the rule ----------

  function Zeros(n: nat): (r: seq<int>)
    ensures |r| == n && forall i :: 0 <= i < n ==> r[i] == 0
  {
    seq(n, _ => 0)
  }

  /** n acceptances of the key at time 0. */
  function Filled(n: nat, key: string): Store {
    if n == 0 then map[] else map[key := Zeros(n)]
  }

  /** n requests at time 0, an eviction as soon as it takes the key away, and one more request. */
  function Burst(n: nat, expiration: nat, key: string): seq<Event> {
    if n == 0 then [Evict(expiration + 1), Ask(key, expiration + 1)] else [Ask(key, 0)] + Burst(n - 1, expiration, key)
  }

  lemma {:induction false} BurstMonotone(n: nat, expiration: nat, key: string)
    ensures Monotone(Burst(n, expiration, key), 0)
    decreases n
  {
    if n == 0 {
      assert Burst(0, expiration, key)[1..] == [Ask(key, expiration + 1)];
    } else {
      BurstMonotone(n - 1, expiration, key);
      assert Burst(n, expiration, key)[1..] == Burst(n - 1, expiration, key);
    }
  }

  lemma BurstEnd(n: nat, c: Config, key: string)
    requires 0 < n && c.rules(key).limit == n && c.evicts && c.rules(key).duration > c.expiration + 1
    ensures CodeRun(Filled(n, key), Burst(0, c.expiration, key), c) == [None, Some(true)]
    ensures RuleRun(Filled(n, key), Burst(0, c.expiration, key), c) == [None, Some(false)]
  {
    var now := c.expiration + 1;
    var tail := [Ask(key, now)];
    var burst := Burst(0, c.expiration, key);
    assert burst[0] == Evict(now) && burst[1..] == tail && tail[1..] == [];
    assert Evicted(Filled(n, key), c.expiration, now) == map[];
    YoungAtLeast(Zeros(n), n, c.rules(key).duration, now);
    assert CodeRun(map[], tail, c) == [Some(true)] + CodeRun(CodeStep(map[], tail[0], c).0, [], c);
    assert RuleRun(Filled(n, key), tail, c) == [Some(false)] + RuleRun(Filled(n, key), [], c);
  }

  lemma FillStep(k: nat, c: Config, key: string)
    requires k < c.rules(key).limit
    ensures CodeStep(Filled(k, key), Ask(key, 0), c) == (Filled(k + 1, key), Some(true))
    ensures RuleStep(Filled(k, key), Ask(key, 0), c) == (Filled(k + 1, key), Some(true))
  {
    YoungAtMost(Zeros(k), k, c.rules(key).duration, 0);
    assert Zeros(k) + [0] == Zeros(k + 1);
    assert Admit(QueueOf(Filled(k, key), key), c.rules(key).limit, 0) == Zeros(k + 1);
    assert HistoryOf(Filled(k, key), key) + [0] == Zeros(k + 1);
    assert Filled(k, key)[key := Zeros(k + 1)] == Filled(k + 1, key);
  }

  lemma BurstStep(k: nat, rest: seq<Event>, c: Config, key: string)
    requires k < c.rules(key).limit
    ensures CodeRun(Filled(k, key), [Ask(key, 0)] + rest, c) == [Some(true)] + CodeRun(Filled(k + 1, key), rest, c)
    ensures RuleRun(Filled(k, key), [Ask(key, 0)] + rest, c) == [Some(true)] + RuleRun(Filled(k + 1, key), rest, c)
  {
    FillStep(k, c, key);
    assert ([Ask(key, 0)] + rest)[1..] == rest;
  }

  /** The limiter and the rule decide some request of the key differently. */
  predicate Disagree(store: Store, events: seq<Event>, c: Config, key: string) {
    !SameFor(key, events, CodeRun(store, events, c), RuleRun(store, events, c))
  }

  lemma BurstEndDisagrees(n: nat, c: Config, key: string)
    requires 0 < n && c.rules(key).limit == n && c.evicts && c.rules(key).duration > c.expiration + 1
    ensures Disagree(Filled(n, key), Burst(0, c.expiration, key), c, key)
  {
    BurstEnd(n, c, key);
    assert Asks(Burst(0, c.expiration, key)[1], key);
  }

  lemma BurstStepDisagrees(k: nat, rest: seq<Event>, c: Config, key: string)
    requires k < c.rules(key).limit && Disagree(Filled(k + 1, key), rest, c, key)
    ensures Disagree(Filled(k, key), [Ask(key, 0)] + rest, c, key)
  {
    BurstStep(k, rest, c, key);
    SameForCons(key, Ask(key, 0), rest, Some(true), CodeRun(Filled(k + 1, key), rest, c), Some(true), RuleRun(Filled(k + 1, key), rest, c));
  }

  /** With k acceptances so far, the n requests up to the limit, an eviction and one request more. */
  lemma {:induction false} BurstDisagrees(k: nat, n: nat, c: Config, key: string)
    requires k + n == c.rules(key).limit && k + n > 0 && c.evicts && c.rules(key).duration > c.expiration + 1
    ensures Disagree(Filled(k, key), Burst(n, c.expiration, key), c, key)
    decreases n
  {
    if n == 0 {
      BurstEndDisagrees(k, c, key);
    } else {
      var rest := Burst(n - 1, c.expiration, key);
      BurstDisagrees(k + 1, n - 1, c, key);
      BurstStepDisagrees(k, rest, c, key);
    }
  }

  lemma ZeroLimitDisagrees(c: Config, key: string)
    requires c.rules(key).limit < 1
    ensures Disagree(map[], [Ask(key, 0)], c, key)
  {
    var once := [Ask(key, 0)];
    assert Asks(once[0], key) && CodeRun(map[], once, c)[0] == Some(true) && RuleRun(map[], once, c)[0] == Some(false);
  }

  ghost predicate FollowsRule(c: Config, key: string) {
    forall events, clock :: Monotone(events, clock) ==> !Disagree(map[], events, c, key)
  }

  /** Every decision on a key, under every interleaving with evictions and with requests of other
      keys and rules, is "fewer than limit accepted requests are younger than the window",
      exactly when the key's limit is positive and, if keys are evicted at all, its window is at
      most one second longer than the eviction age. */
  lemma LimiterFollowsRuleIff(c: Config, key: string)
    ensures FollowsRule(c, key) <==> Kept(c, key)
  {
    var limit := c.rules(key).limit;
    if limit < 1 {
      assert Monotone([Ask(key, 0)], 0);
      ZeroLimitDisagrees(c, key);
    } else if !Kept(c, key) {
      BurstMonotone(limit, c.expiration, key);
      BurstDisagrees(0, limit, c, key);
    } else {
      forall events, clock | Monotone(events, clock) ensures !Disagree(map[], events, c, key) {
        RunAgrees(map[], map[], clock, events, c, key);
      }
    }
  }

  // ---------- no window is overrun ----------

  function RuleHistory(history: Store, events: seq<Event>, c: Config): Store
    decreases |events|
  {
    if events == [] then history else RuleHistory(RuleStep(history, events[0], c).0, events[1..], c)
  }

  /** Acceptances that are `limit` apart in the list are at least a window apart in time. */
  predicate Spaced(times: seq<int>, r: Rule) {
    forall i, j :: 0 <= i < |times| && 0 <= j < |times| && j - i == r.limit ==> times[j] - times[i] >= r.duration
  }

  lemma LimitAgoIsOld(times: seq<int>, clock: int, now: int, r: Rule)
    requires Sorted(times, clock) && now >= clock && Young(times, r.duration, now) < r.limit <= |times|
    ensures now - times[|times| - r.limit] >= r.duration
  {
    if now - times[|times| - r.limit] < r.duration {
      YoungAtLeast(times, r.limit, r.duration, now);
    }
  }

  lemma SpacedAppend(times: seq<int>, now: int, r: Rule)
    requires Spaced(times, r) && r.limit >= 1
    requires |times| >= r.limit ==> now - times[|times| - r.limit] >= r.duration
    ensures Spaced(times + [now], r)
  {
    var times' := times + [now];
    forall i, j | 0 <= i < |times'| && 0 <= j < |times'| && j - i == r.limit
      ensures times'[j] - times'[i] >= r.duration
    {
      assert times'[i] == times[i];
    }
  }

  lemma AcceptedIsSpaced(times: seq<int>, clock: int, now: int, r: Rule)
    requires Sorted(times, clock) && now >= clock && Spaced(times, r)
    requires Young(times, r.duration, now) < r.limit
    ensures Spaced(times + [now], r) && Sorted(times + [now], now)
  {
    if |times| >= r.limit {
      LimitAgoIsOld(times, clock, now, r);
    }
    SpacedAppend(times, now, r);
    SortedAppend(times, clock, now);
  }

  lemma {:induction false} NoWindowOverrun(history: Store, clock: int, events: seq<Event>, c: Config, key: string)
    requires Monotone(events, clock)
    requires Sorted(HistoryOf(history, key), clock) && Spaced(HistoryOf(history, key), c.rules(key))
    ensures Spaced(HistoryOf(RuleHistory(history, events, c), key), c.rules(key))
    decreases |events|
  {
    if events != [] {
      var e := events[0];
      var history' := RuleStep(history, e, c).0;
      if Asks(e, key) && history' != history {
        AcceptedIsSpaced(HistoryOf(history, key), clock, e.now, c.rules(key));
      }
      NoWindowOverrun(history', e.now, events[1..], c, key);
    }
  }

  /** The times at which a run of decisions accepted requests of a key. */
  function AcceptedTimes(events: seq<Event>, decisions: seq<Option<bool>>, key: string): seq<int>
    requires |events| == |decisions|
    decreases |events|
  {
    if events == [] then []
    else
      (if Asks(events[0], key) && decisions[0] == Some(true) then [events[0].now] else [])
      + AcceptedTimes(events[1..], decisions[1..], key)
  }

  lemma {:induction false} AcceptedAgree(events: seq<Event>, a: seq<Option<bool>>, b: seq<Option<bool>>, key: string)
    requires SameFor(key, events, a, b)
    ensures AcceptedTimes(events, a, key) == AcceptedTimes(events, b, key)
    decreases |events|
  {
    if events != [] {
      assert events == [events[0]] + events[1..] && a == [a[0]] + a[1..] && b == [b[0]] + b[1..];
      SameForCons(key, events[0], events[1..], a[0], a[1..], b[0], b[1..]);
      AcceptedAgree(events[1..], a[1..], b[1..], key);
    }
  }

  lemma {:induction false} RuleHistoryIsAccepted(history: Store, events: seq<Event>, key: string, c: Config)
    ensures |RuleRun(history, events, c)| == |events|
    ensures HistoryOf(RuleHistory(history, events, c), key)
         == HistoryOf(history, key) + AcceptedTimes(events, RuleRun(history, events, c), key)
    decreases |events|
  {
    if events != [] {
      var (history', d) := RuleStep(history, events[0], c);
      RuleHistoryIsAccepted(history', events[1..], key, c);
      assert RuleRun(history, events, c)[1..] == RuleRun(history', events[1..], c);
    }
  }

  /** The limiter never accepts more than `limit` requests of a key within one window. */
  lemma WindowsAreBounded(events: seq<Event>, clock: int, key: string, c: Config)
    requires Monotone(events, clock) && Kept(c, key)
    ensures |CodeRun(map[], events, c)| == |events|
    ensures Spaced(AcceptedTimes(events, CodeRun(map[], events, c), key), c.rules(key))
  {
    RunAgrees(map[], map[], clock, events, c, key);
    AcceptedAgree(events, CodeRun(map[], events, c), RuleRun(map[], events, c), key);
    RuleHistoryIsAccepted(map[], events, key, c);
    NoWindowOverrun(map[], clock, events, c, key);
    assert HistoryOf(map[], key) + AcceptedTimes(events, CodeRun(map[], events, c), key)
        == AcceptedTimes(events, CodeRun(map[], events, c), key);
  }

  // ---------- every decision of a run ----------

  /** The requests of the key before the `i`-th that were accepted and are younger than `duration` at `now`. */
  function Recent(events: seq<Event>, decisions: seq<Option<bool>>, key: string, i: nat, duration: int, now: int): set<nat>
    requires i <= |events| == |decisions|
  {
    set j: nat | 0 <= j < i && Asks(events[j], key) && decisions[j] == Some(true) && now - events[j].now < duration
  }

  lemma {:induction false} RuleHistoryAppend(history: Store, events: seq<Event>, e: Event, c: Config)
    ensures RuleHistory(history, events + [e], c) == RuleStep(RuleHistory(history, events, c), e, c).0
    decreases |events|
  {
    if events != [] {
      RuleHistoryAppend(RuleStep(history, events[0], c).0, events[1..], e, c);
      assert (events + [e])[1..] == events[1..] + [e];
    } else {
      assert (events + [e])[1..] == [];
    }
  }

  lemma {:induction false} RuleRunAt(history: Store, events: seq<Event>, c: Config, i: nat)
    requires i < |events|
    ensures |RuleRun(history, events, c)| == |events|
    ensures RuleRun(history, events, c)[i] == RuleStep(RuleHistory(history, events[..i], c), events[i], c).1
    decreases |events|
  {
    var history' := RuleStep(history, events[0], c).0;
    if i > 0 {
      RuleRunAt(history', events[1..], c, i - 1);
      assert events[..i][1..] == events[1..][..i - 1];
    } else if |events| > 1 {
      RuleRunAt(history', events[1..], c, 0);
    } else {
      assert events[1..] == [];
    }
  }

  lemma RecentStep(events: seq<Event>, decisions: seq<Option<bool>>, key: string, i: nat, duration: int, now: int)
    requires i < |events| == |decisions|
    ensures |Recent(events, decisions, key, i + 1, duration, now)| == |Recent(events, decisions, key, i, duration, now)|
      + (if Asks(events[i], key) && decisions[i] == Some(true) && now - events[i].now < duration then 1 else 0)
  {
    var older, all := Recent(events, decisions, key, i, duration, now), Recent(events, decisions, key, i + 1, duration, now);
    if Asks(events[i], key) && decisions[i] == Some(true) && now - events[i].now < duration {
      assert all == older + {i};
    } else {
      assert all == older;
    }
  }

  lemma YoungAppend(times: seq<int>, t: int, duration: int, now: int)
    ensures Young(times + [t], duration, now) == Young(times, duration, now) + (if now - t < duration then 1 else 0)
  {
    assert (times + [t])[..|times|] == times;
  }

  /** What a step of the rule does to the history of one key, given its own decision. */
  lemma HistoryByDecision(history: Store, e: Event, c: Config, key: string)
    ensures HistoryOf(RuleStep(history, e, c).0, key) ==
      if Asks(e, key) && RuleStep(history, e, c).1 == Some(true) then HistoryOf(history, key) + [e.now]
      else HistoryOf(history, key)
  {
  }

  lemma YoungStep(history: Store, e: Event, c: Config, key: string, duration: int, now: int)
    ensures Young(HistoryOf(RuleStep(history, e, c).0, key), duration, now) == Young(HistoryOf(history, key), duration, now)
      + (if Asks(e, key) && RuleStep(history, e, c).1 == Some(true) && now - e.now < duration then 1 else 0)
  {
    HistoryByDecision(history, e, c, key);
    YoungAppend(HistoryOf(history, key), e.now, duration, now);
  }

  lemma {:induction false} YoungIsRecent(events: seq<Event>, c: Config, key: string, i: nat, duration: int, now: int)
    requires i <= |events| == |RuleRun(map[], events, c)|
    ensures Young(HistoryOf(RuleHistory(map[], events[..i], c), key), duration, now)
         == |Recent(events, RuleRun(map[], events, c), key, i, duration, now)|
    decreases i
  {
    if i > 0 {
      var e, history := events[i - 1], RuleHistory(map[], events[..i - 1], c);
      YoungIsRecent(events, c, key, i - 1, duration, now);
      RuleRunAt(map[], events, c, i - 1);
      RecentStep(events, RuleRun(map[], events, c), key, i - 1, duration, now);
      YoungStep(history, e, c, key, duration, now);
      RuleHistoryAppend(map[], events[..i - 1], e, c);
      assert events[..i] == events[..i - 1] + [e];
    } else {
      assert events[..0] == [];
    }
  }

  /** For a key whose rule can be kept, a request of any run is accepted if and only if fewer than
      `limit` requests of that key were accepted less than `duration` seconds before. */
  lemma AcceptedIff(events: seq<Event>, clock: int, key: string, c: Config, i: nat)
    requires Monotone(events, clock) && Kept(c, key) && i < |events| && Asks(events[i], key)
    ensures |CodeRun(map[], events, c)| == |events|
    ensures var ds, r := CodeRun(map[], events, c), c.rules(key);
      ds[i] == Some(|Recent(events, ds, key, i, r.duration, events[i].now)| < r.limit)
  {
    RunAgrees(map[], map[], clock, events, c, key);
    var ds, rs, r := CodeRun(map[], events, c), RuleRun(map[], events, c), c.rules(key);
    RuleRunAt(map[], events, c, i);
    YoungIsRecent(events, c, key, i, r.duration, events[i].now);
    assert Recent(events, ds, key, i, r.duration, events[i].now) == Recent(events, rs, key, i, r.duration, events[i].now);
  }
}
