/** Accounting of body storages: how many are open, how many bytes they hold, and the disk limit. */
module BodyCache {

  datatype Config = Config(enabled: bool, threshold: int, maxBytes: int)

  datatype Stats = Stats(
    diskFiles: int, diskBytes: int, memoryBuffers: int, memoryBytes: int, diskHits: nat, memoryHits: nat)

  datatype Stored = Stored(onDisk: bool, size: nat, closed: bool)

  /** `storages` are all storages created so far. */
  datatype State = State(stats: Stats, storages: seq<Stored>)

  const START := State(Stats(0, 0, 0, 0, 0, 0), [])

  /** `readOk` and `diskOk` say whether the body could be read and the temporary file written. */
  datatype Event =
    | Create(size: nat, diskOk: bool)
    | CreateFromReader(body: nat, declared: int, limit: int, readOk: bool, diskOk: bool)
    | Close(index: nat)

  predicate Available(c: Config, s: State, size: int) {
    c.enabled && s.stats.diskBytes + size <= c.maxBytes
  }

  function Add(s: State, onDisk: bool, size: nat): State {
    var t := s.stats;
    State(if onDisk then t.(diskFiles := t.diskFiles + 1, diskBytes := t.diskBytes + size)
          else t.(memoryBuffers := t.memoryBuffers + 1, memoryBytes := t.memoryBytes + size),
          s.storages + [Stored(onDisk, size, false)])
  }

  function Hit(s: State, onDisk: bool): State {
    s.(stats := if onDisk then s.stats.(diskHits := s.stats.diskHits + 1) else s.stats.(memoryHits := s.stats.memoryHits + 1))
  }

  /** Whether CreateBodyStorage ends up on disk. */
  predicate GoesToDisk(c: Config, s: State, size: nat, diskOk: bool) {
    c.enabled && size >= c.threshold && Available(c, s, size) && diskOk
  }

  /** Whether a reader is streamed to disk without looking at its length first. */
  predicate Streams(c: Config, s: State, declared: int) {
    c.enabled && declared > 0 && declared >= c.threshold && Available(c, s, declared)
  }

  /** Whether a creation from a reader returns a storage. */
  predicate Succeeds(c: Config, s: State, e: Event) {
    e.CreateFromReader? && e.readOk && e.body <= e.limit && (Streams(c, s, e.declared) ==> e.diskOk)
  }

  /** A counter that may not go below zero. */
  function Clamp(x: int): int { if x < 0 then 0 else x }

  function Step(c: Config, s: State, e: Event): State {
    match e
    case Create(size, diskOk) => Add(s, GoesToDisk(c, s, size, diskOk), size)
    case CreateFromReader(body, declared, limit, readOk, diskOk) =>
      if !Succeeds(c, s, e) then s
      else
        var onDisk := Streams(c, s, declared) || GoesToDisk(c, s, body, diskOk);
        Hit(Add(s, onDisk, body), onDisk)
    case Close(i) =>
      if i >= |s.storages| || s.storages[i].closed then s
      else
        var x, t := s.storages[i], s.stats;
        State(if x.onDisk then t.(diskFiles := Clamp(t.diskFiles - 1), diskBytes := Clamp(t.diskBytes - x.size))
              else t.(memoryBuffers := t.memoryBuffers - 1, memoryBytes := t.memoryBytes - x.size),
              s.storages[i := x.(closed := true)])
  }

  function Run(c: Config, s: State, events: seq<Event>): State
    decreases |events|
  {
    if events == [] then s else Run(c, Step(c, s, events[0]), events[1..])
  }

  /** The global counters and the open storages, changed call by call. */
  class Cache {
    var state: State
    const config: Config

    constructor (config: Config)
      ensures state == START && this.config == config
    {
      state, this.config := START, config;
    }

    method CreateBodyStorage(size: nat, diskOk: bool) returns (onDisk: bool)
      modifies this
      ensures state == Step(config, old(state), Create(size, diskOk))
      ensures onDisk == GoesToDisk(config, old(state), size, diskOk)
    {
      onDisk := false;
      if config.enabled && size >= config.threshold && Available(config, state, size) {
        if diskOk {
          state := Add(state, true, size);
          return true;
        }
      }
      state := Add(state, false, size);
    }

    method CreateBodyStorageFromReader(body: nat, declared: int, limit: int, readOk: bool, diskOk: bool) returns (ok: bool)
      modifies this
      ensures state == Step(config, old(state), CreateFromReader(body, declared, limit, readOk, diskOk))
      ensures ok == Succeeds(config, old(state), CreateFromReader(body, declared, limit, readOk, diskOk))
    {
      if config.enabled && declared > 0 && declared >= config.threshold && Available(config, state, declared) {
        if !diskOk || !readOk || body > limit {
          return false;
        }
        state := Add(state, true, body);
        state := Hit(state, true);
        return true;
      }
      if !readOk || body > limit {
        return false;
      }
      var onDisk := CreateBodyStorage(body, diskOk);
      state := Hit(state, onDisk);
      return true;
    }

    method CloseStorage(i: nat)
      requires i < |state.storages|
      modifies this
      ensures state == Step(config, old(state), Close(i))
    {
      var x := state.storages[i];
      if x.closed {
        return;
      }
      state := state.(storages := state.storages[i := x.(closed := true)]);
      var t := state.stats;
      if x.onDisk {
        t := t.(diskFiles := if t.diskFiles - 1 < 0 then 0 else t.diskFiles - 1);
        t := t.(diskBytes := if t.diskBytes - x.size < 0 then 0 else t.diskBytes - x.size);
      } else {
        t := t.(memoryBuffers := t.memoryBuffers - 1, memoryBytes := t.memoryBytes - x.size);
      }
      state := state.(stats := t);
    }
  }

  // ---------- where a body ends up ----------

  predicate OneMore(s: State, s': State, x: Stored) {
    s'.storages == s.storages + [x]
  }

  /** A body goes to disk if disk caching is on, the body is large enough, it fits into the limit
      and the file can be written; otherwise into memory. */
  predicate FitsOnDisk(c: Config, s: State, size: int) {
    c.enabled && size >= c.threshold && s.stats.diskBytes + size <= c.maxBytes
  }

  lemma CreateIsExact(c: Config, s: State, size: nat, diskOk: bool)
    ensures var s' := Step(c, s, Create(size, diskOk));
      && OneMore(s, s', Stored(FitsOnDisk(c, s, size) && diskOk, size, false))
      && s'.stats.diskHits == s.stats.diskHits && s'.stats.memoryHits == s.stats.memoryHits
  {
  }

  /** A reader is streamed to disk if a positive declared length fits there. It is refused exactly
      if it cannot be read, is longer than the limit, or is streamed to a file that cannot be
      written. Otherwise one storage is added and one hit of its kind counted. */
  lemma CreateFromReaderIsExact(c: Config, s: State, body: nat, declared: int, limit: int, readOk: bool, diskOk: bool)
    ensures var s' := Step(c, s, CreateFromReader(body, declared, limit, readOk, diskOk));
      var streamed := declared > 0 && FitsOnDisk(c, s, declared);
      var onDisk := diskOk && (streamed || FitsOnDisk(c, s, body));
      if !readOk || body > limit || (streamed && !diskOk) then s' == s
      else
        && OneMore(s, s', Stored(onDisk, body, false))
        && s'.stats.diskHits == s.stats.diskHits + (if onDisk then 1 else 0)
        && s'.stats.memoryHits == s.stats.memoryHits + (if onDisk then 0 else 1)
  {
  }

  // ---------- the counters tell the truth ----------

  /** The open storages of one kind, and their sizes added up. */
  function OpenCount(xs: seq<Stored>, onDisk: bool): nat {
    if xs == [] then 0
    else OpenCount(xs[..|xs| - 1], onDisk) + (var x := xs[|xs| - 1]; if !x.closed && x.onDisk == onDisk then 1 else 0)
  }

  function OpenBytes(xs: seq<Stored>, onDisk: bool): nat {
    if xs == [] then 0
    else OpenBytes(xs[..|xs| - 1], onDisk) + (var x := xs[|xs| - 1]; if !x.closed && x.onDisk == onDisk then x.size else 0)
  }

  predicate Truthful(s: State) {
    && s.stats.diskFiles == OpenCount(s.storages, true) && s.stats.diskBytes == OpenBytes(s.storages, true)
    && s.stats.memoryBuffers == OpenCount(s.storages, false) && s.stats.memoryBytes == OpenBytes(s.storages, false)
  }

  lemma AppendCounts(xs: seq<Stored>, x: Stored, onDisk: bool)
    requires !x.closed
    ensures OpenCount(xs + [x], onDisk) == OpenCount(xs, onDisk) + (if x.onDisk == onDisk then 1 else 0)
    ensures OpenBytes(xs + [x], onDisk) == OpenBytes(xs, onDisk) + (if x.onDisk == onDisk then x.size else 0)
  {
    assert (xs + [x])[..|xs|] == xs;
  }

  lemma {:induction false} CloseCounts(xs: seq<Stored>, i: nat, onDisk: bool)
    requires i < |xs| && !xs[i].closed
    ensures var ys := xs[i := xs[i].(closed := true)];
      && OpenCount(ys, onDisk) == OpenCount(xs, onDisk) - (if xs[i].onDisk == onDisk then 1 else 0)
      && OpenBytes(ys, onDisk) == OpenBytes(xs, onDisk) - (if xs[i].onDisk == onDisk then xs[i].size else 0)
    decreases |xs|
  {
    var ys := xs[i := xs[i].(closed := true)];
    var init := xs[..|xs| - 1];
    if i < |init| {
      CloseCounts(init, i, onDisk);
      assert ys[..|xs| - 1] == init[i := init[i].(closed := true)];
    } else {
      assert ys[..|xs| - 1] == init;
    }
  }

  predicate IsOpen(x: Stored, onDisk: bool) { !x.closed && x.onDisk == onDisk }

  /** The open storages of one kind among the first `n`. */
  function OpenAmong(xs: seq<Stored>, n: nat, onDisk: bool): set<nat>
    requires n <= |xs|
  {
    set i: nat | i < n && IsOpen(xs[i], onDisk)
  }

  lemma OpenAmongStep(xs: seq<Stored>, n: nat, onDisk: bool)
    requires n < |xs|
    ensures |OpenAmong(xs, n + 1, onDisk)| == |OpenAmong(xs, n, onDisk)| + (if IsOpen(xs[n], onDisk) then 1 else 0)
  {
    var before, after := OpenAmong(xs, n, onDisk), OpenAmong(xs, n + 1, onDisk);
    if IsOpen(xs[n], onDisk) {
      assert after == before + {n};
    } else {
      assert after == before;
    }
  }

  /** The count is the number of open storages of the kind. */
  lemma {:induction false} OpenCountIsExact(xs: seq<Stored>, n: nat, onDisk: bool)
    requires n <= |xs|
    ensures OpenCount(xs[..n], onDisk) == |OpenAmong(xs, n, onDisk)|
    decreases n
  {
    if n > 0 {
      OpenCountIsExact(xs, n - 1, onDisk);
      OpenAmongStep(xs, n - 1, onDisk);
      assert xs[..n][..n - 1] == xs[..n - 1];
    }
  }

  lemma StepKeepsTruth(c: Config, s: State, e: Event)
    requires Truthful(s)
    ensures Truthful(Step(c, s, e))
  {
    var s' := Step(c, s, e);
    if |s'.storages| > |s.storages| {
      var x := s'.storages[|s.storages|];
      assert s'.storages == s.storages + [x];
      AppendCounts(s.storages, x, true);
      AppendCounts(s.storages, x, false);
    } else if e.Close? && e.index < |s.storages| && !s.storages[e.index].closed {
      CloseCounts(s.storages, e.index, true);
      CloseCounts(s.storages, e.index, false);
    }
  }

  /** Nothing is open at the start, and the counters say so. */
  lemma StartIsTruthful()
    ensures Truthful(START) && START == State(Stats(0, 0, 0, 0, 0, 0), [])
  {
  }

  /** A close takes the storage's own share off the counters of its kind; those of the disk do not
      go below zero. */
  lemma CloseIsExact(c: Config, s: State, i: nat)
    requires i < |s.storages| && !s.storages[i].closed
    ensures var x, t, s' := s.storages[i], s.stats, Step(c, s, Close(i));
      && s'.storages == s.storages[i := Stored(x.onDisk, x.size, true)]
      && (if x.onDisk
          then && s'.stats.diskFiles == (if t.diskFiles >= 1 then t.diskFiles - 1 else 0)
               && s'.stats.diskBytes == (if t.diskBytes >= x.size then t.diskBytes - x.size else 0)
               && s'.stats.memoryBuffers == t.memoryBuffers && s'.stats.memoryBytes == t.memoryBytes
          else && s'.stats.memoryBuffers == t.memoryBuffers - 1 && s'.stats.memoryBytes == t.memoryBytes - x.size
               && s'.stats.diskFiles == t.diskFiles && s'.stats.diskBytes == t.diskBytes)
      && s'.stats.diskHits == t.diskHits && s'.stats.memoryHits == t.memoryHits
  {
  }

  /** In every run the counters equal the number and the total size of the storages created and
      not yet closed. */
  lemma {:induction false} CountersAreTruthful(c: Config, s: State, events: seq<Event>)
    requires Truthful(s)
    ensures Truthful(Run(c, s, events))
    decreases |events|
  {
    if events != [] {
      StepKeepsTruth(c, s, events[0]);
      CountersAreTruthful(c, Step(c, s, events[0]), events[1..]);
    }
  }

  lemma {:induction false} ClosedStaysClosed(c: Config, s: State, events: seq<Event>, i: nat)
    requires i < |s.storages| && s.storages[i].closed
    ensures i < |Run(c, s, events).storages| && Run(c, s, events).storages[i].closed
    decreases |events|
  {
    if events != [] { ClosedStaysClosed(c, Step(c, s, events[0]), events[1..], i); }
  }

  /** Closing a storage again changes nothing, whatever happened since the first close. */
  lemma LaterCloseChangesNothing(c: Config, s: State, i: nat, events: seq<Event>)
    requires i < |s.storages|
    ensures var later := Run(c, Step(c, s, Close(i)), events); Step(c, later, Close(i)) == later
  {
    ClosedStaysClosed(c, Step(c, s, Close(i)), events, i);
  }

  /** The creations from readers that return a storage. */
  function Served(c: Config, s: State, events: seq<Event>): nat
    decreases |events|
  {
    if events == [] then 0
    else (if Succeeds(c, s, events[0]) then 1 else 0) + Served(c, Step(c, s, events[0]), events[1..])
  }

  /** Over every run the hit counters grow by the creations from readers that return a storage,
      so each of those is one hit, of one kind, and nothing else is. */
  lemma {:induction false} HitsCountServed(c: Config, s: State, events: seq<Event>)
    ensures var t, t' := s.stats, Run(c, s, events).stats;
      t'.diskHits + t'.memoryHits == t.diskHits + t.memoryHits + Served(c, s, events)
    decreases |events|
  {
    if events != [] { HitsCountServed(c, Step(c, s, events[0]), events[1..]); }
  }

  // ---------- the disk limit ----------

  /** Readers deliver at most what they declared. */
  predicate Honest(e: Event) {
    e.CreateFromReader? ==> e.body <= e.declared || e.declared <= 0
  }

  lemma {:induction false} DiskStaysWithinLimit(c: Config, s: State, events: seq<Event>)
    requires Truthful(s) && s.stats.diskBytes <= c.maxBytes
    requires forall i :: 0 <= i < |events| ==> Honest(events[i])
    ensures Run(c, s, events).stats.diskBytes <= c.maxBytes
    decreases |events|
  {
    if events != [] {
      StepKeepsTruth(c, s, events[0]);
      DiskStaysWithinLimit(c, Step(c, s, events[0]), events[1..]);
    }
  }

  /** The limit is overrun exactly by a streamed body that is longer than the room that was left. */
  lemma LimitOverrunIff(c: Config, s: State, e: Event)
    requires Truthful(s) && s.stats.diskBytes <= c.maxBytes
    ensures Step(c, s, e).stats.diskBytes > c.maxBytes <==>
      && e.CreateFromReader? && e.declared > 0 && FitsOnDisk(c, s, e.declared) && e.readOk && e.diskOk && e.body <= e.limit
      && e.body > c.maxBytes - s.stats.diskBytes
  {
  }
}
