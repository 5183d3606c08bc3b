/**
The registry of reference-counted mutexes that serialises work on one trade
number. Every statement of `LockOrder` and `UnlockOrder` that touches shared
memory is one atomic step, and any number of threads interleave freely.
*/
module OrderLocks {
  import opened Prelude

  type Thread = nat
  type TradeNo = string
  type MutexId = nat

  datatype Mutex = Mutex(locked: bool, refCount: int)

  /** Where a thread stands. `mu` is the mutex its `LockOrder` call picked;
      `found` is what `UnlockOrder` reads back from the registry. */
  datatype PC =
    | Idle
    | LockWait(no: TradeNo)                                        // createLock.Lock()
    | LockLookup(no: TradeNo)                                      // Load, or Store of a new mutex
    | LockCount(no: TradeNo, mu: MutexId)                          // refCount++
    | LockRelease(no: TradeNo, mu: MutexId)                        // createLock.Unlock()
    | MutexWait(no: TradeNo, mu: MutexId)                          // mu.Lock()
    | Critical(no: TradeNo, mu: MutexId)                           // LockOrder has returned
    | Reloaded(no: TradeNo, mu: MutexId, found: MutexId)           // mu.Unlock()
    | UnlockWait(no: TradeNo, mu: MutexId, found: MutexId)         // createLock.Lock()
    | UnlockCount(no: TradeNo, mu: MutexId, found: MutexId)        // refCount--
    | UnlockDelete(no: TradeNo, mu: MutexId, found: MutexId)       // Delete when the count is zero
    | UnlockRelease                                                // createLock.Unlock()

  /** `creator` is the thread that locked createLock; `next` the first unused
      heap address; `crashed` records the unlock of an unlocked mutex, which
      the Go runtime answers by aborting. */
  datatype State = State(
    registry: map<TradeNo, MutexId>,
    heap: map<MutexId, Mutex>,
    next: MutexId,
    creator: Option<Thread>,
    pcs: map<Thread, PC>,
    crashed: bool)
  {
    function At(t: Thread): PC {
      if t in pcs then pcs[t] else Idle
    }

    function Cell(m: MutexId): Mutex {
      if m in heap then heap[m] else Mutex(false, 0)
    }

    function Unlock(m: MutexId): State {
      if Cell(m).locked then this.(heap := heap[m := Cell(m).(locked := false)])
      else this.(crashed := true)
    }

    function AddRef(m: MutexId, delta: int): State {
      this.(heap := heap[m := Cell(m).(refCount := Cell(m).refCount + delta)])
    }

    function ReleaseCreate(): State {
      if creator.None? then this.(crashed := true) else this.(creator := None)
    }
  }

  const EMPTY := State(map[], map[], 0, None, map[], false)

  /** Only a locked mutex can hold a thread back. */
  predicate Enabled(s: State, t: Thread) {
    match s.At(t)
    case LockWait(_) => s.creator.None?
    case UnlockWait(_, _, _) => s.creator.None?
    case MutexWait(_, mu) => !s.Cell(mu).locked
    case _ => true
  }

  /** What the next step of thread `t` does to the shared memory. */
  function Effect(s: State, t: Thread): State {
    match s.At(t)
    case LockWait(_) => s.(creator := Some(t))
    case LockLookup(n) =>
      if n in s.registry then s
      else s.(registry := s.registry[n := s.next], heap := s.heap[s.next := Mutex(false, 0)], next := s.next + 1)
    case LockCount(_, mu) => s.AddRef(mu, 1)
    case LockRelease(_, _) => s.ReleaseCreate()
    case MutexWait(_, mu) => s.(heap := s.heap[mu := s.Cell(mu).(locked := true)])
    case Reloaded(_, _, found) => s.Unlock(found)
    case UnlockWait(_, _, _) => s.(creator := Some(t))
    case UnlockCount(_, _, found) => s.AddRef(found, -1)
    case UnlockDelete(n, _, found) => if s.Cell(found).refCount == 0 then s.(registry := s.registry - {n}) else s
    case UnlockRelease => s.ReleaseCreate()
    case _ => s
  }

  /** Where the next step takes thread `t`; an idle thread calls `LockOrder(no)`. */
  function Next(s: State, t: Thread, no: TradeNo): PC {
    match s.At(t)
    case Idle => LockWait(no)
    case LockWait(n) => LockLookup(n)
    case LockLookup(n) => LockCount(n, if n in s.registry then s.registry[n] else s.next)
    case LockCount(n, mu) => LockRelease(n, mu)
    case LockRelease(n, mu) => MutexWait(n, mu)
    case MutexWait(n, mu) => Critical(n, mu)
    case Critical(n, mu) => if n in s.registry then Reloaded(n, mu, s.registry[n]) else Idle
    case Reloaded(n, mu, found) => UnlockWait(n, mu, found)
    case UnlockWait(n, mu, found) => UnlockCount(n, mu, found)
    case UnlockCount(n, mu, found) => UnlockDelete(n, mu, found)
    case UnlockDelete(_, _, _) => UnlockRelease
    case UnlockRelease => Idle
  }

  function Step(s: State, t: Thread, no: TradeNo): State
    requires Enabled(s, t)
  {
    Effect(s, t).(pcs := s.pcs[t := Next(s, t, no)])
  }

  /** One scheduling decision: which thread moves, and the trade number it
      would start on if it is idle. */
  datatype Move = Move(thread: Thread, no: TradeNo)

  predicate Schedulable(s: State, moves: seq<Move>)
    decreases |moves|
  {
    moves == [] ||
    (Enabled(s, moves[0].thread) && Schedulable(Step(s, moves[0].thread, moves[0].no), moves[1..]))
  }

  function Run(s: State, moves: seq<Move>): State
    requires Schedulable(s, moves)
    decreases |moves|
  {
    if moves == [] then s else Run(Step(s, moves[0].thread, moves[0].no), moves[1..])
  }

  // ---------- the invariant ----------

  /** The thread holds createLock. */
  predicate InCreate(pc: PC) {
    pc.LockLookup? || pc.LockCount? || pc.LockRelease? || pc.UnlockCount? || pc.UnlockDelete? || pc.UnlockRelease?
  }

  /** The thread is past `refCount++` and not yet past `refCount--`. */
  predicate Counted(pc: PC) {
    pc.LockRelease? || pc.MutexWait? || pc.Critical? || pc.Reloaded? || pc.UnlockWait? || pc.UnlockCount?
  }

  predicate Active(pc: PC, m: MutexId) {
    Counted(pc) && pc.mu == m
  }

  /** The thread is between the return of `LockOrder` and the mutex unlock in `UnlockOrder`. */
  predicate Holding(pc: PC) {
    pc.Critical? || pc.Reloaded?
  }

  predicate SameHold(pc: PC, pc': PC) {
    Holding(pc) && Holding(pc') && pc.mu == pc'.mu
  }

  /** The thread relies on its mutex staying registered. */
  predicate Pinned(pc: PC) {
    pc.LockCount? || pc.LockRelease? || pc.MutexWait? || pc.Critical? || pc.Reloaded?
    || pc.UnlockWait? || pc.UnlockCount? || pc.UnlockDelete?
  }

  predicate Reread(pc: PC) {
    pc.Reloaded? || pc.UnlockWait? || pc.UnlockCount? || pc.UnlockDelete?
  }

  ghost function ActiveThreads(pcs: map<Thread, PC>, m: MutexId): set<Thread> {
    set t | t in pcs && Active(pcs[t], m)
  }

  ghost predicate HeapInv(s: State) {
    && (forall m :: m in s.heap ==> m < s.next)
    && (forall n :: n in s.registry ==> s.registry[n] in s.heap)
    && (forall n, n' :: n in s.registry && n' in s.registry && s.registry[n] == s.registry[n'] ==> n == n')
  }

  ghost predicate PinInv(s: State) {
    forall t :: t in s.pcs && Pinned(s.pcs[t]) ==>
      && s.pcs[t].no in s.registry && s.registry[s.pcs[t].no] == s.pcs[t].mu
      && (Reread(s.pcs[t]) ==> s.pcs[t].found == s.pcs[t].mu)
  }

  ghost predicate CountInv(s: State) {
    forall m :: m in s.heap ==> s.heap[m].refCount == |ActiveThreads(s.pcs, m)|
  }

  ghost predicate CreateInv(s: State) {
    && (s.creator.Some? ==> s.creator.value in s.pcs)
    && forall t :: t in s.pcs ==> (InCreate(s.pcs[t]) <==> s.creator == Some(t))
  }

  /** An unreferenced entry exists only while the creator is on its way to
      count itself in, or to delete the entry. */
  ghost predicate EntryInv(s: State) {
    forall n :: n in s.registry && ActiveThreads(s.pcs, s.registry[n]) == {} ==>
         && s.creator.Some? && s.creator.value in s.pcs
         && (s.pcs[s.creator.value].LockCount? || s.pcs[s.creator.value].UnlockDelete?)
         && s.pcs[s.creator.value].no == n
  }

  ghost predicate HoldInv(s: State) {
    && (forall t, u :: t in s.pcs && u in s.pcs && SameHold(s.pcs[t], s.pcs[u]) ==> t == u)
    && (forall t :: t in s.pcs && Holding(s.pcs[t]) ==> s.Cell(s.pcs[t].mu).locked)
    && (forall m :: m in s.heap && s.heap[m].locked ==> exists t :: t in s.pcs && Holding(s.pcs[t]) && s.pcs[t].mu == m)
  }

  ghost predicate Inv(s: State) {
    HeapInv(s) && PinInv(s) && CountInv(s) && CreateInv(s) && EntryInv(s) && HoldInv(s) && !s.crashed
  }

  // ---------- every step keeps it ----------

  lemma ActiveAfterGoto(pcs: map<Thread, PC>, t: Thread, pc: PC, m: MutexId)
    ensures ActiveThreads(pcs[t := pc], m)
         == if Active(pc, m) then ActiveThreads(pcs, m) + {t} else ActiveThreads(pcs, m) - {t}
  {
  }

  lemma StepKeepsHeap(s: State, t: Thread, no: TradeNo)
    requires HeapInv(s) && PinInv(s) && Enabled(s, t)
    ensures HeapInv(Step(s, t, no))
  {
  }

  /** The re-read at the start of `UnlockOrder` is safe: while an entry's count
      is zero, the thread about to delete it is the only one relying on it. */
  lemma LastUserIsAlone(s: State, t: Thread, u: Thread)
    requires HeapInv(s) && PinInv(s) && CountInv(s) && CreateInv(s)
    requires s.At(t).UnlockDelete? && s.Cell(s.At(t).found).refCount == 0
    requires u in s.pcs && Pinned(s.pcs[u]) && u != t
    ensures s.pcs[u].no != s.At(t).no
  {
    var m := s.At(t).mu;
    assert s.registry[s.At(t).no] == m && s.registry[s.pcs[u].no] == s.pcs[u].mu;
    assert Active(s.pcs[u], m) ==> u in ActiveThreads(s.pcs, m);
    assert InCreate(s.pcs[t]);
  }

  lemma StepKeepsPins(s: State, t: Thread, no: TradeNo)
    requires HeapInv(s) && PinInv(s) && CountInv(s) && CreateInv(s) && Enabled(s, t)
    ensures PinInv(Step(s, t, no))
  {
    var s' := Step(s, t, no);
    forall u | u in s'.pcs && Pinned(s'.pcs[u])
      ensures s'.pcs[u].no in s'.registry && s'.registry[s'.pcs[u].no] == s'.pcs[u].mu
      ensures Reread(s'.pcs[u]) ==> s'.pcs[u].found == s'.pcs[u].mu
    {
      if u != t && s.At(t).UnlockDelete? && s.Cell(s.At(t).found).refCount == 0 {
        LastUserIsAlone(s, t, u);
      }
    }
  }

  /** A step changes at most one count, and by exactly the stepping thread's own coming or going. */
  lemma StepCount(s: State, t: Thread, no: TradeNo, m: MutexId)
    requires HeapInv(s) && PinInv(s) && Enabled(s, t)
    requires m in Step(s, t, no).heap
    ensures m in s.heap || (m == s.next && Step(s, t, no).heap[m].refCount == 0)
    ensures m in s.heap ==>
      Step(s, t, no).heap[m].refCount - s.heap[m].refCount
      == (if Active(Step(s, t, no).At(t), m) then 1 else 0) - (if Active(s.At(t), m) then 1 else 0)
    ensures m !in s.heap ==> !Active(Step(s, t, no).At(t), m)
  {
  }

  lemma StepKeepsCounts(s: State, t: Thread, no: TradeNo)
    requires HeapInv(s) && PinInv(s) && CountInv(s) && Enabled(s, t)
    ensures CountInv(Step(s, t, no))
  {
    var s' := Step(s, t, no);
    forall m | m in s'.heap
      ensures s'.heap[m].refCount == |ActiveThreads(s'.pcs, m)|
    {
      StepCount(s, t, no, m);
      GotoOnly(s, t, no);
      ActiveAfterGoto(s.pcs, t, s'.At(t), m);
      assert t in ActiveThreads(s.pcs, m) <==> Active(s.At(t), m);
      if m !in s.heap {
        FreshUnused(s, m);
      }
    }
  }

  lemma FreshUnused(s: State, m: MutexId)
    requires HeapInv(s) && PinInv(s) && m !in s.heap
    ensures ActiveThreads(s.pcs, m) == {}
  {
  }

  lemma GotoOnly(s: State, t: Thread, no: TradeNo)
    requires Enabled(s, t)
    ensures Step(s, t, no).pcs == s.pcs[t := Step(s, t, no).At(t)]
  {
  }

  lemma StepKeepsCreate(s: State, t: Thread, no: TradeNo)
    requires CreateInv(s) && Enabled(s, t)
    ensures CreateInv(Step(s, t, no))
  {
    GotoOnly(s, t, no);
  }

  /** No step unlocks a mutex, or createLock, that is not locked. */
  lemma StepDoesNotCrash(s: State, t: Thread, no: TradeNo)
    requires PinInv(s) && CreateInv(s) && HoldInv(s) && !s.crashed && Enabled(s, t)
    ensures !Step(s, t, no).crashed
  {
    assert s.At(t).Reloaded? ==> Holding(s.pcs[t]) && Pinned(s.pcs[t]);
    assert t in s.pcs && InCreate(s.pcs[t]) ==> s.creator == Some(t);
  }

  lemma StepKeepsEntries(s: State, t: Thread, no: TradeNo)
    requires HeapInv(s) && PinInv(s) && CountInv(s) && CreateInv(s) && EntryInv(s) && Enabled(s, t)
    ensures EntryInv(Step(s, t, no))
  {
    var s' := Step(s, t, no);
    forall n | n in s'.registry && ActiveThreads(s'.pcs, s'.registry[n]) == {}
      ensures s'.creator.Some? && s'.creator.value in s'.pcs
      ensures s'.pcs[s'.creator.value].LockCount? || s'.pcs[s'.creator.value].UnlockDelete?
      ensures s'.pcs[s'.creator.value].no == n
    {
      StepKeepsEntry(s, t, no, n);
    }
  }

  /** Only `refCount--` can take an entry's last user away, and a count of zero is deleted next. */
  lemma StepKeepsEntry(s: State, t: Thread, no: TradeNo, n: TradeNo)
    requires HeapInv(s) && PinInv(s) && CountInv(s) && CreateInv(s) && EntryInv(s) && Enabled(s, t)
    requires n in Step(s, t, no).registry
    requires ActiveThreads(Step(s, t, no).pcs, Step(s, t, no).registry[n]) == {}
    ensures var s' := Step(s, t, no);
      && s'.creator.Some? && s'.creator.value in s'.pcs
      && (s'.pcs[s'.creator.value].LockCount? || s'.pcs[s'.creator.value].UnlockDelete?)
      && s'.pcs[s'.creator.value].no == n
  {
    var s' := Step(s, t, no);
    var m := s'.registry[n];
    GotoOnly(s, t, no);
    ActiveAfterGoto(s.pcs, t, s'.At(t), m);
    if n !in s.registry {
      NewEntryStep(s, t, no, n);
    } else {
      EntryStays(s, t, no, n);
      if ActiveThreads(s.pcs, m) == {} {
        IdleEntryStep(s, t, no, n);
      } else {
        assert t in ActiveThreads(s.pcs, m);
        LastUserLeaves(s, t, no, m);
      }
    }
  }

  lemma NewEntryStep(s: State, t: Thread, no: TradeNo, n: TradeNo)
    requires CreateInv(s) && Enabled(s, t) && n !in s.registry && n in Step(s, t, no).registry
    ensures Step(s, t, no).creator == Some(t)
    ensures Step(s, t, no).At(t).LockCount? && Step(s, t, no).At(t).no == n
  {
  }

  lemma EntryStays(s: State, t: Thread, no: TradeNo, n: TradeNo)
    requires Enabled(s, t) && n in s.registry && n in Step(s, t, no).registry
    ensures Step(s, t, no).registry[n] == s.registry[n]
  {
  }

  lemma LastUserLeaves(s: State, t: Thread, no: TradeNo, m: MutexId)
    requires PinInv(s) && CreateInv(s) && Enabled(s, t)
    requires Active(s.At(t), m) && !Active(Step(s, t, no).At(t), m)
    ensures s.At(t).UnlockCount? && Step(s, t, no).At(t).UnlockDelete? && Step(s, t, no).At(t).no == s.At(t).no
    ensures Step(s, t, no).creator == Some(t)
  {
  }

  lemma IdleEntryStep(s: State, t: Thread, no: TradeNo, n: TradeNo)
    requires HeapInv(s) && PinInv(s) && CountInv(s) && CreateInv(s) && EntryInv(s) && Enabled(s, t)
    requires n in s.registry && ActiveThreads(s.pcs, s.registry[n]) == {}
    requires n in Step(s, t, no).registry && !Active(Step(s, t, no).At(t), s.registry[n])
    ensures Step(s, t, no).creator == s.creator && s.creator != Some(t)
  {
    assert s.heap[s.registry[n]].refCount == 0;
  }

  /** A step unlocks no mutex but the one its own thread holds. */
  lemma UnlocksOwnOnly(s: State, t: Thread, no: TradeNo, m: MutexId)
    requires HeapInv(s) && PinInv(s) && Enabled(s, t)
    requires m in s.heap && s.heap[m].locked && !(Holding(s.At(t)) && s.At(t).mu == m)
    ensures Step(s, t, no).Cell(m).locked
  {
  }

  lemma OtherStaysLocked(s: State, t: Thread, no: TradeNo, u: Thread)
    requires HeapInv(s) && PinInv(s) && HoldInv(s) && Enabled(s, t)
    requires u in s.pcs && u != t && Holding(s.pcs[u])
    ensures Step(s, t, no).Cell(s.pcs[u].mu).locked
  {
    assert Pinned(s.pcs[u]);
    assert t in s.pcs ==> !SameHold(s.pcs[t], s.pcs[u]);
    UnlocksOwnOnly(s, t, no, s.pcs[u].mu);
  }

  lemma OwnIsLocked(s: State, t: Thread, no: TradeNo)
    requires HeapInv(s) && PinInv(s) && HoldInv(s) && Enabled(s, t)
    requires Holding(Step(s, t, no).At(t))
    ensures Step(s, t, no).Cell(Step(s, t, no).At(t).mu).locked
  {
  }

  lemma HolderStaysLocked(s: State, t: Thread, no: TradeNo, u: Thread)
    requires HeapInv(s) && PinInv(s) && HoldInv(s) && Enabled(s, t)
    requires Holding(Step(s, t, no).At(u))
    ensures Step(s, t, no).Cell(Step(s, t, no).At(u).mu).locked
  {
    GotoOnly(s, t, no);
    if u == t {
      OwnIsLocked(s, t, no);
    } else {
      OtherStaysLocked(s, t, no, u);
    }
  }

  /** Only taking a mutex locks it. */
  lemma LockedEarlier(s: State, t: Thread, no: TradeNo, m: MutexId)
    requires Enabled(s, t) && Step(s, t, no).Cell(m).locked
    ensures (m in s.heap && s.heap[m].locked) || (s.At(t).MutexWait? && s.At(t).mu == m)
  {
  }

  /** A thread that stops holding a mutex has unlocked it. */
  lemma ReleaseUnlocks(s: State, t: Thread, no: TradeNo)
    requires PinInv(s) && Enabled(s, t) && Holding(s.At(t)) && !Holding(Step(s, t, no).At(t))
    ensures !Step(s, t, no).Cell(s.At(t).mu).locked
  {
    assert Pinned(s.pcs[t]);
  }

  lemma HoldKeepsMutex(s: State, t: Thread, no: TradeNo)
    requires Enabled(s, t)
    ensures s.At(t).MutexWait? ==> Holding(Step(s, t, no).At(t)) && Step(s, t, no).At(t).mu == s.At(t).mu
    ensures Holding(s.At(t)) && Holding(Step(s, t, no).At(t)) ==> Step(s, t, no).At(t).mu == s.At(t).mu
  {
  }

  lemma LockedBefore(s: State, t: Thread, no: TradeNo, m: MutexId)
    requires PinInv(s) && Enabled(s, t)
    requires Step(s, t, no).Cell(m).locked && !(Holding(Step(s, t, no).At(t)) && Step(s, t, no).At(t).mu == m)
    ensures m in s.heap && s.heap[m].locked && !(Holding(s.At(t)) && s.At(t).mu == m)
  {
    LockedEarlier(s, t, no, m);
    HoldKeepsMutex(s, t, no);
    if Holding(s.At(t)) && !Holding(Step(s, t, no).At(t)) {
      ReleaseUnlocks(s, t, no);
    }
  }

  lemma LockedHasHolder(s: State, t: Thread, no: TradeNo, m: MutexId)
    requires HeapInv(s) && PinInv(s) && HoldInv(s) && Enabled(s, t)
    requires Step(s, t, no).Cell(m).locked
    ensures var pcs := Step(s, t, no).pcs; exists u :: u in pcs && Holding(pcs[u]) && pcs[u].mu == m
  {
    var pcs := Step(s, t, no).pcs;
    GotoOnly(s, t, no);
    if !(Holding(pcs[t]) && pcs[t].mu == m) {
      LockedBefore(s, t, no, m);
      var u :| u in s.pcs && Holding(s.pcs[u]) && s.pcs[u].mu == m;
      assert pcs[u] == s.pcs[u];
    }
  }

  lemma OneHolder(s: State, t: Thread, no: TradeNo, u: Thread)
    requires PinInv(s) && HoldInv(s) && Enabled(s, t)
    requires u in s.pcs && u != t
    ensures !SameHold(Step(s, t, no).At(t), Step(s, t, no).At(u))
  {
    assert s.At(t).Critical? ==> !SameHold(s.pcs[t], s.pcs[u]);
  }

  lemma StepKeepsHolders(s: State, t: Thread, no: TradeNo)
    requires HeapInv(s) && PinInv(s) && HoldInv(s) && Enabled(s, t)
    ensures HoldInv(Step(s, t, no))
  {
    var s' := Step(s, t, no);
    GotoOnly(s, t, no);
    forall u | u in s'.pcs && Holding(s'.pcs[u])
      ensures s'.Cell(s'.pcs[u].mu).locked
      ensures SameHold(s'.pcs[t], s'.pcs[u]) ==> t == u
    {
      HolderStaysLocked(s, t, no, u);
      if u != t {
        OneHolder(s, t, no, u);
      }
    }
    forall m | m in s'.heap && s'.heap[m].locked
      ensures exists u :: u in s'.pcs && Holding(s'.pcs[u]) && s'.pcs[u].mu == m
    {
      LockedHasHolder(s, t, no, m);
    }
  }

  lemma StepKeepsInv(s: State, t: Thread, no: TradeNo)
    requires Inv(s) && Enabled(s, t)
    ensures Inv(Step(s, t, no))
  {
    StepKeepsHeap(s, t, no);
    StepKeepsPins(s, t, no);
    StepKeepsCounts(s, t, no);
    StepKeepsCreate(s, t, no);
    StepDoesNotCrash(s, t, no);
    StepKeepsEntries(s, t, no);
    StepKeepsHolders(s, t, no);
  }

  lemma {:induction false} RunKeepsInv(s: State, moves: seq<Move>)
    requires Inv(s) && Schedulable(s, moves)
    ensures Inv(Run(s, moves))
    decreases |moves|
  {
    if moves != [] {
      StepKeepsInv(s, moves[0].thread, moves[0].no);
      RunKeepsInv(Step(s, moves[0].thread, moves[0].no), moves[1..]);
    }
  }

  // ---------- what every interleaving guarantees ----------

  /** The threads counted on trade number `n`. */
  ghost function Users(s: State, n: TradeNo): set<Thread> {
    set t | t in s.pcs && Counted(s.pcs[t]) && s.pcs[t].no == n
  }

  lemma EmptyInv()
    ensures Inv(EMPTY)
  {
  }

  lemma HolderIsUnique(s: State, t: Thread, u: Thread)
    requires Inv(s)
    requires Holding(s.At(t)) && Holding(s.At(u)) && s.At(t).no == s.At(u).no
    ensures t == u
  {
    assert Pinned(s.pcs[t]) && Pinned(s.pcs[u]);
    assert SameHold(s.pcs[t], s.pcs[u]);
  }

  /** At most one thread per trade number is between `LockOrder` and `UnlockOrder`. */
  lemma MutualExclusion(moves: seq<Move>, t: Thread, u: Thread)
    requires Schedulable(EMPTY, moves)
    requires Holding(Run(EMPTY, moves).At(t)) && Holding(Run(EMPTY, moves).At(u))
    requires Run(EMPTY, moves).At(t).no == Run(EMPTY, moves).At(u).no
    ensures t == u
  {
    RunKeepsInv(EMPTY, moves);
    HolderIsUnique(Run(EMPTY, moves), t, u);
  }

  /** A thread that holds an order finds its own, locked mutex when it unlocks, and no
      mutex, nor createLock, is ever unlocked by a thread that has not locked it. */
  lemma UnlockFindsOwnMutex(moves: seq<Move>, t: Thread)
    requires Schedulable(EMPTY, moves)
    ensures !Run(EMPTY, moves).crashed
    ensures var s := Run(EMPTY, moves); s.At(t).Reloaded? ==> s.At(t).found == s.At(t).mu && s.Cell(s.At(t).found).locked
    ensures var s := Run(EMPTY, moves); s.At(t).LockRelease? || s.At(t).UnlockRelease? ==> s.creator == Some(t)
    ensures var s := Run(EMPTY, moves); s.At(t).Critical? ==>
      s.At(t).no in s.registry && s.registry[s.At(t).no] == s.At(t).mu && s.Cell(s.At(t).mu).locked
  {
    RunKeepsInv(EMPTY, moves);
  }

  /** Every registered mutex counts exactly the threads working on its trade number, those
      threads all use that mutex, and while createLock is free an entry exists exactly for the
      trade numbers somebody works on. */
  lemma RegistryIsExact(moves: seq<Move>, n: TradeNo)
    requires Schedulable(EMPTY, moves)
    ensures var s := Run(EMPTY, moves);
      && (forall t :: t in Users(s, n) ==> n in s.registry && s.pcs[t].mu == s.registry[n])
      && (n in s.registry ==> s.Cell(s.registry[n]).refCount == |Users(s, n)|)
      && (s.creator.None? ==> (n in s.registry <==> Users(s, n) != {}))
  {
    var s := Run(EMPTY, moves);
    RunKeepsInv(EMPTY, moves);
    assert forall t :: t in Users(s, n) ==> Pinned(s.pcs[t]);
    if n in s.registry {
      forall t | t in ActiveThreads(s.pcs, s.registry[n])
        ensures t in Users(s, n)
      {
        assert Pinned(s.pcs[t]);
      }
      assert Users(s, n) == ActiveThreads(s.pcs, s.registry[n]);
    }
  }

  lemma IdleIsEmpty(s: State, n: TradeNo)
    requires CreateInv(s) && EntryInv(s) && forall t :: s.At(t).Idle?
    ensures n !in s.registry
  {
    assert forall t :: t in s.pcs ==> s.pcs[t] == s.At(t);
    assert forall m :: ActiveThreads(s.pcs, m) == {};
  }

  /** When nobody is inside either function, nothing is left behind. */
  lemma NoLeak(moves: seq<Move>)
    requires Schedulable(EMPTY, moves)
    requires forall t :: Run(EMPTY, moves).At(t).Idle?
    ensures Run(EMPTY, moves).registry == map[]
  {
    RunKeepsInv(EMPTY, moves);
    forall n ensures n !in Run(EMPTY, moves).registry {
      IdleIsEmpty(Run(EMPTY, moves), n);
    }
  }

  lemma SomeoneMoves(s: State, t: Thread) returns (u: Thread)
    requires CreateInv(s) && HoldInv(s) && !s.At(t).Idle?
    ensures !s.At(u).Idle? && Enabled(s, u)
  {
    if s.creator.Some? {
      u := s.creator.value;
      assert InCreate(s.pcs[u]);
    } else if Enabled(s, t) {
      u := t;
    } else {
      var mu := s.At(t).mu;
      u :| u in s.pcs && Holding(s.pcs[u]) && s.pcs[u].mu == mu;
    }
  }

  /** As long as a thread is inside, some thread inside can move. */
  lemma NoDeadlock(moves: seq<Move>, t: Thread)
    requires Schedulable(EMPTY, moves) && !Run(EMPTY, moves).At(t).Idle?
    ensures exists u :: !Run(EMPTY, moves).At(u).Idle? && Enabled(Run(EMPTY, moves), u)
  {
    RunKeepsInv(EMPTY, moves);
    var u := SomeoneMoves(Run(EMPTY, moves), t);
  }
}
